/**
 * `VersionNumber`: a version string split into major, minor and revision
 * numbers and an optional extra part, and the ordering `CompareTo` defines
 * on the three numbers.  Every field is read-only, so a version is a value.
 */
module VersionNumber {

  import opened Wrappers

  const Int32Min: int := -0x8000_0000
  const Int32Max: int := 0x7FFF_FFFF

  // ---------------------------------------------------------------------------
  // Splitting on `[.-]|\s`

  /**
   * `\s` of .NET regular expressions: the ASCII controls tab to carriage
   * return, U+0085, and the Unicode separator categories Zs, Zl and Zp.
   */
  predicate IsWhiteSpace(c: char)
  {
    || ('\t' <= c <= '\r') || c == ' ' || c == '\U{0085}' || c == '\U{00A0}' || c == '\U{1680}'
    || ('\U{2000}' <= c <= '\U{200A}') || c == '\U{2028}' || c == '\U{2029}' || c == '\U{202F}'
    || c == '\U{205F}' || c == '\U{3000}'
  }

  predicate IsSeparator(c: char)
  {
    c == '.' || c == '-' || IsWhiteSpace(c)
  }

  predicate SeparatorFree(s: string)
  {
    forall k :: 0 <= k < |s| ==> !IsSeparator(s[k])
  }

  /**
   * `Regex.Split(version, "[.-]|\\s")`: the pieces between single separator
   * characters, empty pieces included, so there is always at least one.
   */
  function Split(s: string): (parts: seq<string>)
    ensures |parts| >= 1
    ensures forall i :: 0 <= i < |parts| ==> SeparatorFree(parts[i])
  {
    if s == [] then [""]
    else
      var rest := Split(s[1..]);
      if IsSeparator(s[0]) then [""] + rest else [[s[0]] + rest[0]] + rest[1..]
  }

  /** The separator characters of `s`, in order. */
  function Separators(s: string): (seps: string)
    ensures forall k :: 0 <= k < |seps| ==> IsSeparator(seps[k])
  {
    if s == [] then ""
    else if IsSeparator(s[0]) then [s[0]] + Separators(s[1..])
    else Separators(s[1..])
  }

  /** The pieces put back together with the separators between them. */
  function Rejoin(parts: seq<string>, seps: string): string
    requires |parts| == |seps| + 1
  {
    if seps == [] then parts[0] else parts[0] + [seps[0]] + Rejoin(parts[1..], seps[1..])
  }

  /** Splitting loses nothing: there is one more piece than separators, and rejoining gives back the string. */
  lemma {:induction false} SplitRejoin(s: string)
    ensures |Split(s)| == |Separators(s)| + 1
    ensures Rejoin(Split(s), Separators(s)) == s
  {
    if s != [] {
      SplitRejoin(s[1..]);
      var rest := Split(s[1..]);
      if IsSeparator(s[0]) {
        assert ([""] + rest)[1..] == rest;
      } else {
        var parts := [[s[0]] + rest[0]] + rest[1..];
        if Separators(s) == [] {
          assert parts[0] == [s[0]] + s[1..];
        } else {
          assert parts[1..] == rest[1..];
          assert s == [s[0]] + s[1..];
        }
      }
    }
  }

  /** A piece without separators followed by a separator splits off as the first part. */
  lemma {:induction false} SplitFirst(x: string, sep: char, rest: string)
    requires SeparatorFree(x) && IsSeparator(sep)
    ensures Split(x + [sep] + rest) == [x] + Split(rest)
  {
    if x == [] {
      assert [] + [sep] + rest == [sep] + rest;
      assert ([sep] + rest)[1..] == rest;
    } else {
      assert (x + [sep] + rest)[1..] == x[1..] + [sep] + rest;
      SplitFirst(x[1..], sep, rest);
      assert [x[0]] + x[1..] == x;
    }
  }

  /** Text without separators is a single part. */
  lemma {:induction false} SplitWhole(x: string)
    requires SeparatorFree(x)
    ensures Split(x) == [x]
  {
    if x != [] {
      SplitWhole(x[1..]);
      assert [x[0]] + x[1..] == x;
    }
  }

  // ---------------------------------------------------------------------------
  // `Convert.ToInt32`

  predicate IsDigit(c: char)
  {
    '0' <= c <= '9'
  }

  predicate AllDigits(s: string)
  {
    forall k :: 0 <= k < |s| ==> IsDigit(s[k])
  }

  /** The value of a string of decimal digits. */
  function DigitsValue(s: string): nat
    requires AllDigits(s)
  {
    if s == [] then 0 else DigitsValue(s[..|s| - 1]) * 10 + (s[|s| - 1] as int - '0' as int)
  }

  /**
   * `Convert.ToInt32` of a part: an optional `+` then one or more decimal
   * digits, else `FormatException`; a value above `Int32.MaxValue` throws
   * `OverflowException`.  White space and `-` never occur in a part, so the
   * leading white space, trailing white space and minus sign the parser
   * also accepts cannot arise.
   */
  function ParseInt32(s: string): (r: Result<int>)
    ensures r.Ok? ==> 0 <= r.value <= Int32Max
    ensures r.Err? ==> r.error == Format || r.error == Overflow
  {
    var digits := if |s| > 0 && s[0] == '+' then s[1..] else s;
    if digits == [] || !AllDigits(digits) then Err(Format)
    else if DigitsValue(digits) > Int32Max then Err(Overflow)
    else Ok(DigitsValue(digits))
  }

  /** The decimal digits of `n`, without sign or leading zeros. */
  function Decimal(n: nat): (s: string)
    ensures |s| >= 1 && AllDigits(s)
  {
    if n < 10 then [('0' as int + n) as char] else Decimal(n / 10) + [('0' as int + n % 10) as char]
  }

  lemma {:induction false} DecimalValue(n: nat)
    ensures DigitsValue(Decimal(n)) == n
  {
    if n >= 10 {
      DecimalValue(n / 10);
      var s := Decimal(n);
      assert s[..|s| - 1] == Decimal(n / 10);
    }
  }

  /** Every `int` component reads back from its decimal text. */
  lemma ParseDecimal(n: nat)
    requires n <= Int32Max
    ensures ParseInt32(Decimal(n)) == Ok(n)
    ensures SeparatorFree(Decimal(n))
  {
    DecimalValue(n);
  }

  // ---------------------------------------------------------------------------
  // The version

  datatype VersionNumber = VersionNumber(version: string, major: int, minor: int, revision: int, extra: Option<string>)

  /** The numbers of a constructed version are what `Convert.ToInt32` can return for a part. */
  predicate WellFormed(v: VersionNumber)
  {
    0 <= v.major <= Int32Max && 0 <= v.minor <= Int32Max && 0 <= v.revision <= Int32Max
  }

  /**
   * The constructor: the first three parts are converted in order, and a
   * missing part throws `IndexOutOfRangeException` after the parts before it
   * were converted; the fourth part, when there is one, is `extra`.
   */
  function Parse(version: string): (r: Result<VersionNumber>)
    ensures r.Ok? ==> r.value.version == version && WellFormed(r.value)
    ensures r.Ok? <==> (|Split(version)| >= 3
      && ParseInt32(Split(version)[0]).Ok? && ParseInt32(Split(version)[1]).Ok? && ParseInt32(Split(version)[2]).Ok?)
  {
    var parts := Split(version);
    var major := ParseInt32(parts[0]);
    if major.Err? then Err(major.error)
    else if |parts| < 2 then Err(IndexOutOfRange)
    else
      var minor := ParseInt32(parts[1]);
      if minor.Err? then Err(minor.error)
      else if |parts| < 3 then Err(IndexOutOfRange)
      else
        var revision := ParseInt32(parts[2]);
        if revision.Err? then Err(revision.error)
        else Ok(VersionNumber(version, major.value, minor.value, revision.value,
                              if |parts| > 3 then Some(parts[3]) else None))
  }

  /** `ToString` and `GetVersion`: the string the version was made from. */
  function ToString(v: VersionNumber): string
  {
    v.version
  }

  /** The text after the revision: `-extra`, or nothing. */
  function Tail(extra: Option<string>): string
  {
    if extra.Some? then "-" + extra.value else ""
  }

  /** A version written out as `major.minor.revision`, with `-extra` when there is an extra part. */
  function Render(major: nat, minor: nat, revision: nat, extra: Option<string>): string
  {
    Decimal(major) + "." + Decimal(minor) + "." + (Decimal(revision) + Tail(extra))
  }

  lemma SplitTail(c: string, extra: Option<string>)
    requires SeparatorFree(c) && (extra.Some? ==> SeparatorFree(extra.value))
    ensures Split(c + Tail(extra)) == [c] + (if extra.Some? then [extra.value] else [])
  {
    if extra.Some? {
      SplitFirst(c, '-', extra.value);
      SplitWhole(extra.value);
      assert c + Tail(extra) == c + ['-'] + extra.value;
    } else {
      SplitWhole(c);
      assert c + Tail(extra) == c;
    }
  }

  lemma SplitTwo(a: string, b: string, rest: string)
    requires SeparatorFree(a) && SeparatorFree(b)
    ensures Split(a + "." + b + "." + rest) == [a, b] + Split(rest)
  {
    var t := b + ['.'] + rest;
    SplitFirst(b, '.', rest);
    assert a + "." + b + "." + rest == a + ['.'] + t;
    SplitFirst(a, '.', t);
    assert [a] + ([b] + Split(rest)) == [a, b] + Split(rest);
  }

  /** Parsing a rendered version gives back its numbers and extra part. */
  lemma ParseRender(major: nat, minor: nat, revision: nat, extra: Option<string>)
    requires major <= Int32Max && minor <= Int32Max && revision <= Int32Max
    requires extra.Some? ==> SeparatorFree(extra.value)
    ensures Parse(Render(major, minor, revision, extra))
         == Ok(VersionNumber(Render(major, minor, revision, extra), major, minor, revision, extra))
  {
    ParseDecimal(major);
    ParseDecimal(minor);
    ParseDecimal(revision);
    SplitTail(Decimal(revision), extra);
    SplitTwo(Decimal(major), Decimal(minor), Decimal(revision) + Tail(extra));
  }

  // ---------------------------------------------------------------------------
  // Comparison

  /** `int` subtraction, which wraps around in 32 bits. */
  function Sub32(x: int, y: int): int
  {
    (x - y - Int32Min) % 0x1_0000_0000 + Int32Min
  }

  /** Two components of a constructed version subtract without wrapping around. */
  lemma Sub32Exact(x: int, y: int)
    requires 0 <= x <= Int32Max && 0 <= y <= Int32Max
    ensures Sub32(x, y) == x - y
  {
    assert 0 <= x - y - Int32Min < 0x1_0000_0000;
  }

  /** What `CompareTo(object)` is given: null, a version, or any other object. */
  datatype Operand = Null | Version(v: VersionNumber) | NotAVersion

  /**
   * `CompareTo`: null is smaller than every version; versions compare major,
   * then minor, then revision numbers by subtraction; anything else throws.
   */
  function CompareTo(a: VersionNumber, o: Operand): Result<int>
  {
    match o
    case Null => Ok(1)
    case NotAVersion => Err(Argument("Other object is not a VersionNumber"))
    case Version(b) =>
      if a.major == b.major then
        if a.minor == b.minor then
          if a.revision == b.revision then Ok(0) else Ok(Sub32(a.revision, b.revision))
        else Ok(Sub32(a.minor, b.minor))
      else Ok(Sub32(a.major, b.major))
  }

  /** `AtLeast`: this version compares equal to or above `required`. */
  function AtLeast(a: VersionNumber, required: Option<VersionNumber>): bool
  {
    var r := CompareTo(a, if required.None? then Null else Version(required.value));
    r.Ok? && r.value >= 0
  }

  /** The reference order: lexicographic on (major, minor, revision). */
  predicate LexLess(a: VersionNumber, b: VersionNumber)
  {
    || a.major < b.major
    || (a.major == b.major && a.minor < b.minor)
    || (a.major == b.major && a.minor == b.minor && a.revision < b.revision)
  }

  predicate SameNumbers(a: VersionNumber, b: VersionNumber)
  {
    a.major == b.major && a.minor == b.minor && a.revision == b.revision
  }

  /** Null and foreign objects: positive for null, `ArgumentException` otherwise. */
  lemma CompareToOthers(a: VersionNumber)
    ensures CompareTo(a, Null).Ok? && CompareTo(a, Null).value > 0
    ensures CompareTo(a, NotAVersion).Err? && CompareTo(a, NotAVersion).error.Argument?
  {
  }

  /** The sign of `CompareTo` is the lexicographic order of the numbers; `extra` plays no part. */
  lemma CompareMeaning(a: VersionNumber, b: VersionNumber)
    requires WellFormed(a) && WellFormed(b)
    ensures CompareTo(a, Version(b)).Ok?
    ensures CompareTo(a, Version(b)).value == 0 <==> SameNumbers(a, b)
    ensures CompareTo(a, Version(b)).value < 0 <==> LexLess(a, b)
    ensures CompareTo(a, Version(b)).value > 0 <==> LexLess(b, a)
  {
    Sub32Exact(a.major, b.major);
    Sub32Exact(a.minor, b.minor);
    Sub32Exact(a.revision, b.revision);
  }

  /** Swapping the operands flips the sign. */
  lemma CompareAntisymmetric(a: VersionNumber, b: VersionNumber)
    requires WellFormed(a) && WellFormed(b)
    ensures CompareTo(a, Version(b)).value < 0 <==> CompareTo(b, Version(a)).value > 0
    ensures CompareTo(a, Version(b)).value == 0 <==> CompareTo(b, Version(a)).value == 0
  {
    CompareMeaning(a, b);
    CompareMeaning(b, a);
  }

  /** At-least-ness carries over a chain of versions. */
  lemma CompareTransitive(a: VersionNumber, b: VersionNumber, c: VersionNumber)
    requires WellFormed(a) && WellFormed(b) && WellFormed(c)
    requires CompareTo(a, Version(b)).value >= 0 && CompareTo(b, Version(c)).value >= 0
    ensures CompareTo(a, Version(c)).value >= 0
    ensures CompareTo(a, Version(b)).value > 0 ==> CompareTo(a, Version(c)).value > 0
  {
    CompareMeaning(a, b);
    CompareMeaning(b, c);
    CompareMeaning(a, c);
  }

  /** Versions that differ only in their raw text or extra part compare the same against anything. */
  lemma CompareIgnoresExtra(a: VersionNumber, a': VersionNumber, o: Operand)
    requires SameNumbers(a, a')
    ensures CompareTo(a, o) == CompareTo(a', o)
  {
  }

  /** `AtLeast` holds exactly when the version is not lexicographically below the required one, and for null. */
  lemma AtLeastMeaning(a: VersionNumber, required: Option<VersionNumber>)
    requires WellFormed(a) && (required.Some? ==> WellFormed(required.value))
    ensures AtLeast(a, required) <==> required.None? || !LexLess(a, required.value)
  {
    if required.Some? {
      CompareMeaning(a, required.value);
    }
  }

  /** Every version is at least itself, and of two versions one is at least the other. */
  lemma AtLeastReflexiveTotal(a: VersionNumber, b: VersionNumber)
    requires WellFormed(a) && WellFormed(b)
    ensures AtLeast(a, Some(a))
    ensures AtLeast(a, Some(b)) || AtLeast(b, Some(a))
  {
    CompareMeaning(a, a);
    CompareMeaning(a, b);
  }
}
