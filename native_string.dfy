/**
 * `NativeString`: managed strings copied into NUL-terminated native buffers
 * and native strings read back.  Native memory is a map from pointer to the
 * bytes of each block plus the set of blocks already freed; a pointer is
 * handed out once and never reused.
 */
module NativeString {

  import opened Wrappers
  import opened Native

  // ---------------------------------------------------------------------------
  // UTF-8, as section 3 of RFC 3629 defines it

  /** The UTF-8 encoding of one Unicode scalar value. */
  function EncodeChar(c: char): (b: seq<byte>)
    ensures 1 <= |b| <= 4
    ensures |b| == 1 <==> (c as int) < 0x80
    ensures |b| == 1 ==> b[0] as int == c as int
    ensures c != 0 as char ==> forall i :: 0 <= i < |b| ==> b[i] != 0
  {
    var cp := c as int;
    if cp < 0x80 then
      [cp as byte]
    else if cp < 0x800 then
      [(0xC0 + cp / 64) as byte, (0x80 + cp % 64) as byte]
    else if cp < 0x10000 then
      [(0xE0 + cp / 4096) as byte, (0x80 + (cp / 64) % 64) as byte, (0x80 + cp % 64) as byte]
    else
      [(0xF0 + cp / 262144) as byte, (0x80 + (cp / 4096) % 64) as byte,
       (0x80 + (cp / 64) % 64) as byte, (0x80 + cp % 64) as byte]
  }

  /** `Encoding.UTF8.GetBytes`. */
  function Encode(s: string): (b: seq<byte>)
    ensures |b| >= |s|
    decreases |s|
  {
    if s == [] then [] else EncodeChar(s[0]) + Encode(s[1..])
  }

  predicate IsTail(b: byte)
  {
    0x80 <= b < 0xC0
  }

  predicate IsScalar(cp: int)
  {
    (0 <= cp < 0xD800) || (0xE000 <= cp < 0x110000)
  }

  /**
   * Decodes the first character of `b`, returning it with the number of bytes
   * it took; `None` unless `b` starts with one `UTF8-char` of RFC 3629.
   */
  function DecodeChar(b: seq<byte>): (r: Option<(char, nat)>)
    ensures r.Some? ==> 1 <= r.value.1 <= |b|
  {
    if b == [] then None
    else
      var b0 := b[0] as int;
      if b0 < 0x80 then
        Some((b0 as char, 1))
      else if 0xC2 <= b0 < 0xE0 && |b| >= 2 && IsTail(b[1]) then
        var cp := (b0 - 0xC0) * 64 + (b[1] as int - 0x80);
        Some((cp as char, 2))
      else if 0xE0 <= b0 < 0xF0 && |b| >= 3 && IsTail(b[1]) && IsTail(b[2]) then
        var cp := (b0 - 0xE0) * 4096 + (b[1] as int - 0x80) * 64 + (b[2] as int - 0x80);
        if 0x800 <= cp && IsScalar(cp) then Some((cp as char, 3)) else None
      else if 0xF0 <= b0 < 0xF5 && |b| >= 4 && IsTail(b[1]) && IsTail(b[2]) && IsTail(b[3]) then
        var cp := (b0 - 0xF0) * 262144 + (b[1] as int - 0x80) * 4096 + (b[2] as int - 0x80) * 64 + (b[3] as int - 0x80);
        if 0x10000 <= cp < 0x110000 then Some((cp as char, 4)) else None
      else
        None
  }

  /** A strict UTF-8 decoder: `None` for any byte sequence that is not well formed. */
  function Decode(b: seq<byte>): Option<string>
    decreases |b|
  {
    if b == [] then Some([])
    else
      match DecodeChar(b)
      case None => None
      case Some((c, n)) =>
        match Decode(b[n..])
        case None => None
        case Some(rest) => Some([c] + rest)
  }

  lemma ThreeByteSplit(cp: int)
    requires 0 <= cp
    ensures (cp / 4096) * 4096 + ((cp / 64) % 64) * 64 + cp % 64 == cp
  {
    assert cp == (cp / 64) * 64 + cp % 64;
    assert cp / 64 == (cp / 64 / 64) * 64 + (cp / 64) % 64;
    assert cp / 64 / 64 == cp / 4096;
  }

  lemma FourByteSplit(cp: int)
    requires 0 <= cp
    ensures (cp / 262144) * 262144 + ((cp / 4096) % 64) * 4096 + ((cp / 64) % 64) * 64 + cp % 64 == cp
  {
    ThreeByteSplit(cp);
    assert cp / 4096 == (cp / 4096 / 64) * 64 + (cp / 4096) % 64;
    assert cp / 4096 / 64 == cp / 262144;
  }

  /** Decoding the encoding of a character gives that character back, whatever follows it. */
  lemma DecodeEncodeChar(c: char, rest: seq<byte>)
    ensures DecodeChar(EncodeChar(c) + rest) == Some((c, |EncodeChar(c)|))
  {
    var cp := c as int;
    var b := EncodeChar(c) + rest;
    if cp < 0x80 {
    } else if cp < 0x800 {
      assert b[0] as int - 0xC0 == cp / 64 && b[1] as int - 0x80 == cp % 64;
    } else if cp < 0x10000 {
      ThreeByteSplit(cp);
      assert b[0] as int - 0xE0 == cp / 4096;
      assert b[1] as int - 0x80 == (cp / 64) % 64;
      assert b[2] as int - 0x80 == cp % 64;
    } else {
      FourByteSplit(cp);
      assert b[0] as int - 0xF0 == cp / 262144;
      assert b[1] as int - 0x80 == (cp / 4096) % 64;
      assert b[2] as int - 0x80 == (cp / 64) % 64;
      assert b[3] as int - 0x80 == cp % 64;
    }
  }

  /** The strict decoder inverts the encoder. */
  lemma {:induction false} DecodeEncode(s: string)
    ensures Decode(Encode(s)) == Some(s)
    decreases |s|
  {
    if s != [] {
      var e := EncodeChar(s[0]);
      assert Encode(s) == e + Encode(s[1..]);
      DecodeEncodeChar(s[0], Encode(s[1..]));
      assert Encode(s)[|e|..] == Encode(s[1..]);
      DecodeEncode(s[1..]);
      assert [s[0]] + s[1..] == s;
    }
  }

  /** The encoding of a string without NUL characters contains no zero byte. */
  lemma {:induction false} EncodeHasNoZero(s: string)
    requires forall i :: 0 <= i < |s| ==> s[i] != 0 as char
    ensures forall i :: 0 <= i < |Encode(s)| ==> Encode(s)[i] != 0
    decreases |s|
  {
    if s != [] {
      EncodeHasNoZero(s[1..]);
    }
  }

  /** ASCII text is encoded one byte per character, each byte equal to its code. */
  lemma {:induction false} EncodeAscii(s: string)
    requires forall i :: 0 <= i < |s| ==> (s[i] as int) < 0x80
    ensures |Encode(s)| == |s|
    ensures forall i :: 0 <= i < |s| ==> Encode(s)[i] as int == s[i] as int
    decreases |s|
  {
    if s != [] {
      EncodeAscii(s[1..]);
    }
  }

  // ---------------------------------------------------------------------------
  // Reading native strings

  /** The bytes of a C string: everything before the first zero byte. */
  function UntilNul(b: seq<byte>): (r: seq<byte>)
    ensures |r| <= |b| && r == b[..|r|]
    ensures forall i :: 0 <= i < |r| ==> r[i] != 0
    ensures |r| < |b| ==> b[|r|] == 0
    decreases |b|
  {
    if b == [] || b[0] == 0 then [] else [b[0]] + UntilNul(b[1..])
  }

  lemma {:induction false} UntilNulOfTerminated(b: seq<byte>)
    requires forall i :: 0 <= i < |b| ==> b[i] != 0
    ensures UntilNul(b + [0]) == b
    decreases |b|
  {
    if b != [] {
      assert (b + [0])[1..] == b[1..] + [0];
      UntilNulOfTerminated(b[1..]);
    }
  }

  /**
   * `Marshal.PtrToStringAnsi` decodes with the platform's ANSI code page; the
   * model reads one character per byte, which is exact for ASCII.
   */
  function Ansi(b: seq<byte>): (s: string)
    ensures |s| == |b|
    ensures forall i :: 0 <= i < |b| ==> s[i] as int == b[i] as int
  {
    seq(|b|, i requires 0 <= i < |b| => (b[i] as int) as char)
  }

  predicate IsAsciiText(s: string)
  {
    forall i :: 0 <= i < |s| ==> 0 < (s[i] as int) < 0x80
  }

  /** A buffer written for ASCII text without NUL reads back as the same text. */
  lemma AsciiReadBack(s: string)
    requires IsAsciiText(s)
    ensures Ansi(UntilNul(Encode(s) + [0])) == s
  {
    EncodeAscii(s);
    EncodeHasNoZero(s);
    UntilNulOfTerminated(Encode(s));
  }

  // ---------------------------------------------------------------------------
  // Native memory

  class NativeHeap {
    var blocks: map<Ptr, seq<byte>>
    var freed: set<Ptr>
    var next: Ptr

    ghost predicate Valid()
      reads this
    {
      && 0 < next
      && (forall p :: p in blocks ==> 0 < p < next)
      && freed <= blocks.Keys
    }

    predicate IsLive(p: Ptr)
      reads this
    {
      p in blocks && p !in freed
    }

    /** A pointer the managed code may read or free: `Zero` or a live block. */
    predicate Readable(p: Ptr)
      reads this
    {
      p == Zero || IsLive(p)
    }

    ghost function Live(): set<Ptr>
      reads this
    {
      blocks.Keys - freed
    }

    /** The heap is well formed and exactly `live` is allocated and not yet freed. */
    ghost predicate LiveIs(live: set<Ptr>)
      reads this
    {
      Valid() && Live() == live
    }

    constructor ()
      ensures Valid() && blocks == map[] && freed == {}
    {
      blocks := map[];
      freed := {};
      next := 1;
    }

    /**
     * `StringPointer`: `Zero` for null; otherwise a fresh block holding the
     * UTF-8 encoding followed by one zero byte.
     */
    method StringPointer(s: Option<string>) returns (p: Ptr)
      requires Valid()
      modifies this
      ensures Valid() && freed == old(freed)
      ensures s.None? ==> p == Zero && blocks == old(blocks)
      ensures s.Some? ==> p != Zero && p !in old(blocks) && blocks == old(blocks)[p := Encode(s.value) + [0]]
      ensures s.Some? ==> Live() == old(Live()) + {p}
    {
      if s.None? {
        p := Zero;
      } else {
        p := next;
        var bytes := Encode(s.value);
        blocks := blocks[p := bytes + [0]];
        next := next + 1;
      }
    }

    /** `Release`: frees a non-zero pointer; `Zero` is ignored. */
    method Release(p: Ptr)
      requires Valid() && Readable(p)
      modifies this
      ensures Valid() && blocks == old(blocks) && next == old(next)
      ensures freed == if p == Zero then old(freed) else old(freed) + {p}
      ensures Live() == old(Live()) - {p}
    {
      if p != Zero {
        freed := freed + {p};
      }
    }

    /** `String`: reads a native string without freeing it; null for `Zero`. */
    function String(p: Ptr): (s: Option<string>)
      reads this
      requires Readable(p)
      ensures s.None? <==> p == Zero
      ensures s.Some? ==> |s.value| < |blocks[p]| || (|s.value| == |blocks[p]| && 0 !in blocks[p])
    {
      if p == Zero then None else Some(Ansi(UntilNul(blocks[p])))
    }

    /** `GetNativeString`: reads a native string and then frees it. */
    method GetNativeString(p: Ptr) returns (s: Option<string>)
      requires Valid() && Readable(p)
      modifies this
      ensures Valid() && blocks == old(blocks) && next == old(next)
      ensures s == old(String(p))
      ensures freed == if p == Zero then old(freed) else old(freed) + {p}
    {
      s := String(p);
      Release(p);
    }
  }

  /** A string copied out by `StringPointer` reads back unchanged when it is ASCII text. */
  lemma StringPointerReadsBack(h: NativeHeap, p: Ptr, s: string)
    requires h.Valid() && h.IsLive(p) && h.blocks[p] == Encode(s) + [0]
    requires IsAsciiText(s)
    ensures h.String(p) == Some(s)
  {
    AsciiReadBack(s);
  }
}
