/**
 * `Logger`: the `{}` placeholder substitution of `format` and the level
 * gating of the log methods.  Console output and the stack-frame lookup
 * are not modelled; a log call yields the text it would write.
 */
module Logger {

  import opened Wrappers

  // ---------------------------------------------------------------------------
  // Placeholder search

  /** A `{}` placeholder starts at index `k` of `s`. */
  predicate PlaceholderAt(s: string, k: int)
  {
    0 <= k && k + 1 < |s| && s[k] == '{' && s[k + 1] == '}'
  }

  /** `s.IndexOf("{}", from)`: the first placeholder at or after `from`, or -1. */
  function IndexOf(s: string, from: nat): (r: int)
    ensures r == -1 || (from <= r && PlaceholderAt(s, r))
    ensures forall k :: from <= k && (r == -1 || k < r) ==> !PlaceholderAt(s, k)
    decreases |s| - from
  {
    if from + 1 >= |s| then -1
    else if s[from] == '{' && s[from + 1] == '}' then from
    else IndexOf(s, from + 1)
  }

  // ---------------------------------------------------------------------------
  // The meaning of `format`

  /** `r` with `prefix` in front of its text; an exception stays the same exception. */
  function Prepend(prefix: string, r: Result<string>): Result<string>
  {
    if r.Ok? then Ok(prefix + r.value) else r
  }

  lemma PrependPrepend(a: string, b: string, r: Result<string>)
    ensures Prepend(a, Prepend(b, r)) == Prepend(a + b, r)
  {
    if r.Ok? {
      assert a + (b + r.value) == a + b + r.value;
    }
  }

  /**
   * What the loop of `format` produces from index `from` of `msg`: the text
   * up to the next placeholder, then the next argument, and so on; running
   * out of arguments at a placeholder throws `IndexOutOfRangeException`.
   */
  function Fill(msg: string, from: nat, args: seq<string>): Result<string>
    requires from <= |msg|
    decreases |msg| - from
  {
    var t := IndexOf(msg, from);
    if t == -1 then Ok(msg[from..])
    else if args == [] then Err(IndexOutOfRange)
    else Prepend(msg[from..t] + args[0], Fill(msg, t + 2, args[1..]))
  }

  /** `format(msg, args)`: a null or empty argument array, or a null message, returns the message as it is. */
  function FormatSpec(msg: Option<string>, args: Option<seq<string>>): Result<Option<string>>
  {
    if args.None? || |args.value| == 0 || msg.None? then Ok(msg)
    else
      var r := Fill(msg.value, 0, args.value);
      if r.Ok? then Ok(Some(r.value)) else Err(r.error)
  }

  // ---------------------------------------------------------------------------
  // An independent description: the message as text pieces between placeholders

  /** The pieces of `msg[from..]` between placeholders, found left to right without overlap. */
  function Segments(msg: string, from: nat): (r: seq<string>)
    requires from <= |msg|
    ensures |r| >= 1
    decreases |msg| - from
  {
    var t := IndexOf(msg, from);
    if t == -1 then [msg[from..]] else [msg[from..t]] + Segments(msg, t + 2)
  }

  /** How many placeholders `msg[from..]` holds. */
  function Count(msg: string, from: nat): nat
    requires from <= |msg|
  {
    |Segments(msg, from)| - 1
  }

  /** The pieces joined back with a placeholder between each two. */
  function Join(segs: seq<string>): string
    requires |segs| >= 1
  {
    if |segs| == 1 then segs[0] else segs[0] + "{}" + Join(segs[1..])
  }

  /** The pieces with argument `i` in place of placeholder `i`; surplus arguments are unused. */
  function Interleave(segs: seq<string>, args: seq<string>): string
    requires |segs| >= 1 && |args| >= |segs| - 1
  {
    if |segs| == 1 then segs[0] else segs[0] + args[0] + Interleave(segs[1..], args[1..])
  }

  /** Joining the pieces with placeholders gives back the message. */
  lemma {:induction false} SegmentsJoin(msg: string, from: nat)
    requires from <= |msg|
    ensures Join(Segments(msg, from)) == msg[from..]
    decreases |msg| - from
  {
    var t := IndexOf(msg, from);
    if t != -1 {
      SegmentsJoin(msg, t + 2);
      var segs := Segments(msg, from);
      assert segs[1..] == Segments(msg, t + 2);
      assert msg[from..] == msg[from..t] + "{}" + msg[t + 2..];
    }
  }

  /** No piece contains a placeholder. */
  lemma {:induction false} SegmentsFree(msg: string, from: nat)
    requires from <= |msg|
    ensures forall i, k :: 0 <= i < |Segments(msg, from)| ==> !PlaceholderAt(Segments(msg, from)[i], k)
    decreases |msg| - from
  {
    var t := IndexOf(msg, from);
    var segs := Segments(msg, from);
    forall k | PlaceholderAt(segs[0], k)
      ensures false
    {
      assert PlaceholderAt(msg, from + k);
    }
    if t != -1 {
      SegmentsFree(msg, t + 2);
      assert segs[1..] == Segments(msg, t + 2);
    }
  }

  /**
   * `format` succeeds exactly when there are at least as many arguments as
   * placeholders, and then each placeholder holds the argument of its rank.
   */
  lemma {:induction false} FillMeaning(msg: string, from: nat, args: seq<string>)
    requires from <= |msg|
    ensures Fill(msg, from, args).Ok? <==> Count(msg, from) <= |args|
    ensures Count(msg, from) <= |args| ==> Fill(msg, from, args) == Ok(Interleave(Segments(msg, from), args))
    decreases |msg| - from
  {
    var t := IndexOf(msg, from);
    if t != -1 && args != [] {
      FillMeaning(msg, t + 2, args[1..]);
      var segs := Segments(msg, from);
      assert segs[1..] == Segments(msg, t + 2);
    }
  }

  /** A message without a placeholder comes back unchanged, whatever the arguments. */
  lemma NoPlaceholderUnchanged(msg: string, args: seq<string>)
    requires forall k :: !PlaceholderAt(msg, k)
    ensures FormatSpec(Some(msg), Some(args)) == Ok(Some(msg))
  {
    assert msg[0..] == msg;
  }

  /** More placeholders than arguments throws; arguments beyond the last placeholder are ignored. */
  lemma FormatArguments(msg: string, args: seq<string>)
    requires |args| > 0
    ensures Count(msg, 0) > |args| ==> FormatSpec(Some(msg), Some(args)) == Err(IndexOutOfRange)
    ensures Count(msg, 0) <= |args| ==>
      FormatSpec(Some(msg), Some(args)) == Ok(Some(Interleave(Segments(msg, 0), args[..Count(msg, 0)])))
  {
    FillMeaning(msg, 0, args);
    if Count(msg, 0) > |args| {
      FillError(msg, 0, args);
    } else {
      InterleavePrefix(Segments(msg, 0), args);
    }
  }

  /** The only exception the loop throws is `IndexOutOfRangeException`. */
  lemma {:induction false} FillError(msg: string, from: nat, args: seq<string>)
    requires from <= |msg|
    ensures Fill(msg, from, args).Err? ==> Fill(msg, from, args).error == IndexOutOfRange
    decreases |msg| - from
  {
    var t := IndexOf(msg, from);
    if t != -1 && args != [] {
      FillError(msg, t + 2, args[1..]);
    }
  }

  lemma {:induction false} InterleavePrefix(segs: seq<string>, args: seq<string>)
    requires |segs| >= 1 && |args| >= |segs| - 1
    ensures Interleave(segs, args) == Interleave(segs, args[..|segs| - 1])
  {
    if |segs| > 1 {
      InterleavePrefix(segs[1..], args[1..]);
      assert args[..|segs| - 1][1..] == args[1..][..|segs| - 2];
    }
  }

  /**
   * `format`: walks the message with `current` and `argIndex`, appending the
   * text before each placeholder and then the next argument.  An argument is
   * given as the text `StringBuilder.Append` writes for it.
   */
  method FormatMessage(msg: Option<string>, args: Option<seq<string>>) returns (r: Result<Option<string>>)
    ensures r == FormatSpec(msg, args)
  {
    if args.None? || |args.value| == 0 || msg.None? {
      return Ok(msg);
    }
    var m, a := msg.value, args.value;
    var sb := "";
    var current, argIndex := 0, 0;
    assert a[0..] == a;
    assert Prepend(sb, Fill(m, 0, a)) == Fill(m, 0, a) by {
      if Fill(m, 0, a).Ok? {
        assert sb + Fill(m, 0, a).value == Fill(m, 0, a).value;
      }
    }
    while current < |m|
      invariant 0 <= current <= |m| && 0 <= argIndex <= |a|
      invariant Fill(m, 0, a) == Prepend(sb, Fill(m, current, a[argIndex..]))
      decreases |m| - current
    {
      var token := IndexOf(m, current);
      if token > -1 {
        ghost var before := sb;
        sb := sb + m[current..token];
        if argIndex >= |a| {
          return Err(IndexOutOfRange);
        }
        assert a[argIndex..][1..] == a[argIndex + 1..];
        PrependPrepend(before, m[current..token] + a[argIndex], Fill(m, token + 2, a[argIndex + 1..]));
        sb := sb + a[argIndex];
        assert sb == before + (m[current..token] + a[argIndex]);
        argIndex := argIndex + 1;
        current := token + 2;
      } else {
        sb := sb + m[current..];
        break;
      }
    }
    assert sb + "" == sb;
    assert Fill(m, 0, a) == Ok(sb);
    return Ok(Some(sb));
  }

  // ---------------------------------------------------------------------------
  // Levels

  /** `Logger.Level`, in declaration order; `Silent` is `NONE`. */
  datatype Level = Silent | Fatal | Error | Warn | Info | Debug | Trace

  /** The position of a level in the enumeration, which `CompareTo` compares. */
  function Rank(l: Level): nat
  {
    match l
    case Silent => 0
    case Fatal => 1
    case Error => 2
    case Warn => 3
    case Info => 4
    case Debug => 5
    case Trace => 6
  }

  /** The guard of each log method: `level.CompareTo(threshold) <= 0`. */
  predicate Enabled(level: Level, threshold: Level)
  {
    Rank(level) <= Rank(threshold)
  }

  /** The enumeration is a strict order: distinct levels have distinct ranks. */
  lemma RankInjective(a: Level, b: Level)
    ensures Rank(a) == Rank(b) <==> a == b
  {
  }

  /** A threshold that lets a level through lets every more severe level through. */
  lemma EnabledDownward(level: Level, severer: Level, threshold: Level)
    requires Enabled(level, threshold) && Rank(severer) <= Rank(level)
    ensures Enabled(severer, threshold)
  {
  }

  /** The default threshold `NONE` suppresses every level a message can be logged at. */
  lemma SilentSuppressesAll(level: Level)
    requires level != Silent
    ensures !Enabled(level, Silent)
  {
  }

  /** The threshold `TRACE` lets every level through. */
  lemma TraceEnablesAll(level: Level)
    ensures Enabled(level, Trace)
  {
  }

  /** The logger singleton: only its threshold is state. */
  class Logger {
    var threshold: Level

    constructor ()
      ensures threshold == Silent
    {
      threshold := Silent;
    }

    method SetLevel(threshold: Level)
      modifies this
      ensures this.threshold == threshold
    {
      this.threshold := threshold;
    }

    method GetLevel() returns (r: Level)
      ensures r == threshold
    {
      r := threshold;
    }

    /**
     * `Trace`, `Debug`, `Info`, `Warn` and `Fatal` and `Error`: when `level`
     * passes the threshold, the formatted message is written (returned here,
     * or the exception `format` throws); otherwise nothing happens.
     */
    method Log(level: Level, msg: Option<string>, args: Option<seq<string>>) returns (line: Option<Result<Option<string>>>)
      requires level != Silent
      ensures line.Some? <==> Enabled(level, threshold)
      ensures line.Some? ==> line.value == FormatSpec(msg, args)
    {
      if Rank(level) <= Rank(threshold) {
        var text := FormatMessage(msg, args);
        line := Some(text);
      } else {
        line := None;
      }
    }
  }
}
