/**
 * The listener registries the media player, the media list and the media
 * list player each keep (a `List` of listeners), and the notification task
 * they share: it walks the registry from the last-added listener to the
 * first, and a listener whose callback throws is logged and skipped.
 */
module Listeners {

  /** An application listener: its identity and whether its callbacks throw. */
  datatype AppListener = AppListener(id: int, throws: bool)

  function Reversed<T>(s: seq<T>): (r: seq<T>)
    ensures |r| == |s|
    ensures forall k :: 0 <= k < |s| ==> r[k] == s[|s| - 1 - k]
  {
    if s == [] then [] else Reversed(s[1..]) + [s[0]]
  }

  /** Reversal notifies every registered listener exactly once. */
  lemma {:induction false} ReversedIsPermutation<T>(s: seq<T>)
    ensures multiset(Reversed(s)) == multiset(s)
  {
    if s != [] {
      ReversedIsPermutation(s[1..]);
      assert s == [s[0]] + s[1..];
    }
  }

  lemma ReversedAppend<T>(a: seq<T>, b: seq<T>)
    ensures Reversed(a + b) == Reversed(b) + Reversed(a)
  {
    assert forall k :: 0 <= k < |a + b| ==> Reversed(a + b)[k] == (Reversed(b) + Reversed(a))[k];
  }

  /** The first position of `x` in `s`. */
  function IndexOf<T(==)>(s: seq<T>, x: T): (i: nat)
    requires x in s
    ensures i < |s| && s[i] == x && x !in s[..i]
  {
    if s[0] == x then 0 else 1 + IndexOf(s[1..], x)
  }

  /** `List.Remove`: drops the first occurrence of `x`, if there is one. */
  function RemoveFirst<T(==)>(s: seq<T>, x: T): (r: seq<T>)
    ensures x !in s ==> r == s
    ensures x in s ==> r == s[..IndexOf(s, x)] + s[IndexOf(s, x) + 1..]
  {
    if s == [] then []
    else if s[0] == x then s[1..]
    else
      assert s == [s[0]] + s[1..];
      [s[0]] + RemoveFirst(s[1..], x)
  }

  /** Removing one occurrence takes exactly one copy of `x` out of the registry. */
  lemma {:induction false} RemoveFirstCount<T>(s: seq<T>, x: T)
    ensures multiset(RemoveFirst(s, x)) == multiset(s) - multiset{x}
  {
    if x in s {
      var i := IndexOf(s, x);
      var a, b := s[..i], s[i + 1..];
      assert s == a + [x] + b;
      assert RemoveFirst(s, x) == a + b;
      assert multiset(s) == multiset(a) + multiset{x} + multiset(b);
    } else {
      assert x !in multiset(s);
      assert RemoveFirst(s, x) == s;
    }
  }

  /** The listeners of `s` whose callback throws, in the order of `s`. */
  function Throwers(s: seq<AppListener>): (r: seq<AppListener>)
    ensures forall l :: l in r <==> l in s && l.throws
    ensures |r| <= |s|
  {
    if s == [] then []
    else
      var init := s[..|s| - 1];
      assert s == init + [s[|s| - 1]];
      Throwers(init) + (if s[|s| - 1].throws then [s[|s| - 1]] else [])
  }

  lemma ThrowersSnoc(s: seq<AppListener>, l: AppListener)
    ensures Throwers(s + [l]) == Throwers(s) + (if l.throws then [l] else [])
  {
    assert (s + [l])[..|s|] == s;
  }

  /**
   * The notification task: every listener receives the event, last-added
   * first; a throwing one is logged and the walk goes on.  The registry is
   * not changed, so a listener that threw stays registered.
   */
  method NotifyAll(listeners: seq<AppListener>) returns (delivered: seq<AppListener>, warned: seq<AppListener>)
    ensures delivered == Reversed(listeners)
    ensures warned == Throwers(delivered)
  {
    delivered := [];
    warned := [];
    var i := |listeners|;
    while i > 0
      invariant 0 <= i <= |listeners|
      invariant delivered == Reversed(listeners[i..])
      invariant warned == Throwers(delivered)
    {
      i := i - 1;
      var l := listeners[i];
      assert listeners[i..][1..] == listeners[i + 1..];
      delivered := delivered + [l];
      if l.throws {
        warned := warned + [l];
      }
      assert delivered[..|delivered| - 1] == Reversed(listeners[i + 1..]);
    }
    assert listeners[0..] == listeners;
  }
}
