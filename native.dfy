/**
 * The boundary to libvlc.  Native functions are not modelled; every call the
 * managed code makes is recorded, in order, as a `Call`, and a value a native
 * query returns is an oracle parameter of the modelled method.
 *
 * A `CallLog` also replays the event-manager calls it records, so that every
 * release of a native object can be required to happen while no callback is
 * still attached to that object's event manager.
 */
module Native {

  import opened Wrappers

  /** An `IntPtr` handle; `Zero` is `IntPtr.Zero`. */
  type Ptr = int
  const Zero: Ptr := 0

  newtype byte = b: int | 0 <= b < 256

  /** `libvlc_playback_mode_e`. */
  datatype PlaybackMode = DefaultMode | LoopMode | RepeatMode

  /** The native object whose event manager a callback is attached to. */
  datatype EventSource =
    | PlayerEvents(player: Ptr)
    | MediaEvents(media: Ptr)
    | ListEvents(list: Ptr)
    | ListPlayerEvents(listPlayer: Ptr)

  /**
   * One native call, with the handles it receives and, for calls that hand
   * back a new reference, the handle that came back.  A string argument is
   * recorded as the text its native buffer holds.  The last two entries are
   * managed actions recorded in the same order as the native calls.
   */
  datatype Call =
    | Attach(source: EventSource, code: int)
    | Detach(source: EventSource, code: int)
    | MediaNewPath(path: string, media: Ptr)
    | MediaAddOption(media: Ptr, option: string)
    | MediaRelease(media: Ptr)
    | MediaParse(media: Ptr)
    | MediaParseAsync(media: Ptr)
    | MediaSubitems(media: Ptr, list: Ptr)
    | PlayerNew(instance: Ptr, player: Ptr)
    | PlayerRelease(player: Ptr)
    | PlayerSetMedia(player: Ptr, media: Ptr)
    | PlayerPlay(player: Ptr)
    | PlayerSetTime(player: Ptr, time: int)
    | VideoSetSpu(player: Ptr, spu: int)
    | SetMouseInput(player: Ptr, on: int)
    | SetKeyInput(player: Ptr, on: int)
    | AttachVideoSurface(player: Ptr, componentId: int)
    | ListNew(instance: Ptr, list: Ptr)
    | ListRelease(list: Ptr)
    | ListLock(list: Ptr)
    | ListUnlock(list: Ptr)
    | ListAddMedia(list: Ptr, media: Ptr)
    | ListInsertMedia(list: Ptr, media: Ptr, index: int)
    | ListRemoveIndex(list: Ptr, index: int)
    | ListItemAtIndex(list: Ptr, index: int, media: Ptr)
    | ListPlayerNew(instance: Ptr, listPlayer: Ptr)
    | ListPlayerRelease(listPlayer: Ptr)
    | ListPlayerSetMediaPlayer(listPlayer: Ptr, player: Ptr)
    | ListPlayerPlay(listPlayer: Ptr)
    | ListPlayerPlayItem(listPlayer: Ptr, index: int)
    | ListPlayerSetMode(listPlayer: Ptr, mode: PlaybackMode)
    | InstanceNew(args: seq<string>, instance: Ptr)
    | InstanceRelease(instance: Ptr)
    | InstanceSetUserAgent(instance: Ptr, name: Option<string>, http: Option<string>)
    | AudioOutputListGet(instance: Ptr, list: Ptr)
    | AudioOutputListRelease(list: Ptr)
    | AudioFilterListGet(instance: Ptr, list: Ptr)
    | VideoFilterListGet(instance: Ptr, list: Ptr)
    | ModuleDescriptionListRelease(list: Ptr)
    | TrackDescriptionListRelease(list: Ptr)
    | ListenersCleared
    | ExecutorShutdown

  // ---------------------------------------------------------------------------
  // Event discriminants

  /** An inclusive range `first..last` of `libvlc_event_e` values. */
  datatype EventRange = EventRange(first: int, last: int)

  /**
   * The numeric values of `libvlc_event_e` are defined by libvlc and are not
   * part of this model.  `values` is what `Enum.GetValues` enumerates, in
   * order; the ranges are the bounds each component registers with.
   */
  datatype EventCodes = EventCodes(
    values: seq<int>,
    player: EventRange,
    media: EventRange,
    list: EventRange,
    nextItemSet: int)

  /** The values of `values` that lie in `r`, in enumeration order. */
  function InRange(values: seq<int>, r: EventRange): (vs: seq<int>)
    ensures forall v :: v in vs <==> v in values && r.first <= v <= r.last
    ensures |vs| <= |values|
    decreases |values|
  {
    if values == [] then []
    else
      var last := values[|values| - 1];
      InRange(values[..|values| - 1], r) + (if r.first <= last <= r.last then [last] else [])
  }

  /** A range whose bounds coincide selects every occurrence of that one value and nothing else. */
  lemma {:induction false} SingleValueRange(values: seq<int>, v: int)
    ensures InRange(values, EventRange(v, v)) == Occurrences(values, v)
    decreases |values|
  {
    if values != [] {
      SingleValueRange(values[..|values| - 1], v);
    }
  }

  function Occurrences(values: seq<int>, v: int): (vs: seq<int>)
    ensures forall w :: w in vs ==> w == v
    ensures |vs| == multiset(values)[v]
    decreases |values|
  {
    if values == [] then []
    else
      var last := values[|values| - 1];
      assert values == values[..|values| - 1] + [last];
      Occurrences(values[..|values| - 1], v) + (if last == v then [v] else [])
  }

  /** Extending the enumeration by one value extends the selection by that value when it is in range. */
  lemma InRangeStep(codes: seq<int>, i: nat, r: EventRange)
    requires i < |codes|
    ensures InRange(codes[..i + 1], r)
         == InRange(codes[..i], r) + (if r.first <= codes[i] <= r.last then [codes[i]] else [])
  {
    assert codes[..i + 1][..i] == codes[..i];
  }

  function AttachAll(s: EventSource, codes: seq<int>): (calls: seq<Call>)
    ensures |calls| == |codes|
    decreases |codes|
  {
    if codes == [] then [] else AttachAll(s, codes[..|codes| - 1]) + [Attach(s, codes[|codes| - 1])]
  }

  function DetachAll(s: EventSource, codes: seq<int>): (calls: seq<Call>)
    ensures |calls| == |codes|
    decreases |codes|
  {
    if codes == [] then [] else DetachAll(s, codes[..|codes| - 1]) + [Detach(s, codes[|codes| - 1])]
  }

  /** A detach sequence holds nothing but detaches of its source. */
  lemma {:induction false} DetachAllOnlyDetaches(s: EventSource, codes: seq<int>)
    ensures forall c :: c in DetachAll(s, codes) ==> c.Detach? && c.source == s
    decreases |codes|
  {
    if codes != [] {
      DetachAllOnlyDetaches(s, codes[..|codes| - 1]);
      assert DetachAll(s, codes) == DetachAll(s, codes[..|codes| - 1]) + [Detach(s, codes[|codes| - 1])];
    }
  }

  /** Detaches in front of `rest` leave the count of any other call as it is in `rest`. */
  lemma DetachesThen(s: EventSource, codes: seq<int>, rest: seq<Call>, c: Call)
    requires !c.Detach?
    ensures multiset(DetachAll(s, codes) + rest)[c] == multiset(rest)[c]
  {
    var d := DetachAll(s, codes);
    DetachAllOnlyDetaches(s, codes);
    assert c !in d;
    assert multiset(d + rest) == multiset(d) + multiset(rest);
  }

  /** Detaches, then `x`, then `rest`: a call other than a detach occurs as often as in `[x] + rest`. */
  lemma CountAfterDetaches(s: EventSource, codes: seq<int>, x: Call, rest: seq<Call>, c: Call)
    requires !c.Detach?
    ensures multiset(DetachAll(s, codes) + [x] + rest)[c] == (if c == x then 1 else 0) + multiset(rest)[c]
  {
    DetachesThen(s, codes, [x] + rest, c);
    assert DetachAll(s, codes) + [x] + rest == DetachAll(s, codes) + ([x] + rest);
    assert multiset([x] + rest) == multiset{x} + multiset(rest);
  }

  lemma AttachAllSnoc(s: EventSource, codes: seq<int>, v: int)
    ensures AttachAll(s, codes + [v]) == AttachAll(s, codes) + [Attach(s, v)]
  {
    assert (codes + [v])[..|codes|] == codes;
  }

  lemma DetachAllSnoc(s: EventSource, codes: seq<int>, v: int)
    ensures DetachAll(s, codes + [v]) == DetachAll(s, codes) + [Detach(s, v)]
  {
    assert (codes + [v])[..|codes|] == codes;
  }

  /** Appending to a trace in two steps is appending once: keeps solver work on traces small. */
  lemma AppendAssoc<T>(a: seq<T>, b: seq<T>, c: seq<T>)
    ensures a + b + c == a + (b + c)
  {
  }

  lemma Regroup<T>(s: seq<T>, a: seq<T>, b: seq<T>, c: seq<T>, d: seq<T>)
    ensures s + a + b + c + d == s + (a + b + c + d)
  {
  }

  lemma DiffUnion<T>(a: set<T>, b: set<T>, c: set<T>)
    ensures a - b - c == a - (b + c)
  {
  }

  // ---------------------------------------------------------------------------
  // Callback registrations replayed from the calls

  type Registrations = set<(EventSource, int)>

  function Pairs(s: EventSource, codes: seq<int>): (r: Registrations)
    ensures forall c :: (s, c) in r <==> c in codes
    ensures forall p :: p in r ==> p.0 == s
  {
    set c | c in codes :: (s, c)
  }

  /** The callbacks attached for one source all belong to it. */
  lemma PairsSources(s: EventSource, codes: seq<int>)
    ensures Sources(Pairs(s, codes)) <= {s}
  {
  }

  lemma PairsSnoc(s: EventSource, codes: seq<int>, v: int)
    ensures Pairs(s, codes + [v]) == Pairs(s, codes) + {(s, v)}
  {
  }

  function Sources(r: Registrations): set<EventSource>
  {
    set p | p in r :: p.0
  }

  /** The source whose last managed reference a call gives up, if any. */
  function Releases(c: Call): Option<EventSource>
  {
    match c
    case MediaRelease(m) => Some(MediaEvents(m))
    case PlayerRelease(p) => Some(PlayerEvents(p))
    case ListRelease(l) => Some(ListEvents(l))
    case ListPlayerRelease(lp) => Some(ListPlayerEvents(lp))
    case _ => None
  }

  function Apply(r: Registrations, c: Call): Registrations
  {
    match c
    case Attach(s, k) => r + {(s, k)}
    case Detach(s, k) => r - {(s, k)}
    case _ => r
  }

  /** A call is safe when it does not release an object that still has callbacks attached. */
  predicate SafeCall(r: Registrations, c: Call)
  {
    Releases(c).Some? ==> Releases(c).value !in Sources(r)
  }

  /**
   * Replays a trace from the callbacks `r`: the callbacks left attached, or
   * None when some call releases an object that still has callbacks attached.
   */
  function Run(r: Registrations, t: seq<Call>): Option<Registrations>
    decreases |t|
  {
    if t == [] then Some(r)
    else
      var before := Run(r, t[..|t| - 1]);
      if before.Some? && SafeCall(before.value, t[|t| - 1]) then Some(Apply(before.value, t[|t| - 1])) else None
  }

  /** Replaying two pieces of a trace one after the other is replaying the whole. */
  lemma {:induction false} RunAppend(r: Registrations, a: seq<Call>, b: seq<Call>)
    ensures Run(r, a + b) == if Run(r, a).Some? then Run(Run(r, a).value, b) else None
    decreases |b|
  {
    if b == [] {
      assert a + b == a;
    } else {
      var b' := b[..|b| - 1];
      assert (a + b)[..|a + b| - 1] == a + b';
      RunAppend(r, a, b');
    }
  }

  /** Attaching a list of codes registers exactly those codes and releases nothing. */
  lemma {:induction false} AttachAllEffect(r: Registrations, s: EventSource, codes: seq<int>)
    ensures Run(r, AttachAll(s, codes)) == Some(r + Pairs(s, codes))
    decreases |codes|
  {
    if codes != [] {
      var init := codes[..|codes| - 1];
      var t := AttachAll(s, codes);
      AttachAllEffect(r, s, init);
      assert t[..|t| - 1] == AttachAll(s, init);
      assert t[|t| - 1] == Attach(s, codes[|codes| - 1]);
      assert Pairs(s, codes) == Pairs(s, init) + {(s, codes[|codes| - 1])} by {
        assert codes == init + [codes[|codes| - 1]];
      }
      var before := r + Pairs(s, init);
      assert Run(r, t[..|t| - 1]) == Some(before);
      assert SafeCall(before, t[|t| - 1]);
      assert Run(r, t) == Some(Apply(before, t[|t| - 1]));
      assert Apply(before, t[|t| - 1]) == r + Pairs(s, codes);
    } else {
      assert AttachAll(s, codes) == [];
      assert r + Pairs(s, codes) == r;
    }
  }

  /** Detaching a list of codes unregisters exactly those codes and releases nothing. */
  lemma {:induction false} DetachAllEffect(r: Registrations, s: EventSource, codes: seq<int>)
    ensures Run(r, DetachAll(s, codes)) == Some(r - Pairs(s, codes))
    decreases |codes|
  {
    if codes != [] {
      var init := codes[..|codes| - 1];
      var t := DetachAll(s, codes);
      DetachAllEffect(r, s, init);
      assert t[..|t| - 1] == DetachAll(s, init);
      assert t[|t| - 1] == Detach(s, codes[|codes| - 1]);
      assert Pairs(s, codes) == Pairs(s, init) + {(s, codes[|codes| - 1])} by {
        assert codes == init + [codes[|codes| - 1]];
      }
      var before := r - Pairs(s, init);
      assert Run(r, t[..|t| - 1]) == Some(before);
      assert SafeCall(before, t[|t| - 1]);
      assert Run(r, t) == Some(Apply(before, t[|t| - 1]));
      assert Apply(before, t[|t| - 1]) == r - Pairs(s, codes);
    } else {
      assert DetachAll(s, codes) == [];
      assert r - Pairs(s, codes) == r;
    }
  }

  /**
   * `before[i]` is the set of callbacks attached when `calls[i]` was made:
   * none at first, each call safe for the callbacks before it, and each
   * call turning them into those before the next call (`registered` after
   * the last).
   */
  ghost predicate History(before: seq<Registrations>, calls: seq<Call>, registered: Registrations)
  {
    && |before| == |calls|
    && (|calls| == 0 ==> registered == {})
    && (|calls| > 0 ==> before[0] == {})
    && (forall i {:trigger calls[i]} :: 0 <= i < |calls| ==>
          SafeCall(before[i], calls[i])
          && Apply(before[i], calls[i]) == (if i + 1 < |calls| then before[i + 1] else registered))
  }

  /** A history is the replay of its calls: every call was safe, and `registered` is what they leave attached. */
  lemma {:induction false} HistoryReplays(before: seq<Registrations>, calls: seq<Call>, registered: Registrations)
    requires History(before, calls, registered)
    ensures Run({}, calls) == Some(registered)
    decreases |calls|
  {
    if calls != [] {
      var n := |calls| - 1;
      var init := calls[..n];
      assert History(before[..n], init, before[n]) by {
        assert forall i {:trigger init[i]} :: 0 <= i < |init| ==> init[i] == calls[i];
        if n > 0 {
          assert before[..n][0] == before[0];
        }
        forall i | 0 <= i < |init|
          ensures SafeCall(before[..n][i], init[i])
          ensures Apply(before[..n][i], init[i]) == (if i + 1 < |init| then before[..n][i + 1] else before[n])
        {
          assert calls[i] == init[i];
        }
      }
      HistoryReplays(before[..n], init, before[n]);
      assert calls[n] == calls[|calls| - 1];
    }
  }

  /**
   * The record of the native calls one managed object makes, with the
   * callbacks those calls leave attached.  `Record` accepts a release only when
   * no callback of the released object remains attached.
   */
  class CallLog {
    ghost var calls: seq<Call>
    ghost var registered: Registrations
    /** The callbacks attached when each call was made. */
    ghost var before: seq<Registrations>

    ghost predicate Valid()
      reads this
    {
      History(before, calls, registered)
    }

    /** The log replays: every call was safe when made, and `registered` is what the calls leave attached. */
    lemma Replays()
      requires Valid()
      ensures Run({}, calls) == Some(registered)
    {
      HistoryReplays(before, calls, registered);
    }

    constructor ()
      ensures Valid() && calls == [] && registered == {}
    {
      calls := [];
      registered := {};
      before := [];
    }

    method Record(c: Call)
      requires Valid() && SafeCall(registered, c)
      modifies this
      ensures Valid()
      ensures calls == old(calls) + [c]
      ensures registered == Apply(old(registered), c)
    {
      before := before + [registered];
      calls := calls + [c];
      registered := Apply(registered, c);
      forall i | 0 <= i < |calls|
        ensures SafeCall(before[i], calls[i])
        ensures Apply(before[i], calls[i]) == (if i + 1 < |calls| then before[i + 1] else registered)
      {
        if i < |calls| - 1 {
          assert calls[i] == old(calls)[i];
        }
      }
    }

    /** `c` may be recorded by `Emit`: it neither attaches nor detaches, and releases nothing with a callback attached. */
    ghost predicate Ready(c: Call)
      reads this
    {
      Valid() && !c.Attach? && !c.Detach? && SafeCall(registered, c)
    }

    /** The log is `calls0` followed by `t`, and `t` left the callbacks `registered0` as they were. */
    ghost predicate Extended(calls0: seq<Call>, registered0: Registrations, t: seq<Call>)
      reads this
    {
      Valid() && registered == registered0 && calls == calls0 + t
    }

    /** Records a call that neither attaches nor detaches a callback. */
    method Emit(c: Call)
      requires Ready(c)
      modifies this
      ensures Extended(old(calls), old(registered), [c])
    {
      Record(c);
    }

    /** One step of `AttachRange`: attaches `v` after the codes of `sel`. */
    method AttachNext(s: EventSource, ghost base: seq<Call>, ghost baseReg: Registrations, ghost sel: seq<int>, v: int)
      requires Valid()
      requires calls == base + AttachAll(s, sel)
      requires registered == baseReg + Pairs(s, sel)
      modifies this
      ensures Valid()
      ensures calls == base + AttachAll(s, sel + [v])
      ensures registered == baseReg + Pairs(s, sel + [v])
    {
      Record(Attach(s, v));
      AttachAllSnoc(s, sel, v);
      AppendAssoc(base, AttachAll(s, sel), [Attach(s, v)]);
      PairsSnoc(s, sel, v);
    }

    /** One step of `DetachRange`: detaches `v` after the codes of `sel`. */
    method DetachNext(s: EventSource, ghost base: seq<Call>, ghost baseReg: Registrations, ghost sel: seq<int>, v: int)
      requires Valid()
      requires calls == base + DetachAll(s, sel)
      requires registered == baseReg - Pairs(s, sel)
      modifies this
      ensures Valid()
      ensures calls == base + DetachAll(s, sel + [v])
      ensures registered == baseReg - Pairs(s, sel + [v])
    {
      Record(Detach(s, v));
      DetachAllSnoc(s, sel, v);
      AppendAssoc(base, DetachAll(s, sel), [Detach(s, v)]);
      PairsSnoc(s, sel, v);
      DiffUnion(baseReg, Pairs(s, sel), {(s, v)});
    }

    /** Attaches one callback per code of `codes` that lies in `range`, in enumeration order. */
    method AttachRange(s: EventSource, codes: seq<int>, range: EventRange)
      requires Valid()
      modifies this
      ensures Valid()
      ensures calls == old(calls) + AttachAll(s, InRange(codes, range))
      ensures registered == old(registered) + Pairs(s, InRange(codes, range))
    {
      ghost var sel: seq<int> := [];
      for i := 0 to |codes|
        invariant Valid()
        invariant sel == InRange(codes[..i], range)
        invariant calls == old(calls) + AttachAll(s, sel)
        invariant registered == old(registered) + Pairs(s, sel)
      {
        InRangeStep(codes, i, range);
        var v := codes[i];
        if range.first <= v && v <= range.last {
          AttachNext(s, old(calls), old(registered), sel, v);
          sel := sel + [v];
        }
      }
      assert codes[..|codes|] == codes;
    }

    /** Detaches one callback per code of `codes` that lies in `range`, in enumeration order. */
    method DetachRange(s: EventSource, codes: seq<int>, range: EventRange)
      requires Valid()
      modifies this
      ensures Valid()
      ensures calls == old(calls) + DetachAll(s, InRange(codes, range))
      ensures registered == old(registered) - Pairs(s, InRange(codes, range))
    {
      ghost var sel: seq<int> := [];
      for i := 0 to |codes|
        invariant Valid()
        invariant sel == InRange(codes[..i], range)
        invariant calls == old(calls) + DetachAll(s, sel)
        invariant registered == old(registered) - Pairs(s, sel)
      {
        InRangeStep(codes, i, range);
        var v := codes[i];
        if range.first <= v && v <= range.last {
          DetachNext(s, old(calls), old(registered), sel, v);
          sel := sel + [v];
        }
      }
      assert codes[..|codes|] == codes;
    }
  }

  // ---------------------------------------------------------------------------
  // Native references

  /**
   * How many references to `p` a call hands to its caller: a new media, a
   * media taken from a list (`libvlc_media_list_item_at_index` retains it)
   * or a media's sub-item list (`libvlc_media_subitems` retains it).
   */
  function Takes(c: Call, p: Ptr): int
  {
    if p != Zero && ((c.MediaNewPath? && c.media == p) || (c.ListItemAtIndex? && c.media == p) || (c.MediaSubitems? && c.list == p))
    then 1 else 0
  }

  /** How many references to `p` a call gives back. */
  function Gives(c: Call, p: Ptr): int
  {
    if p != Zero && ((c.MediaRelease? && c.media == p) || (c.ListRelease? && c.list == p)) then 1 else 0
  }

  /** The references to `p` a trace takes and does not give back. */
  function Net(t: seq<Call>, p: Ptr): int
    decreases |t|
  {
    if t == [] then 0 else Net(t[..|t| - 1], p) + Takes(t[|t| - 1], p) - Gives(t[|t| - 1], p)
  }

  lemma NetOne(c: Call, p: Ptr)
    ensures Net([c], p) == Takes(c, p) - Gives(c, p)
  {
    assert [c][..0] == [];
  }

  /** The references a trace keeps are those its two halves keep. */
  lemma {:induction false} NetAppend(a: seq<Call>, b: seq<Call>, p: Ptr)
    ensures Net(a + b, p) == Net(a, p) + Net(b, p)
    decreases |b|
  {
    if b != [] {
      var b' := b[..|b| - 1];
      assert (a + b)[..|a + b| - 1] == a + b';
      NetAppend(a, b', p);
    } else {
      assert a + b == a;
    }
  }

  // ---------------------------------------------------------------------------
  // Native linked lists (`p_next` chains)

  /** A node of a native singly linked list: its payload and its `p_next`. */
  datatype Node<T> = Node(data: T, next: Ptr)

  /**
   * `path` lists the nodes reached from `head` by following `next` until
   * `Zero`.  Such a path exists only when the list is finite and acyclic.
   */
  ghost predicate Chain<T>(nodes: map<Ptr, Node<T>>, head: Ptr, path: seq<Ptr>)
  {
    && (forall i :: 0 <= i < |path| ==> path[i] != Zero && path[i] in nodes)
    && (path == [] <==> head == Zero)
    && (path != [] ==> path[0] == head && nodes[path[|path| - 1]].next == Zero)
    && (forall i :: 0 <= i < |path| - 1 ==> nodes[path[i]].next == path[i + 1])
  }
}
