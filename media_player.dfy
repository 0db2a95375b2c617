/**
 * `DefaultMediaPlayer`, with `DefaultEmbeddedMediaPlayer` folded in as the
 * `embedded` flag: the listener registry with its three built-in handlers,
 * the bridge from native callbacks to the notification executor, the media
 * lifecycle (`SetMedia`, `DestroyInstance`) and the controls whose managed
 * logic goes beyond forwarding one call.
 */
module MediaPlayer {

  import opened Wrappers
  import opened Native
  import opened NativeString
  import opened Executor
  import opened Listeners
  import opened MediaOptions
  import R = EventRecord
  import E = MediaPlayerEvents
  import L = MediaPlayerListener
  import Embedded

  /** An entry of the player's listener list. */
  datatype Listener = NewMediaHandler | RepeatPlayHandler | SubItemHandler | App(app: AppListener)

  /** The handlers `CreateInstance` adds, in the order it adds them. */
  const Builtins: seq<Listener> := [NewMediaHandler, RepeatPlayHandler, SubItemHandler]

  /**
   * The shape of the list: while the player is alive the built-in handlers
   * come first; every other entry, and every entry after release, is an
   * application listener.
   */
  predicate WellFormed(list: seq<Listener>, alive: bool)
  {
    && (alive ==> |list| >= 3 && list[..3] == Builtins)
    && (forall k :: (if alive then 3 else 0) <= k < |list| ==> list[k].App?)
  }

  // ---------------------------------------------------------------------------
  // Sub-items and repeat

  /** `SubItemCount`: the sub-item algorithm is commented out and the live code returns -1. */
  function SubItemCount(): int
  {
    -1
  }

  datatype RepeatDecision = NoRepeat | ReplayMedia | LeaveToSubItems

  /** The decision `RepeatPlayEventHandler.Finished` takes. */
  function RepeatAction(repeat: bool, hasMedia: bool, subItemCount: int): (d: RepeatDecision)
    ensures d == ReplayMedia <==> repeat && hasMedia && subItemCount == 0
    ensures d == NoRepeat <==> !(repeat && hasMedia)
  {
    if !(repeat && hasMedia) then NoRepeat
    else if subItemCount == 0 then ReplayMedia
    else LeaveToSubItems
  }

  /** With the live `SubItemCount`, the repeat handler never replays the media. */
  lemma RepeatNeverReplays(repeat: bool, hasMedia: bool)
    ensures RepeatAction(repeat, hasMedia, SubItemCount()) != ReplayMedia
  {
  }

  // ---------------------------------------------------------------------------
  // Dispatch

  /** The semantic events one list entry raises when it receives `cb`. */
  function HandlerRaises(h: Listener, cb: Option<L.Callback>, subItemIndex: int): seq<E.Event>
  {
    match h
    case NewMediaHandler =>
      if cb.Some? && cb.value.MediaChanged? && subItemIndex == -1
      then [E.CreateMediaNewEvent(0).value] else []
    case SubItemHandler =>
      if cb == Some(L.Finished) && subItemIndex != -1
      then [E.CreateMediaSubItemFinishedEvent(subItemIndex, 0).value] else []
    case _ => []
  }

  /** The events raised while notifying the entries of `s` in order. */
  function Raised(s: seq<Listener>, cb: Option<L.Callback>, subItemIndex: int): seq<E.Event>
    decreases |s|
  {
    if s == [] then []
    else Raised(s[..|s| - 1], cb, subItemIndex) + HandlerRaises(s[|s| - 1], cb, subItemIndex)
  }

  /** The application listeners among the entries of `s`, in order. */
  function AppsOf(s: seq<Listener>): seq<AppListener>
    decreases |s|
  {
    if s == [] then []
    else AppsOf(s[..|s| - 1]) + (if s[|s| - 1].App? then [s[|s| - 1].app] else [])
  }

  function Unwrap(s: seq<Listener>): (r: seq<AppListener>)
    requires forall k :: 0 <= k < |s| ==> s[k].App?
    ensures |r| == |s| && forall k :: 0 <= k < |s| ==> r[k] == s[k].app
  {
    seq(|s|, k requires 0 <= k < |s| => s[k].app)
  }

  lemma {:induction false} RaisedAppend(a: seq<Listener>, b: seq<Listener>, cb: Option<L.Callback>, i: int)
    ensures Raised(a + b, cb, i) == Raised(a, cb, i) + Raised(b, cb, i)
    decreases |b|
  {
    if b == [] {
      assert a + b == a;
    } else {
      var b' := b[..|b| - 1];
      assert (a + b)[..|a + b| - 1] == a + b';
      RaisedAppend(a, b', cb, i);
      AppendAssoc(Raised(a, cb, i), Raised(b', cb, i), HandlerRaises(b[|b| - 1], cb, i));
    }
  }

  lemma {:induction false} AppsAppend(a: seq<Listener>, b: seq<Listener>)
    ensures AppsOf(a + b) == AppsOf(a) + AppsOf(b)
    decreases |b|
  {
    if b == [] {
      assert a + b == a;
    } else {
      var b' := b[..|b| - 1];
      var last := if b[|b| - 1].App? then [b[|b| - 1].app] else [];
      assert (a + b)[..|a + b| - 1] == a + b';
      AppsAppend(a, b');
      AppendAssoc(AppsOf(a), AppsOf(b'), last);
    }
  }

  /** Application listeners raise nothing, and `AppsOf` unwraps them in order. */
  lemma {:induction false} OnlyApps(s: seq<Listener>, cb: Option<L.Callback>, i: int)
    requires forall k :: 0 <= k < |s| ==> s[k].App?
    ensures Raised(s, cb, i) == []
    ensures AppsOf(s) == Unwrap(s)
    decreases |s|
  {
    if s != [] {
      OnlyApps(s[..|s| - 1], cb, i);
      assert Unwrap(s) == Unwrap(s[..|s| - 1]) + [s[|s| - 1].app];
    }
  }

  /** The built-ins in notification order: the sub-item handler first, the new-media handler last. */
  lemma {:induction false} RaisedByBuiltins(cb: Option<L.Callback>, i: int)
    ensures Reversed(Builtins) == [SubItemHandler, RepeatPlayHandler, NewMediaHandler]
    ensures Raised(Reversed(Builtins), cb, i) == HandlerRaises(SubItemHandler, cb, i) + HandlerRaises(NewMediaHandler, cb, i)
    ensures AppsOf(Reversed(Builtins)) == []
  {
    var rb := [SubItemHandler, RepeatPlayHandler, NewMediaHandler];
    assert Reversed(Builtins) == rb;
    assert rb[..2] == [SubItemHandler, RepeatPlayHandler];
    assert rb[..2][..1] == [SubItemHandler];
    assert [SubItemHandler][..0] == [];
  }

  /** What the two raising handlers do with the callback an event delivers. */
  lemma HandlersOnEvent(e: E.Event, i: int)
    ensures HandlerRaises(SubItemHandler, E.Notify(e), i)
      == (if e.MediaPlayerEndReached? && i != -1 then [E.MediaSubItemFinished(i)] else [])
    ensures HandlerRaises(NewMediaHandler, E.Notify(e), i)
      == (if e.MediaPlayerMediaChanged? && i == -1 then [E.MediaNew] else [])
  {
    var cb := E.Notify(e);
    assert cb == Some(L.Finished) <==> e.MediaPlayerEndReached?;
    assert cb.Some? && cb.value.MediaChanged? <==> e.MediaPlayerMediaChanged?;
  }

  /**
   * Dispatch order: notification walks the list backwards, so every
   * application listener hears the event first, last-added first; then the
   * sub-item handler raises `MediaSubItemFinished(i)` on Finished iff a
   * sub-item is current, and the new-media handler raises `MediaNew` on
   * MediaChanged iff none is.  The repeat handler raises nothing.
   */
  lemma DispatchOrder(list: seq<Listener>, e: E.Event, i: int)
    requires WellFormed(list, true)
    ensures Raised(Reversed(list), E.Notify(e), i)
      == (if e.MediaPlayerEndReached? && i != -1 then [E.MediaSubItemFinished(i)] else [])
       + (if e.MediaPlayerMediaChanged? && i == -1 then [E.MediaNew] else [])
  {
    var apps := list[3..];
    var cb := E.Notify(e);
    assert list == Builtins + apps;
    ReversedAppend(Builtins, apps);
    RaisedByBuiltins(cb, i);
    RaisedAppend(Reversed(apps), Reversed(Builtins), cb, i);
    OnlyApps(Reversed(apps), cb, i);
    HandlersOnEvent(e, i);
  }

  /** The application listeners hear an event last-added first. */
  lemma DispatchToApps(list: seq<Listener>)
    requires WellFormed(list, true)
    ensures AppsOf(Reversed(list)) == Reversed(Unwrap(list[3..]))
  {
    var apps := list[3..];
    assert list == Builtins + apps;
    ReversedAppend(Builtins, apps);
    RaisedByBuiltins(None, 0);
    AppsAppend(Reversed(apps), Reversed(Builtins));
    assert AppsOf(Reversed(list)) == AppsOf(Reversed(apps));
    AppsOfReversedApps(apps);
  }

  /** For application listeners only, `AppsOf` of the reversal is the reversed unwrapping. */
  lemma AppsOfReversedApps(apps: seq<Listener>)
    requires forall k :: 0 <= k < |apps| ==> apps[k].App?
    ensures AppsOf(Reversed(apps)) == Reversed(Unwrap(apps))
  {
    var r := Reversed(apps);
    assert forall k :: 0 <= k < |r| ==> r[k] == apps[|apps| - 1 - k];
    OnlyApps(r, None, 0);
    assert Unwrap(r) == Reversed(Unwrap(apps));
  }

  /** Notifying `list[i..]` backwards is notifying `list[i + 1..]` backwards, then `list[i]`. */
  lemma DispatchStep(list: seq<Listener>, i: int, cb: Option<L.Callback>, subItemIndex: int)
    requires 0 <= i < |list|
    ensures Raised(Reversed(list[i..]), cb, subItemIndex)
      == Raised(Reversed(list[i + 1..]), cb, subItemIndex) + HandlerRaises(list[i], cb, subItemIndex)
    ensures AppsOf(Reversed(list[i..]))
      == AppsOf(Reversed(list[i + 1..])) + (if list[i].App? then [list[i].app] else [])
  {
    var r := Reversed(list[i..]);
    assert list[i..][1..] == list[i + 1..];
    assert r[..|r| - 1] == Reversed(list[i + 1..]);
  }

  /** The queue after entry `i` is notified holds what the entries from `i` on raise, last first. */
  lemma QueueStep(list: seq<Listener>, i: int, cb: Option<L.Callback>, subItemIndex: int,
                  q0: seq<E.Event>, q1: seq<E.Event>, q2: seq<E.Event>)
    requires 0 <= i < |list|
    requires q1 == q0 + Raised(Reversed(list[i + 1..]), cb, subItemIndex)
    requires q2 == q1 + HandlerRaises(list[i], cb, subItemIndex)
    ensures q2 == q0 + Raised(Reversed(list[i..]), cb, subItemIndex)
  {
    DispatchStep(list, i, cb, subItemIndex);
    AppendAssoc(q0, Raised(Reversed(list[i + 1..]), cb, subItemIndex), HandlerRaises(list[i], cb, subItemIndex));
  }

  /** After entry `i` is notified, the listeners reached and the ones that threw cover the entries from `i` on. */
  lemma DeliveredStep(list: seq<Listener>, i: int, cb: Option<L.Callback>,
                      d: seq<AppListener>, w: seq<AppListener>, d': seq<AppListener>, w': seq<AppListener>)
    requires 0 <= i < |list|
    requires d == AppsOf(Reversed(list[i + 1..]))
    requires w == if cb.Some? then Throwers(d) else []
    requires d' == d + (if list[i].App? then [list[i].app] else [])
    requires w' == w + (if list[i].App? && cb.Some? && list[i].app.throws then [list[i].app] else [])
    ensures d' == AppsOf(Reversed(list[i..]))
    ensures w' == if cb.Some? then Throwers(d') else []
  {
    DispatchStep(list, i, cb, 0);
    if list[i].App? {
      ThrowersSnoc(d, list[i].app);
    } else {
      assert d' == d && w' == w;
    }
  }

  /** The semantic events the built-in handlers raise for `e`, in the order they raise them. */
  function SemanticEvents(e: E.Event, subItemIndex: int): (r: seq<E.Event>)
    ensures |r| <= 1
    ensures r != [] ==> e.MediaPlayerEndReached? || e.MediaPlayerMediaChanged?
  {
    (if e.MediaPlayerEndReached? && subItemIndex != -1 then [E.MediaSubItemFinished(subItemIndex)] else [])
    + (if e.MediaPlayerMediaChanged? && subItemIndex == -1 then [E.MediaNew] else [])
  }

  /** The application listeners of a well-formed list, in registration order. */
  function AppListeners(list: seq<Listener>, alive: bool): (r: seq<AppListener>)
    requires WellFormed(list, alive)
    ensures |r| == |list| - (if alive then 3 else 0)
  {
    Unwrap(list[if alive then 3 else 0..])
  }

  /** After release the list holds application listeners only: nothing is raised. */
  lemma DispatchWhenReleased(list: seq<Listener>, cb: Option<L.Callback>, i: int)
    requires WellFormed(list, false)
    ensures Raised(Reversed(list), cb, i) == []
    ensures AppsOf(Reversed(list)) == Reversed(Unwrap(list))
  {
    OnlyApps(Reversed(list), cb, i);
    assert Unwrap(Reversed(list)) == Reversed(Unwrap(list));
  }

  /** Removing an application listener keeps the list's shape. */
  lemma RemoveKeepsShape(list: seq<Listener>, alive: bool, a: AppListener)
    requires WellFormed(list, alive)
    ensures WellFormed(RemoveFirst(list, App(a)), alive)
  {
    if App(a) in list {
      var i := IndexOf(list, App(a));
      var r := list[..i] + list[i + 1..];
      assert RemoveFirst(list, App(a)) == r;
      if alive {
        assert r[..3] == list[..3];
      }
      var lo := if alive then 3 else 0;
      forall k | lo <= k < |r|
        ensures r[k].App?
      {
        if k < i {
          assert r[k] == list[k];
        } else {
          assert r[k] == list[k + 1];
        }
      }
    }
  }

  // ---------------------------------------------------------------------------
  // Native call sequences

  /** The callbacks attached to a media's event manager by `RegisterMediaEventListener`. */
  function MediaPairs(codes: EventCodes, m: Ptr): Registrations
  {
    if m == Zero then {} else Pairs(MediaEvents(m), InRange(codes.values, codes.media))
  }

  function PlayerPairs(codes: EventCodes, p: Ptr): Registrations
  {
    Pairs(PlayerEvents(p), InRange(codes.values, codes.player))
  }

  /** `DeregisterMediaEventListener` followed by the release of the media, when there is one. */
  function MediaTeardown(codes: EventCodes, m: Ptr): seq<Call>
  {
    if m == Zero then [] else DetachAll(MediaEvents(m), InRange(codes.values, codes.media)) + [MediaRelease(m)]
  }

  /** The calls `DestroyInstance` makes after the media's teardown. */
  function PlayerTeardown(codes: EventCodes, p: Ptr): seq<Call>
  {
    DetachAll(PlayerEvents(p), InRange(codes.values, codes.player))
    + [ListenersCleared]
    + (if p != Zero then [PlayerRelease(p)] else [])
    + [ExecutorShutdown]
  }

  /** The calls `DestroyInstance` makes, in order. */
  function Teardown(codes: EventCodes, p: Ptr, m: Ptr): seq<Call>
  {
    MediaTeardown(codes, m) + PlayerTeardown(codes, p)
  }

  /** The calls `SetMedia` makes on a media it has just created. */
  function MediaSetupCalls(codes: EventCodes, p: Ptr, newMedia: Ptr,
                           standard: Option<seq<Option<string>>>, options: Option<seq<Option<string>>>): seq<Call>
  {
    (OptionCalls(newMedia, standard) + OptionCalls(newMedia, options))
    + (AttachAll(MediaEvents(newMedia), InRange(codes.values, codes.media)) + [PlayerSetMedia(p, newMedia)])
  }

  /** The calls `SetMedia` makes after tearing down the old media. */
  function NewMediaCalls(codes: EventCodes, p: Ptr, mrl: Option<string>, newMedia: Ptr,
                         standard: Option<seq<Option<string>>>, options: Option<seq<Option<string>>>): seq<Call>
  {
    if mrl.None? then []
    else if newMedia == Zero then [MediaNewPath(mrl.value, newMedia)]
    else [MediaNewPath(mrl.value, newMedia)] + MediaSetupCalls(codes, p, newMedia, standard, options)
  }

  /** A teardown with a media and a player releases each exactly once. */
  lemma TeardownReleasesOnce(codes: EventCodes, p: Ptr, m: Ptr)
    requires p != Zero && m != Zero
    ensures multiset(Teardown(codes, p, m))[PlayerRelease(p)] == 1
    ensures multiset(Teardown(codes, p, m))[MediaRelease(m)] == 1
  {
    TeardownCount(codes, p, m, PlayerRelease(p));
    TeardownCount(codes, p, m, MediaRelease(m));
  }

  /** A teardown holds the media's release and the player's release once each, and no other release. */
  lemma TeardownCount(codes: EventCodes, p: Ptr, m: Ptr, c: Call)
    requires p != Zero && m != Zero && (c.PlayerRelease? || c.MediaRelease?)
    ensures multiset(Teardown(codes, p, m))[c] == if c == PlayerRelease(p) || c == MediaRelease(m) then 1 else 0
  {
    var d := DetachAll(MediaEvents(m), InRange(codes.values, codes.media));
    assert Teardown(codes, p, m) == d + [MediaRelease(m)] + PlayerTeardown(codes, p);
    CountAfterDetaches(MediaEvents(m), InRange(codes.values, codes.media), MediaRelease(m), PlayerTeardown(codes, p), c);
    PlayerTeardownCount(codes, p, c);
  }

  /** The player's part of a teardown holds the player's release once, and no other release. */
  lemma PlayerTeardownCount(codes: EventCodes, p: Ptr, c: Call)
    requires p != Zero && (c.PlayerRelease? || c.MediaRelease?)
    ensures multiset(PlayerTeardown(codes, p))[c] == if c == PlayerRelease(p) then 1 else 0
  {
    var d := DetachAll(PlayerEvents(p), InRange(codes.values, codes.player));
    var tail: seq<Call> := [PlayerRelease(p)] + [ExecutorShutdown];
    AppendAssoc(d + [ListenersCleared], [PlayerRelease(p)], [ExecutorShutdown]);
    CountAfterDetaches(PlayerEvents(p), InRange(codes.values, codes.player), ListenersCleared, tail, c);
  }

  /**
   * Without the commented-out `released` guard, a second `Release` repeats
   * the whole teardown: the media and the player are released twice.
   */
  lemma TeardownTwiceReleasesTwice(codes: EventCodes, p: Ptr, m: Ptr)
    requires p != Zero && m != Zero
    ensures multiset(Teardown(codes, p, m) + Teardown(codes, p, m))[PlayerRelease(p)] == 2
    ensures multiset(Teardown(codes, p, m) + Teardown(codes, p, m))[MediaRelease(m)] == 2
  {
    TeardownReleasesOnce(codes, p, m);
  }

  // ---------------------------------------------------------------------------
  // Subtitles and skipping

  /** `SetSpu` forwards a track only when there are tracks and the index is not past the count. */
  predicate SpuAccepted(spu: int, spuCount: int)
  {
    spuCount != 0 && spu <= spuCount
  }

  /** The track `CycleSpu` selects after `spu`. */
  function NextSpu(spu: int, spuCount: int): (r: int)
    ensures -1 <= spu ==> 0 <= r
    ensures 0 <= spuCount ==> r <= spuCount
  {
    if spu >= spuCount then 0 else spu + 1
  }

  function CycleFrom(spu: int, spuCount: int, n: nat): int
    decreases n
  {
    if n == 0 then spu else CycleFrom(NextSpu(spu, spuCount), spuCount, n - 1)
  }

  lemma {:induction false} CycleClimbs(spu: int, spuCount: int, n: nat)
    requires 0 <= spu && spu + n <= spuCount
    ensures CycleFrom(spu, spuCount, n) == spu + n
    decreases n
  {
    if n > 0 {
      CycleClimbs(spu + 1, spuCount, n - 1);
    }
  }

  lemma {:induction false} CycleSplit(spu: int, spuCount: int, a: nat, b: nat)
    ensures CycleFrom(spu, spuCount, a + b) == CycleFrom(CycleFrom(spu, spuCount, a), spuCount, b)
    decreases a
  {
    if a > 0 {
      CycleSplit(NextSpu(spu, spuCount), spuCount, a - 1, b);
    }
  }

  /** Cycling visits every track `0..spuCount` and returns after `spuCount + 1` steps. */
  lemma CyclePeriod(spu: int, spuCount: int)
    requires 0 <= spu <= spuCount
    ensures CycleFrom(spu, spuCount, spuCount + 1) == spu
  {
    CycleSplit(spu, spuCount, spuCount - spu, spu + 1);
    CycleClimbs(spu, spuCount, spuCount - spu);
    assert CycleFrom(spuCount, spuCount, 1) == 0;
    CycleSplit(spuCount, spuCount, 1, spu);
    CycleClimbs(0, spuCount, spu);
  }

  const Int64Min: int := -0x8000_0000_0000_0000
  const Int64Modulus: int := 0x1_0000_0000_0000_0000

  predicate IsInt64(x: int)
  {
    Int64Min <= x < Int64Min + Int64Modulus
  }

  /** C# `long` arithmetic: the result wraps around modulo 2^64. */
  function WrapInt64(x: int): (r: int)
    ensures IsInt64(r)
    ensures (x - r) % Int64Modulus == 0
    ensures IsInt64(x) ==> r == x
  {
    (x - Int64Min) % Int64Modulus + Int64Min
  }

  /** Options, callbacks and `set_media` for a media `m` just created for the player `p`. */
  method SetUpMedia(log: CallLog, heap: NativeHeap, codes: EventCodes, p: Ptr, m: Ptr,
                    standard: Option<seq<Option<string>>>, options: Option<seq<Option<string>>>)
    requires log.Valid() && heap.Valid() && m != Zero
    requires log.registered == PlayerPairs(codes, p)
    modifies log, heap
    ensures log.Valid() && heap.Valid()
    ensures log.registered == PlayerPairs(codes, p) + MediaPairs(codes, m)
    ensures log.calls == old(log.calls) + MediaSetupCalls(codes, p, m, standard, options)
    ensures heap.Live() == old(heap.Live())
  {
    ghost var c0 := log.calls;
    AddBothOptions(log, heap, m, standard, options);
    ghost var c1 := log.calls;
    AttachAndSet(log, codes, p, m);
    AppendAssoc(c0, OptionCalls(m, standard) + OptionCalls(m, options),
                AttachAll(MediaEvents(m), InRange(codes.values, codes.media)) + [PlayerSetMedia(p, m)]);
  }

  /** `RegisterMediaEventListener` on the new media, then `libvlc_media_player_set_media`. */
  method AttachAndSet(log: CallLog, codes: EventCodes, p: Ptr, m: Ptr)
    requires log.Valid() && m != Zero
    requires log.registered == PlayerPairs(codes, p)
    modifies log
    ensures log.Valid()
    ensures log.registered == PlayerPairs(codes, p) + MediaPairs(codes, m)
    ensures log.calls == old(log.calls) + (AttachAll(MediaEvents(m), InRange(codes.values, codes.media)) + [PlayerSetMedia(p, m)])
  {
    ghost var c0 := log.calls;
    log.AttachRange(MediaEvents(m), codes.values, codes.media);
    log.Record(PlayerSetMedia(p, m));
    AppendAssoc(c0, AttachAll(MediaEvents(m), InRange(codes.values, codes.media)), [PlayerSetMedia(p, m)]);
  }

  /** `libvlc_media_player_new`, then every player event attached. */
  method NewPlayerLog(instance: Ptr, codes: EventCodes, newPlayer: Ptr) returns (log: CallLog)
    ensures fresh(log) && log.Valid() && log.registered == PlayerPairs(codes, newPlayer)
    ensures log.calls == [PlayerNew(instance, newPlayer)] + AttachAll(PlayerEvents(newPlayer), InRange(codes.values, codes.player))
  {
    log := new CallLog();
    log.Record(PlayerNew(instance, newPlayer));
    log.AttachRange(PlayerEvents(newPlayer), codes.values, codes.player);
  }

  /** The calls `Play` makes: the embedded player attaches its surface first; without one it throws before any call. */
  function PlayCalls(p: Ptr, embedded: bool, surface: Option<int>): seq<Call>
  {
    if !embedded then [PlayerPlay(p)]
    else if surface.Some? then [AttachVideoSurface(p, surface.value), PlayerPlay(p)]
    else []
  }

  // ---------------------------------------------------------------------------
  // The player

  /** A node of `libvlc_track_description_t`: its id and its name pointer. */
  datatype TrackRecord = TrackRecord(i_id: int, psz_name: Ptr)

  datatype TrackDescription = TrackDescription(id: int, description: Option<string>)

  class DefaultMediaPlayer {
    const instance: Ptr
    const codes: EventCodes
    /** Whether this is a `DefaultEmbeddedMediaPlayer`. */
    const embedded: bool
    const listenersService: SingleThreadExecutor<E.Event>
    const log: CallLog
    const heap: NativeHeap
    const mediaPlayerInstance: Ptr

    var mediaInstance: Ptr
    var standardMediaOptions: Option<seq<Option<string>>>
    var repeat: bool
    var playSubItems: bool
    var subItemIndex: int
    var eventListenerList: seq<Listener>
    /** The embedded player's video surface, kept until the media is played. */
    var videoSurface: Option<int>
    /** The guard of the corrected `ReleaseOnce`. */
    var released: bool
    /** Whether `DestroyInstance` has run. */
    ghost var destroyed: bool

    /** The callbacks attached while the player is alive: player events, and media events while there is a media. */
    ghost function Registered(): Registrations
      reads this
    {
      if destroyed then {} else PlayerPairs(codes, mediaPlayerInstance) + MediaPairs(codes, mediaInstance)
    }

    ghost predicate Valid()
      reads this, log, listenersService, heap
    {
      && log.Valid() && listenersService.Valid() && heap.Valid()
      && log.registered == Registered()
      && WellFormed(eventListenerList, !destroyed)
      && (destroyed <==> listenersService.shutdownRequested)
      && (released ==> destroyed)
    }

    /** The constructor and `CreateInstance`: `newPlayer` is what `libvlc_media_player_new` returns. */
    constructor (instance: Ptr, codes: EventCodes, heap: NativeHeap, embedded: bool, newPlayer: Ptr)
      requires heap.Valid()
      ensures Valid() && !destroyed && !released
      ensures fresh(log) && fresh(listenersService) && this.heap == heap
      ensures mediaPlayerInstance == newPlayer && mediaInstance == Zero && subItemIndex == 0
      ensures !repeat && !playSubItems && standardMediaOptions.None? && videoSurface.None?
      ensures eventListenerList == Builtins
      ensures listenersService.State() == Initial()
      ensures log.calls == [PlayerNew(instance, newPlayer)] + AttachAll(PlayerEvents(newPlayer), InRange(codes.values, codes.player))
    {
      var calls := NewPlayerLog(instance, codes, newPlayer);
      this.instance := instance;
      this.codes := codes;
      this.heap := heap;
      this.embedded := embedded;
      listenersService := new SingleThreadExecutor<E.Event>();
      log := calls;
      mediaPlayerInstance := newPlayer;
      mediaInstance := Zero;
      standardMediaOptions := None;
      repeat := false;
      playSubItems := false;
      subItemIndex := 0;
      videoSurface := None;
      released := false;
      destroyed := false;
      // The three built-in handlers are added in this order.
      eventListenerList := [NewMediaHandler, RepeatPlayHandler, SubItemHandler];
    }

    method AddMediaPlayerEventListener(listener: AppListener)
      requires Valid()
      modifies this
      ensures Valid()
      ensures eventListenerList == old(eventListenerList) + [App(listener)]
      ensures unchanged(log) && unchanged(listenersService) && unchanged(heap)
      ensures mediaInstance == old(mediaInstance) && destroyed == old(destroyed) && released == old(released)
    {
      eventListenerList := eventListenerList + [App(listener)];
    }

    method RemoveMediaPlayerEventListener(listener: AppListener)
      requires Valid()
      modifies this
      ensures Valid()
      ensures eventListenerList == RemoveFirst(old(eventListenerList), App(listener))
      ensures unchanged(log) && unchanged(listenersService) && unchanged(heap)
      ensures mediaInstance == old(mediaInstance) && destroyed == old(destroyed) && released == old(released)
    {
      RemoveKeepsShape(eventListenerList, !destroyed, listener);
      eventListenerList := RemoveFirst(eventListenerList, App(listener));
    }

    method SetStandardMediaOptions(options: Option<seq<Option<string>>>)
      requires Valid()
      modifies this
      ensures Valid() && standardMediaOptions == options
      ensures mediaInstance == old(mediaInstance) && eventListenerList == old(eventListenerList)
      ensures destroyed == old(destroyed) && released == old(released)
    {
      standardMediaOptions := options;
    }

    method SetRepeat(repeat: bool)
      requires Valid()
      modifies this
      ensures Valid() && this.repeat == repeat
      ensures mediaInstance == old(mediaInstance) && eventListenerList == old(eventListenerList)
      ensures destroyed == old(destroyed) && released == old(released)
    {
      this.repeat := repeat;
    }

    method SetPlaySubItems(playSubItems: bool)
      requires Valid()
      modifies this
      ensures Valid() && this.playSubItems == playSubItems
      ensures mediaInstance == old(mediaInstance) && eventListenerList == old(eventListenerList)
      ensures destroyed == old(destroyed) && released == old(released)
    {
      this.playSubItems := playSubItems;
    }

    /** `PlaySubItem`: the sub-item algorithm is commented out; the live code plays nothing. */
    method PlaySubItem(index: int, mediaOptions: Option<seq<Option<string>>>) returns (played: bool)
      ensures !played
    {
      played := false;
    }

    /** `PlayNextSubItem`: `PlaySubItem(subItemIndex + 1)`, so never plays. */
    method PlayNextSubItem() returns (played: bool)
      ensures !played
    {
      played := PlaySubItem(subItemIndex + 1, Some([]));
    }

    // --- "No media" guards ---------------------------------------------------

    const NoMedia := InvalidOperation("No media")

    method ParseMedia() returns (r: Outcome)
      requires Valid()
      modifies log
      ensures Valid() && log.registered == old(log.registered)
      ensures mediaInstance != Zero ==> r == Pass && log.calls == old(log.calls) + [MediaParse(mediaInstance)]
      ensures mediaInstance == Zero ==> r == Fail(NoMedia) && log.calls == old(log.calls)
    {
      if mediaInstance != Zero {
        log.Record(MediaParse(mediaInstance));
        r := Pass;
      } else {
        r := Fail(NoMedia);
      }
    }

    method RequestParseMedia() returns (r: Outcome)
      requires Valid()
      modifies log
      ensures Valid() && log.registered == old(log.registered)
      ensures mediaInstance != Zero ==> r == Pass && log.calls == old(log.calls) + [MediaParseAsync(mediaInstance)]
      ensures mediaInstance == Zero ==> r == Fail(NoMedia) && log.calls == old(log.calls)
    {
      if mediaInstance != Zero {
        log.Record(MediaParseAsync(mediaInstance));
        r := Pass;
      } else {
        r := Fail(NoMedia);
      }
    }

    /** `IsMediaParsed`: `parsed` is what `libvlc_media_is_parsed` returns. */
    method IsMediaParsed(parsed: int) returns (r: Result<bool>)
      requires Valid()
      ensures mediaInstance != Zero ==> r.Ok? && (r.value <==> parsed != 0)
      ensures mediaInstance == Zero ==> r == Err(NoMedia)
    {
      if mediaInstance != Zero {
        r := Ok(0 != parsed);
      } else {
        r := Err(NoMedia);
      }
    }

    /** `Mrl()`: `mrlPtr` is the string `libvlc_media_get_mrl` returns; it is read and freed. */
    method Mrl(mrlPtr: Ptr) returns (r: Result<Option<string>>)
      requires Valid() && heap.Readable(mrlPtr)
      modifies heap
      ensures Valid()
      ensures mediaInstance != Zero ==> r == Ok(old(heap.String(mrlPtr))) && heap.Live() == old(heap.Live()) - {mrlPtr}
      ensures mediaInstance == Zero ==> r == Err(NoMedia) && heap.Live() == old(heap.Live())
    {
      if mediaInstance != Zero {
        var s := heap.GetNativeString(mrlPtr);
        r := Ok(s);
      } else {
        r := Err(NoMedia);
      }
    }

    /** The public `AddMediaOptions`: applies the options to the current media. */
    method AddMediaOptionsToMedia(options: Option<seq<Option<string>>>) returns (r: Outcome)
      requires Valid()
      modifies log, heap
      ensures Valid() && log.registered == old(log.registered) && heap.Live() == old(heap.Live())
      ensures mediaInstance != Zero ==> r == Pass && log.calls == old(log.calls) + OptionCalls(mediaInstance, options)
      ensures mediaInstance == Zero ==> r == Fail(NoMedia) && log.calls == old(log.calls)
    {
      if mediaInstance != Zero {
        var _ := AddMediaOptions(log, heap, mediaInstance, options);
        r := Pass;
      } else {
        r := Fail(NoMedia);
      }
    }

    // --- Media lifecycle -----------------------------------------------------

    /**
     * `SetMedia`: the old media's callbacks are detached before it is
     * released; the sub-item index is reset; a new media is created from the
     * MRL (`newMedia` is what `libvlc_media_new_path` returns) and, when that
     * succeeds, given its options and callbacks and set on the player.  The
     * path and option strings are freed.
     */
    method SetMedia(mrl: Option<string>, mediaOptions: Option<seq<Option<string>>>, newMedia: Ptr) returns (ok: bool)
      requires Valid() && !destroyed
      modifies this`mediaInstance, this`subItemIndex, log, heap
      ensures Valid() && !destroyed
      ensures ok <==> mrl.Some? && newMedia != Zero
      ensures mediaInstance == (if mrl.Some? then newMedia else Zero)
      ensures subItemIndex == -1
      ensures log.calls == old(log.calls) + MediaTeardown(codes, old(mediaInstance))
        + NewMediaCalls(codes, mediaPlayerInstance, mrl, newMedia, standardMediaOptions, mediaOptions)
      ensures heap.Live() == old(heap.Live())
    {
      ReleaseMedia();
      subItemIndex := -1;
      ok := CreateMedia(mrl, mediaOptions, newMedia);
    }

    /** The first part of `SetMedia`: detach and release the current media, if any. */
    method ReleaseMedia()
      requires Valid() && !destroyed
      modifies this`mediaInstance, log
      ensures Valid() && mediaInstance == Zero
      ensures log.calls == old(log.calls) + MediaTeardown(codes, old(mediaInstance))
    {
      TearDownMedia();
      mediaInstance := Zero;
    }

    /** The rest of `SetMedia`: create the new media from the MRL and set it up. */
    method CreateMedia(mrl: Option<string>, mediaOptions: Option<seq<Option<string>>>, newMedia: Ptr) returns (ok: bool)
      requires Valid() && !destroyed && mediaInstance == Zero
      modifies this`mediaInstance, log, heap
      ensures Valid()
      ensures ok <==> mrl.Some? && newMedia != Zero
      ensures mediaInstance == (if mrl.Some? then newMedia else Zero)
      ensures log.calls == old(log.calls) + NewMediaCalls(codes, mediaPlayerInstance, mrl, newMedia, standardMediaOptions, mediaOptions)
      ensures heap.Live() == old(heap.Live())
    {
      ghost var c0, live0 := log.calls, heap.Live();
      var mediaPointer := heap.StringPointer(mrl);
      if mediaPointer != Zero {
        log.Record(MediaNewPath(mrl.value, newMedia));
        mediaInstance := newMedia;
        assert mediaPointer !in live0;
        heap.Release(mediaPointer);
        if mediaInstance != Zero {
          SetUpMedia(log, heap, codes, mediaPlayerInstance, mediaInstance, standardMediaOptions, mediaOptions);
          AppendAssoc(c0, [MediaNewPath(mrl.value, newMedia)],
                      MediaSetupCalls(codes, mediaPlayerInstance, newMedia, standardMediaOptions, mediaOptions));
        }
        ok := mediaInstance != Zero;
      } else {
        ok := false;
      }
    }

    /** `RegisterMediaEventListener`, for a player with no media callbacks attached yet. */
    method RegisterMediaEventListener()
      requires log.Valid() && !destroyed && log.registered == PlayerPairs(codes, mediaPlayerInstance)
      modifies log
      ensures log.Valid() && log.registered == Registered()
      ensures log.calls == old(log.calls)
        + (if mediaInstance != Zero then AttachAll(MediaEvents(mediaInstance), InRange(codes.values, codes.media)) else [])
    {
      if mediaInstance != Zero {
        log.AttachRange(MediaEvents(mediaInstance), codes.values, codes.media);
      }
    }

    /** `DeregisterMediaEventListener`: afterwards only the player's own callbacks remain, if any. */
    method DeregisterMediaEventListener()
      requires log.Valid() && log.registered == Registered()
      modifies log
      ensures log.Valid()
      ensures log.registered == if destroyed then {} else PlayerPairs(codes, mediaPlayerInstance)
      ensures log.calls == old(log.calls)
        + (if mediaInstance != Zero then DetachAll(MediaEvents(mediaInstance), InRange(codes.values, codes.media)) else [])
    {
      if mediaInstance != Zero {
        log.DetachRange(MediaEvents(mediaInstance), codes.values, codes.media);
        assert forall x :: x in PlayerPairs(codes, mediaPlayerInstance) ==> x.0 == PlayerEvents(mediaPlayerInstance);
        assert forall x :: x in MediaPairs(codes, mediaInstance) ==> x.0 == MediaEvents(mediaInstance);
      }
    }
      /** The media half of `DestroyInstance`, shared with `SetMedia`: detach, then release. */
    method TearDownMedia()
      requires log.Valid() && log.registered == Registered()
      modifies log
      ensures log.Valid()
      ensures log.registered == if destroyed then {} else PlayerPairs(codes, mediaPlayerInstance)
      ensures log.calls == old(log.calls) + MediaTeardown(codes, mediaInstance)
    {
      ghost var c0 := log.calls;
      DeregisterMediaEventListener();
      if mediaInstance != Zero {
        log.Record(MediaRelease(mediaInstance));
        AppendAssoc(c0, DetachAll(MediaEvents(mediaInstance), InRange(codes.values, codes.media)), [MediaRelease(mediaInstance)]);
      }
    }

    /** The player half of `DestroyInstance`. */
    method TearDownPlayer()
      requires log.Valid() && listenersService.Valid()
      requires log.registered == if destroyed then {} else PlayerPairs(codes, mediaPlayerInstance)
      modifies this`eventListenerList, this`destroyed, log, listenersService
      ensures log.Valid() && listenersService.Valid() && log.registered == {}
      ensures destroyed && eventListenerList == []
      ensures log.calls == old(log.calls) + PlayerTeardown(codes, mediaPlayerInstance)
      ensures listenersService.State() == RequestShutdown(old(listenersService.State()))
    {
      ghost var c0 := log.calls;
      var p := mediaPlayerInstance;
      ReleasePlayer();
      listenersService.Shutdown();
      log.Record(ExecutorShutdown);
      destroyed := true;
      Regroup(c0, DetachAll(PlayerEvents(p), InRange(codes.values, codes.player)), [ListenersCleared],
              if p != Zero then [PlayerRelease(p)] else [], [ExecutorShutdown]);
    }

    /** Player callbacks detached, listeners cleared, the native player released. */
    method ReleasePlayer()
      requires log.Valid()
      requires log.registered == if destroyed then {} else PlayerPairs(codes, mediaPlayerInstance)
      modifies this`eventListenerList, log
      ensures log.Valid() && log.registered == {} && eventListenerList == []
      ensures log.calls == old(log.calls) + DetachAll(PlayerEvents(mediaPlayerInstance), InRange(codes.values, codes.player))
        + [ListenersCleared] + (if mediaPlayerInstance != Zero then [PlayerRelease(mediaPlayerInstance)] else [])
    {
      var p := mediaPlayerInstance;
      log.DetachRange(PlayerEvents(p), codes.values, codes.player);
      eventListenerList := [];
      log.Record(ListenersCleared);
      if p != Zero {
        log.Record(PlayerRelease(p));
      }
    }

    /**
     * `DestroyInstance`: media callbacks detached, media released, player
     * callbacks detached, listeners cleared, player released, executor shut
     * down.  The media handle is not cleared.
     */
    method DestroyInstance()
      requires Valid()
      modifies this`eventListenerList, this`destroyed, log, listenersService
      ensures Valid() && destroyed && eventListenerList == []
      ensures log.calls == old(log.calls) + Teardown(codes, mediaPlayerInstance, mediaInstance)
      ensures listenersService.State() == RequestShutdown(old(listenersService.State()))
    {
      ghost var c0 := log.calls;
      TearDownMedia();
      TearDownPlayer();
      AppendAssoc(c0, MediaTeardown(codes, mediaInstance), PlayerTeardown(codes, mediaPlayerInstance));
    }

    /**
     * `Release` as written: the `released` guard is commented out, so every
     * call runs the whole teardown again (`OnAfterRelease` is empty).
     */
    method Release()
      requires Valid()
      modifies this`eventListenerList, this`destroyed, log, listenersService
      ensures Valid() && destroyed && eventListenerList == []
      ensures log.calls == old(log.calls) + Teardown(codes, mediaPlayerInstance, mediaInstance)
    {
      DestroyInstance();
    }

    /** `Release` with its `released` guard restored: only the first call tears down. */
    method ReleaseOnce()
      requires Valid()
      modifies this`released, this`eventListenerList, this`destroyed, log, listenersService
      ensures Valid() && destroyed && released
      ensures !old(released) ==> log.calls == old(log.calls) + Teardown(codes, mediaPlayerInstance, mediaInstance)
      ensures old(released) ==> log.calls == old(log.calls)
    {
      if !released {
        DestroyInstance();
        released := true;
      }
    }

    // --- Events --------------------------------------------------------------

    /** `RaiseEvent`: a non-null event is submitted to the notification executor. */
    method RaiseEvent(ev: Option<E.Event>) returns (r: Outcome)
      requires Valid()
      modifies listenersService
      ensures Valid()
      ensures ev.None? ==> r == Pass && listenersService.State() == old(listenersService.State())
      ensures ev.Some? && !destroyed ==>
        r == Pass && listenersService.State() == old(listenersService.State()).(queue := old(listenersService.queue) + [ev.value])
      ensures ev.Some? && destroyed ==>
        r == Fail(InvalidOperation(SubmitAfterShutdown)) && listenersService.State() == old(listenersService.State())
    {
      if ev.Some? {
        r := listenersService.Submit(ev.value);
      } else {
        r := Pass;
      }
    }

    /**
     * `HandleEvent`, the native callback: with no listener registered the
     * record is not decoded; otherwise the event the factory builds from it,
     * if any, is raised.
     */
    method HandleEvent(evt: R.NativeEvent, look: R.Lookups) returns (r: Outcome)
      requires Valid()
      modifies listenersService
      ensures Valid()
      ensures |eventListenerList| == 0 ==> r == Pass && listenersService.State() == old(listenersService.State())
      ensures |eventListenerList| > 0 && !destroyed ==>
        r == Pass && listenersService.State() == old(listenersService.State()).(queue := old(listenersService.queue)
          + (if E.CreateEvent(evt, 0, look).Some? then [E.CreateEvent(evt, 0, look).value] else []))
      ensures |eventListenerList| > 0 && destroyed ==>
        listenersService.State() == old(listenersService.State()) && (r.Fail? <==> E.CreateEvent(evt, 0, look).Some?)
    {
      if |eventListenerList| > 0 {
        r := RaiseEvent(E.CreateEvent(evt, 0, look));
      } else {
        r := Pass;
      }
    }

    /** What a built-in handler does on a callback: raise its semantic event, if any. */
    method NotifyHandler(h: Listener, cb: Option<L.Callback>)
      requires Valid() && !destroyed && !h.App?
      modifies listenersService
      ensures Valid()
      ensures listenersService.State() == old(listenersService.State()).(queue := old(listenersService.queue) + HandlerRaises(h, cb, subItemIndex))
    {
      match h
      case NewMediaHandler =>
        if cb.Some? && cb.value.MediaChanged? && subItemIndex == -1 {
          var _ := RaiseEvent(E.CreateMediaNewEvent(0));
        }
      case RepeatPlayHandler =>
        if cb == Some(L.Finished) {
          RepeatNeverReplays(repeat, mediaInstance != Zero);
          match RepeatAction(repeat, mediaInstance != Zero, SubItemCount())
          case NoRepeat =>
          case LeaveToSubItems =>
        }
      case SubItemHandler =>
        if cb == Some(L.Finished) {
          if subItemIndex != -1 {
            var _ := RaiseEvent(E.CreateMediaSubItemFinishedEvent(subItemIndex, 0));
          }
          if playSubItems {
            var _ := PlayNextSubItem();
          }
        }
    }

    /** Notifying entry `i`: an application listener receives the callback, a built-in handler raises its events. */
    method NotifyEntry(i: int, cb: Option<L.Callback>, delivered: seq<AppListener>, warned: seq<AppListener>)
      returns (delivered': seq<AppListener>, warned': seq<AppListener>)
      requires Valid() && 0 <= i < |eventListenerList|
      modifies listenersService
      ensures Valid()
      ensures listenersService.State() == old(listenersService.State()).(queue := listenersService.queue)
      ensures listenersService.queue == old(listenersService.queue) + HandlerRaises(eventListenerList[i], cb, subItemIndex)
      ensures var h := eventListenerList[i];
        && delivered' == delivered + (if h.App? then [h.app] else [])
        && warned' == warned + (if h.App? && cb.Some? && h.app.throws then [h.app] else [])
    {
      var h := eventListenerList[i];
      delivered', warned' := delivered, warned;
      if h.App? {
        delivered' := delivered' + [h.app];
        if cb.Some? && h.app.throws {
          warned' := warned' + [h.app];
        }
      } else {
        NotifyHandler(h, cb);
      }
    }

    /** One turn of the loop of `Run`: entry `i` joins the entries after it. */
    method NotifyStep(ghost list: seq<Listener>, i: int, cb: Option<L.Callback>, ghost s0: ExecutorState<E.Event>,
                      ghost q0: seq<E.Event>, delivered: seq<AppListener>, warned: seq<AppListener>)
      returns (delivered': seq<AppListener>, warned': seq<AppListener>)
      requires Valid() && list == eventListenerList && 0 <= i < |list|
      requires listenersService.State() == s0.(queue := listenersService.queue)
      requires listenersService.queue == q0 + Raised(Reversed(list[i + 1..]), cb, subItemIndex)
      requires delivered == AppsOf(Reversed(list[i + 1..]))
      requires warned == if cb.Some? then Throwers(delivered) else []
      modifies listenersService
      ensures Valid()
      ensures listenersService.State() == s0.(queue := listenersService.queue)
      ensures listenersService.queue == q0 + Raised(Reversed(list[i..]), cb, subItemIndex)
      ensures delivered' == AppsOf(Reversed(list[i..]))
      ensures warned' == if cb.Some? then Throwers(delivered') else []
    {
      ghost var q1 := listenersService.queue;
      delivered', warned' := NotifyEntry(i, cb, delivered, warned);
      QueueStep(list, i, cb, subItemIndex, q0, q1, listenersService.queue);
      DeliveredStep(list, i, cb, delivered, warned, delivered', warned');
    }

    /** The loop of `Run`: the entries from the last to the first. */
    method NotifyEntries(cb: Option<L.Callback>) returns (delivered: seq<AppListener>, warned: seq<AppListener>)
      requires Valid()
      modifies listenersService
      ensures Valid()
      ensures listenersService.State() == old(listenersService.State()).(queue := listenersService.queue)
      ensures listenersService.queue == old(listenersService.queue) + Raised(Reversed(eventListenerList), cb, subItemIndex)
      ensures delivered == AppsOf(Reversed(eventListenerList))
      ensures warned == if cb.Some? then Throwers(delivered) else []
    {
      ghost var s0, q0 := listenersService.State(), listenersService.queue;
      ghost var list := eventListenerList;
      delivered := [];
      warned := [];
      var i := |eventListenerList|;
      while i > 0
        invariant 0 <= i <= |list|
        invariant Valid()
        invariant listenersService.State() == s0.(queue := listenersService.queue)
        invariant listenersService.queue == q0 + Raised(Reversed(list[i..]), cb, subItemIndex)
        invariant delivered == AppsOf(Reversed(list[i..]))
        invariant warned == if cb.Some? then Throwers(delivered) else []
      {
        i := i - 1;
        delivered, warned := NotifyStep(list, i, cb, s0, q0, delivered, warned);
      }
      assert list[0..] == list;
    }

    /**
     * `NotifyEventListenersRunnable.Run`: the list is walked from the last
     * entry to the first; every application listener receives the callback
     * and one that throws is logged and passed over; the built-in handlers
     * raise their semantic events onto the same executor.
     */
    method Run(e: E.Event) returns (delivered: seq<AppListener>, warned: seq<AppListener>)
      requires Valid()
      modifies listenersService
      ensures Valid()
      ensures listenersService.State() == old(listenersService.State()).(queue := old(listenersService.queue)
        + (if destroyed then [] else SemanticEvents(e, subItemIndex)))
      ensures delivered == Reversed(AppListeners(eventListenerList, !destroyed))
      ensures warned == if E.Notify(e).Some? then Throwers(delivered) else []
    {
      var cb := E.Notify(e);
      delivered, warned := NotifyEntries(cb);
      if destroyed {
        DispatchWhenReleased(eventListenerList, cb, subItemIndex);
      } else {
        DispatchOrder(eventListenerList, e, subItemIndex);
        DispatchToApps(eventListenerList);
      }
    }

    /**
     * One step of the executor's worker thread: when it takes a task, the
     * task is the event at the head of the queue and it is run.
     */
    method WorkerStep() returns (ran: Option<E.Event>, delivered: seq<AppListener>, warned: seq<AppListener>)
      requires Valid()
      modifies listenersService
      ensures Valid()
      ensures ran.Some? <==> old(listenersService.phase) == Draining && old(listenersService.queue) != []
      ensures ran.None? ==> listenersService.State() == Next(old(listenersService.State()), false) && delivered == [] && warned == []
      ensures ran.Some? ==>
        && ran.value == old(listenersService.queue)[0]
        && listenersService.State() == Next(old(listenersService.State()), false).(queue :=
             Next(old(listenersService.State()), false).queue + (if destroyed then [] else SemanticEvents(ran.value, subItemIndex)))
        && delivered == Reversed(AppListeners(eventListenerList, !destroyed))
    {
      ran := listenersService.Step(false);
      if ran.Some? {
        delivered, warned := Run(ran.value);
      } else {
        delivered, warned := [], [];
      }
    }

    // --- Playback --------------------------------------------------------------

    /** `SetVideoSurface` of the embedded player: the surface is only kept until the next `Play`. */
    method SetVideoSurface(componentId: Option<int>)
      requires embedded
      modifies this`videoSurface
      ensures videoSurface == componentId
    {
      videoSurface := componentId;
    }

    /** `Play`: `OnBeforePlay` (the embedded player attaches its video surface), then the native play. */
    method Play() returns (r: Outcome)
      requires Valid() && !destroyed
      modifies log
      ensures Valid() && log.registered == old(log.registered)
      ensures r == Pass <==> !embedded || videoSurface.Some?
      ensures r != Pass ==> r == Fail(NullReference)
      ensures log.calls == old(log.calls) + PlayCalls(mediaPlayerInstance, embedded, videoSurface)
    {
      if embedded {
        if videoSurface.None? {
          return Fail(NullReference);
        }
        log.Record(AttachVideoSurface(mediaPlayerInstance, videoSurface.value));
      }
      log.Record(PlayerPlay(mediaPlayerInstance));
      r := Pass;
    }

    /** `PlayMedia`: prepare the media and, when that succeeds, play it. */
    method PlayMedia(mrl: Option<string>, mediaOptions: Option<seq<Option<string>>>, newMedia: Ptr) returns (r: Result<bool>)
      requires Valid() && !destroyed
      modifies this, log, heap
      ensures Valid() && !destroyed
      ensures r == Ok(true) <==> mrl.Some? && newMedia != Zero && (!embedded || videoSurface.Some?)
      ensures r == Ok(false) <==> !(mrl.Some? && newMedia != Zero)
      ensures r.Err? ==> r.error == NullReference
      ensures mediaInstance == (if mrl.Some? then newMedia else Zero) && subItemIndex == -1
      ensures log.calls == old(log.calls) + MediaTeardown(codes, old(mediaInstance))
        + NewMediaCalls(codes, mediaPlayerInstance, mrl, newMedia, standardMediaOptions, mediaOptions)
        + (if mrl.Some? && newMedia != Zero then PlayCalls(mediaPlayerInstance, embedded, videoSurface) else [])
      ensures videoSurface == old(videoSurface) && eventListenerList == old(eventListenerList)
    {
      var ok := SetMedia(mrl, mediaOptions, newMedia);
      if ok {
        var played := Play();
        r := if played == Pass then Ok(true) else Err(played.error);
      } else {
        r := Ok(false);
      }
    }

    /** `SetEnableMouseInputHandling` of the embedded player. */
    method SetEnableMouseInputHandling(enable: bool)
      requires Valid() && embedded && !destroyed
      modifies log
      ensures Valid() && log.registered == old(log.registered)
      ensures log.calls == old(log.calls) + [SetMouseInput(mediaPlayerInstance, Embedded.InputFlag(enable))]
    {
      log.Record(SetMouseInput(mediaPlayerInstance, if enable then 1 else 0));
    }

    /** `SetEnableKeyInputHandling` of the embedded player. */
    method SetEnableKeyInputHandling(enable: bool)
      requires Valid() && embedded && !destroyed
      modifies log
      ensures Valid() && log.registered == old(log.registered)
      ensures log.calls == old(log.calls) + [SetKeyInput(mediaPlayerInstance, Embedded.InputFlag(enable))]
    {
      log.Record(SetKeyInput(mediaPlayerInstance, if enable then 1 else 0));
    }

    // --- Subtitles, time and tracks ---------------------------------------------

    /** `SetSpu`: `spuCount` is what `libvlc_video_get_spu_count` returns. */
    method SetSpu(spu: int, spuCount: int) returns (applied: bool)
      requires Valid() && !destroyed
      modifies log
      ensures Valid() && log.registered == old(log.registered)
      ensures applied <==> spuCount != 0 && spu <= spuCount
      ensures log.calls == old(log.calls) + (if applied then [VideoSetSpu(mediaPlayerInstance, spu)] else [])
    {
      if spuCount != 0 && spu <= spuCount {
        log.Record(VideoSetSpu(mediaPlayerInstance, spu));
        applied := true;
      } else {
        applied := false;
      }
    }

    /**
     * `CycleSpu`: `spu` and `spuCount` are what the native getters return;
     * `SetSpu` queries the count again and gets `spuCountAgain`.
     */
    method CycleSpu(spu: int, spuCount: int, spuCountAgain: int) returns (selected: int, applied: bool)
      requires Valid() && !destroyed
      modifies log
      ensures Valid() && log.registered == old(log.registered)
      ensures selected == NextSpu(spu, spuCount)
      ensures applied <==> SpuAccepted(selected, spuCountAgain)
      ensures log.calls == old(log.calls) + (if applied then [VideoSetSpu(mediaPlayerInstance, selected)] else [])
      ensures spuCountAgain == spuCount > 0 && -1 <= spu ==> applied && 0 <= selected <= spuCount
    {
      selected := spu;
      if selected >= spuCount {
        selected := 0;
      } else {
        selected := selected + 1;
      }
      applied := SetSpu(selected, spuCountAgain);
    }

    /** `Skip`: `current` is what `libvlc_media_player_get_time` returns; the sum wraps as C# `long` does. */
    method Skip(delta: int, current: int)
      requires Valid() && !destroyed && IsInt64(delta) && IsInt64(current)
      modifies log
      ensures Valid() && log.registered == old(log.registered)
      ensures current == -1 ==> log.calls == old(log.calls)
      ensures current != -1 ==> log.calls == old(log.calls) + [PlayerSetTime(mediaPlayerInstance, WrapInt64(current + delta))]
    {
      if current != -1 {
        log.Record(PlayerSetTime(mediaPlayerInstance, WrapInt64(current + delta)));
      }
    }

    /**
     * `GetTrackDescriptions`: follows `p_next` from `head` (`nodes` is the
     * native memory the walk reads), copies each name without freeing it, and
     * releases a non-null list.
     */
    method GetTrackDescriptions(head: Ptr, nodes: map<Ptr, Node<TrackRecord>>, ghost path: seq<Ptr>) returns (list: seq<TrackDescription>)
      requires Valid() && !destroyed && Chain(nodes, head, path)
      requires forall k :: 0 <= k < |path| ==> heap.Readable(nodes[path[k]].data.psz_name)
      modifies log
      ensures Valid() && log.registered == old(log.registered)
      ensures |list| == |path|
      ensures forall k :: 0 <= k < |path| ==>
        list[k] == TrackDescription(nodes[path[k]].data.i_id, heap.String(nodes[path[k]].data.psz_name))
      ensures log.calls == old(log.calls) + (if head != Zero then [TrackDescriptionListRelease(head)] else [])
    {
      list := [];
      var current := head;
      ghost var n := 0;
      while current != Zero
        invariant 0 <= n <= |path|
        invariant current == if n < |path| then path[n] else Zero
        invariant |list| == n
        invariant forall k :: 0 <= k < n ==>
          list[k] == TrackDescription(nodes[path[k]].data.i_id, heap.String(nodes[path[k]].data.psz_name))
        decreases |path| - n
      {
        var node := nodes[current];
        list := list + [TrackDescription(node.data.i_id, heap.String(node.data.psz_name))];
        current := node.next;
        n := n + 1;
      }
      if head != Zero {
        log.Record(TrackDescriptionListRelease(head));
      }
    }
  }
}
