/**
 * `DefaultMediaListPlayer`: the native list player, its listener registry, its
 * one registered native event (`MediaListPlayerNextItemSet`) and its
 * notification executor.
 */
module MediaListPlayer {

  import opened Wrappers
  import opened Native
  import opened Executor
  import opened Listeners
  import R = EventRecord
  import E = MediaListPlayerEvents
  import V = VersionNumber

  /**
   * `MediaListPlayerMode`.  A C# enum variable can hold any integer, so a
   * value outside the three named ones is representable.
   */
  datatype ListPlayerMode = Default | Loop | Repeat | Undefined(value: int)

  /** The native playback mode `SetMode` selects, or None when it throws. */
  function PlaybackModeOf(mode: ListPlayerMode): (r: Option<PlaybackMode>)
    ensures r.None? <==> mode.Undefined?
  {
    match mode
    case Default => Some(DefaultMode)
    case Loop => Some(LoopMode)
    case Repeat => Some(RepeatMode)
    case Undefined(_) => None
  }

  /** How C# turns an enum value with no name into text: its signed decimal number. */
  function UnnamedText(v: int): string
  {
    if v < 0 then "-" + V.Decimal(-v) else V.Decimal(v)
  }

  /** The message of the `ArgumentException` `SetMode` throws for a mode with no name. */
  function InvalidModeMessage(v: int): (m: string)
    ensures |m| > 13 && m[..13] == "Invalid mode "
  {
    "Invalid mode " + UnnamedText(v)
  }

  /** The value a signed decimal text denotes: an optional `-`, then one or more digits. */
  function SignedValue(t: string): Option<int>
  {
    if |t| > 1 && t[0] == '-' && V.AllDigits(t[1..]) then Some(0 - V.DigitsValue(t[1..]) as int)
    else if |t| > 0 && t[0] != '-' && V.AllDigits(t) then Some(V.DigitsValue(t))
    else None
  }

  /** An unnamed value's text reads back as that value. */
  lemma UnnamedTextValue(v: int)
    ensures SignedValue(UnnamedText(v)) == Some(v)
  {
    var t := UnnamedText(v);
    if v < 0 {
      var d := V.Decimal(-v);
      V.DecimalValue(-v);
      assert t == "-" + d && t[1..] == d;
    } else {
      var d := V.Decimal(v);
      V.DecimalValue(v);
      assert t == d && V.IsDigit(d[0]);
    }
  }

  /** The text after "Invalid mode " is the mode's value. */
  lemma InvalidModeValue(v: int)
    ensures SignedValue(InvalidModeMessage(v)[13..]) == Some(v)
  {
    assert InvalidModeMessage(v)[13..] == UnnamedText(v);
    UnnamedTextValue(v);
  }

  /** The managed mode that names each native playback mode. */
  function ModeFor(pm: PlaybackMode): ListPlayerMode
  {
    match pm
    case DefaultMode => Default
    case LoopMode => Loop
    case RepeatMode => Repeat
  }

  /** Every native playback mode is reached, by exactly one managed mode. */
  lemma PlaybackModeRoundTrip(pm: PlaybackMode, mode: ListPlayerMode)
    ensures PlaybackModeOf(ModeFor(pm)) == Some(pm)
    ensures PlaybackModeOf(mode) == Some(pm) ==> mode == ModeFor(pm)
  {
  }

  /**
   * The values registration attaches: the bounds of its range are both
   * `MediaListPlayerNextItemSet`, so only that value is attached, once per
   * time the enumeration lists it.
   */
  function NextItemCodes(codes: EventCodes): (r: seq<int>)
    ensures forall c :: c in r ==> c == codes.nextItemSet
    ensures |r| == multiset(codes.values)[codes.nextItemSet]
  {
    SingleValueRange(codes.values, codes.nextItemSet);
    InRange(codes.values, EventRange(codes.nextItemSet, codes.nextItemSet))
  }

  /** The callbacks attached while the native callback is held. */
  function ListPlayerPairs(codes: EventCodes, lp: Ptr): Registrations
  {
    Pairs(ListPlayerEvents(lp), NextItemCodes(codes))
  }

  /** The calls `DestroyInstance` makes, in order; `attached` says whether the callback was still held. */
  function ListPlayerTeardown(codes: EventCodes, lp: Ptr, attached: bool): seq<Call>
  {
    (if attached then DetachAll(ListPlayerEvents(lp), NextItemCodes(codes)) else [])
    + [ListenersCleared]
    + (if lp != Zero then [ListPlayerRelease(lp)] else [])
    + [ExecutorShutdown]
  }

  /** The detaches, then the calls `CloseListPlayerLog` records, make up the teardown. */
  lemma TeardownRegroup(c0: seq<Call>, codes: EventCodes, lp: Ptr, attached: bool)
    ensures c0 + (if attached then DetachAll(ListPlayerEvents(lp), NextItemCodes(codes)) else [])
        + ([ListenersCleared] + (if lp != Zero then [ListPlayerRelease(lp)] else []) + [ExecutorShutdown])
      == c0 + ListPlayerTeardown(codes, lp, attached)
  {
    var d := if attached then DetachAll(ListPlayerEvents(lp), NextItemCodes(codes)) else [];
    var r: seq<Call> := if lp != Zero then [ListPlayerRelease(lp)] else [];
    assert d + ([ListenersCleared] + r + [ExecutorShutdown]) == d + [ListenersCleared] + r + [ExecutorShutdown];
    AppendAssoc(c0, d, [ListenersCleared] + r + [ExecutorShutdown]);
  }

  /** One teardown releases a non-null list player exactly once. */
  lemma ListPlayerTeardownReleasesOnce(codes: EventCodes, lp: Ptr, attached: bool)
    requires lp != Zero
    ensures multiset(ListPlayerTeardown(codes, lp, attached))[ListPlayerRelease(lp)] == 1
  {
    var held := if attached then NextItemCodes(codes) else [];
    var d := DetachAll(ListPlayerEvents(lp), held);
    var tail: seq<Call> := [ListPlayerRelease(lp)] + [ExecutorShutdown];
    assert ListPlayerTeardown(codes, lp, attached) == d + [ListenersCleared] + [ListPlayerRelease(lp)] + [ExecutorShutdown];
    AppendAssoc(d + [ListenersCleared], [ListPlayerRelease(lp)], [ExecutorShutdown]);
    CountAfterDetaches(ListPlayerEvents(lp), held, ListenersCleared, tail, ListPlayerRelease(lp));
  }

  /**
   * Without the commented-out `released` guard, a second `Release` detaches
   * nothing (the callback is already gone) but releases the list player again.
   */
  lemma ListPlayerReleaseTwice(codes: EventCodes, lp: Ptr)
    requires lp != Zero
    ensures multiset(ListPlayerTeardown(codes, lp, true) + ListPlayerTeardown(codes, lp, false))[ListPlayerRelease(lp)] == 2
  {
    ListPlayerTeardownReleasesOnce(codes, lp, true);
    ListPlayerTeardownReleasesOnce(codes, lp, false);
  }

  /** The media player a list player drives: its native handle and whether it is embedded. */
  datatype PlayerHandle = PlayerHandle(instance: Ptr, embedded: bool)

  /** The calls `Play` makes: an embedded media player attaches its video surface first. */
  function ListPlayCalls(lp: Ptr, player: Option<PlayerHandle>, surface: Option<int>): seq<Call>
  {
    if player.Some? && player.value.embedded then
      if surface.Some? then [AttachVideoSurface(player.value.instance, surface.value), ListPlayerPlay(lp)] else []
    else [ListPlayerPlay(lp)]
  }

  /** The calls `DestroyInstance` makes once the callback is detached: clear, release, shut down. */
  method CloseListPlayerLog(log: CallLog, lp: Ptr)
    requires log.Valid() && log.registered == {}
    modifies log
    ensures log.Extended(old(log.calls), {},
      [ListenersCleared] + (if lp != Zero then [ListPlayerRelease(lp)] else []) + [ExecutorShutdown])
  {
    log.Emit(ListenersCleared);
    if lp != Zero {
      log.Emit(ListPlayerRelease(lp));
    }
    log.Emit(ExecutorShutdown);
  }

  class DefaultMediaListPlayer {
    const instance: Ptr
    const codes: EventCodes
    const listenersService: SingleThreadExecutor<E.Event>
    const log: CallLog
    const mediaListPlayerInstance: Ptr

    var eventListenerList: seq<AppListener>
    /** Whether the native callback delegate is held (`callback != null`). */
    var callbackAttached: bool
    var mediaPlayer: Option<PlayerHandle>
    /** The guard of the corrected `ReleaseOnce`. */
    var released: bool
    /** Whether `DestroyInstance` has run. */
    ghost var destroyed: bool

    ghost predicate Valid()
      reads this, log, listenersService
    {
      && log.Valid() && listenersService.Valid()
      && log.registered == (if callbackAttached then ListPlayerPairs(codes, mediaListPlayerInstance) else {})
      && (destroyed <==> listenersService.shutdownRequested)
      && (destroyed ==> !callbackAttached)
      && (released ==> destroyed)
    }

    /** The constructor and `CreateInstance`: `newListPlayer` is what `libvlc_media_list_player_new` returns. */
    constructor (instance: Ptr, codes: EventCodes, newListPlayer: Ptr)
      ensures Valid() && !destroyed && !released && callbackAttached
      ensures fresh(log) && fresh(listenersService)
      ensures mediaListPlayerInstance == newListPlayer && eventListenerList == [] && mediaPlayer.None?
      ensures listenersService.State() == Initial()
      ensures log.calls == [ListPlayerNew(instance, newListPlayer)] + AttachAll(ListPlayerEvents(newListPlayer), NextItemCodes(codes))
    {
      this.instance := instance;
      this.codes := codes;
      listenersService := new SingleThreadExecutor<E.Event>();
      log := new CallLog();
      mediaListPlayerInstance := newListPlayer;
      eventListenerList := [];
      callbackAttached := false;
      mediaPlayer := None;
      released := false;
      destroyed := false;
      new;
      log.Record(ListPlayerNew(instance, newListPlayer));
      log.AttachRange(ListPlayerEvents(newListPlayer), codes.values, EventRange(codes.nextItemSet, codes.nextItemSet));
      callbackAttached := true;
    }

    method AddMediaListPlayerEventListener(listener: AppListener)
      requires Valid()
      modifies this`eventListenerList
      ensures Valid() && eventListenerList == old(eventListenerList) + [listener]
    {
      eventListenerList := eventListenerList + [listener];
    }

    method RemoveMediaListPlayerEventListener(listener: AppListener)
      requires Valid()
      modifies this`eventListenerList
      ensures Valid() && eventListenerList == RemoveFirst(old(eventListenerList), listener)
    {
      eventListenerList := RemoveFirst(eventListenerList, listener);
    }

    /**
     * `SetMediaPlayer`: the reference is stored first; a null player then
     * throws on reading its native handle.
     */
    method SetMediaPlayer(player: Option<PlayerHandle>) returns (r: Outcome)
      requires Valid() && !destroyed
      modifies this`mediaPlayer, log
      ensures Valid() && mediaPlayer == player
      ensures player.None? ==> r == Fail(NullReference) && log.calls == old(log.calls)
      ensures player.Some? ==>
        r == Pass && log.calls == old(log.calls) + [ListPlayerSetMediaPlayer(mediaListPlayerInstance, player.value.instance)]
    {
      mediaPlayer := player;
      if player.None? {
        return Fail(NullReference);
      }
      log.Record(ListPlayerSetMediaPlayer(mediaListPlayerInstance, player.value.instance));
      r := Pass;
    }

    /**
     * `Play`: an embedded media player attaches its video surface (`surface`
     * is the one it holds; with none, `Attach` throws on the null surface)
     * before the native list player plays.
     */
    method Play(surface: Option<int>) returns (r: Outcome)
      requires Valid() && !destroyed
      modifies log
      ensures Valid()
      ensures r == Pass <==> !(mediaPlayer.Some? && mediaPlayer.value.embedded) || surface.Some?
      ensures r != Pass ==> r == Fail(NullReference)
      ensures log.calls == old(log.calls) + ListPlayCalls(mediaListPlayerInstance, mediaPlayer, surface)
    {
      if mediaPlayer.Some? && mediaPlayer.value.embedded {
        if surface.None? {
          return Fail(NullReference);
        }
        log.Record(AttachVideoSurface(mediaPlayer.value.instance, surface.value));
      }
      log.Record(ListPlayerPlay(mediaListPlayerInstance));
      r := Pass;
    }

    /** `PlayItem`: `nativeResult` is what `libvlc_media_list_player_play_item_at_index` returns. */
    method PlayItem(itemIndex: int, nativeResult: int) returns (played: bool)
      requires Valid() && !destroyed
      modifies log
      ensures Valid()
      ensures played <==> nativeResult == 0
      ensures log.calls == old(log.calls) + [ListPlayerPlayItem(mediaListPlayerInstance, itemIndex)]
    {
      log.Record(ListPlayerPlayItem(mediaListPlayerInstance, itemIndex));
      played := nativeResult == 0;
    }

    /** `SetMode`: a mode with no name throws, with its value in the message, before any native call. */
    method SetMode(mode: ListPlayerMode) returns (r: Outcome)
      requires Valid() && !destroyed
      modifies log
      ensures Valid()
      ensures r == Pass <==> !mode.Undefined?
      ensures mode.Undefined? ==> r == Fail(Argument(InvalidModeMessage(mode.value))) && log.calls == old(log.calls)
      ensures !mode.Undefined? ==>
        log.calls == old(log.calls) + [ListPlayerSetMode(mediaListPlayerInstance, PlaybackModeOf(mode).value)]
    {
      var playbackMode: PlaybackMode;
      match mode {
        case Default => playbackMode := DefaultMode;
        case Loop => playbackMode := LoopMode;
        case Repeat => playbackMode := RepeatMode;
        case Undefined(value) => return Fail(Argument(InvalidModeMessage(value)));
      }
      log.Record(ListPlayerSetMode(mediaListPlayerInstance, playbackMode));
      r := Pass;
    }

    /** `DeregisterEventListener`: detaches only while the callback is held, then drops it. */
    method DeregisterEventListener()
      requires Valid()
      modifies this`callbackAttached, log
      ensures Valid() && !callbackAttached && log.registered == {}
      ensures log.calls == old(log.calls)
        + (if old(callbackAttached) then DetachAll(ListPlayerEvents(mediaListPlayerInstance), NextItemCodes(codes)) else [])
    {
      if callbackAttached {
        log.DetachRange(ListPlayerEvents(mediaListPlayerInstance), codes.values, EventRange(codes.nextItemSet, codes.nextItemSet));
        callbackAttached := false;
      }
    }

    /** `DestroyInstance`: deregister, clear the listeners, release the native player, shut the executor down. */
    method DestroyInstance()
      requires Valid()
      modifies this`callbackAttached, this`eventListenerList, this`destroyed, log, listenersService
      ensures Valid() && destroyed && !callbackAttached && eventListenerList == []
      ensures log.calls == old(log.calls) + ListPlayerTeardown(codes, mediaListPlayerInstance, old(callbackAttached))
      ensures listenersService.State() == RequestShutdown(old(listenersService.State()))
    {
      ghost var c0 := log.calls;
      ghost var attached := callbackAttached;
      DeregisterEventListener();
      eventListenerList := [];
      listenersService.Shutdown();
      CloseListPlayerLog(log, mediaListPlayerInstance);
      destroyed := true;
      TeardownRegroup(c0, codes, mediaListPlayerInstance, attached);
    }

    /** `Release` as written: its `released` guard is commented out, so every call tears down again. */
    method Release()
      requires Valid()
      modifies this`callbackAttached, this`eventListenerList, this`destroyed, log, listenersService
      ensures Valid() && destroyed && eventListenerList == []
      ensures log.calls == old(log.calls) + ListPlayerTeardown(codes, mediaListPlayerInstance, old(callbackAttached))
    {
      DestroyInstance();
    }

    /** `Release` with its `released` guard restored. */
    method ReleaseOnce()
      requires Valid()
      modifies this`released, this`callbackAttached, this`eventListenerList, this`destroyed, log, listenersService
      ensures Valid() && destroyed && released
      ensures !old(released) ==> log.calls == old(log.calls) + ListPlayerTeardown(codes, mediaListPlayerInstance, old(callbackAttached))
      ensures old(released) ==> log.calls == old(log.calls)
    {
      if !released {
        DestroyInstance();
        released := true;
      }
    }

    /**
     * `HandleEvent`, the native callback: nothing is decoded without a
     * listener; a decoded event is submitted, which throws once the executor
     * is shut down.
     */
    method HandleEvent(evt: R.NativeEvent, look: R.Lookups) returns (r: Outcome)
      requires Valid()
      modifies listenersService
      ensures Valid()
      ensures |eventListenerList| == 0 || E.CreateEvent(evt, 0, look).None? ==>
        r == Pass && listenersService.State() == old(listenersService.State())
      ensures |eventListenerList| > 0 && E.CreateEvent(evt, 0, look).Some? && !destroyed ==>
        r == Pass && listenersService.State() == old(listenersService.State()).(queue := old(listenersService.queue) + [E.CreateEvent(evt, 0, look).value])
      ensures |eventListenerList| > 0 && E.CreateEvent(evt, 0, look).Some? && destroyed ==>
        r == Fail(InvalidOperation(SubmitAfterShutdown)) && listenersService.State() == old(listenersService.State())
    {
      r := Pass;
      if |eventListenerList| > 0 {
        var ev := E.CreateEvent(evt, 0, look);
        if ev.Some? {
          r := listenersService.Submit(ev.value);
        }
      }
    }

    /** `NotifyListenersRunnable.Run`: every listener, last-added first; a throwing one is logged and skipped. */
    method Run(e: E.Event) returns (delivered: seq<AppListener>, warned: seq<AppListener>)
      ensures delivered == Reversed(eventListenerList)
      ensures warned == Throwers(delivered)
    {
      delivered, warned := NotifyAll(eventListenerList);
    }

    /** One step of the executor's worker: a task taken from the head of the queue is run. */
    method WorkerStep() returns (ran: Option<E.Event>, delivered: seq<AppListener>, warned: seq<AppListener>)
      requires Valid()
      modifies listenersService
      ensures Valid() && listenersService.State() == Next(old(listenersService.State()), false)
      ensures ran.Some? <==> old(listenersService.phase) == Draining && old(listenersService.queue) != []
      ensures ran.Some? ==> ran.value == old(listenersService.queue)[0] && delivered == Reversed(eventListenerList)
      ensures ran.None? ==> delivered == []
      ensures warned == Throwers(delivered)
    {
      ran := listenersService.Step(false);
      if ran.Some? {
        delivered, warned := Run(ran.value);
      } else {
        delivered, warned := [], [];
      }
    }
  }
}
