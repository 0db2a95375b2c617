/**
 * The callbacks of `MediaPlayerEventListener`, one per adapter method, each
 * with the arguments it receives after the media player itself.
 */
module MediaPlayerListener {

  import opened Wrappers
  import opened Native

  datatype Callback =
    | MediaChanged(media: Ptr, mrl: Option<string>)
    | Opening
    | Buffering(newCache: real)
    | Playing
    | Paused
    | Stopped
    | Forward
    | Backward
    | Finished
    | TimeChanged(newTime: int)
    | PositionChanged(newPosition: real)
    | SeekableChanged(newSeekable: int)
    | PausableChanged(newPausable: int)
    | TitleChanged(newTitle: int)
    | SnapshotTaken(filename: Option<string>)
    | LengthChanged(newLength: int)
    | VideoOutput(newCount: int)
    | Error
    | MediaSubItemAdded(subItem: Ptr)
    | MediaDurationChanged(newDuration: int)
    | MediaParsedChanged(newStatus: int)
    | MediaFreed
    | MediaStateChanged(newState: int)
    | MediaMetaChanged(metaType: int)
    | NewMedia
    | SubItemPlayed(subItemIndex: int)
    | SubItemFinished(subItemIndex: int)
    | EndOfSubItems
}

/**
 * Media player events (`MediaPlayerEvent` and its classes) and the factory
 * that builds them from native event records.  Every event belongs to the
 * player whose factory created it, so the player reference is not stored.
 */
module MediaPlayerEvents {

  import opened Wrappers
  import opened Native
  import R = EventRecord
  import L = MediaPlayerListener

  datatype Event =
    // native player events
    | MediaPlayerMediaChanged(media: Ptr, mrl: Option<string>)
    | MediaPlayerNothingSpecial
    | MediaPlayerOpening
    | MediaPlayerBuffering(newCache: real)
    | MediaPlayerPlaying
    | MediaPlayerPaused
    | MediaPlayerStopped
    | MediaPlayerForward
    | MediaPlayerBackward
    | MediaPlayerEndReached
    | MediaPlayerEncounteredError
    | MediaPlayerTimeChanged(newTime: int)
    | MediaPlayerPositionChanged(newPosition: real)
    | MediaPlayerSeekableChanged(newSeekable: int)
    | MediaPlayerPausableChanged(newPausable: int)
    | MediaPlayerTitleChanged(newTitle: int)
    | MediaPlayerSnapshotTaken(filename: Option<string>)
    | MediaPlayerLengthChanged(newLength: int)
    | MediaPlayerVout(newCount: int)
    // native events of the current media
    | MediaMetaChanged(metaType: int)
    | MediaSubItemAdded(subItem: Ptr)
    | MediaDurationChanged(newDuration: int)
    | MediaParsedChanged(newStatus: int)
    | MediaFreed
    | MediaStateChanged(newState: int)
    // semantic events raised by the player itself
    | MediaNew
    | MediaSubItemPlayed(subItemIndex: int)
    | MediaSubItemFinished(subItemIndex: int)
    | MediaEndOfSubItems

  predicate IsSemantic(e: Event)
  {
    e.MediaNew? || e.MediaSubItemPlayed? || e.MediaSubItemFinished? || e.MediaEndOfSubItems?
  }

  /**
   * The native record an event was built from; `filename` is the string
   * pointer a snapshot event's name was read from.  Semantic events have no
   * native record.
   */
  function Record(e: Event, filename: Ptr): Option<R.NativeEvent>
  {
    match e
    case MediaPlayerMediaChanged(media, _) => Some(R.MediaPlayerMediaChanged(media))
    case MediaPlayerNothingSpecial => Some(R.MediaPlayerNothingSpecial)
    case MediaPlayerOpening => Some(R.MediaPlayerOpening)
    case MediaPlayerBuffering(c) => Some(R.MediaPlayerBuffering(c))
    case MediaPlayerPlaying => Some(R.MediaPlayerPlaying)
    case MediaPlayerPaused => Some(R.MediaPlayerPaused)
    case MediaPlayerStopped => Some(R.MediaPlayerStopped)
    case MediaPlayerForward => Some(R.MediaPlayerForward)
    case MediaPlayerBackward => Some(R.MediaPlayerBackward)
    case MediaPlayerEndReached => Some(R.MediaPlayerEndReached)
    case MediaPlayerEncounteredError => Some(R.MediaPlayerEncounteredError)
    case MediaPlayerTimeChanged(t) => Some(R.MediaPlayerTimeChanged(t))
    case MediaPlayerPositionChanged(p) => Some(R.MediaPlayerPositionChanged(p))
    case MediaPlayerSeekableChanged(v) => Some(R.MediaPlayerSeekableChanged(v))
    case MediaPlayerPausableChanged(v) => Some(R.MediaPlayerPausableChanged(v))
    case MediaPlayerTitleChanged(v) => Some(R.MediaPlayerTitleChanged(v))
    case MediaPlayerSnapshotTaken(_) => Some(R.MediaPlayerSnapshotTaken(filename))
    case MediaPlayerLengthChanged(v) => Some(R.MediaPlayerLengthChanged(v))
    case MediaPlayerVout(v) => Some(R.MediaPlayerVout(v))
    case MediaMetaChanged(v) => Some(R.MediaMetaChanged(v))
    case MediaSubItemAdded(p) => Some(R.MediaSubItemAdded(p))
    case MediaDurationChanged(v) => Some(R.MediaDurationChanged(v))
    case MediaParsedChanged(v) => Some(R.MediaParsedChanged(v))
    case MediaFreed => Some(R.MediaFreed(Zero))
    case MediaStateChanged(v) => Some(R.MediaStateChanged(v))
    case MediaNew => None
    case MediaSubItemPlayed(_) => None
    case MediaSubItemFinished(_) => None
    case MediaEndOfSubItems => None
  }

  /** The record's own string pointer, for the one event kind that has one. */
  function FilenamePointer(evt: R.NativeEvent): Ptr
  {
    if evt.MediaPlayerSnapshotTaken? then evt.psz_filename else Zero
  }

  /** A native freed-media record, with its `md` field normalised away. */
  function Normalised(evt: R.NativeEvent): R.NativeEvent
  {
    if evt.MediaFreed? then R.MediaFreed(Zero) else evt
  }

  /**
   * `MediaPlayerEventFactory.CreateEvent`: the event for a native record, or
   * None for any discriminant outside the player and media groups.  The
   * event mask is accepted and never read.
   */
  function CreateEvent(evt: R.NativeEvent, eventMask: int, look: R.Lookups): (r: Option<Event>)
    ensures r.Some? <==> R.Group(evt) == R.PlayerGroup || R.Group(evt) == R.MediaGroup
    ensures r.Some? ==> !IsSemantic(r.value)
    ensures r.Some? && r.value.MediaPlayerMediaChanged? ==> r.value.mrl == look.mrl(r.value.media)
    ensures evt.MediaPlayerSnapshotTaken? ==> r.Some? && r.value.MediaPlayerSnapshotTaken? && r.value.filename == look.text(evt.psz_filename)
  {
    match evt
    case MediaPlayerMediaChanged(md) => Some(MediaPlayerMediaChanged(md, look.mrl(md)))
    case MediaPlayerNothingSpecial => Some(MediaPlayerNothingSpecial)
    case MediaPlayerOpening => Some(MediaPlayerOpening)
    case MediaPlayerBuffering(c) => Some(MediaPlayerBuffering(c))
    case MediaPlayerPlaying => Some(MediaPlayerPlaying)
    case MediaPlayerPaused => Some(MediaPlayerPaused)
    case MediaPlayerStopped => Some(MediaPlayerStopped)
    case MediaPlayerForward => Some(MediaPlayerForward)
    case MediaPlayerBackward => Some(MediaPlayerBackward)
    case MediaPlayerEndReached => Some(MediaPlayerEndReached)
    case MediaPlayerEncounteredError => Some(MediaPlayerEncounteredError)
    case MediaPlayerTimeChanged(t) => Some(MediaPlayerTimeChanged(t))
    case MediaPlayerPositionChanged(p) => Some(MediaPlayerPositionChanged(p))
    case MediaPlayerSeekableChanged(v) => Some(MediaPlayerSeekableChanged(v))
    case MediaPlayerPausableChanged(v) => Some(MediaPlayerPausableChanged(v))
    case MediaPlayerTitleChanged(v) => Some(MediaPlayerTitleChanged(v))
    case MediaPlayerSnapshotTaken(f) => Some(MediaPlayerSnapshotTaken(look.text(f)))
    case MediaPlayerLengthChanged(v) => Some(MediaPlayerLengthChanged(v))
    case MediaPlayerVout(v) => Some(MediaPlayerVout(v))
    case MediaMetaChanged(v) => Some(MediaMetaChanged(v))
    case MediaSubItemAdded(p) => Some(MediaSubItemAdded(p))
    case MediaDurationChanged(v) => Some(MediaDurationChanged(v))
    case MediaParsedChanged(v) => Some(MediaParsedChanged(v))
    case MediaFreed(_) => Some(MediaFreed)
    case MediaStateChanged(v) => Some(MediaStateChanged(v))
    case _ => None
  }

  /**
   * The factory loses nothing but the looked-up strings and a freed media's
   * handle: the record of the event it builds is the record it was given.
   */
  lemma CreateEventRecords(evt: R.NativeEvent, eventMask: int, look: R.Lookups)
    ensures CreateEvent(evt, eventMask, look).Some? ==>
      Record(CreateEvent(evt, eventMask, look).value, FilenamePointer(evt)) == Some(Normalised(evt))
  {
    if R.Group(evt) == R.PlayerGroup {
      PlayerEventRecords(evt, eventMask, look);
    } else if R.Group(evt) == R.MediaGroup {
      MediaEventRecords(evt, eventMask, look);
    }
  }

  lemma PlayerEventRecords(evt: R.NativeEvent, eventMask: int, look: R.Lookups)
    requires R.Group(evt) == R.PlayerGroup
    ensures Record(CreateEvent(evt, eventMask, look).value, FilenamePointer(evt)) == Some(Normalised(evt))
  {
  }

  lemma MediaEventRecords(evt: R.NativeEvent, eventMask: int, look: R.Lookups)
    requires R.Group(evt) == R.MediaGroup
    ensures Record(CreateEvent(evt, eventMask, look).value, FilenamePointer(evt)) == Some(Normalised(evt))
  {
  }

  /**
   * The other direction: every non-semantic event whose looked-up strings
   * agree with the lookups is what the factory builds from its record, for
   * every event mask.
   */
  lemma CreateEventFromRecord(e: Event, filename: Ptr, look: R.Lookups)
    requires !IsSemantic(e)
    requires e.MediaPlayerMediaChanged? ==> e.mrl == look.mrl(e.media)
    requires e.MediaPlayerSnapshotTaken? ==> e.filename == look.text(filename)
    ensures Record(e, filename).Some?
    ensures forall mask :: CreateEvent(Record(e, filename).value, mask, look) == Some(e)
  {
  }

  /** `CreateMediaNewEvent`: never null. */
  function CreateMediaNewEvent(eventMask: int): (r: Option<Event>)
    ensures r.Some? && r.value.MediaNew?
  {
    Some(MediaNew)
  }

  /** `CreateMediaSubItemPlayedEvent`: never null, carries the given index. */
  function CreateMediaSubItemPlayedEvent(subItemIndex: int, eventMask: int): (r: Option<Event>)
    ensures r.Some? && r.value.MediaSubItemPlayed? && r.value.subItemIndex == subItemIndex
  {
    Some(MediaSubItemPlayed(subItemIndex))
  }

  /** `CreateMediaSubItemFinishedEvent`: never null, carries the given index. */
  function CreateMediaSubItemFinishedEvent(subItemIndex: int, eventMask: int): (r: Option<Event>)
    ensures r.Some? && r.value.MediaSubItemFinished? && r.value.subItemIndex == subItemIndex
  {
    Some(MediaSubItemFinished(subItemIndex))
  }

  /** `RreateMediaEndOfSubItemsEvent` (so spelt in the source): never null. */
  function RreateMediaEndOfSubItemsEvent(eventMask: int): (r: Option<Event>)
    ensures r.Some? && r.value.MediaEndOfSubItems?
  {
    Some(MediaEndOfSubItems)
  }

  /**
   * `Notify`: the listener callback an event delivers.  The listener
   * interface has no callback for NothingSpecial, so that event delivers
   * none.
   */
  function Notify(e: Event): (r: Option<L.Callback>)
    ensures r.None? <==> e.MediaPlayerNothingSpecial?
  {
    match e
    case MediaPlayerMediaChanged(media, mrl) => Some(L.MediaChanged(media, mrl))
    case MediaPlayerNothingSpecial => None
    case MediaPlayerOpening => Some(L.Opening)
    case MediaPlayerBuffering(c) => Some(L.Buffering(c))
    case MediaPlayerPlaying => Some(L.Playing)
    case MediaPlayerPaused => Some(L.Paused)
    case MediaPlayerStopped => Some(L.Stopped)
    case MediaPlayerForward => Some(L.Forward)
    case MediaPlayerBackward => Some(L.Backward)
    case MediaPlayerEndReached => Some(L.Finished)
    case MediaPlayerEncounteredError => Some(L.Error)
    case MediaPlayerTimeChanged(t) => Some(L.TimeChanged(t))
    case MediaPlayerPositionChanged(p) => Some(L.PositionChanged(p))
    case MediaPlayerSeekableChanged(v) => Some(L.SeekableChanged(v))
    case MediaPlayerPausableChanged(v) => Some(L.PausableChanged(v))
    case MediaPlayerTitleChanged(v) => Some(L.TitleChanged(v))
    case MediaPlayerSnapshotTaken(f) => Some(L.SnapshotTaken(f))
    case MediaPlayerLengthChanged(v) => Some(L.LengthChanged(v))
    case MediaPlayerVout(v) => Some(L.VideoOutput(v))
    case MediaMetaChanged(v) => Some(L.MediaMetaChanged(v))
    case MediaSubItemAdded(p) => Some(L.MediaSubItemAdded(p))
    case MediaDurationChanged(v) => Some(L.MediaDurationChanged(v))
    case MediaParsedChanged(v) => Some(L.MediaParsedChanged(v))
    case MediaFreed => Some(L.MediaFreed)
    case MediaStateChanged(v) => Some(L.MediaStateChanged(v))
    case MediaNew => Some(L.NewMedia)
    case MediaSubItemPlayed(i) => Some(L.SubItemPlayed(i))
    case MediaSubItemFinished(i) => Some(L.SubItemFinished(i))
    case MediaEndOfSubItems => Some(L.EndOfSubItems)
  }

  /** Notification forwards every field: distinct events reach listeners distinctly. */
  lemma NotifyInjective(a: Event, b: Event)
    requires Notify(a).Some? && Notify(a) == Notify(b)
    ensures a == b
  {
  }
}
