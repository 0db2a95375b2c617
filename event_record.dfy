/**
 * `libvlc_event_t`: the event record libvlc passes to a registered callback.
 * The source declares it as a discriminant plus an explicit-layout union; the
 * model is a tagged sum with one constructor per discriminant, each carrying
 * the union member that discriminant's payload is read from.  The emitting
 * object (`pObj`) is never read by the modelled code and is omitted.
 */
module EventRecord {

  import opened Wrappers
  import opened Native

  datatype NativeEvent =
    // media events
    | MediaMetaChanged(meta_type: int)
    | MediaSubItemAdded(new_child: Ptr)
    | MediaDurationChanged(new_duration: int)
    | MediaParsedChanged(new_status: int)
    | MediaFreed(md: Ptr)
    | MediaStateChanged(new_state: int)
    // media player events
    | MediaPlayerMediaChanged(md: Ptr)
    | MediaPlayerNothingSpecial
    | MediaPlayerOpening
    | MediaPlayerBuffering(new_cache: real)
    | MediaPlayerPlaying
    | MediaPlayerPaused
    | MediaPlayerStopped
    | MediaPlayerForward
    | MediaPlayerBackward
    | MediaPlayerEndReached
    | MediaPlayerEncounteredError
    | MediaPlayerTimeChanged(new_time: int)
    | MediaPlayerPositionChanged(new_position: real)
    | MediaPlayerSeekableChanged(new_seekable: int)
    | MediaPlayerPausableChanged(new_pausable: int)
    | MediaPlayerTitleChanged(new_title: int)
    | MediaPlayerSnapshotTaken(psz_filename: Ptr)
    | MediaPlayerLengthChanged(new_length: int)
    | MediaPlayerVout(new_count: int)
    // media list events: the union declares no member for their
    // `libvlc_media_list_event_t` payload, so none can be read
    | MediaListItemAdded
    | MediaListWillAddItem
    | MediaListItemDeleted
    | MediaListWillDeleteItem
    // media list player events
    | MediaListPlayerPlayed
    | MediaListPlayerNextItemSet(item: Ptr)
    | MediaListPlayerStopped
    // every other `libvlc_event_e` value (discoverer, VLM, ...)
    | Unlisted(code: int)

  /** The groups `libvlc_event_e` is declared in. */
  datatype EventGroup = MediaGroup | PlayerGroup | ListGroup | ListPlayerGroup | OtherGroup

  function Group(e: NativeEvent): EventGroup
  {
    match e
    case MediaMetaChanged(_) => MediaGroup
    case MediaSubItemAdded(_) => MediaGroup
    case MediaDurationChanged(_) => MediaGroup
    case MediaParsedChanged(_) => MediaGroup
    case MediaFreed(_) => MediaGroup
    case MediaStateChanged(_) => MediaGroup
    case MediaListItemAdded => ListGroup
    case MediaListWillAddItem => ListGroup
    case MediaListItemDeleted => ListGroup
    case MediaListWillDeleteItem => ListGroup
    case MediaListPlayerPlayed => ListPlayerGroup
    case MediaListPlayerNextItemSet(_) => ListPlayerGroup
    case MediaListPlayerStopped => ListPlayerGroup
    case Unlisted(_) => OtherGroup
    case _ => PlayerGroup
  }

  /**
   * The native lookups an event factory makes while it builds an event:
   * `mrl` is the component's `Mrl(handle)` and `text` is
   * `NativeString.String`, both as seen at that moment.
   */
  datatype Lookups = Lookups(mrl: Ptr -> Option<string>, text: Ptr -> Option<string>)
}
