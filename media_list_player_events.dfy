/** The callbacks of `MediaListPlayerEventListener`. */
module MediaListPlayerListener {

  import opened Wrappers
  import opened Native

  datatype Callback =
    | Played
    | NextItem(item: Ptr, itemMrl: Option<string>)
    | Stopped
    | MediaMetaChanged(metaType: int)
    | MediaSubItemAdded(subItem: Ptr)
    | MediaDurationChanged(newDuration: int)
    | MediaParsedChanged(newStatus: int)
    | MediaFreed
    | MediaStateChanged(newState: int)
}

/**
 * Media list player events and `MediaListPlayerEventFactory`.  As for the
 * media player, the list player an event belongs to is not stored.
 */
module MediaListPlayerEvents {

  import opened Wrappers
  import opened Native
  import R = EventRecord
  import L = MediaListPlayerListener

  datatype Event =
    | MediaListPlayerNextItemSet(item: Ptr, mrl: Option<string>)
    | MediaListMediaMetaChanged(metaType: int)
    | MediaListMediaSubItemAdded(subItem: Ptr)
    | MediaListMediaDurationChanged(newDuration: int)
    | MediaListMediaParsedChanged(newStatus: int)
    | MediaListMediaFreed
    | MediaListMediaStateChanged(newState: int)

  /** The native record an event was built from (a freed record's `md` is not kept). */
  function Record(e: Event): R.NativeEvent
  {
    match e
    case MediaListPlayerNextItemSet(item, _) => R.MediaListPlayerNextItemSet(item)
    case MediaListMediaMetaChanged(v) => R.MediaMetaChanged(v)
    case MediaListMediaSubItemAdded(p) => R.MediaSubItemAdded(p)
    case MediaListMediaDurationChanged(v) => R.MediaDurationChanged(v)
    case MediaListMediaParsedChanged(v) => R.MediaParsedChanged(v)
    case MediaListMediaFreed => R.MediaFreed(Zero)
    case MediaListMediaStateChanged(v) => R.MediaStateChanged(v)
  }

  /**
   * `newMediaListPlayerEvent`: NextItemSet and the media group yield an
   * event; every other discriminant, the player-level ones and the list
   * player's own Played and Stopped included, yields None.  The mask is
   * never read.
   */
  function CreateEvent(evt: R.NativeEvent, eventMask: int, look: R.Lookups): (r: Option<Event>)
    ensures r.Some? <==> evt.MediaListPlayerNextItemSet? || R.Group(evt) == R.MediaGroup
    ensures r.Some? ==> Record(r.value) == (if evt.MediaFreed? then R.MediaFreed(Zero) else evt)
    ensures r.Some? && r.value.MediaListPlayerNextItemSet? ==> r.value.mrl == look.mrl(r.value.item)
  {
    match evt
    case MediaListPlayerNextItemSet(media) => Some(MediaListPlayerNextItemSet(media, look.mrl(media)))
    case MediaMetaChanged(v) => Some(MediaListMediaMetaChanged(v))
    case MediaSubItemAdded(p) => Some(MediaListMediaSubItemAdded(p))
    case MediaDurationChanged(v) => Some(MediaListMediaDurationChanged(v))
    case MediaParsedChanged(v) => Some(MediaListMediaParsedChanged(v))
    case MediaFreed(_) => Some(MediaListMediaFreed)
    case MediaStateChanged(v) => Some(MediaListMediaStateChanged(v))
    case _ => None
  }

  /** Every event whose MRL agrees with the lookup is rebuilt from its record, for every mask. */
  lemma CreateEventFromRecord(e: Event, look: R.Lookups)
    requires e.MediaListPlayerNextItemSet? ==> e.mrl == look.mrl(e.item)
    ensures forall mask :: CreateEvent(Record(e), mask, look) == Some(e)
  {
  }

  /** `Notify`: the callback each event class invokes. */
  function Notify(e: Event): (r: L.Callback)
    ensures r.NextItem? <==> e.MediaListPlayerNextItemSet?
    ensures !r.Played? && !r.Stopped?
  {
    match e
    case MediaListPlayerNextItemSet(item, mrl) => L.NextItem(item, mrl)
    case MediaListMediaMetaChanged(v) => L.MediaMetaChanged(v)
    case MediaListMediaSubItemAdded(p) => L.MediaSubItemAdded(p)
    case MediaListMediaDurationChanged(v) => L.MediaDurationChanged(v)
    case MediaListMediaParsedChanged(v) => L.MediaParsedChanged(v)
    case MediaListMediaFreed => L.MediaFreed
    case MediaListMediaStateChanged(v) => L.MediaStateChanged(v)
  }

  /** Notification forwards every field. */
  lemma NotifyInjective(a: Event, b: Event)
    requires Notify(a) == Notify(b)
    ensures a == b
  {
  }
}
