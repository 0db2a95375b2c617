/** The callbacks of `MediaListEventListener`. */
module MediaListListener {

  import opened Native

  datatype Callback =
    | MediaListWillAddItem(mediaInstance: Ptr, index: int)
    | MediaListItemAdded(mediaInstance: Ptr, index: int)
    | MediaListWillDeleteItem(mediaInstance: Ptr, index: int)
    | MediaListItemDeleted(mediaInstance: Ptr, index: int)
}

/**
 * Media list events and `MediaListEventFactory`.  The factory's four cases
 * have their constructor calls commented out, so no native record ever
 * yields an event.
 */
module MediaListEvents {

  import opened Wrappers
  import opened Native
  import R = EventRecord
  import L = MediaListListener

  datatype Event =
    | MediaListWillAddItem(mediaInstance: Ptr, index: int)
    | MediaListItemAdded(mediaInstance: Ptr, index: int)
    | MediaListWillDeleteItem(mediaInstance: Ptr, index: int)
    | MediaListItemDeleted(mediaInstance: Ptr, index: int)

  /** `CreateEvent`: None for the list discriminants and for every other one. */
  function CreateEvent(evt: R.NativeEvent): (r: Option<Event>)
    ensures r == None
  {
    match evt
    case MediaListWillAddItem => None
    case MediaListItemAdded => None
    case MediaListWillDeleteItem => None
    case MediaListItemDeleted => None
    case _ => None
  }

  /** `Notify`: each event class invokes the callback of the same name with its fields. */
  function Notify(e: Event): (r: L.Callback)
    ensures r.mediaInstance == e.mediaInstance && r.index == e.index
    ensures r.MediaListWillAddItem? <==> e.MediaListWillAddItem?
    ensures r.MediaListItemAdded? <==> e.MediaListItemAdded?
    ensures r.MediaListWillDeleteItem? <==> e.MediaListWillDeleteItem?
  {
    match e
    case MediaListWillAddItem(m, i) => L.MediaListWillAddItem(m, i)
    case MediaListItemAdded(m, i) => L.MediaListItemAdded(m, i)
    case MediaListWillDeleteItem(m, i) => L.MediaListWillDeleteItem(m, i)
    case MediaListItemDeleted(m, i) => L.MediaListItemDeleted(m, i)
  }
}
