/**
 * `AddMediaOptions(mediaInstance, options)`, the private helper the media
 * player and the media list both declare with the same body: each option is
 * copied to a native string, passed to `libvlc_media_add_option` and freed;
 * a null option stops the loop with false, leaving the earlier options added.
 */
module MediaOptions {

  import opened Wrappers
  import opened Native
  import opened NativeString

  /** The options applied: those before the first null one. */
  function Accepted(options: seq<Option<string>>): (r: seq<string>)
    ensures |r| <= |options|
    ensures forall k :: 0 <= k < |r| ==> options[k] == Some(r[k])
    ensures |r| < |options| ==> options[|r|].None?
  {
    if options == [] || options[0].None? then []
    else [options[0].value] + Accepted(options[1..])
  }

  /** The native calls that add `options` to `media`, in order. */
  function AddOptionCalls(media: Ptr, options: seq<string>): (r: seq<Call>)
    ensures |r| == |options|
    ensures forall k :: 0 <= k < |r| ==> r[k] == MediaAddOption(media, options[k])
  {
    seq(|options|, k requires 0 <= k < |options| => MediaAddOption(media, options[k]))
  }

  /** Adding one more accepted option appends one call. */
  lemma AddOptionCallsSnoc(media: Ptr, accepted: seq<string>, i: nat)
    requires i < |accepted|
    ensures AddOptionCalls(media, accepted[..i + 1]) == AddOptionCalls(media, accepted[..i]) + [MediaAddOption(media, accepted[i])]
  {
  }

  /** The calls the helper makes for a possibly null options array. */
  function OptionCalls(media: Ptr, options: Option<seq<Option<string>>>): seq<Call>
  {
    if options.None? then [] else AddOptionCalls(media, Accepted(options.value))
  }

  /** True when every option was applied: a null array, or one without null entries. */
  predicate AllAccepted(options: Option<seq<Option<string>>>)
  {
    options.None? || |Accepted(options.value)| == |options.value|
  }

  /** The body of the helper's loop for an option already copied to the live string `optionPtr`. */
  method AddOption(log: CallLog, heap: NativeHeap, media: Ptr, optionPtr: Ptr, option: string)
    requires log.Valid() && heap.Valid() && optionPtr != Zero && heap.IsLive(optionPtr)
    modifies log, heap
    ensures log.Valid() && heap.Valid()
    ensures log.calls == old(log.calls) + [MediaAddOption(media, option)]
    ensures log.registered == old(log.registered)
    ensures heap.Live() == old(heap.Live()) - {optionPtr}
  {
    log.Record(MediaAddOption(media, option));
    heap.Release(optionPtr);
  }

  method AddMediaOptions(log: CallLog, heap: NativeHeap, media: Ptr, options: Option<seq<Option<string>>>) returns (ok: bool)
    requires log.Valid() && heap.Valid()
    modifies log, heap
    ensures log.Valid() && heap.Valid()
    ensures ok <==> AllAccepted(options)
    ensures log.calls == old(log.calls) + OptionCalls(media, options)
    ensures log.registered == old(log.registered)
    ensures heap.Live() == old(heap.Live())
  {
    if options.None? {
      return true;
    }
    var opts := options.value;
    ghost var accepted := Accepted(opts);
    ghost var calls0, live0 := log.calls, heap.Live();
    for i := 0 to |opts|
      invariant log.Valid() && heap.Valid()
      invariant i <= |accepted|
      invariant log.calls == calls0 + AddOptionCalls(media, accepted[..i])
      invariant log.registered == old(log.registered)
      invariant heap.Live() == live0
    {
      var optionPtr := heap.StringPointer(opts[i]);
      if optionPtr != Zero {
        assert i < |accepted| && opts[i].value == accepted[i];
        AddOptionCallsSnoc(media, accepted, i);
        AppendAssoc(calls0, AddOptionCalls(media, accepted[..i]), [MediaAddOption(media, accepted[i])]);
        assert optionPtr !in live0;
        AddOption(log, heap, media, optionPtr, opts[i].value);
      } else {
        assert i == |accepted|;
        assert accepted[..i] == accepted;
        return false;
      }
    }
    assert accepted[..|opts|] == accepted;
    return true;
  }

  /** The standard options, then the call's own options. */
  method AddBothOptions(log: CallLog, heap: NativeHeap, m: Ptr,
                        standard: Option<seq<Option<string>>>, options: Option<seq<Option<string>>>)
    requires log.Valid() && heap.Valid()
    modifies log, heap
    ensures log.Valid() && heap.Valid()
    ensures log.registered == old(log.registered)
    ensures log.calls == old(log.calls) + (OptionCalls(m, standard) + OptionCalls(m, options))
    ensures heap.Live() == old(heap.Live())
  {
    ghost var c0 := log.calls;
    var _ := AddMediaOptions(log, heap, m, standard);
    var _ := AddMediaOptions(log, heap, m, options);
    AppendAssoc(c0, OptionCalls(m, standard), OptionCalls(m, options));
  }
}
