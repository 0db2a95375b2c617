/**
 * `MediaList`: a native media list, the media descriptors it creates and
 * inserts under the list lock, the items it reads back, its listener
 * registry and its notification executor.
 */
module MediaList {

  import opened Wrappers
  import opened Native
  import opened NativeString
  import opened Executor
  import opened Listeners
  import opened MediaOptions
  import R = EventRecord
  import E = MediaListEvents

  // ---------------------------------------------------------------------------
  // The native list's contents

  /** `libvlc_media_list_item_at_index`: the media at `i`, or Zero when there is none. */
  function ItemAt(items: seq<Ptr>, i: int): Ptr
  {
    if 0 <= i < |items| then items[i] else Zero
  }

  /** `libvlc_media_list_remove_index`: None when the index is out of range. */
  function RemoveIndex(items: seq<Ptr>, i: int): (r: Option<seq<Ptr>>)
    ensures r.Some? <==> 0 <= i < |items|
    ensures r.Some? ==> |r.value| == |items| - 1 && multiset(r.value) == multiset(items) - multiset{items[i]}
  {
    if 0 <= i < |items| then
      assert items == items[..i] + [items[i]] + items[i + 1..];
      Some(items[..i] + items[i + 1..])
    else None
  }

  /** `libvlc_media_list_insert_media`: at a position from 0 to the count; elsewhere the list is unchanged. */
  function InsertAt(items: seq<Ptr>, d: Ptr, i: int): (r: seq<Ptr>)
    ensures 0 <= i <= |items| ==> |r| == |items| + 1 && r[i] == d && multiset(r) == multiset(items) + multiset{d}
    ensures !(0 <= i <= |items|) ==> r == items
  {
    if 0 <= i <= |items| then
      assert items == items[..i] + items[i..];
      items[..i] + [d] + items[i..]
    else items
  }

  /** The indices `Clear` removes: from `count - 1` down to 0. */
  function CountDown(count: nat): (r: seq<int>)
    ensures |r| == count
    ensures forall k :: 0 <= k < |r| ==> r[k] == count - 1 - k
  {
    if count == 0 then [] else [count - 1] + CountDown(count - 1)
  }

  function RemoveCalls(l: Ptr, indices: seq<int>): (r: seq<Call>)
    ensures |r| == |indices|
  {
    seq(|indices|, k requires 0 <= k < |indices| => ListRemoveIndex(l, indices[k]))
  }

  lemma RemoveCallsSnoc(l: Ptr, indices: seq<int>, n: nat)
    requires n < |indices|
    ensures RemoveCalls(l, indices[..n + 1]) == RemoveCalls(l, indices[..n]) + [ListRemoveIndex(l, indices[n])]
  {
  }

  // ---------------------------------------------------------------------------
  // Lock brackets and references

  /** `t` runs under the lock of `l`: it takes the lock first, gives it back last, and touches it nowhere else. */
  predicate Bracketed(l: Ptr, t: seq<Call>)
  {
    && |t| >= 2 && t[0] == ListLock(l) && t[|t| - 1] == ListUnlock(l)
    && ListLock(l) !in t[1..|t| - 1] && ListUnlock(l) !in t[1..|t| - 1]
  }

  lemma BracketedOf(l: Ptr, mid: seq<Call>)
    requires ListLock(l) !in mid && ListUnlock(l) !in mid
    ensures Bracketed(l, [ListLock(l)] + mid + [ListUnlock(l)])
  {
    var t := [ListLock(l)] + mid + [ListUnlock(l)];
    assert t[1..|t| - 1] == mid;
  }

  /** Locking and unlocking take and give back no reference. */
  lemma BracketNet(l: Ptr, mid: seq<Call>, p: Ptr)
    ensures Net([ListLock(l)] + mid + [ListUnlock(l)], p) == Net(mid, p)
  {
    NetOne(ListLock(l), p);
    NetOne(ListUnlock(l), p);
    NetAppend([ListLock(l)], mid, p);
    NetAppend([ListLock(l)] + mid, [ListUnlock(l)], p);
  }

  // ---------------------------------------------------------------------------
  // Media descriptors

  /** The descriptor `newMediaDescriptor` returns: Zero for a null MRL. */
  function Descriptor(mrl: Option<string>, newMedia: Ptr): Ptr
  {
    if mrl.Some? then newMedia else Zero
  }

  /**
   * The calls `newMediaDescriptor` makes: the new media, then its options
   * (none for a null MRL).
   */
  function DescriptorCalls(l: Ptr, mrl: Option<string>, newMedia: Ptr,
                           standard: Option<seq<Option<string>>>, options: Option<seq<Option<string>>>): seq<Call>
  {
    if mrl.None? then [] else [MediaNewPath(mrl.value, newMedia)] + DescriptorOptionCalls(l, newMedia, standard, options)
  }

  /** Only when the list handle is non-zero: the standard options, then the call's options. */
  function DescriptorOptionCalls(l: Ptr, newMedia: Ptr,
                                 standard: Option<seq<Option<string>>>, options: Option<seq<Option<string>>>): (r: seq<Call>)
    ensures forall k :: 0 <= k < |r| ==> r[k].MediaAddOption?
  {
    if l != Zero then OptionCalls(newMedia, standard) + OptionCalls(newMedia, options) else []
  }

  /** Adding options takes and gives back no reference. */
  lemma {:induction false} AddOptionsInert(t: seq<Call>, p: Ptr)
    requires forall k :: 0 <= k < |t| ==> t[k].MediaAddOption?
    ensures Net(t, p) == 0
    decreases |t|
  {
    if t != [] {
      var init, last := t[..|t| - 1], t[|t| - 1];
      assert t == init + [last];
      AddOptionsInert(init, p);
      NetOne(last, p);
      NetAppend(init, [last], p);
    }
  }

  /** Building a descriptor keeps the one reference it returns. */
  lemma DescriptorNet(l: Ptr, mrl: Option<string>, newMedia: Ptr,
                      standard: Option<seq<Option<string>>>, options: Option<seq<Option<string>>>, p: Ptr)
    ensures Net(DescriptorCalls(l, mrl, newMedia, standard, options), p)
         == if p != Zero && p == Descriptor(mrl, newMedia) then 1 else 0
  {
    if mrl.Some? {
      var opts := DescriptorOptionCalls(l, newMedia, standard, options);
      var c := MediaNewPath(mrl.value, newMedia);
      AddOptionsInert(opts, p);
      NetOne(c, p);
      NetAppend([c], opts, p);
      assert Takes(c, p) - Gives(c, p) == if p != Zero && p == newMedia then 1 else 0;
    }
  }

  /** Building a descriptor never touches a list lock. */
  lemma DescriptorUnlocked(l: Ptr, mrl: Option<string>, newMedia: Ptr,
                           standard: Option<seq<Option<string>>>, options: Option<seq<Option<string>>>, k: Ptr)
    ensures ListLock(k) !in DescriptorCalls(l, mrl, newMedia, standard, options)
    ensures ListUnlock(k) !in DescriptorCalls(l, mrl, newMedia, standard, options)
  {
    if mrl.Some? {
      var opts := DescriptorOptionCalls(l, newMedia, standard, options);
      assert ListLock(k) !in opts && ListUnlock(k) !in opts;
    }
  }

  /**
   * `AddMedia` (no index) and `InsertMedia` (an index): locked, the
   * descriptor built and inserted, its reference released, unlocked.
   */
  function InsertCalls(l: Ptr, index: Option<int>, mrl: Option<string>, newMedia: Ptr,
                       standard: Option<seq<Option<string>>>, options: Option<seq<Option<string>>>): seq<Call>
  {
    var d := Descriptor(mrl, newMedia);
    [ListLock(l)] + (DescriptorCalls(l, mrl, newMedia, standard, options) + [InsertCall(l, index, d), MediaRelease(d)])
      + [ListUnlock(l)]
  }

  /** `libvlc_media_list_add_media` without an index, `libvlc_media_list_insert_media` with one. */
  function InsertCall(l: Ptr, index: Option<int>, d: Ptr): Call
  {
    if index.None? then ListAddMedia(l, d) else ListInsertMedia(l, d, index.value)
  }

  /**
   * Adding or inserting holds the list lock throughout, and the descriptor
   * reference it creates it also releases.
   */
  lemma InsertCallsLockedAndBalanced(l: Ptr, index: Option<int>, mrl: Option<string>, newMedia: Ptr,
                                     standard: Option<seq<Option<string>>>, options: Option<seq<Option<string>>>, p: Ptr)
    ensures Bracketed(l, InsertCalls(l, index, mrl, newMedia, standard, options))
    ensures Net(InsertCalls(l, index, mrl, newMedia, standard, options), p) == 0
  {
    InsertCallsLocked(l, index, mrl, newMedia, standard, options);
    InsertCallsBalanced(l, index, mrl, newMedia, standard, options, p);
  }

  /** Adding or inserting takes the list lock first, gives it back last, and touches it nowhere else. */
  lemma InsertCallsLocked(l: Ptr, index: Option<int>, mrl: Option<string>, newMedia: Ptr,
                          standard: Option<seq<Option<string>>>, options: Option<seq<Option<string>>>)
    ensures Bracketed(l, InsertCalls(l, index, mrl, newMedia, standard, options))
  {
    var d := Descriptor(mrl, newMedia);
    var dc := DescriptorCalls(l, mrl, newMedia, standard, options);
    var tail := [InsertCall(l, index, d), MediaRelease(d)];
    DescriptorUnlocked(l, mrl, newMedia, standard, options, l);
    NotInAppend(dc, tail, ListLock(l));
    NotInAppend(dc, tail, ListUnlock(l));
    BracketedOf(l, dc + tail);
  }

  lemma NotInAppend<T>(a: seq<T>, b: seq<T>, x: T)
    requires x !in a && x !in b
    ensures x !in a + b
  {
  }

  /** Adding or inserting gives back every reference it takes. */
  lemma InsertCallsBalanced(l: Ptr, index: Option<int>, mrl: Option<string>, newMedia: Ptr,
                            standard: Option<seq<Option<string>>>, options: Option<seq<Option<string>>>, p: Ptr)
    ensures Net(InsertCalls(l, index, mrl, newMedia, standard, options), p) == 0
  {
    var d := Descriptor(mrl, newMedia);
    var insert := InsertCall(l, index, d);
    var dc := DescriptorCalls(l, mrl, newMedia, standard, options);
    var tail := [insert, MediaRelease(d)];
    DescriptorNet(l, mrl, newMedia, standard, options, p);
    NetOne(insert, p);
    NetOne(MediaRelease(d), p);
    assert [insert] + [MediaRelease(d)] == tail;
    NetAppend([insert], [MediaRelease(d)], p);
    NetAppend(dc, tail, p);
    BracketNet(l, dc + tail, p);
  }

  /** The calls `RemoveMedia` makes; `itemAt` is what `libvlc_media_list_item_at_index` returns. */
  function RemoveMediaCalls(l: Ptr, index: int, itemAt: Ptr): seq<Call>
  {
    [ListLock(l)] + LookedUpCalls(l, index, itemAt) + [ListUnlock(l)]
  }

  /** `RemoveMedia` holds the lock throughout and gives back the reference the lookup took. */
  lemma RemoveMediaLockedAndBalanced(l: Ptr, index: int, itemAt: Ptr, p: Ptr)
    ensures Bracketed(l, RemoveMediaCalls(l, index, itemAt))
    ensures Net(RemoveMediaCalls(l, index, itemAt), p) == 0
  {
    RemoveMediaLocked(l, index, itemAt);
    RemoveMediaBalanced(l, index, itemAt, p);
  }

  /** Removal takes the list lock first, gives it back last, and touches it nowhere else. */
  lemma RemoveMediaLocked(l: Ptr, index: int, itemAt: Ptr)
    ensures Bracketed(l, RemoveMediaCalls(l, index, itemAt))
  {
    var rest: seq<Call> := if itemAt != Zero then [ListRemoveIndex(l, index), MediaRelease(itemAt)] else [];
    NotInAppend([ListItemAtIndex(l, index, itemAt)], rest, ListLock(l));
    NotInAppend([ListItemAtIndex(l, index, itemAt)], rest, ListUnlock(l));
    BracketedOf(l, [ListItemAtIndex(l, index, itemAt)] + rest);
  }

  /** Removal gives back the reference its lookup took. */
  lemma RemoveMediaBalanced(l: Ptr, index: int, itemAt: Ptr, p: Ptr)
    ensures Net(RemoveMediaCalls(l, index, itemAt), p) == 0
  {
    var rest: seq<Call> := if itemAt != Zero then [ListRemoveIndex(l, index), MediaRelease(itemAt)] else [];
    var mid := [ListItemAtIndex(l, index, itemAt)] + rest;
    NetOne(ListItemAtIndex(l, index, itemAt), p);
    if itemAt != Zero {
      NetOne(ListRemoveIndex(l, index), p);
      NetOne(MediaRelease(itemAt), p);
      NetAppend([ListRemoveIndex(l, index)], [MediaRelease(itemAt)], p);
      assert [ListRemoveIndex(l, index)] + [MediaRelease(itemAt)] == rest;
    }
    NetAppend([ListItemAtIndex(l, index, itemAt)], rest, p);
    BracketNet(l, mid, p);
  }

  /**
   * `newMediaDescriptor`: `newMedia` is what `libvlc_media_new_path`
   * returns and `standard` the list's standard options.  The MRL's native
   * copy is freed again.
   */
  method NewMediaDescriptor(log: CallLog, heap: NativeHeap, l: Ptr, mrl: Option<string>, newMedia: Ptr,
                            standard: Option<seq<Option<string>>>, options: Option<seq<Option<string>>>)
    returns (d: Ptr)
    requires log.Valid() && heap.Valid()
    modifies log, heap
    ensures log.Extended(old(log.calls), old(log.registered), DescriptorCalls(l, mrl, newMedia, standard, options))
    ensures heap.LiveIs(old(heap.Live()))
    ensures d == Descriptor(mrl, newMedia)
  {
    ghost var c0 := log.calls;
    var mediaPointer := heap.StringPointer(mrl);
    d := Zero;
    if mediaPointer != Zero {
      d := newMedia;
      log.Emit(MediaNewPath(mrl.value, newMedia));
      if l != Zero {
        AddBothOptions(log, heap, d, standard, options);
      }
      AppendAssoc(c0, [MediaNewPath(mrl.value, newMedia)], DescriptorOptionCalls(l, newMedia, standard, options));
      heap.Release(mediaPointer);
    }
  }

  /** The body of `AddMedia` (no index) and `InsertMedia` (an index), from lock to unlock. */
  method LockedInsert(log: CallLog, heap: NativeHeap, l: Ptr, index: Option<int>, mrl: Option<string>, newMedia: Ptr,
                      standard: Option<seq<Option<string>>>, options: Option<seq<Option<string>>>)
    returns (d: Ptr)
    requires log.Valid() && heap.Valid() && Sources(log.registered) <= {ListEvents(l)}
    modifies log, heap
    ensures log.Extended(old(log.calls), old(log.registered), InsertCalls(l, index, mrl, newMedia, standard, options))
    ensures heap.LiveIs(old(heap.Live()))
    ensures d == Descriptor(mrl, newMedia)
  {
    ghost var c0 := log.calls;
    log.Emit(ListLock(l));
    d := InsertDescriptor(log, heap, l, index, mrl, newMedia, standard, options);
    log.Emit(ListUnlock(l));
    ghost var mid := DescriptorCalls(l, mrl, newMedia, standard, options) + [InsertCall(l, index, d), MediaRelease(d)];
    AppendAssoc(c0, [ListLock(l)], mid);
    AppendAssoc(c0, [ListLock(l)] + mid, [ListUnlock(l)]);
  }

  /** The locked part of `AddMedia` and `InsertMedia`: the descriptor is built, handed to the list and released. */
  method InsertDescriptor(log: CallLog, heap: NativeHeap, l: Ptr, index: Option<int>, mrl: Option<string>, newMedia: Ptr,
                          standard: Option<seq<Option<string>>>, options: Option<seq<Option<string>>>)
    returns (d: Ptr)
    requires log.Valid() && heap.Valid() && Sources(log.registered) <= {ListEvents(l)}
    modifies log, heap
    ensures log.Extended(old(log.calls), old(log.registered),
      DescriptorCalls(l, mrl, newMedia, standard, options) + [InsertCall(l, index, d), MediaRelease(d)])
    ensures heap.LiveIs(old(heap.Live()))
    ensures d == Descriptor(mrl, newMedia)
  {
    ghost var c0 := log.calls;
    d := NewMediaDescriptor(log, heap, l, mrl, newMedia, standard, options);
    HandOver(log, l, index, d);
    AppendAssoc(c0, DescriptorCalls(l, mrl, newMedia, standard, options), [InsertCall(l, index, d), MediaRelease(d)]);
  }

  /** The descriptor `d` is added to or inserted into the list, then `ReleaseMediaDescriptor` releases it. */
  method HandOver(log: CallLog, l: Ptr, index: Option<int>, d: Ptr)
    requires log.Valid() && Sources(log.registered) <= {ListEvents(l)}
    modifies log
    ensures log.Extended(old(log.calls), old(log.registered), [InsertCall(l, index, d), MediaRelease(d)])
  {
    ghost var c0 := log.calls;
    if index.None? {
      log.Emit(ListAddMedia(l, d));
    } else {
      log.Emit(ListInsertMedia(l, d, index.value));
    }
    log.Emit(MediaRelease(d));
    AppendAssoc(c0, [InsertCall(l, index, d)], [MediaRelease(d)]);
  }

  /** The body of `RemoveMedia`, from lock to unlock; `itemAt` is what the lookup returns. */
  method LockedRemove(log: CallLog, l: Ptr, index: int, itemAt: Ptr)
    requires log.Valid() && Sources(log.registered) <= {ListEvents(l)}
    modifies log
    ensures log.Extended(old(log.calls), old(log.registered), RemoveMediaCalls(l, index, itemAt))
  {
    ghost var c0 := log.calls;
    log.Emit(ListLock(l));
    LookUpAndRemove(log, l, index, itemAt);
    log.Emit(ListUnlock(l));
    AppendAssoc(c0, [ListLock(l)], LookedUpCalls(l, index, itemAt));
    AppendAssoc(c0, [ListLock(l)] + LookedUpCalls(l, index, itemAt), [ListUnlock(l)]);
  }

  /** The locked part of `RemoveMedia`: the lookup, then, when it found a media, its removal and release. */
  function LookedUpCalls(l: Ptr, index: int, itemAt: Ptr): seq<Call>
  {
    [ListItemAtIndex(l, index, itemAt)] + (if itemAt != Zero then [ListRemoveIndex(l, index), MediaRelease(itemAt)] else [])
  }

  method LookUpAndRemove(log: CallLog, l: Ptr, index: int, itemAt: Ptr)
    requires log.Valid() && Sources(log.registered) <= {ListEvents(l)}
    modifies log
    ensures log.Extended(old(log.calls), old(log.registered), LookedUpCalls(l, index, itemAt))
  {
    ghost var c0 := log.calls;
    log.Emit(ListItemAtIndex(l, index, itemAt));
    if itemAt != Zero {
      log.Emit(ListRemoveIndex(l, index));
      log.Emit(MediaRelease(itemAt));
      assert log.calls == c0 + [ListItemAtIndex(l, index, itemAt)] + [ListRemoveIndex(l, index)] + [MediaRelease(itemAt)];
    }
  }

  /** The loop of `Clear`: removes every index of `items` from the last down to 0. */
  method RemoveAll(log: CallLog, l: Ptr, items: seq<Ptr>) returns (rest: seq<Ptr>)
    requires log.Valid()
    modifies log
    ensures log.Extended(old(log.calls), old(log.registered), RemoveCalls(l, CountDown(|items|)))
    ensures rest == []
  {
    ghost var c0, r0 := log.calls, log.registered;
    rest := items;
    var i := |items| - 1;
    while i >= 0
      invariant -1 <= i < |items|
      invariant rest == items[..i + 1]
      invariant log.Extended(c0, r0, RemoveCalls(l, CountDown(|items|)[..|items| - 1 - i]))
    {
      rest := RemoveStep(log, l, items, rest, i, c0, r0);
      i := i - 1;
    }
    assert CountDown(|items|)[..|items|] == CountDown(|items|);
  }

  /** One pass of the loop of `Clear`: index `i`, the last one left, is removed. */
  method RemoveStep(log: CallLog, l: Ptr, ghost items: seq<Ptr>, rest: seq<Ptr>, i: int,
                    ghost c0: seq<Call>, ghost r0: Registrations) returns (rest': seq<Ptr>)
    requires 0 <= i < |items| && rest == items[..i + 1]
    requires log.Extended(c0, r0, RemoveCalls(l, CountDown(|items|)[..|items| - 1 - i]))
    modifies log
    ensures rest' == items[..i]
    ensures log.Extended(c0, r0, RemoveCalls(l, CountDown(|items|)[..|items| - i]))
  {
    ghost var done := RemoveCalls(l, CountDown(|items|)[..|items| - 1 - i]);
    var removed := RemoveIndex(rest, i);
    log.Emit(ListRemoveIndex(l, i));
    RemoveCallsSnoc(l, CountDown(|items|), |items| - 1 - i);
    AppendAssoc(c0, done, [ListRemoveIndex(l, i)]);
    rest' := removed.value;
    assert rest' == items[..i];
  }

  // ---------------------------------------------------------------------------
  // Items

  /** A native media list as `Items` walks it: its handle and the media it holds, in order. */
  datatype NativeList = NativeList(handle: Ptr, items: seq<NativeMedia>)

  /** A native media as `NewMediaListItem` reads it: its handle, title, MRL and sub-item list. */
  datatype NativeMedia = NativeMedia(handle: Ptr, title: Option<string>, mrl: Option<string>, subItems: NativeList)

  /** `MediaListItem`: name, MRL and sub-items. */
  datatype MediaListItem = MediaListItem(name: Option<string>, mrl: Option<string>, subItems: seq<MediaListItem>)

  /** The item built for `m`: with no sub-item list the sub-items are empty, not missing. */
  function ItemOf(m: NativeMedia): (r: MediaListItem)
    ensures r.name == m.title && r.mrl == m.mrl
    ensures |r.subItems| == if m.subItems.handle == Zero then 0 else |m.subItems.items|
    decreases m
  {
    var s := m.subItems;
    MediaListItem(m.title, m.mrl, if s.handle == Zero then [] else ItemsOf(s))
  }

  /** The items built for every entry of `l`, in order. */
  function ItemsOf(l: NativeList): (r: seq<MediaListItem>)
    ensures |r| == |l.items|
    decreases l
  {
    seq(|l.items|, k requires 0 <= k < |l.items| => ItemOf(l.items[k]))
  }

  /**
   * The calls `NewMediaListItem` makes for `m`: the sub-item list is fetched
   * and, when there is one, walked under its lock (each child released) and
   * released.
   */
  function ItemCalls(m: NativeMedia): seq<Call>
    decreases m
  {
    var s := m.subItems;
    [MediaSubitems(m.handle, s.handle)]
      + (if s.handle == Zero then []
         else ItemsCalls(s, true) + [ListRelease(s.handle)])
  }

  /** The calls of a locked walk over `l`; `Items` as written never releases an entry. */
  function ItemsCalls(l: NativeList, release: bool): seq<Call>
    decreases l, |l.items| + 1
  {
    [ListLock(l.handle)] + Walk(l, |l.items|, release) + [ListUnlock(l.handle)]
  }

  /** The calls for the first `n` entries of a list walk. */
  function Walk(l: NativeList, n: nat, release: bool): seq<Call>
    requires n <= |l.items|
    decreases l, n
  {
    if n == 0 then [] else Walk(l, n - 1, release) + EntryCalls(l, n - 1, release)
  }

  /** Entry `k` of a list walk: fetched, converted and, when `release` holds, released. */
  function EntryCalls(l: NativeList, k: nat, release: bool): seq<Call>
    requires k < |l.items|
    decreases l, k, 0
  {
    var m := l.items[k];
    [ListItemAtIndex(l.handle, k, m.handle)] + ItemCalls(m) + (if release then [MediaRelease(m.handle)] else [])
  }

  /** How many of `ms` have the non-zero handle `p`. */
  function HandleCount(ms: seq<NativeMedia>, p: Ptr): nat
    decreases |ms|
  {
    if ms == [] then 0
    else HandleCount(ms[..|ms| - 1], p) + (if p != Zero && ms[|ms| - 1].handle == p then 1 else 0)
  }

  /** What one entry keeps, given that converting its media keeps nothing. */
  lemma EntryNet(l: NativeList, k: nat, release: bool, p: Ptr)
    requires k < |l.items|
    requires Net(ItemCalls(l.items[k]), p) == 0
    ensures Net(EntryCalls(l, k, release), p)
         == if !release && p != Zero && l.items[k].handle == p then 1 else 0
  {
    var m := l.items[k];
    var fetch := [ListItemAtIndex(l.handle, k, m.handle)];
    var rel: seq<Call> := if release then [MediaRelease(m.handle)] else [];
    NetOne(ListItemAtIndex(l.handle, k, m.handle), p);
    if release {
      NetOne(MediaRelease(m.handle), p);
    }
    NetAppend(fetch, ItemCalls(m), p);
    NetAppend(fetch + ItemCalls(m), rel, p);
  }

  /**
   * The first `n` entries of a list walk give back what they take, except
   * the entries' own media when the walk does not release them.
   */
  lemma {:induction false} WalkNet(l: NativeList, n: nat, release: bool, p: Ptr)
    requires n <= |l.items|
    requires forall k {:trigger ItemCalls(l.items[k])} :: 0 <= k < n ==> Net(ItemCalls(l.items[k]), p) == 0
    ensures Net(Walk(l, n, release), p) == if release then 0 else HandleCount(l.items[..n], p)
  {
    if n > 0 {
      assert Net(ItemCalls(l.items[n - 1]), p) == 0;
      WalkNet(l, n - 1, release, p);
      WalkStep(l, n, release, p);
    }
  }

  lemma WalkStep(l: NativeList, n: nat, release: bool, p: Ptr)
    requires 0 < n <= |l.items|
    requires Net(ItemCalls(l.items[n - 1]), p) == 0
    ensures Net(Walk(l, n, release), p)
         == Net(Walk(l, n - 1, release), p) + (if !release && p != Zero && l.items[n - 1].handle == p then 1 else 0)
    ensures HandleCount(l.items[..n], p)
         == HandleCount(l.items[..n - 1], p) + (if p != Zero && l.items[n - 1].handle == p then 1 else 0)
  {
    EntryNet(l, n - 1, release, p);
    NetAppend(Walk(l, n - 1, release), EntryCalls(l, n - 1, release), p);
    assert l.items[..n][..n - 1] == l.items[..n - 1];
  }

  /** A locked walk over `l` gives back what it takes, except the entries when they are not released. */
  lemma {:induction false} ItemsNet(l: NativeList, release: bool, p: Ptr)
    ensures Net(ItemsCalls(l, release), p) == if release then 0 else HandleCount(l.items, p)
    decreases l, 1
  {
    forall k | 0 <= k < |l.items|
      ensures Net(ItemCalls(l.items[k]), p) == 0
    {
      ItemCallsBalanced(l.items[k], p);
    }
    WalkNet(l, |l.items|, release, p);
    assert l.items[..|l.items|] == l.items;
    BracketNet(l.handle, Walk(l, |l.items|, release), p);
  }

  /** `NewMediaListItem` gives back every reference it takes, at every depth. */
  lemma {:induction false} ItemCallsBalanced(m: NativeMedia, p: Ptr)
    ensures Net(ItemCalls(m), p) == 0
    decreases m, 0
  {
    if m.subItems.handle != Zero {
      ItemsNet(m.subItems, true, p);
    }
    ItemCallsNet(m, p);
  }

  /** Fetching and releasing the sub-item list cancel out, leaving what the walk over it keeps. */
  lemma ItemCallsNet(m: NativeMedia, p: Ptr)
    requires m.subItems.handle != Zero ==> Net(ItemsCalls(m.subItems, true), p) == 0
    ensures Net(ItemCalls(m), p) == 0
  {
    var s := m.subItems;
    var fetch := [MediaSubitems(m.handle, s.handle)];
    NetOne(MediaSubitems(m.handle, s.handle), p);
    if s.handle == Zero {
      assert ItemCalls(m) == fetch;
      assert Takes(MediaSubitems(m.handle, s.handle), p) == 0;
    } else {
      var rest := ItemsCalls(s, true) + [ListRelease(s.handle)];
      assert ItemCalls(m) == fetch + rest;
      NetOne(ListRelease(s.handle), p);
      NetAppend(ItemsCalls(s, true), [ListRelease(s.handle)], p);
      NetAppend(fetch, rest, p);
      assert Takes(MediaSubitems(m.handle, s.handle), p) == Gives(ListRelease(s.handle), p);
      assert Net(rest, p) == Net(ItemsCalls(s, true), p) - Gives(ListRelease(s.handle), p);
    }
  }

  /** As written, `Items` keeps one reference to `p` for every entry of the list that is `p`. */
  lemma ItemsLeaks(l: NativeList, p: Ptr)
    ensures Net(ItemsCalls(l, false), p) == HandleCount(l.items, p)
  {
    ItemsNet(l, false, p);
  }

  /** A one-item list: `Items` takes a reference to the media and never gives it back. */
  lemma ItemsLeaksExample(l: Ptr, h: Ptr)
    requires h != Zero
    ensures Net(ItemsCalls(NativeList(l, [NativeMedia(h, None, None, NativeList(Zero, []))]), false), h) == 1
  {
    var list := NativeList(l, [NativeMedia(h, None, None, NativeList(Zero, []))]);
    ItemsLeaks(list, h);
    assert list.items[..0] == [];
  }

  /** With each entry released, `Items` gives back every reference it takes. */
  lemma ItemsReleasingBalanced(l: NativeList, p: Ptr)
    ensures Net(ItemsCalls(l, true), p) == 0
  {
    ItemsNet(l, true, p);
  }

  /**
   * No callback is attached to anything a walk over `l` releases: its
   * entries when `release` holds, and every sub-item list and sub-item below.
   */
  ghost predicate NoCallbacksIn(reg: Registrations, l: NativeList, release: bool)
    decreases l
  {
    forall k :: 0 <= k < |l.items| ==>
      (release ==> MediaEvents(l.items[k].handle) !in Sources(reg)) && NoCallbacksOn(reg, l.items[k])
  }

  /** No callback is attached to a sub-item list or sub-item that `NewMediaListItem` releases while reading `m`. */
  ghost predicate NoCallbacksOn(reg: Registrations, m: NativeMedia)
    decreases m
  {
    var s := m.subItems;
    s.handle != Zero ==> ListEvents(s.handle) !in Sources(reg) && NoCallbacksIn(reg, s, true)
  }

  /** `NewMediaListItem`: builds the item for `m`, recursing into its sub-items. */
  method NewMediaListItem(log: CallLog, m: NativeMedia) returns (item: MediaListItem)
    requires log.Valid() && NoCallbacksOn(log.registered, m)
    modifies log
    ensures log.Extended(old(log.calls), old(log.registered), ItemCalls(m))
    ensures item == ItemOf(m)
    decreases m
  {
    var s := m.subItems;
    log.Emit(MediaSubitems(m.handle, s.handle));
    if s.handle == Zero {
      return MediaListItem(m.title, m.mrl, []);
    }
    var subItems := ReadList(log, s, true);
    log.Emit(ListRelease(s.handle));
    item := MediaListItem(m.title, m.mrl, subItems);
    AppendAssoc(old(log.calls), [MediaSubitems(m.handle, s.handle)], ItemsCalls(s, true) + [ListRelease(s.handle)]);
  }

  /** The body of `Items` and the sub-item part of `NewMediaListItem`: every entry of `l` read under its lock. */
  method ReadList(log: CallLog, l: NativeList, release: bool) returns (result: seq<MediaListItem>)
    requires log.Valid() && NoCallbacksIn(log.registered, l, release)
    modifies log
    ensures log.Extended(old(log.calls), old(log.registered), ItemsCalls(l, release))
    ensures result == ItemsOf(l)
    decreases l, |l.items| + 2
  {
    ghost var c0 := log.calls;
    log.Emit(ListLock(l.handle));
    result := WalkList(log, l, release);
    log.Emit(ListUnlock(l.handle));
    AppendAssoc(c0, [ListLock(l.handle)], Walk(l, |l.items|, release));
  }

  /** The loop of `Items` and of `NewMediaListItem`, from the first entry to the last. */
  method WalkList(log: CallLog, l: NativeList, release: bool) returns (result: seq<MediaListItem>)
    requires log.Valid() && NoCallbacksIn(log.registered, l, release)
    modifies log
    ensures log.Extended(old(log.calls), old(log.registered), Walk(l, |l.items|, release))
    ensures result == ItemsOf(l)
    decreases l, |l.items| + 1
  {
    ghost var c0 := log.calls;
    result := [];
    var i := 0;
    while i < |l.items|
      invariant 0 <= i <= |l.items|
      invariant log.Extended(c0, old(log.registered), Walk(l, i, release))
      invariant result == ItemsOf(l)[..i]
    {
      var item := EntryStep(log, l, i, release);
      result := result + [item];
      AppendAssoc(c0, Walk(l, i, release), EntryCalls(l, i, release));
      i := i + 1;
    }
  }

  /** One entry of a list walk: fetch, convert and, when `release` holds, release. */
  method EntryStep(log: CallLog, l: NativeList, i: nat, release: bool) returns (item: MediaListItem)
    requires i < |l.items|
    requires log.Valid() && NoCallbacksOn(log.registered, l.items[i])
    requires release ==> MediaEvents(l.items[i].handle) !in Sources(log.registered)
    modifies log
    ensures log.Extended(old(log.calls), old(log.registered), EntryCalls(l, i, release))
    ensures item == ItemOf(l.items[i])
    decreases l, i
  {
    var m := l.items[i];
    ghost var c0 := log.calls;
    log.Emit(ListItemAtIndex(l.handle, i, m.handle));
    item := NewMediaListItem(log, m);
    ghost var rel: seq<Call> := [];
    if release {
      log.Emit(MediaRelease(m.handle));
      rel := [MediaRelease(m.handle)];
    }
    AppendAssoc(c0, [ListItemAtIndex(l.handle, i, m.handle)], ItemCalls(m));
    AppendAssoc(c0, [ListItemAtIndex(l.handle, i, m.handle)] + ItemCalls(m), rel);
  }

  // ---------------------------------------------------------------------------
  // Lifecycle

  /** The callbacks attached while the list is alive. */
  function ListPairs(codes: EventCodes, l: Ptr): Registrations
  {
    Pairs(ListEvents(l), InRange(codes.values, codes.list))
  }

  /** The calls `DestroyInstance` makes: detach every list event, release the list, shut the executor down. */
  function MediaListTeardown(codes: EventCodes, l: Ptr): seq<Call>
  {
    DetachAll(ListEvents(l), InRange(codes.values, codes.list))
      + (if l != Zero then [ListRelease(l)] else [])
      + [ExecutorShutdown]
  }

  /** The detaches, then the calls `CloseListLog` records, make up the teardown. */
  lemma ListTeardownRegroup(c0: seq<Call>, codes: EventCodes, l: Ptr)
    ensures c0 + DetachAll(ListEvents(l), InRange(codes.values, codes.list))
        + ((if l != Zero then [ListRelease(l)] else []) + [ExecutorShutdown])
      == c0 + MediaListTeardown(codes, l)
  {
    var d := DetachAll(ListEvents(l), InRange(codes.values, codes.list));
    var r: seq<Call> := if l != Zero then [ListRelease(l)] else [];
    assert d + (r + [ExecutorShutdown]) == d + r + [ExecutorShutdown];
    AppendAssoc(c0, d, r + [ExecutorShutdown]);
  }

  /** One teardown releases a non-null list exactly once. */
  lemma MediaListTeardownReleasesOnce(codes: EventCodes, l: Ptr)
    requires l != Zero
    ensures multiset(MediaListTeardown(codes, l))[ListRelease(l)] == 1
  {
    var d := DetachAll(ListEvents(l), InRange(codes.values, codes.list));
    assert MediaListTeardown(codes, l) == d + [ListRelease(l)] + [ExecutorShutdown];
    CountAfterDetaches(ListEvents(l), InRange(codes.values, codes.list), ListRelease(l), [ExecutorShutdown], ListRelease(l));
  }

  /**
   * Without the commented-out `released` guard, a second `Release` detaches
   * again and releases the list a second time.
   */
  lemma MediaListReleaseTwice(codes: EventCodes, l: Ptr)
    requires l != Zero
    ensures multiset(MediaListTeardown(codes, l) + MediaListTeardown(codes, l))[ListRelease(l)] == 2
  {
    MediaListTeardownReleasesOnce(codes, l);
  }

  /** The calls `DestroyInstance` makes once the list's callbacks are detached: release, shut down. */
  method CloseListLog(log: CallLog, l: Ptr)
    requires log.Valid() && log.registered == {}
    modifies log
    ensures log.Extended(old(log.calls), {}, (if l != Zero then [ListRelease(l)] else []) + [ExecutorShutdown])
  {
    if l != Zero {
      log.Emit(ListRelease(l));
    }
    log.Emit(ExecutorShutdown);
  }

  /** `libvlc_media_list_new` unless a list is given, then every list event attached. */
  method NewListLog(instance: Ptr, codes: EventCodes, given: Ptr, newList: Ptr) returns (log: CallLog)
    ensures fresh(log) && log.Valid()
    ensures log.registered == ListPairs(codes, if given == Zero then newList else given)
    ensures log.calls == (if given == Zero then [ListNew(instance, newList)] else [])
      + AttachAll(ListEvents(if given == Zero then newList else given), InRange(codes.values, codes.list))
  {
    log := new CallLog();
    var l := given;
    if given == Zero {
      log.Emit(ListNew(instance, newList));
      l := newList;
    }
    log.AttachRange(ListEvents(l), codes.values, codes.list);
  }

  class MediaList {
    const instance: Ptr
    const codes: EventCodes
    const listenersService: SingleThreadExecutor<E.Event>
    const log: CallLog
    const heap: NativeHeap
    const mediaListInstance: Ptr

    var eventListenerList: seq<AppListener>
    var standardMediaOptions: Option<seq<Option<string>>>
    /** The media the native list holds, in order. */
    var items: seq<Ptr>
    /** The guard of the corrected `ReleaseOnce`. */
    var released: bool
    /** Whether `DestroyInstance` has run. */
    ghost var destroyed: bool

    ghost predicate Valid()
      reads this, log, listenersService, heap
    {
      && log.Valid() && listenersService.Valid() && heap.Valid()
      && log.registered == (if destroyed then {} else ListPairs(codes, mediaListInstance))
      && (destroyed <==> listenersService.shutdownRequested)
      && (released ==> destroyed)
    }

    /**
     * The constructor and `CreateInstance`: a new native list is made only
     * when none is given (`newList` is what `libvlc_media_list_new`
     * returns; `contents` is what a given list holds), then every list event
     * is attached.
     */
    constructor (instance: Ptr, codes: EventCodes, heap: NativeHeap, given: Ptr, contents: seq<Ptr>, newList: Ptr)
      requires heap.Valid()
      ensures Valid() && !destroyed && !released
      ensures fresh(log) && fresh(listenersService) && this.heap == heap
      ensures mediaListInstance == (if given == Zero then newList else given)
      ensures items == (if given == Zero then [] else contents)
      ensures eventListenerList == [] && standardMediaOptions.None?
      ensures listenersService.State() == Initial()
      ensures log.calls == (if given == Zero then [ListNew(instance, newList)] else [])
        + AttachAll(ListEvents(mediaListInstance), InRange(codes.values, codes.list))
    {
      var calls := NewListLog(instance, codes, given, newList);
      this.instance := instance;
      this.codes := codes;
      this.heap := heap;
      listenersService := new SingleThreadExecutor<E.Event>();
      log := calls;
      mediaListInstance := if given == Zero then newList else given;
      items := if given == Zero then [] else contents;
      eventListenerList := [];
      standardMediaOptions := None;
      released := false;
      destroyed := false;
    }

    method AddMediaListEventListener(listener: AppListener)
      requires Valid()
      modifies this`eventListenerList
      ensures Valid() && eventListenerList == old(eventListenerList) + [listener]
    {
      eventListenerList := eventListenerList + [listener];
    }

    method RemoveListEventListener(listener: AppListener)
      requires Valid()
      modifies this`eventListenerList
      ensures Valid() && eventListenerList == RemoveFirst(old(eventListenerList), listener)
    {
      eventListenerList := RemoveFirst(eventListenerList, listener);
    }

    method SetStandardMediaOptions(options: Option<seq<Option<string>>>)
      requires Valid()
      modifies this`standardMediaOptions
      ensures Valid() && standardMediaOptions == options
    {
      standardMediaOptions := options;
    }

    /** `AddMedia`: the new descriptor is appended to the native list under its lock. */
    method AddMedia(mrl: Option<string>, options: Option<seq<Option<string>>>, newMedia: Ptr)
      requires Valid() && !destroyed
      modifies log, heap, this`items
      ensures Valid()
      ensures items == old(items) + [Descriptor(mrl, newMedia)]
      ensures log.calls == old(log.calls) + InsertCalls(mediaListInstance, None, mrl, newMedia, standardMediaOptions, options)
      ensures heap.Live() == old(heap.Live())
    {
      PairsSources(ListEvents(mediaListInstance), InRange(codes.values, codes.list));
      var d := LockedInsert(log, heap, mediaListInstance, None, mrl, newMedia, standardMediaOptions, options);
      items := items + [d];
    }

    /** `InsertMedia`: the new descriptor is inserted at `index` under the list lock. */
    method InsertMedia(index: int, mrl: Option<string>, options: Option<seq<Option<string>>>, newMedia: Ptr)
      requires Valid() && !destroyed
      modifies log, heap, this`items
      ensures Valid()
      ensures items == InsertAt(old(items), Descriptor(mrl, newMedia), index)
      ensures log.calls == old(log.calls) + InsertCalls(mediaListInstance, Some(index), mrl, newMedia, standardMediaOptions, options)
      ensures heap.Live() == old(heap.Live())
    {
      PairsSources(ListEvents(mediaListInstance), InRange(codes.values, codes.list));
      var d := LockedInsert(log, heap, mediaListInstance, Some(index), mrl, newMedia, standardMediaOptions, options);
      items := InsertAt(items, d, index);
    }

    /** `RemoveMedia`: removes and releases the media at `index` only when there is one. */
    method RemoveMedia(index: int)
      requires Valid() && !destroyed
      modifies log, this`items
      ensures Valid()
      ensures ItemAt(old(items), index) != Zero ==> items == RemoveIndex(old(items), index).value
      ensures ItemAt(old(items), index) == Zero ==> items == old(items)
      ensures log.calls == old(log.calls) + RemoveMediaCalls(mediaListInstance, index, ItemAt(old(items), index))
    {
      PairsSources(ListEvents(mediaListInstance), InRange(codes.values, codes.list));
      var oldMediaInstance := ItemAt(items, index);
      LockedRemove(log, mediaListInstance, index, oldMediaInstance);
      if oldMediaInstance != Zero {
        items := RemoveIndex(items, index).value;
      }
    }

    /** `Clear`: removes every index from the last down to 0, each in range, leaving the list empty. */
    method Clear()
      requires Valid() && !destroyed
      modifies log, this`items
      ensures Valid() && items == []
      ensures log.calls == old(log.calls) + [ListLock(mediaListInstance)]
        + RemoveCalls(mediaListInstance, CountDown(|old(items)|)) + [ListUnlock(mediaListInstance)]
    {
      log.Emit(ListLock(mediaListInstance));
      items := RemoveAll(log, mediaListInstance, items);
      log.Emit(ListUnlock(mediaListInstance));
    }

    /**
     * `Items` as written: every media the list holds is fetched and
     * converted, and none is released.  `tree` describes the media at each
     * index.
     */
    method Items(tree: seq<NativeMedia>) returns (result: seq<MediaListItem>)
      requires Valid() && !destroyed
      requires |tree| == |items| && forall k :: 0 <= k < |tree| ==> tree[k].handle == items[k]
      requires NoCallbacksIn(log.registered, NativeList(mediaListInstance, tree), false)
      modifies log
      ensures Valid()
      ensures result == ItemsOf(NativeList(mediaListInstance, tree))
      ensures log.calls == old(log.calls) + ItemsCalls(NativeList(mediaListInstance, tree), false)
    {
      result := ReadList(log, NativeList(mediaListInstance, tree), false);
    }

    /** `Items` with each fetched media released after conversion. */
    method ItemsReleasing(tree: seq<NativeMedia>) returns (result: seq<MediaListItem>)
      requires Valid() && !destroyed
      requires |tree| == |items| && forall k :: 0 <= k < |tree| ==> tree[k].handle == items[k]
      requires NoCallbacksIn(log.registered, NativeList(mediaListInstance, tree), true)
      modifies log
      ensures Valid()
      ensures result == ItemsOf(NativeList(mediaListInstance, tree))
      ensures log.calls == old(log.calls) + ItemsCalls(NativeList(mediaListInstance, tree), true)
    {
      result := ReadList(log, NativeList(mediaListInstance, tree), true);
    }

    /**
     * `DestroyInstance`: detaches every list event (unguarded), releases the
     * native list and shuts the executor down.  The listeners are kept.
     */
    method DestroyInstance()
      requires Valid()
      modifies this`destroyed, log, listenersService
      ensures Valid() && destroyed
      ensures log.calls == old(log.calls) + MediaListTeardown(codes, mediaListInstance)
      ensures listenersService.State() == RequestShutdown(old(listenersService.State()))
    {
      ghost var c0 := log.calls;
      log.DetachRange(ListEvents(mediaListInstance), codes.values, codes.list);
      listenersService.Shutdown();
      CloseListLog(log, mediaListInstance);
      destroyed := true;
      ListTeardownRegroup(c0, codes, mediaListInstance);
    }

    /** `Release` as written: its `released` guard is commented out, so every call tears down again. */
    method Release()
      requires Valid()
      modifies this`destroyed, log, listenersService
      ensures Valid() && destroyed
      ensures log.calls == old(log.calls) + MediaListTeardown(codes, mediaListInstance)
    {
      DestroyInstance();
    }

    /** `Release` with its `released` guard restored. */
    method ReleaseOnce()
      requires Valid()
      modifies this`released, this`destroyed, log, listenersService
      ensures Valid() && destroyed && released
      ensures !old(released) ==> log.calls == old(log.calls) + MediaListTeardown(codes, mediaListInstance)
      ensures old(released) ==> log.calls == old(log.calls)
    {
      if !released {
        DestroyInstance();
        released := true;
      }
    }

    /** `RaiseEvent`: only a non-null event is submitted, which throws once the executor is shut down. */
    method RaiseEvent(ev: Option<E.Event>) returns (r: Outcome)
      requires Valid()
      modifies listenersService
      ensures Valid()
      ensures ev.None? ==> r == Pass && listenersService.State() == old(listenersService.State())
      ensures ev.Some? && !destroyed ==>
        r == Pass && listenersService.State() == old(listenersService.State()).(queue := old(listenersService.queue) + [ev.value])
      ensures ev.Some? && destroyed ==>
        r == Fail(InvalidOperation(SubmitAfterShutdown)) && listenersService.State() == old(listenersService.State())
    {
      r := Pass;
      if ev.Some? {
        r := listenersService.Submit(ev.value);
      }
    }

    /**
     * `HandleEvent`, the native callback: with listeners the record is
     * decoded and raised, but the factory yields no event, so nothing is
     * ever submitted.
     */
    method HandleEvent(evt: R.NativeEvent) returns (r: Outcome)
      requires Valid()
      modifies listenersService
      ensures Valid() && r == Pass
      ensures listenersService.State() == old(listenersService.State())
    {
      r := Pass;
      if |eventListenerList| > 0 {
        r := RaiseEvent(E.CreateEvent(evt));
      }
    }

    /** `NotifyEventListenersRunnable.Run`: every listener, last-added first; a throwing one is logged and skipped. */
    method Run(e: E.Event) returns (delivered: seq<AppListener>, warned: seq<AppListener>)
      ensures delivered == Reversed(eventListenerList)
      ensures warned == Throwers(delivered)
    {
      delivered, warned := NotifyAll(eventListenerList);
    }
  }
}
