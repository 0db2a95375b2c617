/**
 * `MediaPlayerFactory`: the native instance it owns, and the lists of audio
 * outputs and of audio and video filters it reads from libvlc.  A native
 * list is a map from node handles to nodes; the text a node's string fields
 * hold is part of the node, as `NativeString.String` reads it.
 */
module MediaPlayerFactory {

  import opened Wrappers
  import opened Native
  import opened NativeString

  datatype ModuleDescription = ModuleDescription(name: Option<string>, shortName: Option<string>,
                                                 longName: Option<string>, help: Option<string>)

  datatype AudioDevice = AudioDevice(deviceId: Option<string>, longName: Option<string>)

  datatype AudioOutput = AudioOutput(name: Option<string>, description: Option<string>, devices: seq<AudioDevice>)

  /** The fields of a `libvlc_audio_output_t` besides `p_next`. */
  datatype OutputNode = OutputNode(name: Option<string>, description: Option<string>)

  /**
   * What libvlc answers about the devices of the output whose name a buffer
   * holds: `libvlc_audio_output_device_count`, and the device identifier and
   * long name at each index.
   */
  datatype DeviceTable = DeviceTable(
    count: Option<string> -> int,
    id: (Option<string>, int) -> Option<string>,
    longName: (Option<string>, int) -> Option<string>)

  // ---------------------------------------------------------------------------
  // Native linked lists

  /** The handle reached from `p` by following `p_next` `n` times; `Zero` once the list has ended. */
  function Follow<T>(nodes: map<Ptr, Node<T>>, p: Ptr, n: nat): Ptr
    decreases n
  {
    if n == 0 then p
    else if p != Zero && p in nodes then Follow(nodes, nodes[p].next, n - 1)
    else Zero
  }

  /** The payloads of the nodes of `path`, in order. */
  function Payloads<T>(nodes: map<Ptr, Node<T>>, path: seq<Ptr>): (r: seq<T>)
    requires forall i :: 0 <= i < |path| ==> path[i] in nodes
    ensures |r| == |path|
  {
    seq(|path|, i requires 0 <= i < |path| => nodes[path[i]].data)
  }

  lemma ChainTail<T>(nodes: map<Ptr, Node<T>>, head: Ptr, path: seq<Ptr>)
    requires Chain(nodes, head, path) && path != []
    ensures Chain(nodes, nodes[head].next, path[1..])
  {
    if |path| > 1 {
      assert nodes[path[0]].next == path[1];
    }
  }

  /** The `i`-th node of a chain is the one `i` steps of `p_next` from the head, and the chain ends in `Zero`. */
  lemma {:induction false} ChainFollow<T>(nodes: map<Ptr, Node<T>>, head: Ptr, path: seq<Ptr>)
    requires Chain(nodes, head, path)
    ensures forall i :: 0 <= i < |path| ==> path[i] == Follow(nodes, head, i)
    ensures Follow(nodes, head, |path|) == Zero
    decreases |path|
  {
    if path != [] {
      var next := nodes[head].next;
      ChainTail(nodes, head, path);
      ChainFollow(nodes, next, path[1..]);
      forall i | 1 <= i < |path|
        ensures path[i] == Follow(nodes, head, i)
      {
        assert path[i] == path[1..][i - 1];
      }
    }
  }

  /** A native list has one chain: what a walk reads depends only on the nodes and the head. */
  lemma ChainUnique<T>(nodes: map<Ptr, Node<T>>, head: Ptr, p1: seq<Ptr>, p2: seq<Ptr>)
    requires Chain(nodes, head, p1) && Chain(nodes, head, p2)
    ensures p1 == p2
  {
    ChainFollow(nodes, head, p1);
    ChainFollow(nodes, head, p2);
    if |p1| < |p2| {
      assert false;
    } else if |p2| < |p1| {
      assert false;
    }
  }

  /**
   * `GetModuleDescriptions`: follows `p_next` from the head until `Zero`,
   * one description per node, in list order; a `Zero` head gives an empty list.
   */
  method GetModuleDescriptions(nodes: map<Ptr, Node<ModuleDescription>>, head: Ptr, ghost path: seq<Ptr>)
    returns (result: seq<ModuleDescription>)
    requires Chain(nodes, head, path)
    ensures result == Payloads(nodes, path)
    ensures forall i :: 0 <= i < |result| ==> Follow(nodes, head, i) in nodes && result[i] == nodes[Follow(nodes, head, i)].data
  {
    result := [];
    var p := head;
    ghost var i := 0;
    while p != Zero
      invariant 0 <= i <= |path| && p == (if i < |path| then path[i] else Zero)
      invariant result == Payloads(nodes, path[..i])
      decreases |path| - i
    {
      var node := nodes[p];
      result := result + [node.data];
      p := node.next;
      i := i + 1;
    }
    assert path[..i] == path;
    ChainFollow(nodes, head, path);
  }

  // ---------------------------------------------------------------------------
  // Audio outputs and their devices

  /**
   * The devices of one output: `deviceCount` entries, for indices 0 to
   * `deviceCount - 1` in order; a negative count makes the `List` constructor
   * throw `ArgumentOutOfRangeException`.
   */
  function DevicesOf(table: DeviceTable, name: Option<string>): Result<seq<AudioDevice>>
  {
    var n := table.count(name);
    if n < 0 then Err(Argument("capacity"))
    else Ok(seq(n, i => AudioDevice(table.id(name, i), table.longName(name, i))))
  }

  /** The outputs of the nodes of `path`, each with its devices; the first exception ends the walk. */
  function AudioOutputsOf(nodes: map<Ptr, Node<OutputNode>>, path: seq<Ptr>, table: DeviceTable): Result<seq<AudioOutput>>
    requires forall i :: 0 <= i < |path| ==> path[i] in nodes
    decreases |path|
  {
    if path == [] then Ok([])
    else
      var init := AudioOutputsOf(nodes, path[..|path| - 1], table);
      var node := nodes[path[|path| - 1]].data;
      var devices := DevicesOf(table, node.name);
      if init.Err? then init
      else if devices.Err? then Err(devices.error)
      else Ok(init.value + [AudioOutput(node.name, node.description, devices.value)])
  }

  /**
   * The walk succeeds exactly when every output has a device count of at
   * least zero, and then yields one output per node, in order, each paired
   * with its own devices.
   */
  lemma {:induction false} AudioOutputsMeaning(nodes: map<Ptr, Node<OutputNode>>, path: seq<Ptr>, table: DeviceTable)
    requires forall i :: 0 <= i < |path| ==> path[i] in nodes
    ensures AudioOutputsOf(nodes, path, table).Ok?
       <==> forall i :: 0 <= i < |path| ==> table.count(nodes[path[i]].data.name) >= 0
    ensures AudioOutputsOf(nodes, path, table).Ok? ==>
      var outputs := AudioOutputsOf(nodes, path, table).value;
      && |outputs| == |path|
      && forall i :: 0 <= i < |path| ==>
           outputs[i] == AudioOutput(nodes[path[i]].data.name, nodes[path[i]].data.description,
                                     DevicesOf(table, nodes[path[i]].data.name).value)
    decreases |path|
  {
    if path != [] {
      var init := path[..|path| - 1];
      AudioOutputsMeaning(nodes, init, table);
      assert forall i :: 0 <= i < |init| ==> init[i] == path[i];
    }
  }

  /** Once a prefix of the walk has thrown, the whole walk throws the same exception. */
  lemma {:induction false} AudioOutputsErrSticks(nodes: map<Ptr, Node<OutputNode>>, path: seq<Ptr>, table: DeviceTable, j: nat)
    requires forall i :: 0 <= i < |path| ==> path[i] in nodes
    requires j <= |path| && AudioOutputsOf(nodes, path[..j], table).Err?
    ensures AudioOutputsOf(nodes, path, table) == AudioOutputsOf(nodes, path[..j], table)
    decreases |path|
  {
    if j < |path| {
      var init := path[..|path| - 1];
      assert init[..j] == path[..j];
      AudioOutputsErrSticks(nodes, init, table, j);
    } else {
      assert path[..j] == path;
    }
  }

  lemma AudioOutputsStep(nodes: map<Ptr, Node<OutputNode>>, path: seq<Ptr>, table: DeviceTable, i: nat)
    requires forall k :: 0 <= k < |path| ==> path[k] in nodes
    requires i < |path|
    ensures AudioOutputsOf(nodes, path[..i + 1], table) ==
      var init := AudioOutputsOf(nodes, path[..i], table);
      var node := nodes[path[i]].data;
      var devices := DevicesOf(table, node.name);
      if init.Err? then init
      else if devices.Err? then Err(devices.error)
      else Ok(init.value + [AudioOutput(node.name, node.description, devices.value)])
  {
    assert path[..i + 1][..i] == path[..i];
  }

  /**
   * The name buffers the walk as written leaves allocated: one for every
   * named output whose devices it reads, up to and including an output whose
   * device count throws.
   */
  function LeakedBuffers(nodes: map<Ptr, Node<OutputNode>>, path: seq<Ptr>, table: DeviceTable): nat
    requires forall i :: 0 <= i < |path| ==> path[i] in nodes
    decreases |path|
  {
    if path == [] then 0
    else
      var init := path[..|path| - 1];
      LeakedBuffers(nodes, init, table)
        + (if AudioOutputsOf(nodes, init, table).Ok? && nodes[path[|path| - 1]].data.name.Some? then 1 else 0)
  }

  /** The number of named outputs among the nodes of `path`. */
  function NamedOutputs(nodes: map<Ptr, Node<OutputNode>>, path: seq<Ptr>): nat
    requires forall i :: 0 <= i < |path| ==> path[i] in nodes
    decreases |path|
  {
    if path == [] then 0
    else NamedOutputs(nodes, path[..|path| - 1]) + (if nodes[path[|path| - 1]].data.name.Some? then 1 else 0)
  }

  lemma LeakedBuffersStep(nodes: map<Ptr, Node<OutputNode>>, path: seq<Ptr>, table: DeviceTable, i: nat)
    requires forall k :: 0 <= k < |path| ==> path[k] in nodes
    requires i < |path|
    ensures LeakedBuffers(nodes, path[..i + 1], table) == LeakedBuffers(nodes, path[..i], table)
      + (if AudioOutputsOf(nodes, path[..i], table).Ok? && nodes[path[i]].data.name.Some? then 1 else 0)
  {
    assert path[..i + 1][..i] == path[..i];
  }

  /** Once a prefix of the walk has thrown, no further buffer is allocated. */
  lemma {:induction false} LeakedBuffersSettle(nodes: map<Ptr, Node<OutputNode>>, path: seq<Ptr>, table: DeviceTable, j: nat)
    requires forall i :: 0 <= i < |path| ==> path[i] in nodes
    requires j <= |path| && AudioOutputsOf(nodes, path[..j], table).Err?
    ensures LeakedBuffers(nodes, path, table) == LeakedBuffers(nodes, path[..j], table)
    decreases |path|
  {
    if j < |path| {
      var init := path[..|path| - 1];
      assert init[..j] == path[..j];
      LeakedBuffersSettle(nodes, init, table, j);
      AudioOutputsErrSticks(nodes, init, table, j);
    } else {
      assert path[..j] == path;
    }
  }

  /** A walk that completes leaves one name buffer allocated for every named output. */
  lemma {:induction false} LeakedBuffersNamed(nodes: map<Ptr, Node<OutputNode>>, path: seq<Ptr>, table: DeviceTable)
    requires forall i :: 0 <= i < |path| ==> path[i] in nodes
    requires AudioOutputsOf(nodes, path, table).Ok?
    ensures LeakedBuffers(nodes, path, table) == NamedOutputs(nodes, path)
    decreases |path|
  {
    if path != [] {
      LeakedBuffersNamed(nodes, path[..|path| - 1], table);
    }
  }

  /** One output named "alsa" with no devices: the walk succeeds and leaves one block allocated. */
  lemma OneNamedOutputLeaks(h: Ptr, table: DeviceTable)
    requires h != Zero && table.count(Some("alsa")) == 0
    ensures AudioOutputsOf(map[h := Node(OutputNode(Some("alsa"), None), Zero)], [h], table).Ok?
    ensures LeakedBuffers(map[h := Node(OutputNode(Some("alsa"), None), Zero)], [h], table) == 1
  {
    var nodes := map[h := Node(OutputNode(Some("alsa"), None), Zero)];
    assert [h][..0] == [];
    assert AudioOutputsOf(nodes, [], table) == Ok([]);
  }

  /** The loop of `GetAudioOutputDevices`, after the count has been read and found non-negative. */
  method ReadDevices(table: DeviceTable, name: Option<string>, count: nat) returns (devices: seq<AudioDevice>)
    requires count == table.count(name)
    ensures Ok(devices) == DevicesOf(table, name)
  {
    devices := [];
    for i := 0 to count
      invariant devices == seq(i, k => AudioDevice(table.id(name, k), table.longName(name, k)))
    {
      var deviceId := table.id(name, i);
      var longName := table.longName(name, i);
      devices := devices + [AudioDevice(deviceId, longName)];
    }
  }

  /**
   * `GetAudioOutputDevices` as written: the output name is copied into a
   * native buffer that is handed to libvlc and never released, so every
   * call with a named output leaves one more block allocated.
   */
  method GetAudioOutputDevices(heap: NativeHeap, table: DeviceTable, outputName: Option<string>)
    returns (r: Result<seq<AudioDevice>>, outputNamePtr: Ptr)
    requires heap.Valid()
    modifies heap
    ensures r == DevicesOf(table, outputName)
    ensures outputName.None? ==> outputNamePtr == Zero && heap.LiveIs(old(heap.Live()))
    ensures outputName.Some? ==>
      outputNamePtr != Zero && outputNamePtr !in old(heap.Live()) && heap.LiveIs(old(heap.Live()) + {outputNamePtr})
  {
    outputNamePtr := heap.StringPointer(outputName);
    var deviceCount := table.count(outputName);
    if deviceCount < 0 {
      return Err(Argument("capacity")), outputNamePtr;
    }
    var devices := ReadDevices(table, outputName, deviceCount);
    r := Ok(devices);
  }

  /** `GetAudioOutputDevices` with the name buffer released before returning, whether or not the call throws. */
  method GetAudioOutputDevicesReleasing(heap: NativeHeap, table: DeviceTable, outputName: Option<string>)
    returns (r: Result<seq<AudioDevice>>)
    requires heap.Valid()
    modifies heap
    ensures r == DevicesOf(table, outputName)
    ensures heap.LiveIs(old(heap.Live()))
  {
    var outputNamePtr := heap.StringPointer(outputName);
    var deviceCount := table.count(outputName);
    if deviceCount < 0 {
      r := Err(Argument("capacity"));
    } else {
      var devices := ReadDevices(table, outputName, deviceCount);
      r := Ok(devices);
    }
    heap.Release(outputNamePtr);
  }

  // ---------------------------------------------------------------------------
  // The factory

  /** The calls `Release` makes: the native instance is released only when there is one. */
  function ReleaseCalls(instance: Ptr): seq<Call>
  {
    if instance != Zero then [InstanceRelease(instance)] else []
  }

  /** `released` is never assigned, so a second `Release` releases the native instance again. */
  lemma FactoryReleaseTwice(instance: Ptr)
    requires instance != Zero
    ensures multiset(ReleaseCalls(instance) + ReleaseCalls(instance))[InstanceRelease(instance)] == 2
  {
    assert ReleaseCalls(instance) + ReleaseCalls(instance) == [InstanceRelease(instance), InstanceRelease(instance)];
  }

  class MediaPlayerFactory {
    const instance: Ptr
    const log: CallLog
    const heap: NativeHeap
    /** The guard `Release` declares and never sets; the corrected `ReleaseOnce` sets it. */
    var released: bool

    ghost predicate Valid()
      reads this, log, heap
    {
      log.Valid() && heap.Valid() && log.registered == {}
    }

    /** The constructor: `libvlc_new` with the arguments; `newInstance` is what it returns. */
    constructor (args: seq<string>, heap: NativeHeap, newInstance: Ptr)
      requires heap.Valid()
      ensures Valid() && fresh(log) && this.heap == heap && !released
      ensures instance == newInstance && log.calls == [InstanceNew(args, newInstance)]
    {
      instance := newInstance;
      this.heap := heap;
      released := false;
      log := new CallLog();
      new;
      log.Emit(InstanceNew(args, newInstance));
    }

    /** `Release` as written: a second call releases the instance again. */
    method Release()
      requires Valid()
      modifies log
      ensures Valid() && log.calls == old(log.calls) + ReleaseCalls(instance)
    {
      if instance != Zero {
        log.Emit(InstanceRelease(instance));
      }
    }

    /** `Release` guarded by `released`: only the first call releases the instance. */
    method ReleaseOnce()
      requires Valid()
      modifies this`released, log
      ensures Valid() && released
      ensures log.calls == old(log.calls) + (if old(released) then [] else ReleaseCalls(instance))
    {
      if !released {
        Release();
        released := true;
      }
    }

    /**
     * `SetUserAgent(userAgent, httpUserAgent)`: both names are copied into
     * native buffers (`Zero` for null) that are released afterwards.
     */
    method SetUserAgent(userAgent: Option<string>, httpUserAgent: Option<string>)
      requires Valid()
      modifies log, heap
      ensures log.Extended(old(log.calls), old(log.registered), [InstanceSetUserAgent(instance, userAgent, httpUserAgent)])
      ensures heap.LiveIs(old(heap.Live()))
    {
      var userAgentPtr := heap.StringPointer(userAgent);
      var httpUserAgentPtr := Zero;
      if httpUserAgent.Some? {
        httpUserAgentPtr := heap.StringPointer(httpUserAgent);
      }
      log.Emit(InstanceSetUserAgent(instance, userAgent, httpUserAgent));
      heap.Release(httpUserAgentPtr);
      heap.Release(userAgentPtr);
    }

    /** `SetUserAgent(userAgent)`: no HTTP user agent. */
    method SetUserAgentOnly(userAgent: Option<string>)
      requires Valid()
      modifies log, heap
      ensures log.Extended(old(log.calls), old(log.registered), [InstanceSetUserAgent(instance, userAgent, None)])
      ensures heap.LiveIs(old(heap.Live()))
    {
      SetUserAgent(userAgent, None);
    }

    /**
     * `GetAudioOutputs`: walks the output list, pairing each output with its
     * devices, then releases the list, `Zero` head included.  `head` is what
     * `libvlc_audio_output_list_get` returns.  An exception from the device
     * walk leaves the list unreleased.  Every named output whose devices are
     * read leaves its name buffer allocated.
     */
    method GetAudioOutputs(nodes: map<Ptr, Node<OutputNode>>, head: Ptr, ghost path: seq<Ptr>, table: DeviceTable)
      returns (r: Result<seq<AudioOutput>>)
      requires Valid() && Chain(nodes, head, path)
      modifies log, heap
      ensures r == AudioOutputsOf(nodes, path, table)
      ensures log.Extended(old(log.calls), old(log.registered),
        [AudioOutputListGet(instance, head)] + (if r.Ok? then [AudioOutputListRelease(head)] else []))
      ensures LeftAllocated(heap, old(heap.Live()), LeakedBuffers(nodes, path, table))
    {
      log.Emit(AudioOutputListGet(instance, head));
      var outputs := WalkOutputs(heap, nodes, head, path, table);
      if outputs.Ok? {
        log.Emit(AudioOutputListRelease(head));
        AppendAssoc(old(log.calls), [AudioOutputListGet(instance, head)], [AudioOutputListRelease(head)]);
      }
      r := outputs;
    }

    /** `GetAudioOutputs` with each name buffer released after its device calls. */
    method GetAudioOutputsReleasing(nodes: map<Ptr, Node<OutputNode>>, head: Ptr, ghost path: seq<Ptr>, table: DeviceTable)
      returns (r: Result<seq<AudioOutput>>)
      requires Valid() && Chain(nodes, head, path)
      modifies log, heap
      ensures r == AudioOutputsOf(nodes, path, table)
      ensures log.Extended(old(log.calls), old(log.registered),
        [AudioOutputListGet(instance, head)] + (if r.Ok? then [AudioOutputListRelease(head)] else []))
      ensures heap.LiveIs(old(heap.Live()))
    {
      log.Emit(AudioOutputListGet(instance, head));
      var outputs := WalkOutputsReleasing(heap, nodes, head, path, table);
      if outputs.Ok? {
        log.Emit(AudioOutputListRelease(head));
        AppendAssoc(old(log.calls), [AudioOutputListGet(instance, head)], [AudioOutputListRelease(head)]);
      }
      r := outputs;
    }

    /** `GetAudioFilters`: reads the audio filter list, then releases it. */
    method GetAudioFilters(nodes: map<Ptr, Node<ModuleDescription>>, head: Ptr, ghost path: seq<Ptr>)
      returns (result: seq<ModuleDescription>)
      requires Valid() && Chain(nodes, head, path)
      modifies log
      ensures result == Payloads(nodes, path)
      ensures log.Extended(old(log.calls), old(log.registered),
        [AudioFilterListGet(instance, head), ModuleDescriptionListRelease(head)])
    {
      log.Emit(AudioFilterListGet(instance, head));
      result := GetModuleDescriptions(nodes, head, path);
      log.Emit(ModuleDescriptionListRelease(head));
      AppendAssoc(old(log.calls), [AudioFilterListGet(instance, head)], [ModuleDescriptionListRelease(head)]);
    }

    /** `GetVideoFilters`: reads the video filter list, then releases it. */
    method GetVideoFilters(nodes: map<Ptr, Node<ModuleDescription>>, head: Ptr, ghost path: seq<Ptr>)
      returns (result: seq<ModuleDescription>)
      requires Valid() && Chain(nodes, head, path)
      modifies log
      ensures result == Payloads(nodes, path)
      ensures log.Extended(old(log.calls), old(log.registered),
        [VideoFilterListGet(instance, head), ModuleDescriptionListRelease(head)])
    {
      log.Emit(VideoFilterListGet(instance, head));
      result := GetModuleDescriptions(nodes, head, path);
      log.Emit(ModuleDescriptionListRelease(head));
      AppendAssoc(old(log.calls), [VideoFilterListGet(instance, head)], [ModuleDescriptionListRelease(head)]);
    }
  }

  /** The heap is well formed, still holds every block of `live0`, and holds `n` blocks besides. */
  ghost predicate LeftAllocated(heap: NativeHeap, live0: set<Ptr>, n: nat)
    reads heap
  {
    heap.Valid() && live0 <= heap.Live() && |heap.Live() - live0| == n
  }

  /** One turn of the walk as written: the devices of node `i`, whose name buffer joins the leaked ones. */
  method ReadOutput(heap: NativeHeap, nodes: map<Ptr, Node<OutputNode>>, ghost path: seq<Ptr>, table: DeviceTable, ghost i: nat,
                    name: Option<string>, ghost live0: set<Ptr>)
    returns (devices: Result<seq<AudioDevice>>)
    requires forall k :: 0 <= k < |path| ==> path[k] in nodes
    requires i < |path| && name == nodes[path[i]].data.name
    requires AudioOutputsOf(nodes, path[..i], table).Ok?
    requires LeftAllocated(heap, live0, LeakedBuffers(nodes, path[..i], table))
    modifies heap
    ensures devices == DevicesOf(table, name)
    ensures LeftAllocated(heap, live0, LeakedBuffers(nodes, path[..i + 1], table))
  {
    ghost var live := heap.Live();
    var namePtr;
    devices, namePtr := GetAudioOutputDevices(heap, table, name);
    LeakedBuffersStep(nodes, path, table, i);
    if name.Some? {
      OneMoreAllocated(live0, live, namePtr, LeakedBuffers(nodes, path[..i], table));
    }
  }

  /** Adding one block that was not live leaves one more block outside `live0`. */
  lemma OneMoreAllocated(live0: set<Ptr>, live: set<Ptr>, p: Ptr, n: nat)
    requires live0 <= live && |live - live0| == n && p !in live
    ensures live0 <= live + {p} && |live + {p} - live0| == n + 1
  {
    assert live + {p} - live0 == (live - live0) + {p};
  }

  /**
   * The loop of `GetAudioOutputs`: one output per node, each with the
   * devices read for its name by `GetAudioOutputDevices` as written, which
   * leaves the name buffer of every named output allocated.
   */
  method WalkOutputs(heap: NativeHeap, nodes: map<Ptr, Node<OutputNode>>, head: Ptr, ghost path: seq<Ptr>, table: DeviceTable)
    returns (r: Result<seq<AudioOutput>>)
    requires heap.Valid() && Chain(nodes, head, path)
    modifies heap
    ensures r == AudioOutputsOf(nodes, path, table)
    ensures LeftAllocated(heap, old(heap.Live()), LeakedBuffers(nodes, path, table))
  {
    var outputs: seq<AudioOutput> := [];
    var p := head;
    ghost var i := 0;
    ghost var live0 := heap.Live();
    while p != Zero
      invariant 0 <= i <= |path| && p == (if i < |path| then path[i] else Zero)
      invariant AudioOutputsOf(nodes, path[..i], table) == Ok(outputs)
      invariant LeftAllocated(heap, live0, LeakedBuffers(nodes, path[..i], table))
      decreases |path| - i
    {
      var node := nodes[p];
      var devices := ReadOutput(heap, nodes, path, table, i, node.data.name, live0);
      AudioOutputsStep(nodes, path, table, i);
      if devices.Err? {
        AudioOutputsErrSticks(nodes, path, table, i + 1);
        LeakedBuffersSettle(nodes, path, table, i + 1);
        return Err(devices.error);
      }
      outputs := outputs + [AudioOutput(node.data.name, node.data.description, devices.value)];
      p := node.next;
      i := i + 1;
    }
    assert path[..i] == path;
    r := Ok(outputs);
  }

  /** The loop of `GetAudioOutputs` with the name buffers released: no block is left allocated. */
  method WalkOutputsReleasing(heap: NativeHeap, nodes: map<Ptr, Node<OutputNode>>, head: Ptr, ghost path: seq<Ptr>, table: DeviceTable)
    returns (r: Result<seq<AudioOutput>>)
    requires heap.Valid() && Chain(nodes, head, path)
    modifies heap
    ensures r == AudioOutputsOf(nodes, path, table)
    ensures heap.LiveIs(old(heap.Live()))
  {
    var outputs: seq<AudioOutput> := [];
    var p := head;
    ghost var i := 0;
    while p != Zero
      invariant 0 <= i <= |path| && p == (if i < |path| then path[i] else Zero)
      invariant AudioOutputsOf(nodes, path[..i], table) == Ok(outputs)
      invariant heap.LiveIs(old(heap.Live()))
      decreases |path| - i
    {
      var node := nodes[p];
      var devices := GetAudioOutputDevicesReleasing(heap, table, node.data.name);
      AudioOutputsStep(nodes, path, table, i);
      if devices.Err? {
        AudioOutputsErrSticks(nodes, path, table, i + 1);
        return Err(devices.error);
      }
      outputs := outputs + [AudioOutput(node.data.name, node.data.description, devices.value)];
      p := node.next;
      i := i + 1;
    }
    assert path[..i] == path;
    r := Ok(outputs);
  }
}
