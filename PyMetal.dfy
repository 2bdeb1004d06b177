/** The authored logic of `runmetal.PyMetal`: encoding one compute pass
    (argument slots bound step by step, then one dispatch), the option setter
    `setopt`, the device queries `maxvalues` and `configs`, and the range
    `syncbuffer` reports. The Metal objects themselves are foreign: a command
    buffer and an encoder are modelled only by what is recorded in them, and
    what the device answers is passed in. */
module PyMetal {
  import opened Wrappers
  import opened PyStr
  import opened Dispatch

  /** A Metal library, by where it came from: `openlibrary_compiled(path)`,
      `openlibrary(filename=path)` or `openlibrary(source)`. */
  datatype Library =
    | CompiledFile(path: string)
    | SourceFile(path: string)
    | SourceText(text: string)

  /** `getfn(name)`: the function of that name in a library. */
  datatype KernelFunction = KernelFunction(library: Library, name: string)

  /** The compute pipeline state made from a function, with the two numbers
      the planner asks of it. */
  datatype PipelineState = PipelineState(kernel: KernelFunction, limits: ThreadLimits)

  /** What an ended encoder leaves in its command buffer. */
  datatype ComputePass = ComputePass(pipeline: Option<PipelineState>, bindings: seq<SlotBinding>, dispatch: Option<Sizing>)

  /** An `MTLCommandBuffer`: the compute passes encoded into it, in order. */
  class CommandBuffer {
    var passes: seq<ComputePass>

    constructor ()
      ensures passes == []
    {
      passes := [];
    }
  }

  /** An `MTLComputeCommandEncoder` obtained from `cbuffer.computeCommandEncoder()`. */
  class ComputeEncoder {
    const commandBuffer: CommandBuffer
    var pipeline: Option<PipelineState>
    var bound: seq<SlotBinding>
    var dispatch: Option<Sizing>
    var ended: bool

    constructor (cb: CommandBuffer)
      ensures commandBuffer == cb
      ensures pipeline == None && bound == [] && dispatch == None && !ended
    {
      commandBuffer := cb;
      pipeline, bound, dispatch, ended := None, [], None, false;
    }

    /** `setComputePipelineState_`. */
    method SetComputePipelineState(state: PipelineState)
      modifies this
      ensures pipeline == Some(state)
      ensures bound == old(bound) && dispatch == old(dispatch) && ended == old(ended)
    {
      pipeline := Some(state);
    }

    /** `setBuffer_offset_atIndex_`: one more binding, in call order. */
    method SetBuffer(buffer: Buffer, offset: nat, index: nat)
      modifies this
      ensures bound == old(bound) + [SlotBinding(buffer, offset, index)]
      ensures pipeline == old(pipeline) && dispatch == old(dispatch) && ended == old(ended)
    {
      bound := bound + [SlotBinding(buffer, offset, index)];
    }

    /** `dispatchThreads_threadsPerThreadgroup_(grid, group)`. */
    method DispatchThreads(grid: MtlSize, group: ThreadGroup)
      modifies this
      ensures dispatch == Some(Sizing(group, grid))
      ensures pipeline == old(pipeline) && bound == old(bound) && ended == old(ended)
    {
      dispatch := Some(Sizing(group, grid));
    }

    /** `endEncoding()`: the pass is recorded in the command buffer. */
    method EndEncoding()
      modifies this, commandBuffer
      ensures ended
      ensures commandBuffer.passes == old(commandBuffer.passes) + [ComputePass(pipeline, bound, dispatch)]
      ensures pipeline == old(pipeline) && bound == old(bound) && dispatch == old(dispatch)
    {
      ended := true;
      commandBuffer.passes := commandBuffer.passes + [ComputePass(pipeline, bound, dispatch)];
    }
  }

  /** The loop shared by `enqueue_compute` and `runThread`: bind buffer i at
      index i with offset 0 and keep the running maximum of the lengths. */
  method BindBuffers(encoder: ComputeEncoder, buffers: seq<Buffer>) returns (bufmax: nat)
    modifies encoder
    ensures encoder.bound == old(encoder.bound) + Bindings(buffers)
    ensures bufmax == MaxLength(buffers)
    ensures encoder.pipeline == old(encoder.pipeline)
    ensures encoder.dispatch == old(encoder.dispatch) && encoder.ended == old(encoder.ended)
  {
    bufmax := 0;
    for i := 0 to |buffers|
      invariant encoder.bound == old(encoder.bound) + Bindings(buffers[..i])
      invariant bufmax == MaxLength(buffers[..i])
      invariant encoder.pipeline == old(encoder.pipeline)
      invariant encoder.dispatch == old(encoder.dispatch) && encoder.ended == old(encoder.ended)
    {
      assert buffers[..i + 1][..i] == buffers[..i];
      encoder.SetBuffer(buffers[i], 0, i);
      if bufmax < buffers[i].length {
        bufmax := buffers[i].length;
      }
    }
    assert buffers[..|buffers|] == buffers;
  }

  /** `enqueue_compute(cbuffer, func, buffers, threads, iters)`, on a device
      whose pipeline state for `func` answers `limits`. It returns the encoder
      it made, so that what was encoded can be stated. */
  method EnqueueCompute(cbuffer: CommandBuffer, func: KernelFunction, buffers: seq<Buffer>,
                        threads: Option<seq<nat>>, iters: Option<nat>, limits: ThreadLimits)
    returns (encoder: ComputeEncoder, outcome: Result<Sizing, PlanError>)
    modifies cbuffer
    ensures fresh(encoder) && encoder.commandBuffer == cbuffer
    ensures encoder.pipeline == Some(PipelineState(func, limits))
    ensures encoder.bound == PlanCompute(buffers, threads, iters, limits).bindings
    ensures outcome == PlanCompute(buffers, threads, iters, limits).sizing
    ensures outcome.Ok? ==>
      && encoder.dispatch == Some(outcome.value) && encoder.ended
      && cbuffer.passes == old(cbuffer.passes) + [ComputePass(encoder.pipeline, encoder.bound, encoder.dispatch)]
    ensures outcome.Err? ==>
      encoder.dispatch == None && !encoder.ended && cbuffer.passes == old(cbuffer.passes)
  {
    var state := PipelineState(func, limits);
    encoder := new ComputeEncoder(cbuffer);
    encoder.SetComputePipelineState(state);
    var bufmax := BindBuffers(encoder, buffers);
    if iters.Some? {
      bufmax := iters.value;
    }
    var w := limits.executionWidth;
    if threads.None? {
      if w == 0 {
        return encoder, Err(ZeroDivision);
      }
      var h := GroupHeight(w, limits.maxTotalThreads);
      var tpgArg := Fields(map["width" := w, "height" := h, "depth" := 1]);
      GetMtlSizeRoundTrip(MtlSize(w, h, 1), bufmax);
      assert tpgArg == Fields(AsFields(MtlSize(w, h, 1)));
      var tpg := GetMtlSize(tpgArg).value;
      var w2 := GroupCount(bufmax, w);
      var ntg := GetMtlSize(IntArg(w2)).value;
      encoder.DispatchThreads(ntg, Group(tpg));
    } else {
      var t := threads.value;
      if |t| < 2 {
        return encoder, Err(TooFewThreads);
      }
      var ntg := MtlSize(t[0], t[1], 1);
      if w == 0 {
        return encoder, Err(ZeroDivision);
      }
      encoder.DispatchThreads(ntg, QuotientHeight(w, limits.maxTotalThreads, w, 1));
    }
    encoder.EndEncoding();
    outcome := Ok(encoder.dispatch.value);
  }

  /** `runThread(cbuffer, func, buffers, threads)`: the same binding loop and
      thread group, and `getmtlsize(threads)` as the grid. */
  method RunThread(cbuffer: CommandBuffer, func: KernelFunction, buffers: seq<Buffer>,
                   threads: SizeArg, limits: ThreadLimits)
    returns (encoder: ComputeEncoder, outcome: Result<Sizing, PlanError>)
    modifies cbuffer
    ensures fresh(encoder) && encoder.commandBuffer == cbuffer
    ensures encoder.pipeline == Some(PipelineState(func, limits))
    ensures encoder.bound == PlanThread(buffers, threads, limits).bindings
    ensures outcome == PlanThread(buffers, threads, limits).sizing
    ensures outcome.Ok? ==>
      && encoder.dispatch == Some(outcome.value) && encoder.ended
      && cbuffer.passes == old(cbuffer.passes) + [ComputePass(encoder.pipeline, encoder.bound, encoder.dispatch)]
    ensures outcome.Err? ==>
      encoder.dispatch == None && !encoder.ended && cbuffer.passes == old(cbuffer.passes)
  {
    var state := PipelineState(func, limits);
    encoder := new ComputeEncoder(cbuffer);
    encoder.SetComputePipelineState(state);
    var _ := BindBuffers(encoder, buffers);
    var w := limits.executionWidth;
    if w == 0 {
      return encoder, Err(ZeroDivision);
    }
    var h := GroupHeight(w, limits.maxTotalThreads);
    GetMtlSizeRoundTrip(MtlSize(w, h, 1), 0);
    assert Fields(map["width" := w, "height" := h, "depth" := 1]) == Fields(AsFields(MtlSize(w, h, 1)));
    var tpg := GetMtlSize(Fields(map["width" := w, "height" := h, "depth" := 1])).value;
    var ntg := GetMtlSize(threads);
    if ntg.Err? {
      return encoder, Err(BadGrid(ntg.error));
    }
    encoder.DispatchThreads(ntg.value, Group(tpg));
    encoder.EndEncoding();
    outcome := Ok(encoder.dispatch.value);
  }

  /** The setter `setopt` looks up for option `key`. */
  function SetterName(key: string): string {
    "set" + key + "_"
  }

  /** Distinct option names look up distinct setters. */
  lemma SetterNameInjective(a: string, b: string)
    requires SetterName(a) == SetterName(b)
    ensures a == b
  {
    assert |a| == |b|;
    forall i | 0 <= i < |a|
      ensures a[i] == b[i]
    {
      assert SetterName(a)[i + 3] == a[i];
      assert SetterName(b)[i + 3] == b[i];
    }
  }

  datatype SetterCall<V> = SetterCall(setter: string, value: V)

  /** The setter calls `setopt` makes for `opts`, in the options' order: one
      for each key whose setter the target has. */
  function SetterCalls<V>(attributes: set<string>, opts: seq<(string, V)>): seq<SetterCall<V>>
  {
    if opts == [] then []
    else
      var (k, v) := opts[|opts| - 1];
      SetterCalls(attributes, opts[..|opts| - 1])
        + (if SetterName(k) in attributes then [SetterCall(SetterName(k), v)] else [])
  }

  /** A Python object that options are applied to: the attributes `hasattr`
      finds on it and the setter calls made on it so far. */
  class OptionTarget<V> {
    const attributes: set<string>
    var calls: seq<SetterCall<V>>

    constructor (attributes: set<string>)
      ensures this.attributes == attributes && calls == []
    {
      this.attributes := attributes;
      calls := [];
    }

    /** `getattr(self, setter)(value)`. */
    method CallSetter(setter: string, value: V)
      requires setter in attributes
      modifies this
      ensures calls == old(calls) + [SetterCall(setter, value)]
    {
      calls := calls + [SetterCall(setter, value)];
    }
  }

  /** `setopt(vv, opts)`; `opts` lists the dictionary's items in order. */
  method SetOpt<V>(target: OptionTarget<V>, opts: seq<(string, V)>) returns (r: OptionTarget<V>)
    modifies target
    ensures r == target
    ensures target.calls == old(target.calls) + SetterCalls(target.attributes, opts)
  {
    for i := 0 to |opts|
      invariant target.calls == old(target.calls) + SetterCalls(target.attributes, opts[..i])
    {
      assert opts[..i + 1][..i] == opts[..i];
      var (k, v) := opts[i];
      var fn := SetterName(k);
      if fn in target.attributes {
        target.CallSetter(fn, v);
      }
    }
    assert opts[..|opts|] == opts;
    r := target;
  }

  /** Each setter call comes from an option whose setter exists, with that
      option's value, and every such option gives one. */
  lemma {:induction false} SetterCallsSpec<V>(attributes: set<string>, opts: seq<(string, V)>, c: SetterCall<V>)
    ensures c in SetterCalls(attributes, opts) <==>
      exists i :: 0 <= i < |opts| && SetterName(opts[i].0) in attributes
                  && c == SetterCall(SetterName(opts[i].0), opts[i].1)
  {
    if opts != [] {
      var init := opts[..|opts| - 1];
      SetterCallsSpec(attributes, init, c);
      assert forall i :: 0 <= i < |init| ==> init[i] == opts[i];
      if c in SetterCalls(attributes, opts) && c !in SetterCalls(attributes, init) {
        var n := |opts| - 1;
        assert SetterName(opts[n].0) in attributes && c == SetterCall(SetterName(opts[n].0), opts[n].1);
      }
    }
  }

  /** An option the target has no setter for changes nothing, wherever it
      stands among the options. */
  lemma {:induction false} UnknownOptionIgnored<V>(attributes: set<string>, before: seq<(string, V)>,
                                                   key: string, value: V, after: seq<(string, V)>)
    requires SetterName(key) !in attributes
    ensures SetterCalls(attributes, before + [(key, value)] + after) == SetterCalls(attributes, before + after)
    decreases |after|
  {
    if after == [] {
      assert (before + [(key, value)] + after)[..|before|] == before;
      assert before + after == before;
    } else {
      var init := after[..|after| - 1];
      UnknownOptionIgnored(attributes, before, key, value, init);
      assert (before + [(key, value)] + after)[..|before| + 1 + |init|] == before + [(key, value)] + init;
      assert (before + after)[..|before| + |init|] == before + init;
    }
  }

  /** `maxvalues`' filter on the names `dir(dev)` lists. */
  predicate IsMaxQuery(name: string) {
    StartsWith(name, "max") && !EndsWith(name, "_")
  }

  lemma StripMax(k: string)
    requires StartsWith(k, "max")
    ensures "max" + k[3..] == k
  {
    assert k == k[..3] + k[3..];
  }

  /** `maxvalues()`: for each name in `dir(dev)` that starts with "max" and does
      not end with "_", the name without "max" maps to what calling it
      answers (`query`). */
  method MaxValues<V>(names: seq<string>, query: string -> V) returns (res: map<string, V>)
    ensures forall k :: k in names && IsMaxQuery(k) ==> k[3..] in res && res[k[3..]] == query(k)
    ensures forall n :: n in res ==> "max" + n in names && IsMaxQuery("max" + n) && res[n] == query("max" + n)
  {
    res := map[];
    for i := 0 to |names|
      invariant forall k :: k in names[..i] && IsMaxQuery(k) ==> k[3..] in res && res[k[3..]] == query(k)
      invariant forall n :: n in res ==> "max" + n in names[..i] && IsMaxQuery("max" + n) && res[n] == query("max" + n)
    {
      var k := names[i];
      assert names[..i + 1] == names[..i] + [k];
      if IsMaxQuery(k) {
        StripMax(k);
        forall k' | k' in names[..i] && IsMaxQuery(k') && k'[3..] == k[3..]
          ensures k' == k
        {
          StripMax(k');
        }
        res := res[k[3..] := query(k)];
      }
    }
    assert names[..|names|] == names;
  }

  lemma StripConfig(k: string)
    requires EndsWith(k, "Config")
    ensures k[..|k| - 6] + "Config" == k
  {
    assert k == k[..|k| - 6] + k[|k| - 6..];
  }

  /** `configs()`: for each name in `dir(dev)` that ends with "Config", the name
      without "Config" maps to what calling it answers (`query`). */
  method Configs<V>(names: seq<string>, query: string -> V) returns (res: map<string, V>)
    ensures forall k :: k in names && EndsWith(k, "Config") ==> k[..|k| - 6] in res && res[k[..|k| - 6]] == query(k)
    ensures forall n :: n in res ==> n + "Config" in names && res[n] == query(n + "Config")
  {
    res := map[];
    for i := 0 to |names|
      invariant forall k :: k in names[..i] && EndsWith(k, "Config") ==> k[..|k| - 6] in res && res[k[..|k| - 6]] == query(k)
      invariant forall n :: n in res ==> n + "Config" in names[..i] && res[n] == query(n + "Config")
    {
      var k := names[i];
      assert names[..i + 1] == names[..i] + [k];
      if EndsWith(k, "Config") {
        StripConfig(k);
        forall k' | k' in names[..i] && EndsWith(k', "Config") && k'[..|k'| - 6] == k[..|k| - 6]
          ensures k' == k
        {
          StripConfig(k');
        }
        res := res[k[..|k| - 6] := query(k)];
      }
    }
    assert names[..|names|] == names;
  }

  /** `NSRange(location, length)`. */
  datatype NSRange = NSRange(location: int, length: int)

  /** The range `syncbuffer(buffer, start, length)` reports modified: without
      a length it runs from `start` to the end of the buffer. */
  function SyncRange(bufferLength: nat, start: nat, length: Option<int>): (r: NSRange)
    ensures r.location == start
    ensures length.Some? ==> r.length == length.value
    ensures length.None? ==> r.location + r.length == bufferLength
  {
    NSRange(start, if length.Some? then length.value else bufferLength - start)
  }
}
