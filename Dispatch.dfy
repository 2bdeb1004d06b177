/** The dispatch planner of `PyMetal.enqueue_compute` and `PyMetal.runThread`
    as values: which buffer goes to which argument slot, how long the longest
    buffer is, and the thread-group and grid sizes handed to
    `dispatchThreads:threadsPerThreadgroup:`. */
module Dispatch {
  import opened Wrappers

  /** Metal's `MTLSize`. */
  datatype MtlSize = MtlSize(width: nat, height: nat, depth: nat)

  /** What `getmtlsize` may be given: a Python `int`, a mapping unpacked as
      keyword arguments of `MTLSize`, or anything else (`None` included). */
  datatype SizeArg =
    | IntArg(n: nat)
    | Fields(fields: map<string, nat>)
    | NotAMapping

  /** The `TypeError`s of `MTLSize(**arg)`. */
  datatype SizeError = UnexpectedField | NotMapping

  const SizeFieldNames: set<string> := {"width", "height", "depth"}

  /** A keyword argument of `MTLSize`; a field that is not passed is zero. */
  function FieldOr(fields: map<string, nat>, name: string): nat {
    if name in fields then fields[name] else 0
  }

  /** `getmtlsize(arg)`; a field the mapping leaves out is 0, as in a
      default-initialised `MTLSize`. */
  function GetMtlSize(arg: SizeArg): (r: Result<MtlSize, SizeError>)
    ensures arg.IntArg? ==> r == Ok(MtlSize(arg.n, 1, 1))
    ensures arg.Fields? ==> (r.Ok? <==> arg.fields.Keys <= SizeFieldNames)
    ensures arg.Fields? && r.Ok? ==>
      && ("width" in arg.fields ==> r.value.width == arg.fields["width"])
      && ("height" in arg.fields ==> r.value.height == arg.fields["height"])
      && ("depth" in arg.fields ==> r.value.depth == arg.fields["depth"])
    ensures arg.Fields? && r.Ok? ==>
      && ("width" !in arg.fields ==> r.value.width == 0)
      && ("height" !in arg.fields ==> r.value.height == 0)
      && ("depth" !in arg.fields ==> r.value.depth == 0)
    ensures arg.NotAMapping? ==> r == Err(NotMapping)
  {
    match arg
    case IntArg(n) => Ok(MtlSize(n, 1, 1))
    case Fields(fields) =>
      if fields.Keys <= SizeFieldNames then
        Ok(MtlSize(FieldOr(fields, "width"), FieldOr(fields, "height"), FieldOr(fields, "depth")))
      else Err(UnexpectedField)
    case NotAMapping => Err(NotMapping)
  }

  /** The mapping `{"width": ..., "height": ..., "depth": ...}` of a size. */
  function AsFields(s: MtlSize): map<string, nat> {
    map["width" := s.width, "height" := s.height, "depth" := s.depth]
  }

  /** `getmtlsize` gives back exactly the size whose three fields it is given,
      and an `int` n means the same as `{"width": n, "height": 1, "depth": 1}`. */
  lemma GetMtlSizeRoundTrip(s: MtlSize, n: nat)
    ensures GetMtlSize(Fields(AsFields(s))) == Ok(s)
    ensures GetMtlSize(IntArg(n)) == GetMtlSize(Fields(AsFields(MtlSize(n, 1, 1))))
  {
    assert AsFields(s).Keys == SizeFieldNames;
  }

  /** Python's `int(a / b)` for non-negative integers: true division, then
      truncation toward zero. */
  function TruncatedQuotient(a: nat, b: nat): (q: nat)
    requires b > 0
    ensures q * b <= a < (q + 1) * b
  {
    var x := a as real / b as real;
    assert x >= 0.0;
    var q := x.Floor;
    var br := b as real;
    assert q as real <= x < q as real + 1.0;
    assert x * br == a as real;
    assert (q * b) as real == q as real * br;
    calc {
      a as real;
      x * br;
    < { RealMulStrict(x, q as real + 1.0, br); }
      (q as real + 1.0) * br;
      ((q + 1) * b) as real;
    }
    q
  }

  /** The true quotient truncated is Dafny's integer division. */
  lemma TruncatedQuotientIsDiv(a: nat, b: nat)
    requires b > 0
    ensures TruncatedQuotient(a, b) == a / b
  {
    var q := TruncatedQuotient(a, b);
    DivUnique(a, b, q);
  }

  lemma DivUnique(a: nat, b: nat, q: nat)
    requires b > 0
    requires q * b <= a < (q + 1) * b
    ensures q == a / b
  {
    var d := a / b;
    if q < d {
      MulMonotone(q + 1, d, b);
    } else if q > d {
      MulMonotone(d + 1, q, b);
    }
  }

  lemma MulMonotone(x: nat, y: nat, b: nat)
    requires x <= y
    ensures x * b <= y * b
  {
  }

  lemma RealMulStrict(x: real, y: real, b: real)
    requires x < y && b > 0.0
    ensures x * b < y * b
  {
  }

  /** The thread-group height of the inferred mode and of `runThread`:
      `max(1, int(maxTotal / w))`. */
  function GroupHeight(w: nat, maxTotal: nat): (h: nat)
    requires w > 0
    ensures h >= 1
  {
    var q := TruncatedQuotient(maxTotal, w);
    if q > 1 then q else 1
  }

  /** The number of threads along the grid of the inferred mode:
      `int(max(1, (bufmax + w - 1) / w))`, with true division. */
  function GroupCount(bufmax: nat, w: nat): (g: nat)
    requires w > 0
  {
    var x := (bufmax + w - 1) as real / w as real;
    assert x >= 0.0;
    (if x > 1.0 then x else 1.0).Floor
  }

  /** The inferred grid is the ceiling of `bufmax / w`, and at least 1. */
  lemma GroupCountIsCeiling(bufmax: nat, w: nat)
    requires w > 0
    ensures GroupCount(bufmax, w) == if bufmax == 0 then 1 else (bufmax + w - 1) / w
  {
    var x := (bufmax + w - 1) as real / w as real;
    var q := TruncatedQuotient(bufmax + w - 1, w);
    TruncatedQuotientIsDiv(bufmax + w - 1, w);
    assert q == x.Floor;
    if bufmax == 0 {
      assert (w - 1) as real < w as real;
      assert x < 1.0;
    } else {
      assert x >= 1.0;
      assert q >= 1;
    }
  }

  /** Coverage: `GroupCount(bufmax, w)` groups of `w` reach every one of
      `bufmax` items, with less than one group to spare. */
  lemma GroupCountCovers(bufmax: nat, w: nat)
    requires w > 0
    ensures GroupCount(bufmax, w) >= 1
    ensures GroupCount(bufmax, w) * w >= bufmax
    ensures bufmax == 0 ==> GroupCount(bufmax, w) == 1
    ensures bufmax > 0 ==> (GroupCount(bufmax, w) - 1) * w < bufmax
  {
    GroupCountIsCeiling(bufmax, w);
    if bufmax > 0 {
      var g := (bufmax + w - 1) / w;
      assert g * w <= bufmax + w - 1 < (g + 1) * w;
      assert (g - 1) * w == g * w - w;
    }
  }

  /** The group height is `maxTotal / w` rounded down, raised to 1 when the
      device allows fewer than `w` threads; otherwise the whole group fits. */
  lemma GroupHeightBounds(w: nat, maxTotal: nat)
    requires w > 0
    ensures maxTotal < 2 * w ==> GroupHeight(w, maxTotal) == 1
    ensures maxTotal >= w ==> GroupHeight(w, maxTotal) == maxTotal / w
    ensures maxTotal >= w ==> w * GroupHeight(w, maxTotal) <= maxTotal < w * (GroupHeight(w, maxTotal) + 1)
  {
    TruncatedQuotientIsDiv(maxTotal, w);
  }

  /** A kernel argument binding: `setBuffer:offset:atIndex:`. */
  datatype Buffer = Buffer(id: nat, length: nat)
  datatype SlotBinding = SlotBinding(buffer: Buffer, offset: nat, index: nat)

  /** The bindings made by `for i, buf in enumerate(buffers)`. */
  function Bindings(buffers: seq<Buffer>): seq<SlotBinding>
  {
    if buffers == [] then []
    else Bindings(buffers[..|buffers| - 1]) + [SlotBinding(buffers[|buffers| - 1], 0, |buffers| - 1)]
  }

  /** Buffer i is bound at argument index i with offset 0, once each. */
  lemma {:induction false} BindingsInOrder(buffers: seq<Buffer>)
    ensures |Bindings(buffers)| == |buffers|
    ensures forall i :: 0 <= i < |buffers| ==> Bindings(buffers)[i] == SlotBinding(buffers[i], 0, i)
  {
    if buffers != [] {
      var init := buffers[..|buffers| - 1];
      BindingsInOrder(init);
      assert forall i :: 0 <= i < |init| ==> init[i] == buffers[i];
    }
  }

  /** The encoder's argument table after a sequence of bindings: the last
      binding of an index wins. */
  function ArgumentTable(log: seq<SlotBinding>): map<nat, (Buffer, nat)>
  {
    if log == [] then map[]
    else
      var last := log[|log| - 1];
      ArgumentTable(log[..|log| - 1])[last.index := (last.buffer, last.offset)]
  }

  /** After the binding loop the table holds exactly slots `0 .. |buffers|-1`,
      slot i holding buffer i at offset 0. */
  lemma {:induction false} ArgumentTableOfBindings(buffers: seq<Buffer>)
    ensures forall i: nat :: i in ArgumentTable(Bindings(buffers)) <==> i < |buffers|
    ensures forall i :: 0 <= i < |buffers| ==> ArgumentTable(Bindings(buffers))[i] == (buffers[i], 0)
  {
    if buffers != [] {
      var n := |buffers| - 1;
      var init := buffers[..n];
      ArgumentTableOfBindings(init);
      assert Bindings(buffers) == Bindings(init) + [SlotBinding(buffers[n], 0, n)];
      assert Bindings(buffers)[..n] == Bindings(init) by {
        BindingsInOrder(init);
      }
      var before := ArgumentTable(Bindings(init));
      assert ArgumentTable(Bindings(buffers)) == before[n := (buffers[n], 0)];
      assert forall i :: 0 <= i < n ==> init[i] == buffers[i];
    }
  }

  /** `bufmax` after the loop: the running maximum of `buf.length()`. */
  function MaxLength(buffers: seq<Buffer>): (m: nat)
    ensures forall i :: 0 <= i < |buffers| ==> buffers[i].length <= m
    ensures buffers == [] ==> m == 0
    ensures buffers != [] ==> exists i :: 0 <= i < |buffers| && buffers[i].length == m
  {
    if buffers == [] then 0
    else
      var init := buffers[..|buffers| - 1];
      var m := MaxLength(init);
      assert forall i :: 0 <= i < |init| ==> init[i] == buffers[i];
      if m < buffers[|buffers| - 1].length then buffers[|buffers| - 1].length else m
  }

  /** The number of iterations the inferred grid must cover: `iters` when it
      is given, whatever its value, otherwise `bufmax`. */
  function IterationCount(buffers: seq<Buffer>, iters: Option<nat>): nat {
    iters.GetOr(MaxLength(buffers))
  }

  /** What the pipeline state answers: `threadExecutionWidth()` and
      `maxTotalThreadsPerThreadgroup()`. */
  datatype ThreadLimits = ThreadLimits(executionWidth: nat, maxTotalThreads: nat)

  /** The threads-per-threadgroup argument. In the explicit mode its height is
      `maxTotal / w` by true division, a Python float: it is kept here as that
      unevaluated quotient. */
  datatype ThreadGroup =
    | Group(size: MtlSize)
    | QuotientHeight(width: nat, heightNumerator: nat, heightDenominator: nat, depth: nat)

  datatype Sizing = Sizing(threadsPerGroup: ThreadGroup, grid: MtlSize)

  /** `ZeroDivisionError` when the execution width is 0, the failing
      `assert len(threads) >= 2`, and a grid `getmtlsize` rejects. */
  datatype PlanError = ZeroDivision | TooFewThreads | BadGrid(reason: SizeError)

  /** `(w, max(1, int(maxTotal / w)), 1)`, shared by the inferred mode and
      `runThread`. */
  function InferredGroup(limits: ThreadLimits): MtlSize
    requires limits.executionWidth > 0
  {
    MtlSize(limits.executionWidth, GroupHeight(limits.executionWidth, limits.maxTotalThreads), 1)
  }

  /** The sizing branch of `enqueue_compute`, given the iteration count. */
  function ComputeSizing(count: nat, threads: Option<seq<nat>>, limits: ThreadLimits): Result<Sizing, PlanError>
  {
    var w := limits.executionWidth;
    match threads
    case None =>
      if w == 0 then Err(ZeroDivision)
      else Ok(Sizing(Group(InferredGroup(limits)), MtlSize(GroupCount(count, w), 1, 1)))
    case Some(t) =>
      if |t| < 2 then Err(TooFewThreads)
      else if w == 0 then Err(ZeroDivision)
      else Ok(Sizing(QuotientHeight(w, limits.maxTotalThreads, w, 1), MtlSize(t[0], t[1], 1)))
  }

  /** Everything `enqueue_compute` decides: the bindings made by the loop
      (made before any error is raised) and the sizes, or the error. */
  datatype DispatchPlan = DispatchPlan(bindings: seq<SlotBinding>, sizing: Result<Sizing, PlanError>)

  function PlanCompute(buffers: seq<Buffer>, threads: Option<seq<nat>>, iters: Option<nat>, limits: ThreadLimits): DispatchPlan
  {
    DispatchPlan(Bindings(buffers), ComputeSizing(IterationCount(buffers, iters), threads, limits))
  }

  /** The sizing of `runThread`: the inferred group, and `getmtlsize(threads)`
      as the grid. */
  function ThreadSizing(threads: SizeArg, limits: ThreadLimits): Result<Sizing, PlanError>
  {
    if limits.executionWidth == 0 then Err(ZeroDivision)
    else match GetMtlSize(threads)
      case Err(e) => Err(BadGrid(e))
      case Ok(grid) => Ok(Sizing(Group(InferredGroup(limits)), grid))
  }

  function PlanThread(buffers: seq<Buffer>, threads: SizeArg, limits: ThreadLimits): DispatchPlan
  {
    DispatchPlan(Bindings(buffers), ThreadSizing(threads, limits))
  }

  /** `iters` replaces `bufmax` unconditionally, even when it is smaller. */
  lemma IterationsOverride(buffers: seq<Buffer>, iters: Option<nat>)
    ensures iters.None? ==> IterationCount(buffers, iters) == MaxLength(buffers)
    ensures iters.Some? ==> IterationCount(buffers, iters) == iters.value
  {
  }

  /** Inferred mode: the group is `(w, max(1, maxTotal div w), 1)`, exactly what
      `getmtlsize({"width": w, "height": h, "depth": 1})` makes, and the grid
      `(g, 1, 1)` covers every iteration with g the ceiling of `count / w`. */
  lemma {:induction false} InferredMode(count: nat, limits: ThreadLimits)
    requires limits.executionWidth > 0
    ensures var w, m := limits.executionWidth, limits.maxTotalThreads;
      var r := ComputeSizing(count, None, limits);
      && r.Ok?
      && r.value.threadsPerGroup == Group(MtlSize(w, if m < w then 1 else if m / w > 1 then m / w else 1, 1))
      && GetMtlSize(Fields(AsFields(MtlSize(w, GroupHeight(w, m), 1)))) == Ok(InferredGroup(limits))
      && r.value.grid.height == 1 && r.value.grid.depth == 1
      && r.value.grid.width == (if count == 0 then 1 else (count + w - 1) / w)
      && r.value.grid.width * w >= count
  {
    var w, m := limits.executionWidth, limits.maxTotalThreads;
    TruncatedQuotientIsDiv(m, w);
    GroupCountIsCeiling(count, w);
    GroupCountCovers(count, w);
    GetMtlSizeRoundTrip(MtlSize(w, GroupHeight(w, m), 1), 0);
  }

  /** Explicit mode: fewer than two extents fail the assertion whatever the
      device; otherwise the grid is the first two extents, whatever the
      buffers, `iters` and any further extents. */
  lemma ExplicitMode(buffers: seq<Buffer>, iters: Option<nat>, t: seq<nat>, limits: ThreadLimits)
    ensures |t| < 2 ==> PlanCompute(buffers, Some(t), iters, limits).sizing == Err(TooFewThreads)
    ensures |t| >= 2 && limits.executionWidth > 0 ==>
      PlanCompute(buffers, Some(t), iters, limits).sizing.Ok? &&
      PlanCompute(buffers, Some(t), iters, limits).sizing.value.grid == MtlSize(t[0], t[1], 1)
    ensures |t| >= 2 && limits.executionWidth == 0 ==>
      PlanCompute(buffers, Some(t), iters, limits).sizing == Err(ZeroDivision)
    ensures |t| >= 2 ==> forall other: seq<Buffer>, n: Option<nat> ::
      PlanCompute(other, Some(t), n, limits).sizing == PlanCompute(buffers, Some(t), iters, limits).sizing
  {
  }

  /** The explicit mode's unfloored height agrees with the inferred mode's
      floored one exactly when `w` divides `maxTotal` and `maxTotal >= w`. */
  lemma ExplicitHeightAgreement(limits: ThreadLimits)
    requires limits.executionWidth > 0
    ensures var w, m := limits.executionWidth, limits.maxTotalThreads;
      (m % w == 0 && m >= w) <==> (m as real / w as real == GroupHeight(w, m) as real)
  {
    var w, m := limits.executionWidth, limits.maxTotalThreads;
    var h := GroupHeight(w, m);
    TruncatedQuotientIsDiv(m, w);
    RealQuotientExact(m, w, h);
    assert m == (m / w) * w + m % w;
    if m % w == 0 && m >= w {
      assert h == m / w;
    }
    if m == h * w {
      DivUnique(m, w, h);
      MulMonotone(1, h, w);
    }
  }

  /** A true quotient is a whole number h exactly when the division is exact. */
  lemma RealQuotientExact(m: nat, w: nat, h: nat)
    requires w > 0
    ensures (m as real / w as real == h as real) <==> m == h * w
  {
    var x := m as real / w as real;
    assert x * w as real == m as real;
    assert (h * w) as real == h as real * w as real;
    if m == h * w {
      assert x * w as real == h as real * w as real;
    }
  }

  /** `runThread` uses the inferred group and `getmtlsize(threads)` as the grid. */
  lemma ThreadMode(threads: SizeArg, limits: ThreadLimits)
    requires limits.executionWidth > 0
    ensures GetMtlSize(threads).Ok? <==> ThreadSizing(threads, limits).Ok?
    ensures ThreadSizing(threads, limits).Ok? ==>
      ThreadSizing(threads, limits).value == Sizing(Group(InferredGroup(limits)), GetMtlSize(threads).value)
    ensures threads.IntArg? ==> ThreadSizing(threads, limits).value.grid == MtlSize(threads.n, 1, 1)
  {
  }

  /** The threads `dispatchThreads:threadsPerThreadgroup:` launches: its
      first argument counts threads, not groups. */
  function GridThreads(grid: MtlSize): nat {
    grid.width * grid.height * grid.depth
  }

  /** The inferred grid `(g, 1, 1)` is computed as a number of groups but is
      handed over as a number of threads: with w >= 2 and at least two items
      it launches fewer threads than there are items. */
  lemma InferredGridThreads(count: nat, limits: ThreadLimits)
    requires limits.executionWidth >= 2 && count >= 2
    ensures ComputeSizing(count, None, limits).Ok?
    ensures GridThreads(ComputeSizing(count, None, limits).value.grid) < count
  {
    var w := limits.executionWidth;
    var g := GroupCount(count, w);
    GroupCountCovers(count, w);
    MulMonotone(2, w, g - 1);
    assert GridThreads(MtlSize(g, 1, 1)) == g;
  }

  /** A device with execution width 32 and 256 threads per group, 1000
      iterations: groups of (32, 8, 1) and a grid 32 wide. */
  lemma Width32Example()
    ensures ComputeSizing(1000, None, ThreadLimits(32, 256)) == Ok(Sizing(Group(MtlSize(32, 8, 1)), MtlSize(32, 1, 1)))
  {
    InferredMode(1000, ThreadLimits(32, 256));
  }
}
