/**
  Traced integers: an `IntWrapper` is a Python integer together with the tensor of a network that
  computes it, so that sizes can be recomputed for other inputs; and the slices that are lowered
  with such operations.

  The methods take the sizes of the trace, `traced`, and those of a later run, `run`, as ghost
  parameters: what they promise holds for any two choices.  The ghost map `env` lists the wrappers
  of the program with what each stands for in the run.
*/
module ShapeTracing {

  import opened Division
  import opened SliceLowering
  import opened Wrappers

  datatype Op = Prod | Sum | Sub | FloorDiv

  /** A layer with one output: a constant, an extent of an input tensor, or an operation on two
      earlier tensors. */
  datatype Layer = Constant(n: int) | Extent(input: nat, axis: nat) | Elementwise(op: Op, x: nat, y: nat)

  /** The extents of the input tensors in one run of the network. */
  type Sizes = (nat, nat) -> int

  function Apply(op: Op, x: int, y: int): int {
    match op
    case Prod => Times(x, y)
    case Sum => x + y
    case Sub => x - y
    case FloorDiv => if y == 0 then 0 else Floor(x, y)
  }

  /** What an operator promises: the product, the sum, the difference, or the quotient whose remainder
      has the sign of the divisor. */
  predicate IsResult(op: Op, x: int, y: int, r: int) {
    match op
    case Prod => r == x * y
    case Sum => r == x + y
    case Sub => r + y == x
    case FloorDiv => (y > 0 ==> r * y <= x < r * y + y) && (y < 0 ==> r * y + y < x <= r * y)
  }

  lemma ApplyIsResult(op: Op, x: int, y: int)
    ensures IsResult(op, x, y, Apply(op, x, y))
  {
    if op.FloorDiv? && y != 0 {
      FloorIsUnique(x, y, Floor(x, y));
    }
  }

  predicate Ordered(layers: seq<Layer>) {
    forall i :: 0 <= i < |layers| && layers[i].Elementwise? ==> layers[i].x < i && layers[i].y < i
  }

  /** The value of tensor `t` in a run with the given sizes. */
  function Eval(layers: seq<Layer>, t: nat, sizes: Sizes): int
    requires Ordered(layers) && t < |layers|
    decreases t
  {
    match layers[t]
    case Constant(n) => n
    case Extent(input, axis) => sizes(input, axis)
    case Elementwise(op, x, y) => Apply(op, Eval(layers, x, sizes), Eval(layers, y, sizes))
  }

  /** More layers do not change the tensors there are. */
  lemma {:induction false} EvalIsStable(before: seq<Layer>, after: seq<Layer>, t: nat, sizes: Sizes)
    requires Ordered(before) && Ordered(after) && before <= after && t < |before|
    ensures Eval(after, t, sizes) == Eval(before, t, sizes)
    decreases t
  {
    assert after[t] == before[t];
    if before[t].Elementwise? {
      EvalIsStable(before, after, before[t].x, sizes);
      EvalIsStable(before, after, before[t].y, sizes);
    }
  }

  class Network {
    var layers: seq<Layer>

    constructor ()
      ensures layers == []
    {
      layers := [];
    }

    method Add(layer: Layer) returns (t: nat)
      modifies this
      ensures layers == old(layers) + [layer] && t == |old(layers)|
    {
      layers := layers + [layer];
      t := |layers| - 1;
    }
  }

  class IntWrapper {
    const value: int
    var raw: Option<nat>

    constructor (value: int, raw: Option<nat>)
      ensures this.value == value && this.raw == raw
    {
      this.value, this.raw := value, raw;
    }

    /** The tensor, if there is one yet, belongs to the network and computes the value when the
        network runs with the sizes of the trace. */
    ghost predicate Sound(layers: seq<Layer>, traced: Sizes)
      reads this
    {
      && Ordered(layers)
      && (raw.Some? ==> raw.value < |layers| && Eval(layers, raw.value, traced) == value)
    }

    /** The wrapper is sound, and in a run with the sizes `run` it stands for `m`. */
    ghost predicate Stands(layers: seq<Layer>, traced: Sizes, run: Sizes, m: int)
      reads this
    {
      && Sound(layers, traced)
      && m == if raw.Some? then Eval(layers, raw.value, run) else value
    }

    /** The tensor of the wrapper; the first use of a plain integer adds a constant. */
    method Trt(net: Network, ghost traced: Sizes, ghost run: Sizes, ghost env: map<IntWrapper, int>) returns (t: nat)
      requires this in env && AllStand(env, net.layers, traced, run)
      modifies this`raw, net
      ensures old(net.layers) <= net.layers && AllStand(env, net.layers, traced, run)
      ensures t < |net.layers| && raw == Some(t) && (old(raw).Some? ==> raw == old(raw))
    {
      ghost var before := net.layers;
      if raw.None? {
        assert Ordered(net.layers + [Constant(value)]);
        var c := net.Add(Constant(value));
        raw := Some(c);
      }
      t := raw.value;
      forall w | w in env ensures w.Stands(net.layers, traced, run, env[w]) {
        if w != this {
          StandsIsStable(w, before, net.layers, traced, run, env[w]);
        }
      }
    }
  }

  /** Every wrapper of the program is sound, and stands in the run for the integer the environment gives it. */
  ghost predicate AllStand(env: map<IntWrapper, int>, layers: seq<Layer>, traced: Sizes, run: Sizes)
    reads env.Keys
  {
    && Ordered(layers)
    && forall w :: w in env ==> w.Stands(layers, traced, run, env[w])
  }

  /** A wrapped integer still stands for the same after layers were added. */
  lemma StandsIsStable(w: IntWrapper, before: seq<Layer>, after: seq<Layer>, traced: Sizes, run: Sizes, m: int)
    requires w.Stands(before, traced, run, m) && Ordered(after) && before <= after
    ensures w.Stands(after, traced, run, m)
  {
    if w.raw.Some? {
      EvalIsStable(before, after, w.raw.value, traced);
      EvalIsStable(before, after, w.raw.value, run);
    }
  }

  /** The two operands hold tensors, and the operation on them is the last layer. */
  lemma OperationMeans(layers: seq<Layer>, op: Op, x: nat, y: nat, sizes: Sizes)
    requires Ordered(layers) && x < |layers| && y < |layers|
    ensures var after := layers + [Elementwise(op, x, y)];
      Ordered(after) && Eval(after, |layers|, sizes) == Apply(op, Eval(layers, x, sizes), Eval(layers, y, sizes))
  {
    var after := layers + [Elementwise(op, x, y)];
    EvalIsStable(layers, after, x, sizes);
    EvalIsStable(layers, after, y, sizes);
  }

  /**
    One operator of `IntWrapper`, also in its reflected form with the operands exchanged: the new
    wrapper has the integer result, and a tensor that computes the operation in every run.  All
    other wrappers stand for what they did.
  */
  method Operate(net: Network, op: Op, x: IntWrapper, y: IntWrapper,
                 ghost traced: Sizes, ghost run: Sizes, ghost env: map<IntWrapper, int>)
    returns (r: IntWrapper)
    requires x in env && y in env && AllStand(env, net.layers, traced, run)
    requires op == FloorDiv ==> y.value != 0
    modifies net, x`raw, y`raw
    ensures fresh(r) && old(net.layers) <= net.layers
    ensures r.value == Apply(op, x.value, y.value) && r.raw.Some?
    ensures IsResult(op, x.value, y.value, r.value) && IsResult(op, env[x], env[y], Apply(op, env[x], env[y]))
    ensures AllStand(env[r := Apply(op, env[x], env[y])], net.layers, traced, run)
  {
    ApplyIsResult(op, x.value, y.value);
    ApplyIsResult(op, env[x], env[y]);
    var tx := x.Trt(net, traced, run, env);
    var ty := y.Trt(net, traced, run, env);
    ghost var before := net.layers;
    OperationMeans(before, op, tx, ty, traced);
    OperationMeans(before, op, tx, ty, run);
    var t := net.Add(Elementwise(op, tx, ty));
    r := new IntWrapper(Apply(op, x.value, y.value), Some(t));
    forall w | w in env ensures w.Stands(net.layers, traced, run, env[w]) {
      StandsIsStable(w, before, net.layers, traced, run, env[w]);
    }
  }

  /** The last layer reads an extent of an input tensor. */
  lemma ExtentMeans(layers: seq<Layer>, input: nat, axis: nat, sizes: Sizes)
    requires Ordered(layers)
    ensures var after := layers + [Extent(input, axis)];
      Ordered(after) && Eval(after, |layers|, sizes) == sizes(input, axis)
  {
  }

  /** The size of one axis of an input tensor: the integer of the trace, and in a run that of the run. */
  method WrapExtent(net: Network, input: nat, axis: nat, n: int,
                    ghost traced: Sizes, ghost run: Sizes, ghost env: map<IntWrapper, int>)
    returns (r: IntWrapper)
    requires AllStand(env, net.layers, traced, run) && n == traced(input, axis)
    modifies net
    ensures fresh(r) && old(net.layers) <= net.layers && r.value == n
    ensures AllStand(env[r := run(input, axis)], net.layers, traced, run)
  {
    ghost var before := net.layers;
    ExtentMeans(before, input, axis, traced);
    ExtentMeans(before, input, axis, run);
    var t := net.Add(Extent(input, axis));
    r := new IntWrapper(n, Some(t));
    forall w | w in env ensures w.Stands(net.layers, traced, run, env[w]) {
      StandsIsStable(w, before, net.layers, traced, run, env[w]);
    }
  }

  /** An integer argument of the traced program: a plain one, or a wrapped one. */
  datatype Number = Plain(n: int) | Wrapped(w: IntWrapper)
  {
    ghost predicate In(env: map<IntWrapper, int>) {
      Wrapped? ==> w in env
    }

    /** The integer in the trace. */
    function Value(): int {
      if Plain? then n else w.value
    }

    /** The integer in the run. */
    ghost function Stands(env: map<IntWrapper, int>): int
      requires In(env)
    {
      if Plain? then n else env[w]
    }
  }

  /** A later environment: what earlier wrappers stand for has not changed. */
  ghost predicate Extends(env: map<IntWrapper, int>, after: map<IntWrapper, int>) {
    forall w :: w in env ==> w in after && after[w] == env[w]
  }

  /** `make_int_wrapper`: plain integers are wrapped, wrapped ones are kept. */
  method MakeIntWrapper(x: Number, net: Network, ghost traced: Sizes, ghost run: Sizes, ghost env: map<IntWrapper, int>)
    returns (r: IntWrapper, ghost after: map<IntWrapper, int>)
    requires x.In(env) && AllStand(env, net.layers, traced, run)
    ensures AllStand(after, net.layers, traced, run) && Extends(env, after) && fresh(after.Keys - env.Keys)
    ensures r in after && r.value == x.Value() && after[r] == x.Stands(env)
  {
    if x.Plain? {
      r := new IntWrapper(x.n, None);
      after := env[r := x.n];
    } else {
      r := x.w;
      after := env;
    }
  }

  /** An operator applied to a wrapper and an operand that may be a plain integer, which is wrapped first. */
  method OperateWith(net: Network, op: Op, x: IntWrapper, y: Number,
                     ghost traced: Sizes, ghost run: Sizes, ghost env: map<IntWrapper, int>)
    returns (r: IntWrapper, ghost after: map<IntWrapper, int>)
    requires x in env && y.In(env) && AllStand(env, net.layers, traced, run)
    requires op == FloorDiv ==> y.Value() != 0
    modifies net, env.Keys
    ensures old(net.layers) <= net.layers
    ensures AllStand(after, net.layers, traced, run) && Extends(env, after) && fresh(after.Keys - env.Keys)
    ensures r in after && r.value == Apply(op, x.value, y.Value()) && after[r] == Apply(op, env[x], y.Stands(env))
  {
    var operand;
    operand, after := MakeIntWrapper(y, net, traced, run, env);
    r := Operate(net, op, x, operand, traced, run, after);
    after := after[r := Apply(op, after[x], after[operand])];
  }

  /** A slice of the traced program, `start:stop:step`. */
  datatype Slice = Slice(start: Option<Number>, stop: Option<Number>, step: Option<Number>)
  {
    ghost predicate In(env: map<IntWrapper, int>) {
      && (start.Some? ==> start.value.In(env))
      && (stop.Some? ==> stop.value.In(env))
      && (step.Some? ==> step.value.In(env))
    }
  }

  function TracedBounds(s: Slice, d: int): Bounds {
    Bounds(
      if s.start.None? then 0 else s.start.value.Value(),
      if s.stop.None? then d else s.stop.value.Value(),
      if s.step.None? then 1 else s.step.value.Value())
  }

  ghost function RunBounds(s: Slice, d: int, env: map<IntWrapper, int>): Bounds
    requires s.In(env)
  {
    Bounds(
      if s.start.None? then 0 else s.start.value.Stands(env),
      if s.stop.None? then d else s.stop.value.Stands(env),
      if s.step.None? then 1 else s.step.value.Stands(env))
  }

  /** What is left out of a slice means from the first, to the last, and every element: in the trace and
      in a run, the elements before a number and those from it on are together all elements of the axis. */
  lemma DefaultsSplitAxis(k: Number, d: nat, env: map<IntWrapper, int>)
    requires k.In(env)
    ensures var before, after := Slice(None, Some(k), None), Slice(Some(k), None, None);
      && TracedBounds(before, d).step == TracedBounds(after, d).step == 1
      && Sliced(TracedBounds(before, d), d) + Sliced(TracedBounds(after, d), d) == Range(0, d, 1)
      && RunBounds(before, d, env).step == RunBounds(after, d, env).step == 1
      && Sliced(RunBounds(before, d, env), d) + Sliced(RunBounds(after, d, env), d) == Range(0, d, 1)
  {
    SlicesSplitAxis(k.Value(), d);
    SlicesSplitAxis(k.Stands(env), d);
  }

  /** The three bounds of a slice as wrappers, the defaults filled in. */
  method WrapBounds(dim: IntWrapper, s: Slice, net: Network,
                    ghost traced: Sizes, ghost run: Sizes, ghost env: map<IntWrapper, int>)
    returns (start: IntWrapper, stop: IntWrapper, stride: IntWrapper, ghost after: map<IntWrapper, int>)
    requires dim in env && s.In(env) && AllStand(env, net.layers, traced, run)
    ensures AllStand(after, net.layers, traced, run) && Extends(env, after) && fresh(after.Keys - env.Keys)
    ensures start in after && stop in after && stride in after
    ensures Bounds(start.value, stop.value, stride.value) == TracedBounds(s, dim.value)
    ensures Bounds(after[start], after[stop], after[stride]) == RunBounds(s, env[dim], env)
  {
    var first := if s.start.None? then Plain(0) else s.start.value;
    var last := if s.stop.None? then Wrapped(dim) else s.stop.value;
    var step := if s.step.None? then Plain(1) else s.step.value;
    start, after := MakeIntWrapper(first, net, traced, run, env);
    stop, after := MakeIntWrapper(last, net, traced, run, after);
    stride, after := MakeIntWrapper(step, net, traced, run, after);
  }

  /** The span `stop - start - 1` of a slice. */
  method WrapSpan(start: IntWrapper, stop: IntWrapper, net: Network,
                  ghost traced: Sizes, ghost run: Sizes, ghost env: map<IntWrapper, int>)
    returns (span: IntWrapper, ghost after: map<IntWrapper, int>)
    requires start in env && stop in env && AllStand(env, net.layers, traced, run)
    modifies net, env.Keys
    ensures old(net.layers) <= net.layers
    ensures AllStand(after, net.layers, traced, run) && Extends(env, after) && fresh(after.Keys - env.Keys)
    ensures span in after && span.value == stop.value - start.value - 1
    ensures after[span] == env[stop] - env[start] - 1
  {
    var length;
    length, after := OperateWith(net, Sub, stop, Wrapped(start), traced, run, env);
    span, after := OperateWith(net, Sub, length, Plain(1), traced, run, after);
  }

  /** The size `(stop - start - 1) // stride + 1` of a slice. */
  method WrapSize(start: IntWrapper, stop: IntWrapper, stride: IntWrapper, net: Network,
                  ghost traced: Sizes, ghost run: Sizes, ghost env: map<IntWrapper, int>)
    returns (size: IntWrapper, ghost after: map<IntWrapper, int>)
    requires start in env && stop in env && stride in env && stride.value > 0 && env[stride] > 0
    requires AllStand(env, net.layers, traced, run)
    modifies net, env.Keys
    ensures old(net.layers) <= net.layers
    ensures AllStand(after, net.layers, traced, run) && Extends(env, after) && fresh(after.Keys - env.Keys)
    ensures size in after && size.value == SliceSize(Bounds(start.value, stop.value, stride.value))
    ensures after[size] == SliceSize(Bounds(env[start], env[stop], env[stride]))
  {
    var span, steps;
    span, after := WrapSpan(start, stop, net, traced, run, env);
    steps, after := OperateWith(net, FloorDiv, span, Wrapped(stride), traced, run, after);
    size, after := OperateWith(net, Sum, steps, Plain(1), traced, run, after);
  }

  /** The start, the size and the stride of a slice over an axis, as `slice_to_trt` returns them. */
  method SliceToTrt(dim: IntWrapper, s: Slice, net: Network,
                    ghost traced: Sizes, ghost run: Sizes, ghost env: map<IntWrapper, int>)
    returns (start: IntWrapper, size: IntWrapper, stride: IntWrapper, ghost after: map<IntWrapper, int>)
    requires dim in env && s.In(env) && AllStand(env, net.layers, traced, run)
    requires TracedBounds(s, dim.value).step > 0 && RunBounds(s, env[dim], env).step > 0
    modifies net, env.Keys
    ensures old(net.layers) <= net.layers
    ensures AllStand(after, net.layers, traced, run) && Extends(env, after) && fresh(after.Keys - env.Keys)
    ensures start in after && size in after && stride in after
    ensures var b := TracedBounds(s, dim.value);
      start.value == b.start && size.value == SliceSize(b) && stride.value == b.step
    ensures var b := RunBounds(s, env[dim], env);
      after[start] == b.start && after[size] == SliceSize(b) && after[stride] == b.step
  {
    var stop;
    start, stop, stride, after := WrapBounds(dim, s, net, traced, run, env);
    size, after := WrapSize(start, stop, stride, net, traced, run, after);
  }

  /** What `make_positive` makes of a number; whether it is negative is decided while tracing. */
  function MadePositive(negative: bool, n: int, d: int): int {
    if negative then d + n else n
  }

  /** `make_positive` for one number of a slice. */
  method MakePositive(x: IntWrapper, dim: IntWrapper, net: Network,
                      ghost traced: Sizes, ghost run: Sizes, ghost env: map<IntWrapper, int>)
    returns (r: IntWrapper, ghost after: map<IntWrapper, int>)
    requires x in env && dim in env && AllStand(env, net.layers, traced, run)
    modifies net, env.Keys
    ensures old(net.layers) <= net.layers
    ensures AllStand(after, net.layers, traced, run) && Extends(env, after) && fresh(after.Keys - env.Keys)
    ensures r in after && r.value == MadePositive(x.value < 0, x.value, dim.value)
    ensures after[r] == MadePositive(x.value < 0, env[x], env[dim])
  {
    r, after := x, env;
    if x.value < 0 {
      r, after := OperateWith(net, Sum, dim, Wrapped(x), traced, run, env);
    }
  }

  /** The bounds of the run are such that the same numbers of the slice are negative as in the trace. */
  predicate SameSigns(b: Bounds, c: Bounds)
    requires b.step > 0 && c.step > 0
  {
    (b.start < 0 <==> c.start < 0) && (SliceSize(b) < 0 <==> SliceSize(c) < 0)
  }

  /** The region of a run in which the numbers that are negative in the trace are made positive. */
  function RegionInRun(b: Bounds, c: Bounds, d: int): Region
    requires b.step > 0 && c.step > 0
  {
    Region(MadePositive(b.start < 0, c.start, d), MadePositive(SliceSize(b) < 0, SliceSize(c), d), c.step)
  }

  lemma LoweredInRunIff(b: Bounds, c: Bounds, d: nat)
    requires b.step > 0 && c.step > 0
    ensures RegionInRun(b, c, d) == Lowered(c, d) <==> d == 0 || SameSigns(b, c)
  {
  }

  /**
    A slice of one axis, lowered: in a run the network takes the region computed from the bounds and
    the size of the axis in that run, exactly when the numbers have the signs of the trace or the axis
    is empty.
  */
  method LowerSlice(dim: IntWrapper, s: Slice, net: Network,
                    ghost traced: Sizes, ghost run: Sizes, ghost env: map<IntWrapper, int>)
    returns (start: IntWrapper, size: IntWrapper, stride: IntWrapper, ghost after: map<IntWrapper, int>)
    requires dim in env && s.In(env) && AllStand(env, net.layers, traced, run)
    requires dim.value >= 0 && env[dim] >= 0
    requires TracedBounds(s, dim.value).step > 0 && RunBounds(s, env[dim], env).step > 0
    modifies net, env.Keys
    ensures old(net.layers) <= net.layers && AllStand(after, net.layers, traced, run) && Extends(env, after)
    ensures start in after && size in after && stride in after
    ensures Region(start.value, size.value, stride.value) == Lowered(TracedBounds(s, dim.value), dim.value)
    ensures Region(after[start], after[size], after[stride])
      == RegionInRun(TracedBounds(s, dim.value), RunBounds(s, env[dim], env), env[dim])
    ensures Region(after[start], after[size], after[stride]) == Lowered(RunBounds(s, env[dim], env), env[dim]) <==>
      env[dim] == 0 || SameSigns(TracedBounds(s, dim.value), RunBounds(s, env[dim], env))
  {
    LoweredInRunIff(TracedBounds(s, dim.value), RunBounds(s, env[dim], env), env[dim]);
    start, size, stride, after := SliceToTrt(dim, s, net, traced, run, env);
    start, after := MakePositive(start, dim, net, traced, run, after);
    size, after := MakePositive(size, dim, net, traced, run, after);
    stride, after := MakePositive(stride, dim, net, traced, run, after);
  }

  /**
    A traced slice from the front of an axis, with an absent stop or one that is on the axis in the
    run too, takes in the run the elements the program would take there.
  */
  lemma FrontSliceFollowsAxis(b: Bounds, c: Bounds, d: nat)
    requires b.step > 0 && 0 <= b.start <= b.stop
    requires c.step > 0 && 0 <= c.start <= c.stop <= d
    ensures SameSigns(b, c)
    ensures Takes(Lowered(c, d), Sliced(c, d))
    ensures SliceSize(c) == |Range(c.start, c.stop, c.step)|
  {
    SizeIsRangeLengthIff(b);
    SizeIsRangeLengthIff(c);
    LoweredSliceIsSliceIff(c, d);
    if c.start < c.stop {
      LastIsInRange(c);
    }
  }
}
