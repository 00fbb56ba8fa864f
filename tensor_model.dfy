/** The naive tensor as a value, and the specifications of its shape and
    index operations: element access, strided patches, right-hand
    broadcasting, statistics along one axis and the shape of a matrix
    product. A panic of the original is the `Panic` outcome. */
module TensorModel {
  import opened Results
  import opened Shape

  /** A flat buffer `d` read in row-major order through the dimensions
      `dim`. Nothing forces the two to agree: `new_raw` takes both as
      given. */
  datatype Tensor<T> = Tensor(d: seq<T>, dim: seq<nat>)

  /** The buffer holds exactly one element per coordinate. */
  predicate WellFormed<T>(t: Tensor<T>)
  {
    |t.d| == Product(t.dim)
  }

  // ---------------------------------------------------------------------
  // Element access

  /** What `get` returns at `pos`: a panic unless `pos` has one in-range
      entry per axis and its offset falls inside the buffer. */
  function ElementAt<T>(t: Tensor<T>, pos: seq<nat>): Outcome<T>
  {
    if InBounds(t.dim, pos) && Offset(t.dim, pos) < |t.d| then
      Done(t.d[Offset(t.dim, pos)])
    else
      Panic
  }

  /** What `set` leaves behind: the buffer with the element at `pos`
      replaced, or a panic where `get` would panic. */
  function SetAt<T>(t: Tensor<T>, pos: seq<nat>, v: T): Outcome<Tensor<T>>
  {
    if ElementAt(t, pos).Done? then Done(t.(d := t.d[Offset(t.dim, pos) := v]))
    else Panic
  }

  /** On a well-formed tensor, `get` succeeds exactly on in-bounds
      coordinates. */
  lemma ElementAtWellFormed<T>(t: Tensor<T>, pos: seq<nat>)
    requires WellFormed(t)
    ensures ElementAt(t, pos).Done? <==> InBounds(t.dim, pos)
  {
    if InBounds(t.dim, pos) {
      OffsetBound(t.dim, pos);
    }
  }

  /** `get` after `set` returns the written value at the written
      coordinate and what was there before everywhere else. */
  lemma GetAfterSet<T>(t: Tensor<T>, pos: seq<nat>, v: T, q: seq<nat>)
    requires SetAt(t, pos, v).Done?
    ensures SetAt(t, pos, v).value.dim == t.dim
    ensures ElementAt(SetAt(t, pos, v).value, q) == if q == pos then Done(v) else ElementAt(t, q)
  {
    if q != pos && InBounds(t.dim, q) && Offset(t.dim, q) == Offset(t.dim, pos) {
      OffsetInjective(t.dim, q, pos);
    }
  }

  // ---------------------------------------------------------------------
  // Creation

  /** What `zeros`, `ones` and `fill` build: `x` once per coordinate of
      `shape`. */
  function Filled<T>(x: T, shape: seq<nat>): (t: Tensor<T>)
    ensures t.dim == shape && WellFormed(t)
  {
    Tensor(seq(Product(shape), _ => x), shape)
  }

  /** Every coordinate of a filled tensor reads the fill value. */
  lemma FilledElements<T>(x: T, shape: seq<nat>, pos: seq<nat>)
    ensures ElementAt(Filled(x, shape), pos) == if InBounds(shape, pos) then Done(x) else Panic
  {
    if InBounds(shape, pos) {
      OffsetBound(shape, pos);
    }
  }

  // ---------------------------------------------------------------------
  // Patches

  /** The positions `start, start + step, ...` below `end` that one axis of
      a patch visits. */
  function Positions(start: nat, end: nat, step: nat): seq<nat>
    requires start < end ==> step > 0
    decreases end - start
  {
    if start < end then [start] + Positions(start + step, end, step) else []
  }

  /** The `k`-th position is `start + k * step`, every position is below
      `end`, and the next one would not be. */
  lemma {:induction false} PositionsMeaning(start: nat, end: nat, step: nat)
    requires start < end ==> step > 0
    ensures forall k :: 0 <= k < |Positions(start, end, step)| ==>
      Positions(start, end, step)[k] == start + k * step < end
    ensures start + |Positions(start, end, step)| * step >= end
    decreases end - start
  {
    if start < end {
      var p, rest := Positions(start, end, step), Positions(start + step, end, step);
      PositionsMeaning(start + step, end, step);
      forall k | 0 <= k < |p| ensures p[k] == start + k * step < end {
        if k > 0 {
          assert p[k] == rest[k - 1];
          MulPred(k, step);
        }
      }
      MulPred(|p|, step);
    }
  }

  lemma MulPred(k: nat, step: nat)
    requires k > 0
    ensures (k - 1) * step + step == k * step
  {
  }

  /** The step of every axis: 1 unless the caller passes a list. */
  function StepDims(steps: Option<seq<nat>>, n: nat): seq<nat>
  {
    if steps.Some? then steps.value else seq(n, _ => 1)
  }

  /** An axis with an empty range visits nothing; any other axis needs a
      step in the list, and a positive one. */
  predicate AxisOk(range: (nat, nat), stepDim: seq<nat>, i: nat)
  {
    range.0 < range.1 ==> i < |stepDim| && stepDim[i] > 0
  }

  /** The positions each axis of a patch visits. A missing step is an index
      out of range; a zero step on a non-empty range is a loop that never
      ends, and both are a panic here. */
  function Axes(range: seq<(nat, nat)>, stepDim: seq<nat>): Outcome<seq<seq<nat>>>
  {
    if forall i :: 0 <= i < |range| ==> AxisOk(range[i], stepDim, i) then
      Done(seq(|range|, i requires 0 <= i < |range| =>
        Positions(range[i].0, range[i].1, if i < |stepDim| then stepDim[i] else 0)))
    else
      Panic
  }

  /** Number of positions visited on each axis: the shape of the patch. */
  function Counts(idx: seq<seq<nat>>): seq<nat>
  {
    seq(|idx|, i requires 0 <= i < |idx| => |idx[i]|)
  }

  /** The coordinate of the whole tensor that patch coordinate `q` stands
      for. */
  function Pick(idx: seq<seq<nat>>, q: seq<nat>): seq<nat>
  {
    seq(|q|, i requires 0 <= i < |q| => if i < |idx| && q[i] < |idx[i]| then idx[i][q[i]] else 0)
  }

  /** Every axis visits at least one position, and every picked coordinate
      can be read. */
  predicate PatchReadable<T>(t: Tensor<T>, idx: seq<seq<nat>>)
  {
    Product(Counts(idx)) > 0 &&
    forall u :: 0 <= u < Product(Counts(idx)) ==>
      ElementAt(t, Pick(idx, Coords(Counts(idx), u))).Done?
  }

  /** The elements at the picked coordinates, in row-major order of the
      patch. */
  function PatchData<T>(t: Tensor<T>, idx: seq<seq<nat>>): seq<T>
    requires PatchReadable(t, idx)
  {
    seq(Product(Counts(idx)), u requires 0 <= u < Product(Counts(idx)) =>
      ElementAt(t, Pick(idx, Coords(Counts(idx), u))).value)
  }

  /** Elements read one by one, in row-major order of the patch, for
      every patch coordinate make up the patch. */
  lemma PatchDataComplete<T>(t: Tensor<T>, idx: seq<seq<nat>>, ret: seq<T>)
    requires |ret| == Product(Counts(idx)) > 0
    requires forall u :: 0 <= u < |ret| ==> ElementAt(t, Pick(idx, Coords(Counts(idx), u))) == Done(ret[u])
    ensures PatchReadable(t, idx) && ret == PatchData(t, idx)
  {
  }

  /** What `get_patch` returns. */
  function Patch<T>(t: Tensor<T>, range: seq<(nat, nat)>, steps: Option<seq<nat>>): Outcome<Tensor<T>>
  {
    if |range| != |t.dim| then Panic
    else match Axes(range, StepDims(steps, |t.dim|))
      case Panic => Panic
      case Done(idx) =>
        if PatchReadable(t, idx) then Done(Tensor(PatchData(t, idx), Counts(idx))) else Panic
  }

  lemma PickAxis(range: seq<(nat, nat)>, stepDim: seq<nat>, idx: seq<seq<nat>>, q: seq<nat>, i: nat)
    requires Axes(range, stepDim) == Done(idx) && InBounds(Counts(idx), q) && i < |range|
    ensures i < |stepDim| && Pick(idx, q)[i] == range[i].0 + q[i] * stepDim[i] < range[i].1
  {
    var step := if i < |stepDim| then stepDim[i] else 0;
    assert AxisOk(range[i], stepDim, i);
    assert idx[i] == Positions(range[i].0, range[i].1, step);
    assert q[i] < Counts(idx)[i] == |idx[i]|;
    PositionsMeaning(range[i].0, range[i].1, step);
  }

  /** Coordinate `i` of a picked coordinate is `start + q[i] * step` of that
      axis and lies below the axis' end. */
  lemma PickMeaning(range: seq<(nat, nat)>, stepDim: seq<nat>, idx: seq<seq<nat>>, q: seq<nat>)
    requires Axes(range, stepDim) == Done(idx) && InBounds(Counts(idx), q)
    ensures |Pick(idx, q)| == |range| <= |stepDim|
    ensures forall i :: 0 <= i < |range| ==>
      Pick(idx, q)[i] == range[i].0 + q[i] * stepDim[i] < range[i].1
  {
    if |range| > 0 {
      PickAxis(range, stepDim, idx, q, |range| - 1);
    }
    assert |range| <= |stepDim|;
    forall i | 0 <= i < |range|
      ensures Pick(idx, q)[i] == range[i].0 + q[i] * stepDim[i] < range[i].1
    {
      PickAxis(range, stepDim, idx, q, i);
    }
  }

  /** Each element of a patch is the element of the tensor at the picked
      coordinate. */
  lemma PatchMeaning<T>(t: Tensor<T>, range: seq<(nat, nat)>, steps: Option<seq<nat>>, idx: seq<seq<nat>>, q: seq<nat>)
    requires Axes(range, StepDims(steps, |t.dim|)) == Done(idx)
    requires Patch(t, range, steps).Done? && InBounds(Counts(idx), q)
    ensures Patch(t, range, steps).value.dim == Counts(idx)
    ensures WellFormed(Patch(t, range, steps).value)
    ensures ElementAt(t, Pick(idx, q)).Done?
    ensures ElementAt(Patch(t, range, steps).value, q) == ElementAt(t, Pick(idx, q))
  {
    var counts := Counts(idx);
    var u := Offset(counts, q);
    OffsetBound(counts, q);
    OffsetInjective(counts, q, Coords(counts, u));
  }

  /** The positions of every axis strictly increase. */
  predicate Increasing(idx: seq<seq<nat>>)
  {
    forall i, a, b :: 0 <= i < |idx| && 0 <= a < b < |idx[i]| ==> idx[i][a] < idx[i][b]
  }

  lemma AxesIncreasing(range: seq<(nat, nat)>, stepDim: seq<nat>, idx: seq<seq<nat>>)
    requires Axes(range, stepDim) == Done(idx)
    ensures Increasing(idx)
  {
    forall i, a, b | 0 <= i < |idx| && 0 <= a < b < |idx[i]|
      ensures idx[i][a] < idx[i][b]
    {
      var step := if i < |stepDim| then stepDim[i] else 0;
      assert AxisOk(range[i], stepDim, i);
      PositionsMeaning(range[i].0, range[i].1, step);
      MulMono(a + 1, b, step);
    }
  }

  /** Different patch coordinates pick different coordinates. */
  lemma PickInjective(idx: seq<seq<nat>>, p: seq<nat>, q: seq<nat>)
    requires Increasing(idx) && InBounds(Counts(idx), p) && InBounds(Counts(idx), q)
    requires Pick(idx, p) == Pick(idx, q)
    ensures p == q
  {
    forall i | 0 <= i < |p| ensures p[i] == q[i] {
      assert Pick(idx, p)[i] == Pick(idx, q)[i];
    }
  }

  // ---------------------------------------------------------------------
  // Writing a patch

  /** Element `s` of `val` can be written: its coordinate selects a position
      on every axis, it lies inside `val`'s buffer, and the coordinate it is
      written to is valid in a buffer of `size` elements shaped `dim`. */
  predicate WriteOk<T>(dim: seq<nat>, size: nat, val: Tensor<T>, idx: seq<seq<nat>>, s: nat)
  {
    s < Product(val.dim) && s < |val.d| &&
    InBounds(Counts(idx), Coords(val.dim, s)) &&
    InBounds(dim, Pick(idx, Coords(val.dim, s))) &&
    Offset(dim, Pick(idx, Coords(val.dim, s))) < size
  }

  /** The first `n` elements of `val` can be written. */
  predicate Writable<T>(dim: seq<nat>, size: nat, val: Tensor<T>, idx: seq<seq<nat>>, n: nat)
  {
    forall s :: 0 <= s < n ==> WriteOk(dim, size, val, idx, s)
  }

  /** Offset that element `s` of `val` is written to. */
  function Target<T>(dim: seq<nat>, size: nat, val: Tensor<T>, idx: seq<seq<nat>>, s: nat): (p: nat)
    requires WriteOk(dim, size, val, idx, s)
    ensures p < size
  {
    Offset(dim, Pick(idx, Coords(val.dim, s)))
  }

  /** The buffer after the first `n` writes of `set_patch`, in row-major
      order of `val`. */
  function PatchWrites<T>(d: seq<T>, dim: seq<nat>, val: Tensor<T>, idx: seq<seq<nat>>, n: nat): (r: seq<T>)
    requires Writable(dim, |d|, val, idx, n)
    ensures |r| == |d|
  {
    if n == 0 then d
    else PatchWrites(d, dim, val, idx, n - 1)[Target(dim, |d|, val, idx, n - 1) := val.d[n - 1]]
  }

  /** One more write extends the written prefix. */
  lemma WritableStep<T>(d: seq<T>, dim: seq<nat>, val: Tensor<T>, idx: seq<seq<nat>>, n: nat)
    requires Writable(dim, |d|, val, idx, n) && WriteOk(dim, |d|, val, idx, n)
    ensures Writable(dim, |d|, val, idx, n + 1)
    ensures PatchWrites(d, dim, val, idx, n + 1) ==
      PatchWrites(d, dim, val, idx, n)[Target(dim, |d|, val, idx, n) := val.d[n]]
  {
  }

  /** Every element of `val` can be written (and there is at least one). */
  predicate SetPatchOk<T>(t: Tensor<T>, val: Tensor<T>, idx: seq<seq<nat>>)
  {
    Product(val.dim) > 0 &&
    Writable(t.dim, |t.d|, val, idx, Product(val.dim))
  }

  /** The buffer `set_patch` leaves behind. */
  function SetPatchSpec<T>(t: Tensor<T>, val: Tensor<T>, range: seq<(nat, nat)>, steps: Option<seq<nat>>): Outcome<seq<T>>
  {
    if |range| != |t.dim| then Panic
    else match Axes(range, StepDims(steps, |t.dim|))
      case Panic => Panic
      case Done(idx) =>
        if SetPatchOk(t, val, idx) then Done(PatchWrites(t.d, t.dim, val, idx, Product(val.dim)))
        else Panic
  }

  /** Different elements of `val` go to different offsets. */
  lemma TargetInjective<T>(dim: seq<nat>, size: nat, val: Tensor<T>, idx: seq<seq<nat>>, s1: nat, s2: nat)
    requires Increasing(idx) && s1 != s2
    requires WriteOk(dim, size, val, idx, s1) && WriteOk(dim, size, val, idx, s2)
    ensures Target(dim, size, val, idx, s1) != Target(dim, size, val, idx, s2)
  {
    var q1, q2 := Coords(val.dim, s1), Coords(val.dim, s2);
    if Target(dim, size, val, idx, s1) == Target(dim, size, val, idx, s2) {
      OffsetInjective(dim, Pick(idx, q1), Pick(idx, q2));
      PickInjective(idx, q1, q2);
      assert false;
    }
  }

  /** After `n` writes each written offset holds its element of `val`: no
      later write lands on the same offset. */
  lemma {:induction false} PatchWritesWritten<T>(d: seq<T>, dim: seq<nat>, val: Tensor<T>, idx: seq<seq<nat>>, n: nat)
    requires Increasing(idx)
    requires Writable(dim, |d|, val, idx, n)
    ensures forall s :: 0 <= s < n ==>
      PatchWrites(d, dim, val, idx, n)[Target(dim, |d|, val, idx, s)] == val.d[s]
  {
    if n > 0 {
      PatchWritesWritten(d, dim, val, idx, n - 1);
      forall s | 0 <= s < n - 1
        ensures Target(dim, |d|, val, idx, s) != Target(dim, |d|, val, idx, n - 1)
      {
        TargetInjective(dim, |d|, val, idx, s, n - 1);
      }
    }
  }

  /** After `n` writes every offset none of them targets holds what it held
      before. */
  lemma {:induction false} PatchWritesUntouched<T>(d: seq<T>, dim: seq<nat>, val: Tensor<T>, idx: seq<seq<nat>>, n: nat, p: nat)
    requires Writable(dim, |d|, val, idx, n)
    requires p < |d| && forall s :: 0 <= s < n ==> Target(dim, |d|, val, idx, s) != p
    ensures PatchWrites(d, dim, val, idx, n)[p] == d[p]
  {
    if n > 0 {
      PatchWritesUntouched(d, dim, val, idx, n - 1, p);
    }
  }

  /** `set_patch` writes each element of `val` to the coordinate its own
      coordinate picks, and leaves every coordinate that no element picks
      as it was. */
  lemma SetPatchMeaning<T>(t: Tensor<T>, val: Tensor<T>, range: seq<(nat, nat)>, steps: Option<seq<nat>>, idx: seq<seq<nat>>)
    requires Axes(range, StepDims(steps, |t.dim|)) == Done(idx)
    requires SetPatchSpec(t, val, range, steps).Done?
    ensures forall q :: InBounds(val.dim, q) ==>
      ElementAt(val, q).Done? &&
      ElementAt(Tensor(SetPatchSpec(t, val, range, steps).value, t.dim), Pick(idx, q)) == ElementAt(val, q)
    ensures forall p :: InBounds(t.dim, p) && (forall q :: InBounds(val.dim, q) ==> Pick(idx, q) != p) ==>
      ElementAt(Tensor(SetPatchSpec(t, val, range, steps).value, t.dim), p) == ElementAt(t, p)
  {
    var n := Product(val.dim);
    var t' := Tensor(SetPatchSpec(t, val, range, steps).value, t.dim);
    AxesIncreasing(range, StepDims(steps, |t.dim|), idx);
    PatchWritesWritten(t.d, t.dim, val, idx, n);
    forall q | InBounds(val.dim, q)
      ensures ElementAt(val, q).Done? && ElementAt(t', Pick(idx, q)) == ElementAt(val, q)
    {
      var s := Offset(val.dim, q);
      OffsetBound(val.dim, q);
      OffsetInjective(val.dim, q, Coords(val.dim, s));
      assert WriteOk(t.dim, |t.d|, val, idx, s);
    }
    forall p | InBounds(t.dim, p) && (forall q :: InBounds(val.dim, q) ==> Pick(idx, q) != p)
      ensures ElementAt(t', p) == ElementAt(t, p)
    {
      forall s | 0 <= s < n ensures Target(t.dim, |t.d|, val, idx, s) != Offset(t.dim, p) {
        var q := Coords(val.dim, s);
        assert WriteOk(t.dim, |t.d|, val, idx, s);
        if Target(t.dim, |t.d|, val, idx, s) == Offset(t.dim, p) {
          OffsetInjective(t.dim, Pick(idx, q), p);
          assert false;
        }
      }
      if Offset(t.dim, p) < |t.d| {
        PatchWritesUntouched(t.d, t.dim, val, idx, n, Offset(t.dim, p));
      }
    }
  }

  // ---------------------------------------------------------------------
  // Right-hand broadcasting

  /** What `_right_broadcast` returns: always shaped like `s`, pairing the
      elements position by position when the buffers are equally long,
      every element with the single element of a `[1]`-shaped `o`, and
      otherwise, when `o`'s dimensions are a proper trailing part of `s`'s,
      element `i` with element `i % |o.d|` of `o`. */
  function Broadcast<T>(s: Tensor<T>, o: Tensor<T>, f: (T, T) -> T): Outcome<Tensor<T>>
  {
    if |s.d| == |o.d| then
      Done(Tensor(seq(|s.d|, i requires 0 <= i < |s.d| => f(s.d[i], o.d[i])), s.dim))
    else if o.dim == [1] then
      if |o.d| == 0 then Panic
      else Done(Tensor(seq(|s.d|, i requires 0 <= i < |s.d| => f(s.d[i], o.d[0])), s.dim))
    else if |s.d| < |o.d| || |s.dim| <= |o.dim| || s.dim[|s.dim| - |o.dim|..] != o.dim then
      Panic
    else if |o.d| == 0 then
      Panic
    else
      Done(Tensor(seq(|s.d|, i requires 0 <= i < |s.d| => f(s.d[i], o.d[i % |o.d|])), s.dim))
  }

  /** For well-formed operands, the cycling of the last case pairs the
      element at each coordinate with the element of `o` at the trailing
      part of that coordinate: a broadcast over the leading axes. */
  lemma BroadcastTrailing<T>(s: Tensor<T>, o: Tensor<T>, f: (T, T) -> T, pos: seq<nat>)
    requires WellFormed(s) && WellFormed(o)
    requires |s.d| != |o.d| && o.dim != [1]
    requires Broadcast(s, o, f).Done? && InBounds(s.dim, pos)
    ensures |o.dim| < |s.dim|
    ensures ElementAt(s, pos).Done?
    ensures ElementAt(o, pos[|s.dim| - |o.dim|..]).Done?
    ensures ElementAt(Broadcast(s, o, f).value, pos) ==
      Done(f(ElementAt(s, pos).value, ElementAt(o, pos[|s.dim| - |o.dim|..]).value))
  {
    var k := |s.dim| - |o.dim|;
    OffsetBound(s.dim, pos);
    OffsetSuffix(s.dim, pos, k);
    assert InBounds(o.dim, pos[k..]);
    OffsetBound(o.dim, pos[k..]);
  }

  // ---------------------------------------------------------------------
  // Statistics along one axis

  /** Shape of the result of a statistic along `axis`. */
  function ReducedDim(dim: seq<nat>, axis: nat, keepdim: bool): seq<nat>
    requires axis < |dim|
  {
    if keepdim then dim[axis := 1] else dim[..axis] + dim[axis + 1..]
  }

  /** The `outer` blocks of `inner` values `f(over, k, j, inner, step)`, one
      block per `k`, laid end to end. */
  function StatData<T>(f: (nat, nat, nat, nat, nat) -> T, over: nat, outer: nat, inner: nat, step: nat): seq<T>
  {
    if outer == 0 then []
    else StatData(f, over, outer - 1, inner, step) + seq(inner, j requires 0 <= j < inner => f(over, outer - 1, j, inner, step))
  }

  /** What `_dim_statistic` returns. */
  function Statistic<T>(t: Tensor<T>, axis: nat, keepdim: bool, f: (nat, nat, nat, nat, nat) -> T): Outcome<Tensor<T>>
  {
    if axis >= |t.dim| then Panic
    else Done(Tensor(
      StatData(f, t.dim[axis], Product(t.dim[..axis]), Product(t.dim[axis + 1..]), Strides(t.dim)[axis]),
      ReducedDim(t.dim, axis, keepdim)))
  }

  /** Position `j` of block `k` lies in the block's part of the buffer. */
  lemma BlockIndex(k: nat, j: nat, outer: nat, inner: nat)
    requires k < outer && j < inner
    ensures k < outer - 1 ==> k * inner + j < (outer - 1) * inner
    ensures k == outer - 1 ==> k * inner + j == (outer - 1) * inner + j
    ensures k * inner + j < outer * inner
  {
    MulPred(k + 1, inner);
    MulMono(k + 1, outer, inner);
    MulMono(k + 1, outer - 1, inner);
  }

  lemma {:induction false} StatDataLength<T>(f: (nat, nat, nat, nat, nat) -> T, over: nat, outer: nat, inner: nat, step: nat)
    ensures |StatData(f, over, outer, inner, step)| == outer * inner
  {
    if outer > 0 {
      StatDataLength(f, over, outer - 1, inner, step);
      MulPred(outer, inner);
    }
  }

  lemma {:induction false} StatDataAt<T>(f: (nat, nat, nat, nat, nat) -> T, over: nat, outer: nat, inner: nat, step: nat, k: nat, j: nat)
    requires k < outer && j < inner
    ensures k * inner + j < |StatData(f, over, outer, inner, step)|
    ensures StatData(f, over, outer, inner, step)[k * inner + j] == f(over, k, j, inner, step)
  {
    StatDataLength(f, over, outer, inner, step);
    StatDataLength(f, over, outer - 1, inner, step);
    BlockIndex(k, j, outer, inner);
    var prev := StatData(f, over, outer - 1, inner, step);
    if k < outer - 1 {
      StatDataAt(f, over, outer - 1, inner, step, k, j);
      assert StatData(f, over, outer, inner, step)[k * inner + j] == prev[k * inner + j];
    }
  }

  /** The reduced shape keeps every other axis, and holds as many elements
      as there are outer blocks times inner positions. */
  lemma ReducedDimMeaning(dim: seq<nat>, axis: nat, keepdim: bool)
    requires axis < |dim|
    ensures var rd := ReducedDim(dim, axis, keepdim);
      Product(rd) == Product(dim[..axis]) * Product(dim[axis + 1..]) &&
      |rd| == (if keepdim then |dim| else |dim| - 1) &&
      (keepdim ==> rd[axis] == 1 && forall i :: 0 <= i < |dim| && i != axis ==> rd[i] == dim[i]) &&
      (!keepdim ==> forall i :: 0 <= i < |dim| - 1 ==> rd[i] == if i < axis then dim[i] else dim[i + 1])
  {
    var rd := ReducedDim(dim, axis, keepdim);
    var pre, post := dim[..axis], dim[axis + 1..];
    if keepdim {
      assert rd == pre + [1] + post;
      ProductConcat(pre + [1], post);
      ProductConcat(pre, [1]);
    } else {
      ProductConcat(pre, post);
    }
  }

  /** The result of a statistic is well formed: its shape has the axis set
      to 1 (`keepdim`) or removed, and its buffer holds one value per outer
      block and inner position. */
  lemma StatisticShape<T>(t: Tensor<T>, axis: nat, keepdim: bool, f: (nat, nat, nat, nat, nat) -> T)
    requires axis < |t.dim|
    ensures Statistic(t, axis, keepdim, f).Done?
    ensures var r := Statistic(t, axis, keepdim, f).value;
      WellFormed(r) && r.dim == ReducedDim(t.dim, axis, keepdim) &&
      |r.d| == Product(t.dim[..axis]) * Product(t.dim[axis + 1..])
  {
    var outer, inner := Product(t.dim[..axis]), Product(t.dim[axis + 1..]);
    StatDataLength(f, t.dim[axis], outer, inner, Strides(t.dim)[axis]);
    ReducedDimMeaning(t.dim, axis, keepdim);
  }

  /** The value for outer block `k` and inner position `j` is
      `f(dim[axis], k, j, inner, inner)`: the stride of the axis is the
      product of the dimensions after it. */
  lemma StatisticAt<T>(t: Tensor<T>, axis: nat, keepdim: bool, f: (nat, nat, nat, nat, nat) -> T, inner: nat, k: nat, j: nat)
    requires axis < |t.dim| && inner == Product(t.dim[axis + 1..])
    requires k < Product(t.dim[..axis]) && j < inner
    ensures Statistic(t, axis, keepdim, f).Done?
    ensures k * inner + j < |Statistic(t, axis, keepdim, f).value.d|
    ensures Statistic(t, axis, keepdim, f).value.d[k * inner + j] == f(t.dim[axis], k, j, inner, inner)
  {
    assert Strides(t.dim)[axis] == inner;
    StatDataAt(f, t.dim[axis], Product(t.dim[..axis]), inner, inner, k, j);
  }

  // ---------------------------------------------------------------------
  // Matrix product shape

  /** Result shape of `mm` as written: both operands must be matrices, and
      every element the product loop reads must lie inside its buffer (row
      `i` of `a` from `i * a1`, column `j` of `b` in steps of `b1`, for
      `k < a1`). The inner sizes `a1` and `b0` are never compared. */
  function MmAsWritten(adim: seq<nat>, alen: nat, bdim: seq<nat>, blen: nat): Outcome<seq<nat>>
  {
    if |adim| != 2 || |bdim| != 2 then Panic
    else if adim[0] > 0 && bdim[1] > 0 && adim[1] > 0 &&
      (adim[0] * adim[1] > alen || adim[1] * bdim[1] > blen) then Panic
    else Done([adim[0], bdim[1]])
  }

  lemma ProductPair(s: seq<nat>)
    requires |s| == 2
    ensures Product(s) == s[0] * s[1]
  {
    assert s[1..][1..] == [];
    assert Product(s[1..]) == s[1] * Product(s[1..][1..]);
  }

  /** `mm` with the inner sizes compared, as `matmul` does. */
  function MmChecked(adim: seq<nat>, alen: nat, bdim: seq<nat>, blen: nat): Outcome<seq<nat>>
  {
    if |adim| != 2 || |bdim| != 2 || adim[1] != bdim[0] then Panic
    else MmAsWritten(adim, alen, bdim, blen)
  }

  /** As written, a 2 x 1 matrix times a 2 x 2 matrix is accepted and gets a
      2 x 2 result. */
  lemma MmAcceptsMismatch()
    ensures MmAsWritten([2, 1], 2, [2, 2], 4) == Done([2, 2])
    ensures MmChecked([2, 1], 2, [2, 2], 4) == Panic
  {
  }

  /** On well-formed matrices with positive sizes, `mm` as written succeeds
      exactly when the inner size of `a` is at most that of `b`: a
      mismatch in the other direction is silently computed on the first
      rows of `b`. */
  lemma MmAsWrittenShape(adim: seq<nat>, bdim: seq<nat>)
    requires |adim| == 2 && |bdim| == 2 && AllPositive(adim) && AllPositive(bdim)
    ensures MmAsWritten(adim, Product(adim), bdim, Product(bdim)).Done? <==> adim[1] <= bdim[0]
  {
    ProductPair(adim);
    ProductPair(bdim);
    var a0, a1, b0, b1 := adim[0], adim[1], bdim[0], bdim[1];
    MulMono(a1, b0, b1);
    MulMono(b0 + 1, a1, b1);
    assert (b0 + 1) * b1 == b0 * b1 + b1;
    assert a1 <= b0 <==> a1 * b1 <= b0 * b1;
  }

  /** On well-formed operands the checked product succeeds exactly on two
      matrices with matching inner sizes, and its shape is rows of `a` by
      columns of `b`. */
  lemma MmCheckedShape(adim: seq<nat>, bdim: seq<nat>)
    ensures MmChecked(adim, Product(adim), bdim, Product(bdim)).Done? <==>
      |adim| == 2 && |bdim| == 2 && adim[1] == bdim[0]
    ensures MmChecked(adim, Product(adim), bdim, Product(bdim)).Done? ==>
      MmChecked(adim, Product(adim), bdim, Product(bdim)).value == [adim[0], bdim[1]]
  {
    if |adim| == 2 && |bdim| == 2 {
      ProductPair(adim);
      ProductPair(bdim);
      if adim[1] == bdim[0] {
        assert adim[1] * bdim[1] == bdim[0] * bdim[1];
      }
    }
  }
}
