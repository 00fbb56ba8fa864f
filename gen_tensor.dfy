/** The naive single-threaded tensor: a flat buffer and its dimensions,
    with the index arithmetic that reads it, the setters that write it in
    place, and the loops that build patches, broadcasts and statistics.
    Element values are never inspected, so the element type is generic;
    where a result depends on element arithmetic, that arithmetic is a
    function parameter. */
module GenTensors {
  import opened Results
  import opened Shape
  import opened TensorModel

  // ---------------------------------------------------------------------
  // Creation

  /** The product of `shape`, accumulated left to right as `empty` and
      `fill` do. */
  method ElementCount(shape: seq<nat>) returns (n: nat)
    ensures n == Product(shape)
  {
    n := 1;
    var i := 0;
    while i < |shape|
      invariant 0 <= i <= |shape|
      invariant n == Product(shape[..i])
    {
      ProductSnoc(shape, i);
      n := n * shape[i];
      i := i + 1;
    }
    assert shape[..|shape|] == shape;
  }

  /** `fill`: the value `x` once per coordinate of `shape`. */
  method Fill<T>(x: T, shape: seq<nat>) returns (t: Tensor<T>)
    ensures t == Filled(x, shape)
  {
    var size := ElementCount(shape);
    t := Tensor(seq(size, _ => x), shape);
  }

  /** `empty`: a buffer of one element per coordinate whose contents are
      whatever the memory held; `junk` stands for them. */
  method Empty<T>(shape: seq<nat>, junk: T) returns (t: Tensor<T>)
    ensures t.dim == shape && WellFormed(t)
  {
    var size := ElementCount(shape);
    t := Tensor(seq(size, _ => junk), shape);
  }

  // ---------------------------------------------------------------------
  // Patch helpers

  /** The positions one axis of a patch visits, collected by stepping from
      `start` while below `end`. */
  method AxisPositions(start: nat, end: nat, step: nat) returns (all: seq<nat>)
    requires start < end ==> step > 0
    ensures all == Positions(start, end, step)
  {
    var pos := start;
    all := [];
    while pos < end
      invariant start <= pos
      invariant all + Positions(pos, end, step) == Positions(start, end, step)
      decreases end - pos
    {
      assert all + Positions(pos, end, step) == (all + [pos]) + Positions(pos + step, end, step);
      all := all + [pos];
      pos := pos + step;
    }
  }

  /** The positions of every axis, with the panics of a missing or zero
      step on a non-empty range. */
  method AxisIndices(range: seq<(nat, nat)>, stepDim: seq<nat>) returns (r: Outcome<seq<seq<nat>>>)
    ensures r == Axes(range, stepDim)
  {
    var index: seq<seq<nat>> := [];
    var i := 0;
    while i < |range|
      invariant 0 <= i <= |range| && |index| == i
      invariant forall k :: 0 <= k < i ==> AxisOk(range[k], stepDim, k)
      invariant forall k :: 0 <= k < i ==>
        index[k] == Positions(range[k].0, range[k].1, if k < |stepDim| then stepDim[k] else 0)
    {
      var step := if i < |stepDim| then stepDim[i] else 0;
      if range[i].0 < range[i].1 && step == 0 {
        assert !AxisOk(range[i], stepDim, i);
        assert !(forall k :: 0 <= k < |range| ==> AxisOk(range[k], stepDim, k));
        return Panic;
      }
      var all := AxisPositions(range[i].0, range[i].1, step);
      index := index + [all];
      i := i + 1;
    }
    assert index == seq(|range|, k requires 0 <= k < |range| =>
      Positions(range[k].0, range[k].1, if k < |stepDim| then stepDim[k] else 0));
    r := Done(index);
  }

  /** The coordinate of the whole tensor that patch coordinate `pos` picks;
      an index out of range when `pos` runs past an axis' positions. */
  method Select(idx: seq<seq<nat>>, pos: seq<nat>) returns (r: Outcome<seq<nat>>)
    requires |pos| == |idx|
    ensures r.Done? <==> InBounds(Counts(idx), pos)
    ensures r.Done? ==> r.value == Pick(idx, pos)
  {
    var sel: seq<nat> := [];
    var i := 0;
    while i < |idx|
      invariant 0 <= i <= |idx| && |sel| == i
      invariant forall k :: 0 <= k < i ==> pos[k] < |idx[k]| && sel[k] == idx[k][pos[k]]
    {
      if pos[i] >= |idx[i]| {
        return Panic;
      }
      sel := sel + [idx[i][pos[i]]];
      i := i + 1;
    }
    r := Done(sel);
  }

  /** One step of the odometer that walks a patch in row-major order: the
      last axis goes up by one, and an axis that reaches its size goes back
      to 0 and carries into the axis before it. After the last coordinate
      it comes back to all zeros. */
  method Advance(counts: seq<nat>, pos: seq<nat>) returns (next: seq<nat>)
    requires InBounds(counts, pos)
    ensures InBounds(counts, next)
    ensures Offset(counts, pos) + 1 <= Product(counts)
    ensures if Offset(counts, pos) + 1 < Product(counts) then Offset(counts, next) == Offset(counts, pos) + 1
      else next == Zeros(|counts|)
  {
    var n := |counts|;
    ghost var t := Offset(counts, pos);
    ghost var st := Strides(counts);
    OffsetBound(counts, pos);
    next := pos;
    var k := 0;
    while k < n
      invariant 0 <= k <= n && |next| == n
      invariant forall i :: 0 <= i < n - k ==> next[i] == pos[i]
      invariant forall i :: n - k <= i < n ==> next[i] == 0
      invariant Offset(counts, next) + Product(counts[n - k..]) == t + 1
    {
      var c := n - 1 - k;
      ProductSuffix(counts, c);
      assert st[c] == Product(counts[c + 1..]);
      var v := next[c] + 1;
      CarryStep(next[c], st[c]);
      if v >= counts[c] {
        DotUpdate(st, next, c, 0);
        next := next[c := 0];
      } else {
        DotUpdate(st, next, c, v);
        assert Offset(counts, next[c := v]) == t + 1;
        next := next[c := v];
        assert InBounds(counts, next);
        OffsetBound(counts, next);
        return;
      }
      k := k + 1;
    }
    assert next == Zeros(n);
    assert counts[n - k..] == counts;
    DotZeros(st);
    assert Product(counts) == t + 1;
  }

  /** Arithmetic of one carry: resetting a digit `x` whose weight is `w`
      removes `x * w` and the block it completes adds `(x + 1) * w`. */
  lemma CarryStep(x: nat, w: nat)
    ensures (x + 1) * w == x * w + w == w * (x + 1)
  {
  }

  // ---------------------------------------------------------------------
  // Broadcast helpers

  lemma ModStep(i: nat, n: nat)
    requires n > 0
    ensures (i + 1) % n == if i % n + 1 == n then 0 else i % n + 1
  {
    var q, r := i / n, i % n;
    if r + 1 < n {
      DivModUnique(i + 1, q, r + 1, n);
    } else {
      assert (q + 1) * n == q * n + n;
      DivModUnique(i + 1, q + 1, 0, n);
    }
  }

  /** The loop of `index2dimpos`: divides `index` by each stride in turn,
      keeping the quotient and going on with the remainder; a zero stride
      is a division by zero. */
  method DivideOut(st: seq<nat>, index: nat) returns (r: Outcome<seq<nat>>)
    ensures r.Done? <==> AllPositive(st)
    ensures r.Done? ==> r.value == Digits(st, index)
  {
    var ret: seq<nat> := [];
    var rem := index;
    var k := 0;
    while k < |st|
      invariant 0 <= k <= |st|
      invariant forall i :: 0 <= i < k ==> st[i] > 0
      invariant AllPositive(st) ==> ret + Digits(st[k..], rem) == Digits(st, index)
    {
      if st[k] == 0 {
        return Panic;
      }
      if AllPositive(st) {
        DigitsStep(st, k, rem);
      }
      ret := ret + [rem / st[k]];
      rem := rem % st[k];
      k := k + 1;
    }
    assert ret + Digits(st[k..], rem) == ret;
    r := Done(ret);
  }

  /** The broadcast check of `_right_broadcast`: `o` has fewer axes and
      they equal the trailing axes of `dim`, compared from the last one
      backwards. */
  method TrailingMatch(dim: seq<nat>, o: seq<nat>) returns (r: bool)
    ensures r <==> |o| < |dim| && dim[|dim| - |o|..] == o
  {
    if |dim| <= |o| {
      return false;
    }
    var i := 0;
    while i < |o|
      invariant 0 <= i <= |o|
      invariant forall j :: |o| - i <= j < |o| ==> o[j] == dim[|dim| - |o| + j]
    {
      if o[|o| - i - 1] != dim[|dim| - i - 1] {
        assert dim[|dim| - |o|..][|o| - i - 1] == dim[|dim| - i - 1];
        return false;
      }
      i := i + 1;
    }
    assert dim[|dim| - |o|..] == o;
    r := true;
  }

  /** Pairs the elements of two equally long buffers position by position. */
  method Zip<T>(a: seq<T>, b: seq<T>, f: (T, T) -> T) returns (r: seq<T>)
    requires |a| == |b|
    ensures |r| == |a| && forall i :: 0 <= i < |a| ==> r[i] == f(a[i], b[i])
  {
    r := [];
    var i := 0;
    while i < |a|
      invariant 0 <= i <= |a| && |r| == i
      invariant forall k :: 0 <= k < i ==> r[k] == f(a[k], b[k])
    {
      r := r + [f(a[i], b[i])];
      i := i + 1;
    }
  }

  /** Pairs every element of `a` with the one value `x`. */
  method PairWith<T>(a: seq<T>, x: T, f: (T, T) -> T) returns (r: seq<T>)
    ensures |r| == |a| && forall i :: 0 <= i < |a| ==> r[i] == f(a[i], x)
  {
    r := [];
    var i := 0;
    while i < |a|
      invariant 0 <= i <= |a| && |r| == i
      invariant forall k :: 0 <= k < i ==> r[k] == f(a[k], x)
    {
      r := r + [f(a[i], x)];
      i := i + 1;
    }
  }

  /** Pairs `a[i]` with `b[i % |b|]`, cycling through `b`; an index out of
      range on the first element when `b` is empty. */
  method Cycle<T>(a: seq<T>, b: seq<T>, f: (T, T) -> T) returns (r: Outcome<seq<T>>)
    ensures r.Done? <==> |a| == 0 || |b| > 0
    ensures r.Done? ==> |r.value| == |a|
    ensures r.Done? ==> forall i :: 0 <= i < |a| ==> r.value[i] == f(a[i], b[i % |b|])
  {
    var ret: seq<T> := [];
    var index := 0;
    var i := 0;
    while i < |a|
      invariant 0 <= i <= |a| && |ret| == i
      invariant i > 0 ==> |b| > 0
      invariant |b| > 0 ==> index == i % |b|
      invariant |b| > 0 ==> forall k :: 0 <= k < i ==> ret[k] == f(a[k], b[k % |b|])
    {
      if index >= |b| {
        return Panic;
      }
      ret := ret + [f(a[i], b[index])];
      ModStep(i, |b|);
      index := index + 1;
      if index >= |b| {
        index := 0;
      }
      i := i + 1;
    }
    r := Done(ret);
  }

  // ---------------------------------------------------------------------
  // Statistic helpers

  /** The result shape with `axis` left out, collected axis by axis. */
  method DropAxis(dim: seq<nat>, axis: nat) returns (r: seq<nat>)
    requires axis < |dim|
    ensures r == dim[..axis] + dim[axis + 1..]
  {
    r := [];
    var i := 0;
    while i < |dim|
      invariant 0 <= i <= |dim|
      invariant r == if i <= axis then dim[..i] else dim[..axis] + dim[axis + 1..i]
    {
      if i != axis {
        r := r + [dim[i]];
      }
      i := i + 1;
    }
  }

  /** The products of the dimensions before and after `axis`. */
  method AxisProducts(dim: seq<nat>, axis: nat) returns (outer: nat, inner: nat)
    requires axis < |dim|
    ensures outer == Product(dim[..axis]) && inner == Product(dim[axis + 1..])
  {
    outer, inner := 1, 1;
    var post := dim[axis + 1..];
    var i := 0;
    while i < |dim|
      invariant 0 <= i <= |dim|
      invariant outer == Product(dim[..if i < axis then i else axis])
      invariant inner == Product(post[..if i > axis + 1 then i - axis - 1 else 0])
    {
      if i < axis {
        ProductSnoc(dim, i);
        outer := outer * dim[i];
      }
      if i > axis {
        ProductSnoc(post, i - axis - 1);
        inner := inner * dim[i];
      }
      i := i + 1;
    }
    assert post[..|post|] == post;
  }

  /** The `outer` blocks of `inner` values, built by two nested loops. */
  method StatBlocks<T>(f: (nat, nat, nat, nat, nat) -> T, over: nat, outer: nat, inner: nat, step: nat)
    returns (data: seq<T>)
    ensures data == StatData(f, over, outer, inner, step)
  {
    data := [];
    var k := 0;
    while k < outer
      invariant 0 <= k <= outer
      invariant data == StatData(f, over, k, inner, step)
    {
      ghost var before := data;
      var j := 0;
      while j < inner
        invariant 0 <= j <= inner
        invariant data == before + seq(j, jj requires 0 <= jj < j => f(over, k, jj, inner, step))
      {
        data := data + [f(over, k, j, inner, step)];
        j := j + 1;
      }
      assert seq(inner, jj requires 0 <= jj < inner => f(over, k, jj, inner, step))
        == seq(inner, jj requires 0 <= jj < inner => f(over, (k + 1) - 1, jj, inner, step));
      k := k + 1;
    }
  }

  // ---------------------------------------------------------------------
  // The tensor

  class GenTensor<T> {
    var d: seq<T>
    var dim: seq<nat>

    /** The tensor as a value. */
    function Value(): Tensor<T>
      reads this
    {
      Tensor(d, dim)
    }

    /** `new_raw`: the buffer and the dimensions as given; nothing checks
        that they agree. */
    constructor NewRaw(data: seq<T>, shape: seq<nat>)
      ensures d == data && dim == shape
    {
      d := data;
      dim := shape;
    }

    /** Row-major strides, filled from the last axis to the first. */
    method Stride() returns (r: seq<nat>)
      ensures r == Strides(dim)
    {
      var n := |dim|;
      var ret := new nat[n](_ => 0);
      StridesRecurrence(dim);
      var i := 0;
      while i < n
        invariant 0 <= i <= n
        invariant forall k :: n - i <= k < n ==> ret[k] == Strides(dim)[k]
      {
        if i == 0 {
          ret[n - 1] := 1;
        } else {
          ret[n - i - 1] := ret[n - i] * dim[n - i];
        }
        i := i + 1;
      }
      r := ret[..];
    }

    /** The coordinate of linear position `index`: successive quotients and
        remainders by the strides. Panics on an index past the buffer and
        on a zero stride. */
    method Index2DimPos(index: nat) returns (r: Outcome<seq<nat>>)
      ensures r.Done? <==> index < |d| && AllPositive(Strides(dim))
      ensures r.Done? ==> r.value == Digits(Strides(dim), index)
      ensures r.Done? && index < Product(dim) ==> InBounds(dim, r.value) && Offset(dim, r.value) == index
    {
      if index >= |d| {
        return Panic;
      }
      var st := Stride();
      r := DivideOut(st, index);
      if r.Done? && index < Product(dim) {
        OffsetOfDigits(dim, index);
      }
    }

    /** The linear position of a coordinate: panics unless it has one
        in-range entry per axis, and otherwise sums stride times entry. */
    method DimPos2Index(pos: seq<nat>) returns (r: Outcome<nat>)
      ensures r.Done? <==> InBounds(dim, pos)
      ensures r.Done? ==> r.value == Offset(dim, pos) && r.value < Product(dim)
    {
      if |pos| != |dim| {
        return Panic;
      }
      var i := 0;
      while i < |dim|
        invariant 0 <= i <= |dim|
        invariant forall k :: 0 <= k < i ==> pos[k] < dim[k]
      {
        if pos[i] >= dim[i] {
          return Panic;
        }
        i := i + 1;
      }
      var st := Stride();
      var ret := 0;
      i := 0;
      while i < |pos|
        invariant 0 <= i <= |pos|
        invariant ret == Dot(st[..i], pos[..i])
      {
        DotSnoc(st, pos, i);
        ret := ret + st[i] * pos[i];
        i := i + 1;
      }
      assert st[..|st|] == st && pos[..|pos|] == pos;
      OffsetBound(dim, pos);
      r := Done(ret);
    }

    /** `get`: the same checks and sum as `dimpos2index`, then the element
        at that offset. */
    method Get(pos: seq<nat>) returns (r: Outcome<T>)
      ensures r == ElementAt(Value(), pos)
    {
      var index := DimPos2Index(pos);
      if index.Panic? || index.value >= |d| {
        return Panic;
      }
      r := Done(d[index.value]);
    }

    /** `set`: overwrites the element at a coordinate `get` accepts, and
        changes nothing when it panics. */
    method Set(pos: seq<nat>, v: T) returns (r: Outcome<()>)
      modifies this
      ensures r.Done? <==> SetAt(old(Value()), pos, v).Done?
      ensures Value() == if r.Done? then SetAt(old(Value()), pos, v).value else old(Value())
    {
      var index := DimPos2Index(pos);
      if index.Panic? || index.value >= |d| {
        return Panic;
      }
      d := d[index.value := v];
      r := Done(());
    }

    /** `set_1d`: overwrites the element at a linear position inside the
        buffer, and panics on any other. */
    method Set1D(o: nat, v: T) returns (r: Outcome<()>)
      modifies this
      ensures dim == old(dim)
      ensures r.Done? <==> o < |old(d)|
      ensures d == if r.Done? then old(d)[o := v] else old(d)
    {
      if o < |d| {
        d := d[o := v];
        r := Done(());
      } else {
        r := Panic;
      }
    }

    /** `get_patch`: for every axis the positions from its start, by its
        step, below its end; the result holds the elements at every
        combination of them, in row-major order. */
    method GetPatch(range: seq<(nat, nat)>, steps: Option<seq<nat>>) returns (r: Outcome<Tensor<T>>)
      ensures r == Patch(Value(), range, steps)
    {
      if |range| != |dim| {
        return Panic;
      }
      var axes := AxisIndices(range, StepDims(steps, |dim|));
      if axes.Panic? {
        return Panic;
      }
      var idx := axes.value;
      var counts := Counts(idx);
      var total := ElementCount(counts);
      if total == 0 {
        // the first look-up of a position on an empty axis is out of range
        return Panic;
      }
      var ret := ReadPatch(idx, total);
      if ret.Panic? {
        return Panic;
      }
      r := Done(Tensor(ret.value, counts));
    }

    /** The loop of `get_patch`: walks the patch coordinates in row-major
        order with the odometer and reads the element each one picks. */
    method ReadPatch(idx: seq<seq<nat>>, total: nat) returns (r: Outcome<seq<T>>)
      requires total == Product(Counts(idx)) > 0
      ensures r.Done? <==> PatchReadable(Value(), idx)
      ensures r.Done? ==> r.value == PatchData(Value(), idx)
    {
      var counts := Counts(idx);
      ghost var t := Value();
      ProductPositive(counts);
      DotZeros(Strides(counts));
      var pos := Zeros(|counts|);
      var ret: seq<T> := [];
      while true
        invariant InBounds(counts, pos) && Offset(counts, pos) == |ret| < total
        invariant forall u :: 0 <= u < |ret| ==> ElementAt(t, Pick(idx, Coords(counts, u))) == Done(ret[u])
        decreases total - |ret|
      {
        var value := ReadAt(idx, pos, |ret|);
        if value.Panic? {
          return Panic;
        }
        ret := ret + [value.value];
        pos := Advance(counts, pos);
        if pos == Zeros(|counts|) {
          break;
        }
      }
      PatchDataComplete(t, idx, ret);
      r := Done(ret);
    }

    /** One step of the `get_patch` loop: the element that patch coordinate
        `pos`, the `u`-th in row-major order, picks. */
    method ReadAt(idx: seq<seq<nat>>, pos: seq<nat>, ghost u: nat) returns (r: Outcome<T>)
      requires InBounds(Counts(idx), pos) && Offset(Counts(idx), pos) == u
      ensures u < Product(Counts(idx))
      ensures r == ElementAt(Value(), Pick(idx, Coords(Counts(idx), u)))
    {
      OffsetBound(Counts(idx), pos);
      OffsetInjective(Counts(idx), pos, Coords(Counts(idx), u));
      var source := Select(idx, pos);
      r := Get(source.value);
    }

    /** `set_patch`: writes the elements of `val`, in row-major order, to
        the coordinates its coordinates pick. A panic part-way leaves the
        writes made so far. */
    method SetPatch(val: GenTensor<T>, range: seq<(nat, nat)>, steps: Option<seq<nat>>) returns (r: Outcome<()>)
      requires val != this
      modifies this
      ensures dim == old(dim) && |d| == |old(d)|
      ensures r.Done? <==> SetPatchSpec(old(Value()), val.Value(), range, steps).Done?
      ensures r.Done? ==> d == SetPatchSpec(old(Value()), val.Value(), range, steps).value
    {
      if |range| != |dim| {
        return Panic;
      }
      var axes := AxisIndices(range, StepDims(steps, |dim|));
      if axes.Panic? {
        return Panic;
      }
      var idx := axes.value;
      ghost var t := Value();
      ghost var v := val.Value();
      var total := ElementCount(val.dim);
      if total == 0 {
        // the first `val.get` is out of range
        return Panic;
      }
      if |val.dim| != |idx| {
        // the first `val.get` has the wrong number of entries
        assert !WriteOk(t.dim, |t.d|, v, idx, 0);
        return Panic;
      }
      r := WritePatch(val, idx, total);
    }

    /** The loop of `set_patch`: walks `val`'s coordinates in row-major
        order with the odometer and writes each element where its
        coordinate picks. */
    method WritePatch(val: GenTensor<T>, idx: seq<seq<nat>>, total: nat) returns (r: Outcome<()>)
      requires val != this && |val.dim| == |idx| && total == Product(val.dim) > 0
      modifies this
      ensures dim == old(dim) && |d| == |old(d)|
      ensures r.Done? <==> SetPatchOk(old(Value()), val.Value(), idx)
      ensures r.Done? ==> d == PatchWrites(old(d), old(dim), val.Value(), idx, total)
    {
      ghost var t := Value();
      ghost var v := val.Value();
      ProductPositive(val.dim);
      DotZeros(Strides(val.dim));
      var pos := Zeros(|idx|);
      ghost var u := 0;
      while true
        invariant dim == t.dim && |d| == |t.d| && val.Value() == v
        invariant InBounds(v.dim, pos) && Offset(v.dim, pos) == u < total
        invariant Writable(t.dim, |t.d|, v, idx, u)
        invariant d == PatchWrites(t.d, t.dim, v, idx, u)
        decreases total - u
      {
        r := WriteAt(val, idx, pos, u);
        if r.Panic? {
          assert !WriteOk(t.dim, |t.d|, v, idx, u);
          return;
        }
        WritableStep(t.d, t.dim, v, idx, u);
        u := u + 1;
        pos := Advance(val.dim, pos);
        if pos == Zeros(|idx|) {
          assert u == total;
          break;
        }
      }
      assert u == total;
      assert Writable(t.dim, |t.d|, v, idx, total);
      assert d == PatchWrites(t.d, t.dim, v, idx, total);
      r := Done(());
    }

    /** One step of the `set_patch` loop: element `u` of `val`, at
        coordinate `pos`, is written where that coordinate picks. */
    method WriteAt(val: GenTensor<T>, idx: seq<seq<nat>>, pos: seq<nat>, ghost u: nat) returns (r: Outcome<()>)
      requires val != this && |val.dim| == |idx|
      requires InBounds(val.dim, pos) && Offset(val.dim, pos) == u
      modifies this
      ensures dim == old(dim) && |d| == |old(d)| && val.Value() == old(val.Value())
      ensures u < Product(val.dim)
      ensures r.Done? <==> WriteOk(old(dim), |old(d)|, val.Value(), idx, u)
      ensures r.Done? ==> d == old(d)[Target(old(dim), |old(d)|, val.Value(), idx, u) := val.d[u]]
      ensures r.Panic? ==> d == old(d)
    {
      OffsetBound(val.dim, pos);
      OffsetInjective(val.dim, pos, Coords(val.dim, u));
      var target := Select(idx, pos);
      if target.Panic? {
        return Panic;
      }
      var x := val.Get(pos);
      if x.Panic? {
        return Panic;
      }
      var w := Set(target.value, x.value);
      r := if w.Done? then Done(()) else Panic;
    }

    /** `_right_broadcast`: pairs the elements with those of `o` as the
        three cases of `Broadcast` describe; the result keeps this tensor's
        dimensions. */
    method RightBroadcast(o: GenTensor<T>, f: (T, T) -> T) returns (r: Outcome<Tensor<T>>)
      ensures r == Broadcast(Value(), o.Value(), f)
    {
      if |d| == |o.d| {
        var paired := Zip(d, o.d, f);
        ghost var b := Broadcast(Value(), o.Value(), f);
        assert forall i :: 0 <= i < |d| ==> b.value.d[i] == paired[i];
        assert b.value.d == paired;
        r := Done(Tensor(paired, dim));
      } else if |o.dim| == 1 && o.dim[0] == 1 {
        assert o.dim == [1];
        if |o.d| == 0 {
          // `o.d[0]` is out of range on the first element, and there is one
          return Panic;
        }
        var scaled := PairWith(d, o.d[0], f);
        ghost var b := Broadcast(Value(), o.Value(), f);
        assert forall i :: 0 <= i < |d| ==> b.value.d[i] == scaled[i];
        assert b.value.d == scaled;
        r := Done(Tensor(scaled, dim));
      } else {
        if |d| < |o.d| {
          return Panic;
        }
        var trailing := TrailingMatch(dim, o.dim);
        if !trailing {
          return Panic;
        }
        var cycled := Cycle(d, o.d, f);
        if cycled.Panic? {
          return Panic;
        }
        ghost var b := Broadcast(Value(), o.Value(), f);
        assert forall i :: 0 <= i < |d| ==> b.value.d[i] == cycled.value[i];
        assert b.value.d == cycled.value;
        r := Done(Tensor(cycled.value, dim));
      }
    }

    /** `_dim_statistic`: the result shape drops `axis` or sets it to 1, and
        the values come from `f(dim[axis], k, j, inner, stride[axis])` for
        every outer block `k` and inner position `j`. */
    method DimStatistic(axis: nat, keepdim: bool, f: (nat, nat, nat, nat, nat) -> T) returns (r: Outcome<Tensor<T>>)
      ensures r == Statistic(Value(), axis, keepdim, f)
    {
      if |dim| <= axis {
        return Panic;
      }
      var retDim: seq<nat>;
      if keepdim {
        retDim := dim[axis := 1];
      } else {
        retDim := DropAxis(dim, axis);
      }
      var outer, inner := AxisProducts(dim, axis);
      var st := Stride();
      var data := StatBlocks(f, dim[axis], outer, inner, st[axis]);
      r := Done(Tensor(data, retDim));
    }

    /** `equal`: same dimensions, same buffer length, and every pair of
        elements close, where `close` stands for the floating-point
        tolerance test. */
    method Equal(o: GenTensor<T>, close: (T, T) -> bool) returns (same: bool)
      ensures same <==>
        dim == o.dim && |d| == |o.d| && forall i :: 0 <= i < |d| ==> close(d[i], o.d[i])
    {
      if |dim| != |o.dim| || dim != o.dim {
        return false;
      }
      if |d| != |o.d| {
        return false;
      }
      same := true;
      var i := 0;
      while i < |d|
        invariant 0 <= i <= |d|
        invariant forall k :: 0 <= k < i ==> close(d[k], o.d[k])
      {
        if !close(d[i], o.d[i]) {
          same := false;
          break;
        }
        i := i + 1;
      }
    }
  }
}
