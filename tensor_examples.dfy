/** The worked examples of the naive tensor's documentation and tests,
    stated on the model with integer elements. */
module TensorExamples {
  import opened Results
  import opened Shape
  import opened TensorModel

  lemma Product3(x: nat, y: nat, z: nat)
    ensures Product([x, y, z]) == x * y * z
    ensures Product([y, z]) == y * z && Product([z]) == z
  {
    var s: seq<nat> := [x, y, z];
    assert s[1..] == [y, z] && s[1..][1..] == [z] && s[1..][1..][1..] == [];
    assert Product([z]) == z * Product([]) == z;
    assert Product([y, z]) == y * Product([z]) == y * z;
    assert Product(s) == x * Product([y, z]);
    assert x * (y * z) == x * y * z;
  }

  lemma Strides3(x: nat, y: nat, z: nat)
    ensures Strides([x, y, z]) == [y * z, z, 1]
  {
    var s: seq<nat> := [x, y, z];
    assert s[1..] == [y, z] && s[2..] == [z] && s[3..] == [];
    Product3(x, y, z);
  }

  lemma Dot3(a: nat, b: nat, c: nat, p: nat, q: nat, r: nat)
    ensures Dot([a, b, c], [p, q, r]) == a * p + b * q + c * r
  {
    var u: seq<nat> := [a, b, c];
    var v: seq<nat> := [p, q, r];
    assert u[1..] == [b, c] && u[1..][1..] == [c] && u[1..][1..][1..] == [];
    assert v[1..] == [q, r] && v[1..][1..] == [r] && v[1..][1..][1..] == [];
    assert Dot([c], [r]) == c * r + Dot([], []) == c * r;
    assert Dot([b, c], [q, r]) == b * q + Dot([c], [r]);
    assert Dot(u, v) == a * p + Dot([b, c], [q, r]);
  }

  /** A `[3, 5, 2]` tensor has strides `[10, 2, 1]`. */
  lemma StrideExample()
    ensures Strides([3, 5, 2]) == [10, 2, 1]
  {
    Strides3(3, 5, 2);
  }

  /** Position 10 of a `[10, 5, 3, 4]` tensor is coordinate `[0, 0, 2, 2]`. */
  lemma Index2DimPosExample()
    ensures Strides([10, 5, 3, 4]) == [60, 12, 4, 1]
    ensures Digits([60, 12, 4, 1], 10) == [0, 0, 2, 2]
  {
    var dim: seq<nat> := [10, 5, 3, 4];
    assert dim[1..] == [5, 3, 4] && dim[2..] == [3, 4] && dim[3..] == [4] && dim[4..] == [];
    Product3(5, 3, 4);
    assert Product([]) == 1;
    DigitsExample();
  }

  lemma DigitsExample()
    ensures Digits([60, 12, 4, 1], 10) == [0, 0, 2, 2]
  {
    assert Digits([1], 2) == [2] by {
      assert [1][1..] == [];
    }
    assert Digits([4, 1], 10) == [2, 2] by {
      assert [4, 1][1..] == [1];
    }
    assert Digits([12, 4, 1], 10) == [0, 2, 2] by {
      assert [12, 4, 1][1..] == [4, 1];
    }
    assert [60, 12, 4, 1][1..] == [12, 4, 1];
  }

  /** In the `[2, 3]` tensor holding 1 to 6, coordinate `[1, 1]` reads 5. */
  lemma GetExample()
    ensures ElementAt(Tensor([1, 2, 3, 4, 5, 6], [2, 3]), [1, 1]) == Done(5)
  {
    var dim: seq<nat> := [2, 3];
    assert dim[1..] == [3] && dim[2..] == [];
    assert Product([3]) == 3;
    var st: seq<nat> := [3, 1];
    assert Strides(dim) == st;
    var pos: seq<nat> := [1, 1];
    assert st[1..] == [1] && pos[1..] == [1];
    assert Dot([1], [1]) == 1;
    assert Dot(st, pos) == 4;
  }

  /** The axes of the patch `[0, 2) x [0, 2) x [2, 3)` with unit steps. */
  lemma ExampleAxes()
    ensures Axes([(0, 2), (0, 2), (2, 3)], StepDims(None, 3)) == Done([[0, 1], [0, 1], [2]])
  {
    var range: seq<(nat, nat)> := [(0, 2), (0, 2), (2, 3)];
    var stepDim := StepDims(None, 3);
    assert stepDim == [1, 1, 1];
    assert Positions(2, 2, 1) == [] && Positions(3, 3, 1) == [];
    assert Positions(1, 2, 1) == [1];
    assert Positions(0, 2, 1) == [0, 1];
    assert Positions(2, 3, 1) == [2];
    assert forall i :: 0 <= i < |range| ==> AxisOk(range[i], stepDim, i);
    var r := seq(|range|, i requires 0 <= i < |range| =>
      Positions(range[i].0, range[i].1, if i < |stepDim| then stepDim[i] else 0));
    assert r[0] == [0, 1] && r[1] == [0, 1] && r[2] == [2];
    assert r == [[0, 1], [0, 1], [2]];
  }

  /** Row-major coordinates of the `[2, 2, 1]` patch. */
  lemma ExampleCoords(u: nat)
    requires u < 4
    ensures Product([2, 2, 1]) == 4
    ensures Coords([2, 2, 1], u) == [u / 2, u % 2, 0]
  {
    Product3(2, 2, 1);
    Strides3(2, 2, 1);
    var st: seq<nat> := [2, 1, 1];
    assert st[1..] == [1, 1] && st[1..][1..] == [1] && st[1..][1..][1..] == [];
    assert Digits([1], 0) == [0] + Digits([], 0);
    assert Digits([1, 1], u % 2) == [u % 2] + Digits([1], 0);
    assert Digits(st, u) == [u / 2] + Digits([1, 1], u % 2);
  }

  /** Reading the `[2, 3, 5]` tensor holding 0 to 29 on its last plane. */
  lemma ExampleRead(a: nat, b: nat)
    requires a < 2 && b < 2
    ensures ElementAt(Tensor(seq(30, i => i), [2, 3, 5]), [a, b, 2]) == Done(15 * a + 5 * b + 2)
  {
    var dim: seq<nat> := [2, 3, 5];
    var p: seq<nat> := [a, b, 2];
    assert Offset(dim, p) == 15 * a + 5 * b + 2 by {
      Strides3(2, 3, 5);
      Dot3(15, 5, 1, a, b, 2);
    }
    assert InBounds(dim, p);
  }

  /** Each element of the patch, read from the whole tensor. */
  lemma ExampleElement(u: nat)
    requires u < 4
    ensures Product([2, 2, 1]) == 4
    ensures ElementAt(Tensor(seq(30, i => i), [2, 3, 5]), Pick([[0, 1], [0, 1], [2]], Coords([2, 2, 1], u)))
      == Done([2, 7, 17, 22][u])
  {
    Product3(2, 2, 1);
    var p: seq<nat> := [u / 2, u % 2, 2];
    assert Pick([[0, 1], [0, 1], [2]], Coords([2, 2, 1], u)) == p by {
      ExampleCoords(u);
    }
    ExampleRead(u / 2, u % 2);
    assert 15 * (u / 2) + 5 * (u % 2) + 2 == [2, 7, 17, 22][u] by {
      if u == 0 {} else if u == 1 {} else if u == 2 {} else {}
    }
  }

  /** Of the `[2, 3, 5]` tensor holding 0 to 29, the patch `[0, 2) x [0, 2)
      x [2, 3)` is the `[2, 2, 1]` tensor holding 2, 7, 17 and 22. */
  lemma GetPatchExample()
    ensures Patch(Tensor(seq(30, i => i), [2, 3, 5]), [(0, 2), (0, 2), (2, 3)], None)
      == Done(Tensor([2, 7, 17, 22], [2, 2, 1]))
  {
    var t := Tensor(seq(30, i => i), [2, 3, 5]);
    var idx: seq<seq<nat>> := [[0, 1], [0, 1], [2]];
    ExampleAxes();
    var counts: seq<nat> := [2, 2, 1];
    assert Counts(idx) == counts;
    var ret: seq<int> := [2, 7, 17, 22];
    ExampleElement(0);
    forall u | 0 <= u < 4
      ensures ElementAt(t, Pick(idx, Coords(counts, u))) == Done(ret[u])
    {
      ExampleElement(u);
    }
    PatchDataComplete(t, idx, ret);
  }
}
