/** Row-major shape and index arithmetic of the naive tensor: element counts,
    strides, the linear offset of a coordinate and its inverse. */
module Shape {

  /** Number of elements of a tensor with dimensions `s` (1 for no dimension). */
  function Product(s: seq<nat>): nat
  {
    if |s| == 0 then 1 else s[0] * Product(s[1..])
  }

  /** Row-major strides: the stride of axis `i` is the product of the
      dimensions to its right, so the right-most axis changes fastest. */
  function Strides(dim: seq<nat>): seq<nat>
  {
    seq(|dim|, i requires 0 <= i < |dim| => Product(dim[i + 1..]))
  }

  /** Sum of the pairwise products of two equally long sequences. */
  function Dot(a: seq<nat>, b: seq<nat>): nat
    requires |a| == |b|
  {
    if |a| == 0 then 0 else a[0] * b[0] + Dot(a[1..], b[1..])
  }

  /** A coordinate with one entry per axis, each below that axis' size. */
  predicate InBounds(dim: seq<nat>, pos: seq<nat>)
  {
    |pos| == |dim| && forall i :: 0 <= i < |dim| ==> pos[i] < dim[i]
  }

  predicate AllPositive(s: seq<nat>)
  {
    forall i :: 0 <= i < |s| ==> s[i] > 0
  }

  /** Linear position of coordinate `pos` in the row-major buffer. */
  function Offset(dim: seq<nat>, pos: seq<nat>): nat
    requires |pos| == |dim|
  {
    Dot(Strides(dim), pos)
  }

  /** Successive quotient and remainder by each stride: the coordinate of a
      linear position. */
  function Digits(st: seq<nat>, rem: nat): seq<nat>
    requires AllPositive(st)
  {
    if |st| == 0 then [] else [rem / st[0]] + Digits(st[1..], rem % st[0])
  }

  /** Digits of a suffix of the strides: the first quotient, then the
      digits of the remainder. */
  lemma DigitsStep(st: seq<nat>, k: nat, rem: nat)
    requires AllPositive(st) && k < |st|
    ensures Digits(st[k..], rem) == [rem / st[k]] + Digits(st[k + 1..], rem % st[k])
  {
    assert st[k..][1..] == st[k + 1..];
  }

  /** The coordinate whose offset is `t`, for `t` below the element count. */
  function Coords(dim: seq<nat>, t: nat): (pos: seq<nat>)
    requires t < Product(dim)
    ensures InBounds(dim, pos) && Offset(dim, pos) == t
  {
    OffsetOfDigits(dim, t);
    Digits(Strides(dim), t)
  }

  function Zeros(n: nat): seq<nat>
  {
    seq(n, _ => 0)
  }

  // ---------------------------------------------------------------------
  // Products

  lemma {:induction false} ProductConcat(a: seq<nat>, b: seq<nat>)
    ensures Product(a + b) == Product(a) * Product(b)
  {
    if |a| == 0 {
      assert a + b == b;
    } else {
      assert (a + b)[1..] == a[1..] + b;
      ProductConcat(a[1..], b);
      calc {
        Product(a + b);
        a[0] * Product(a[1..] + b);
        a[0] * (Product(a[1..]) * Product(b));
        (a[0] * Product(a[1..])) * Product(b);
      }
    }
  }

  /** The element count is positive exactly when every dimension is. */
  lemma {:induction false} ProductPositive(s: seq<nat>)
    ensures Product(s) > 0 <==> AllPositive(s)
  {
    if |s| > 0 {
      ProductPositive(s[1..]);
      assert AllPositive(s) <==> s[0] > 0 && AllPositive(s[1..]) by {
        if s[0] > 0 && AllPositive(s[1..]) {
          forall i | 0 <= i < |s| ensures s[i] > 0 {
            if i > 0 { assert s[i] == s[1..][i - 1]; }
          }
        }
      }
    }
  }

  lemma ProductSuffix(dim: seq<nat>, c: nat)
    requires c < |dim|
    ensures Product(dim[c..]) == dim[c] * Product(dim[c + 1..])
  {
    assert dim[c..][1..] == dim[c + 1..];
  }

  // ---------------------------------------------------------------------
  // Strides

  /** The strides of `dim` are the stride of axis 0 followed by the strides
      of the remaining axes. */
  lemma StridesCons(dim: seq<nat>)
    requires |dim| > 0
    ensures Strides(dim) == [Product(dim[1..])] + Strides(dim[1..])
  {
    var r := [Product(dim[1..])] + Strides(dim[1..]);
    forall i | 0 <= i < |dim| ensures Strides(dim)[i] == r[i] {
      if i > 0 {
        assert dim[1..][i..] == dim[i + 1..];
      }
    }
  }

  /** Strides end in 1, and each other stride is the next stride times the
      next dimension. */
  lemma StridesRecurrence(dim: seq<nat>)
    ensures |Strides(dim)| == |dim|
    ensures |dim| > 0 ==> Strides(dim)[|dim| - 1] == 1
    ensures forall i :: 0 <= i < |dim| - 1 ==>
      Strides(dim)[i] == Strides(dim)[i + 1] * dim[i + 1]
  {
    if |dim| > 0 {
      assert dim[|dim|..] == [];
    }
    forall i | 0 <= i < |dim| - 1
      ensures Strides(dim)[i] == Strides(dim)[i + 1] * dim[i + 1]
    {
      ProductSuffix(dim, i + 1);
    }
  }

  /** Every stride is positive when every dimension is. */
  lemma StridesPositive(dim: seq<nat>)
    requires AllPositive(dim)
    ensures AllPositive(Strides(dim))
  {
    forall i | 0 <= i < |dim| ensures Strides(dim)[i] > 0 {
      ProductPositive(dim[i + 1..]);
    }
  }

  lemma OffsetCons(dim: seq<nat>, pos: seq<nat>)
    requires |dim| > 0 && |pos| == |dim|
    ensures Offset(dim, pos) == pos[0] * Product(dim[1..]) + Offset(dim[1..], pos[1..])
  {
    StridesCons(dim);
    assert Strides(dim)[1..] == Strides(dim[1..]);
  }

  // ---------------------------------------------------------------------
  // Offsets and coordinates

  lemma MulMono(a: int, b: int, p: nat)
    ensures a <= b ==> a * p <= b * p
  {
  }

  lemma DivModUnique(n: nat, q: nat, r: nat, p: nat)
    requires 0 <= r < p && n == q * p + r
    ensures n / p == q && n % p == r
  {
    var q', r' := n / p, n % p;
    MulMono(q + 1, q', p);
    MulMono(q' + 1, q, p);
    assert (q + 1) * p == q * p + p;
    assert (q' + 1) * p == q' * p + p;
  }

  lemma MulAddBound(x: nat, y: nat, r: nat, p: nat)
    requires x < y && r < p
    ensures x * p + r < y * p
  {
    MulMono(x + 1, y, p);
    assert (x + 1) * p == x * p + p;
  }

  lemma DivBound(t: nat, p: nat, y: nat)
    requires p > 0 && t < y * p
    ensures t / p < y
  {
    MulMono(y, t / p, p);
  }

  /** The offset of an in-bounds coordinate is below the element count. */
  lemma {:induction false} OffsetBound(dim: seq<nat>, pos: seq<nat>)
    requires InBounds(dim, pos)
    ensures Offset(dim, pos) < Product(dim)
  {
    if |dim| > 0 {
      OffsetCons(dim, pos);
      OffsetBound(dim[1..], pos[1..]);
      MulAddBound(pos[0], dim[0], Offset(dim[1..], pos[1..]), Product(dim[1..]));
    }
  }

  /** Converting a linear position below the element count into a coordinate
      gives an in-bounds coordinate whose offset is that position. */
  lemma {:induction false} OffsetOfDigits(dim: seq<nat>, t: nat)
    requires t < Product(dim)
    ensures AllPositive(dim) && AllPositive(Strides(dim))
    ensures InBounds(dim, Digits(Strides(dim), t))
    ensures Offset(dim, Digits(Strides(dim), t)) == t
  {
    ProductPositive(dim);
    StridesPositive(dim);
    if |dim| > 0 {
      var p1 := Product(dim[1..]);
      ProductPositive(dim[1..]);
      var q, r := t / p1, t % p1;
      assert t == q * p1 + r;
      StridesCons(dim);
      assert Strides(dim)[1..] == Strides(dim[1..]);
      var rest := Digits(Strides(dim[1..]), r);
      var pos := Digits(Strides(dim), t);
      assert pos == [q] + rest;
      OffsetOfDigits(dim[1..], r);
      DivBound(t, p1, dim[0]);
      OffsetCons(dim, pos);
      assert pos[1..] == rest;
      forall i | 0 < i < |dim| ensures pos[i] < dim[i] {
        assert pos[i] == rest[i - 1] && dim[i] == dim[1..][i - 1];
      }
    }
  }

  /** Converting the offset of an in-bounds coordinate back gives that
      coordinate. */
  lemma {:induction false} DigitsOfOffset(dim: seq<nat>, pos: seq<nat>)
    requires InBounds(dim, pos)
    ensures AllPositive(dim) && AllPositive(Strides(dim))
    ensures Digits(Strides(dim), Offset(dim, pos)) == pos
  {
    assert AllPositive(dim);
    StridesPositive(dim);
    if |dim| > 0 {
      var p1 := Product(dim[1..]);
      ProductPositive(dim[1..]);
      OffsetCons(dim, pos);
      OffsetBound(dim[1..], pos[1..]);
      var rest := Offset(dim[1..], pos[1..]);
      DivModUnique(Offset(dim, pos), pos[0], rest, p1);
      StridesCons(dim);
      assert Strides(dim)[1..] == Strides(dim[1..]);
      DigitsOfOffset(dim[1..], pos[1..]);
      assert pos == [pos[0]] + pos[1..];
    }
  }

  /** Distinct in-bounds coordinates have distinct offsets. */
  lemma OffsetInjective(dim: seq<nat>, p: seq<nat>, q: seq<nat>)
    requires InBounds(dim, p) && InBounds(dim, q)
    requires Offset(dim, p) == Offset(dim, q)
    ensures p == q
  {
    DigitsOfOffset(dim, p);
    DigitsOfOffset(dim, q);
  }

  // ---------------------------------------------------------------------
  // Changing one coordinate (used by the odometer loops)

  lemma {:induction false} DotUpdate(a: seq<nat>, b: seq<nat>, c: nat, v: nat)
    requires |a| == |b| && c < |a|
    ensures Dot(a, b[c := v]) + a[c] * b[c] == Dot(a, b) + a[c] * v
  {
    if c > 0 {
      assert b[c := v][1..] == b[1..][c - 1 := v];
      DotUpdate(a[1..], b[1..], c - 1, v);
    }
  }

  lemma {:induction false} DotZeros(a: seq<nat>)
    ensures Dot(a, Zeros(|a|)) == 0
  {
    if |a| > 0 {
      assert Zeros(|a|)[1..] == Zeros(|a| - 1);
      DotZeros(a[1..]);
    }
  }

  // ---------------------------------------------------------------------
  // Growing a prefix one axis at a time (used by the accumulating loops)

  lemma {:induction false} DotSnoc(a: seq<nat>, b: seq<nat>, k: nat)
    requires |a| == |b| && k < |a|
    ensures Dot(a[..k + 1], b[..k + 1]) == Dot(a[..k], b[..k]) + a[k] * b[k]
  {
    if k > 0 {
      assert a[..k + 1][1..] == a[1..][..k];
      assert b[..k + 1][1..] == b[1..][..k];
      assert a[..k][1..] == a[1..][..k - 1];
      assert b[..k][1..] == b[1..][..k - 1];
      DotSnoc(a[1..], b[1..], k - 1);
    }
  }

  lemma ProductSnoc(s: seq<nat>, k: nat)
    requires k < |s|
    ensures Product(s[..k + 1]) == Product(s[..k]) * s[k]
  {
    assert s[..k + 1] == s[..k] + [s[k]];
    ProductConcat(s[..k], [s[k]]);
  }

  // ---------------------------------------------------------------------
  // Splitting a shape into a leading and a trailing part

  /** The offset in a shape `a + b` is the offset in the leading part scaled
      by the size of the trailing part, plus the offset in the trailing
      part. */
  lemma {:induction false} OffsetSplit(a: seq<nat>, b: seq<nat>, p: seq<nat>, q: seq<nat>)
    requires |p| == |a| && |q| == |b|
    ensures Offset(a + b, p + q) == Offset(a, p) * Product(b) + Offset(b, q)
  {
    if |a| == 0 {
      assert a + b == b && p + q == q;
    } else {
      assert (a + b)[1..] == a[1..] + b;
      assert (p + q)[1..] == p[1..] + q;
      OffsetCons(a + b, p + q);
      OffsetCons(a, p);
      ProductConcat(a[1..], b);
      OffsetSplit(a[1..], b, p[1..], q);
      Regroup(p[0], Product(a[1..]), Offset(a[1..], p[1..]), Product(b), Offset(b, q));
    }
  }

  lemma Regroup(x: nat, pa: nat, rest: nat, pb: nat, tail: nat)
    ensures x * (pa * pb) + (rest * pb + tail) == (x * pa + rest) * pb + tail
  {
    assert x * (pa * pb) == (x * pa) * pb;
    assert (x * pa + rest) * pb == (x * pa) * pb + rest * pb;
  }

  /** Reducing an offset modulo the size of a trailing part of the shape
      gives the offset of the trailing part of the coordinate. */
  lemma OffsetSuffix(dim: seq<nat>, pos: seq<nat>, k: nat)
    requires InBounds(dim, pos) && k <= |dim|
    ensures Product(dim[k..]) > 0
    ensures Offset(dim, pos) % Product(dim[k..]) == Offset(dim[k..], pos[k..])
  {
    assert dim == dim[..k] + dim[k..] && pos == pos[..k] + pos[k..];
    assert InBounds(dim[k..], pos[k..]);
    OffsetSplit(dim[..k], dim[k..], pos[..k], pos[k..]);
    OffsetBound(dim[k..], pos[k..]);
    DivModUnique(Offset(dim, pos), Offset(dim[..k], pos[..k]), Offset(dim[k..], pos[k..]), Product(dim[k..]));
  }
}
