/** Properties of the graph operations, stated on the value-level model in
    terms of edges (`IsInput`/`IsOutput`) so that they do not depend on how
    the four adjacency maps are laid out. */
module GraphProperties {
  import opened Results
  import opened GraphModel

  /** `add_data` fails on a registered id and changes nothing; otherwise it
      registers the id with no edges and keeps every existing edge. */
  lemma AddDataEffect<D, O>(g: GraphState<D, O>, id: D)
    requires Valid(g)
    ensures var (h, r) := AddData(g, id);
      && Valid(h)
      && (r.Ok? <==> id !in g.data)
      && (r.Err? ==> h == g && r.error == DataExists)
      && (r.Ok? ==> r.value == id && h.data == g.data + {id} && h.op == g.op)
      && (forall d, o :: IsInput(h, d, o) <==> IsInput(g, d, o))
      && (forall o, d :: IsOutput(h, o, d) <==> IsOutput(g, o, d))
  {
    var h := AddData(g, id).0;
    if id !in g.data {
      assert KeysMatch(h);
      assert InputsSymmetric(h) by {
        forall d, o | d in h.forwardDtOp && o in h.forwardDtOp[d]
          ensures o in h.backwardOpDt && d in h.backwardOpDt[o]
        {
          assert d != id && o in g.forwardDtOp[d];
        }
      }
      assert OutputsSymmetric(h) by {
        forall d, o | d in h.backwardDtOp && o in h.backwardDtOp[d]
          ensures o in h.forwardOpDt && d in h.forwardOpDt[o]
        {
          assert d != id && o in g.backwardDtOp[d];
        }
      }
    }
  }

  /** Input symmetry depends only on the two maps that record inputs. */
  lemma InputsSymmetricFrame<D, O>(g: GraphState<D, O>, h: GraphState<D, O>)
    requires h.forwardDtOp == g.forwardDtOp && h.backwardOpDt == g.backwardOpDt
    ensures InputsSymmetric(h) == InputsSymmetric(g)
  {
  }

  /** Output symmetry depends only on the two maps that record outputs. */
  lemma OutputsSymmetricFrame<D, O>(g: GraphState<D, O>, h: GraphState<D, O>)
    requires h.forwardOpDt == g.forwardOpDt && h.backwardDtOp == g.backwardDtOp
    ensures OutputsSymmetric(h) == OutputsSymmetric(g)
  {
  }

  /** The op counterpart of `AddDataEffect`. */
  lemma AddOpEffect<D, O>(g: GraphState<D, O>, id: O)
    requires Valid(g)
    ensures var (h, r) := AddOp(g, id);
      && Valid(h)
      && (r.Ok? <==> id !in g.op)
      && (r.Err? ==> h == g && r.error == OpExists)
      && (r.Ok? ==> r.value == id && h.op == g.op + {id} && h.data == g.data)
      && (forall d, o :: IsInput(h, d, o) <==> IsInput(g, d, o))
      && (forall o, d :: IsOutput(h, o, d) <==> IsOutput(g, o, d))
  {
  }

  /** Removing a data node keeps every input edge two-way. */
  lemma DelDataInputsSymmetric<D, O>(g: GraphState<D, O>, id: D)
    requires Valid(g) && id in g.data
    ensures InputsSymmetric(DelData(g, id).0)
  {
    var h := DelData(g, id).0;
    forall d, o | d in h.forwardDtOp && o in h.forwardDtOp[d]
      ensures o in h.backwardOpDt && d in h.backwardOpDt[o]
    {
      assert d in g.backwardOpDt[o];
    }
    forall o, d | o in h.backwardOpDt && d in h.backwardOpDt[o]
      ensures d in h.forwardDtOp && o in h.forwardDtOp[d]
    {
      assert d in g.backwardOpDt[o];
      assert id in g.backwardOpDt[o] ==> o in g.forwardDtOp[id];
    }
  }

  /** Removing a data node keeps every output edge two-way. */
  lemma DelDataOutputsSymmetric<D, O>(g: GraphState<D, O>, id: D)
    requires Valid(g) && id in g.data
    ensures OutputsSymmetric(DelData(g, id).0)
  {
    var h := DelData(g, id).0;
    forall o, d | o in h.forwardOpDt && d in h.forwardOpDt[o]
      ensures d in h.backwardDtOp && o in h.backwardDtOp[d]
    {
      assert d in g.forwardOpDt[o];
      assert id in g.forwardOpDt[o] ==> o in g.backwardDtOp[id];
    }
    forall d, o | d in h.backwardDtOp && o in h.backwardDtOp[d]
      ensures o in h.forwardOpDt && d in h.forwardOpDt[o]
    {
      assert d in g.forwardOpDt[o];
    }
  }

  /** Removing a data node keeps the graph well formed. */
  lemma DelDataValid<D, O>(g: GraphState<D, O>, id: D)
    requires Valid(g)
    ensures Valid(DelData(g, id).0)
  {
    if id in g.data {
      DelDataInputsSymmetric(g, id);
      DelDataOutputsSymmetric(g, id);
    }
  }

  /** `del_data` fails on an absent id; otherwise it removes exactly that
      node and the edges that touch it, keeping the graph symmetric. */
  lemma DelDataEffect<D, O>(g: GraphState<D, O>, id: D)
    requires Valid(g)
    ensures var (h, r) := DelData(g, id);
      && Valid(h)
      && (r.Ok? <==> id in g.data)
      && (r.Err? ==> h == g && r.error == DataNotFound)
      && (r.Ok? ==> r.value == id && h.data == g.data - {id} && h.op == g.op)
      && (forall d, o :: IsInput(h, d, o) <==> IsInput(g, d, o) && d != id)
      && (forall o, d :: IsOutput(h, o, d) <==> IsOutput(g, o, d) && d != id)
  {
    var (h, r) := DelData(g, id);
    if id in g.data {
      DelDataValid(g, id);
      forall o, d | IsOutput(g, o, d) && d == id ensures !IsOutput(h, o, d) {
        assert o in g.backwardDtOp[id];
      }
    }
  }

  /** Removing an op node keeps every input edge two-way. */
  lemma DelOpInputsSymmetric<D, O>(g: GraphState<D, O>, id: O)
    requires Valid(g) && id in g.op
    ensures InputsSymmetric(DelOp(g, id).0)
  {
    var h := DelOp(g, id).0;
    forall d, o | d in h.forwardDtOp && o in h.forwardDtOp[d]
      ensures o in h.backwardOpDt && d in h.backwardOpDt[o]
    {
      assert o in g.forwardDtOp[d];
      assert id in g.forwardDtOp[d] ==> d in g.backwardOpDt[id];
    }
    forall o, d | o in h.backwardOpDt && d in h.backwardOpDt[o]
      ensures d in h.forwardDtOp && o in h.forwardDtOp[d]
    {
      assert o in g.forwardDtOp[d];
    }
  }

  /** Removing an op node keeps every output edge two-way. */
  lemma DelOpOutputsSymmetric<D, O>(g: GraphState<D, O>, id: O)
    requires Valid(g) && id in g.op
    ensures OutputsSymmetric(DelOp(g, id).0)
  {
    var h := DelOp(g, id).0;
    forall o, d | o in h.forwardOpDt && d in h.forwardOpDt[o]
      ensures d in h.backwardDtOp && o in h.backwardDtOp[d]
    {
      assert o in g.backwardDtOp[d];
    }
    forall d, o | d in h.backwardDtOp && o in h.backwardDtOp[d]
      ensures o in h.forwardOpDt && d in h.forwardOpDt[o]
    {
      assert o in g.backwardDtOp[d];
      assert id in g.backwardDtOp[d] ==> d in g.forwardOpDt[id];
    }
  }

  /** Removing an op node keeps the graph well formed. */
  lemma DelOpValid<D, O>(g: GraphState<D, O>, id: O)
    requires Valid(g)
    ensures Valid(DelOp(g, id).0)
  {
    if id in g.op {
      DelOpInputsSymmetric(g, id);
      DelOpOutputsSymmetric(g, id);
    }
  }

  /** The op counterpart of `DelDataEffect`. */
  lemma DelOpEffect<D, O>(g: GraphState<D, O>, id: O)
    requires Valid(g)
    ensures var (h, r) := DelOp(g, id);
      && Valid(h)
      && (r.Ok? <==> id in g.op)
      && (r.Err? ==> h == g && r.error == OpNotFound)
      && (r.Ok? ==> r.value == id && h.op == g.op - {id} && h.data == g.data)
      && (forall d, o :: IsInput(h, d, o) <==> IsInput(g, d, o) && o != id)
      && (forall o, d :: IsOutput(h, o, d) <==> IsOutput(g, o, d) && o != id)
  {
    var (h, r) := DelOp(g, id);
    if id in g.op {
      DelOpValid(g, id);
      forall d, o | IsInput(g, d, o) && o == id ensures !IsInput(h, d, o) {
        assert d in g.backwardOpDt[id];
      }
    }
  }

  /** Adding a fresh data node and deleting it again gives back the graph. */
  lemma AddDelDataRoundTrip<D, O>(g: GraphState<D, O>, id: D)
    requires Valid(g) && id !in g.data
    ensures DelData(AddData(g, id).0, id) == (g, Ok(id))
  {
    var h := AddData(g, id).0;
    assert Prune(h.forwardOpDt, {}, id) == g.forwardOpDt;
    assert Prune(h.backwardOpDt, {}, id) == g.backwardOpDt;
    assert h.forwardDtOp - {id} == g.forwardDtOp;
    assert h.backwardDtOp - {id} == g.backwardDtOp;
  }

  /** Adding a fresh op node and deleting it again gives back the graph. */
  lemma AddDelOpRoundTrip<D, O>(g: GraphState<D, O>, id: O)
    requires Valid(g) && id !in g.op
    ensures DelOp(AddOp(g, id).0, id) == (g, Ok(id))
  {
    var h := AddOp(g, id).0;
    assert Prune(h.forwardDtOp, {}, id) == g.forwardDtOp;
    assert Prune(h.backwardDtOp, {}, id) == g.backwardDtOp;
    assert h.forwardOpDt - {id} == g.forwardOpDt;
    assert h.backwardOpDt - {id} == g.backwardOpDt;
  }

  /** Connecting registered ids keeps every input edge two-way. */
  lemma ConnectInputsSymmetric<D, O>(g: GraphState<D, O>, dti: seq<D>, dto: seq<D>, op: O)
    requires Valid(g) && ConnectIdsValid(g, dti, dto, op)
    ensures InputsSymmetric(Connect(g, dti, dto, op).0)
  {
    var h := Connect(g, dti, dto, op).0;
    forall d, o | d in h.forwardDtOp && o in h.forwardDtOp[d]
      ensures o in h.backwardOpDt && d in h.backwardOpDt[o]
    {
      assert o in g.forwardDtOp[d] || (o == op && d in dti);
    }
    forall o, d | o in h.backwardOpDt && d in h.backwardOpDt[o]
      ensures d in h.forwardDtOp && o in h.forwardDtOp[d]
    {
      assert d in g.backwardOpDt[o] || (o == op && d in dti);
    }
  }

  /** Connecting registered ids keeps every output edge two-way. */
  lemma ConnectOutputsSymmetric<D, O>(g: GraphState<D, O>, dti: seq<D>, dto: seq<D>, op: O)
    requires Valid(g) && ConnectIdsValid(g, dti, dto, op)
    ensures OutputsSymmetric(Connect(g, dti, dto, op).0)
  {
    var h := Connect(g, dti, dto, op).0;
    forall o, d | o in h.forwardOpDt && d in h.forwardOpDt[o]
      ensures d in h.backwardDtOp && o in h.backwardDtOp[d]
    {
      assert d in g.forwardOpDt[o] || (o == op && d in dto);
    }
    forall d, o | d in h.backwardDtOp && o in h.backwardDtOp[d]
      ensures o in h.forwardOpDt && d in h.forwardOpDt[o]
    {
      assert o in g.backwardDtOp[d] || (o == op && d in dto);
    }
  }

  /** Connecting keeps the graph well formed. */
  lemma ConnectValid<D, O>(g: GraphState<D, O>, dti: seq<D>, dto: seq<D>, op: O)
    requires Valid(g)
    ensures Valid(Connect(g, dti, dto, op).0)
  {
    if ConnectIdsValid(g, dti, dto, op) {
      ConnectInputsSymmetric(g, dti, dto, op);
      ConnectOutputsSymmetric(g, dti, dto, op);
    }
  }

  /** `connect` checks every id before changing anything; on success it
      adds an input edge from each of `dti` and an output edge to each of
      `dto`, both directions recorded, and nothing else. */
  lemma ConnectEffect<D, O>(g: GraphState<D, O>, dti: seq<D>, dto: seq<D>, op: O)
    requires Valid(g)
    ensures var (h, r) := Connect(g, dti, dto, op);
      && Valid(h)
      && (r.Ok? <==> op in g.op && (forall d :: d in dti ==> d in g.data)
                                && (forall d :: d in dto ==> d in g.data))
      && (r.Err? ==> h == g && r.error == InvalidId)
      && (r.Ok? ==> r.value == op && h.data == g.data && h.op == g.op)
      && (r.Ok? ==> forall d, o :: IsInput(h, d, o) <==> IsInput(g, d, o) || (o == op && d in dti))
      && (r.Ok? ==> forall o, d :: IsOutput(h, o, d) <==> IsOutput(g, o, d) || (o == op && d in dto))
  {
    ConnectValid(g, dti, dto, op);
  }

  /** Extending a map twice with the same element is extending it once. */
  lemma ExtendTwice<K, V>(m: map<K, set<V>>, keys: set<K>, x: V)
    ensures Extend(Extend(m, keys, x), keys, x) == Extend(m, keys, x)
  {
    var m1 := Extend(m, keys, x);
    var m2 := Extend(m1, keys, x);
    assert m2.Keys == m1.Keys;
    forall k | k in m2 ensures m2[k] == m1[k] { }
  }

  /** Edges are sets, so connecting the same ids twice is the same as
      connecting them once. */
  lemma ConnectIdempotent<D, O>(g: GraphState<D, O>, dti: seq<D>, dto: seq<D>, op: O)
    requires Valid(g)
    ensures Connect(Connect(g, dti, dto, op).0, dti, dto, op) == Connect(g, dti, dto, op)
  {
    if ConnectIdsValid(g, dti, dto, op) {
      var h := Connect(g, dti, dto, op).0;
      ConnectValid(g, dti, dto, op);
      assert ConnectIdsValid(h, dti, dto, op);
      ExtendTwice(g.forwardDtOp, Elems(dti), op);
      ExtendTwice(g.backwardDtOp, Elems(dto), op);
      var h2 := Connect(h, dti, dto, op).0;
      assert h2.backwardOpDt == h.backwardOpDt;
      assert h2.forwardOpDt == h.forwardOpDt;
    }
  }

  /** `decouple_data_func` removes the one input edge `v -> f` in both
      directions; it fails only on unregistered ids and succeeds when the
      edge is already absent. */
  lemma DecoupleDataFuncEffect<D, O>(g: GraphState<D, O>, v: D, f: O)
    requires Valid(g)
    ensures var (h, r) := DecoupleDataFunc(g, v, f);
      && Valid(h)
      && (r.Ok? <==> v in g.data && f in g.op)
      && (r.Err? ==> h == g)
      && h.data == g.data && h.op == g.op
      && (r.Ok? ==> forall d, o :: IsInput(h, d, o) <==> IsInput(g, d, o) && !(d == v && o == f))
      && (forall o, d :: IsOutput(h, o, d) <==> IsOutput(g, o, d))
  {
    var h := DecoupleDataFunc(g, v, f).0;
    if v in g.data && f in g.op {
      assert KeysMatch(h);
      assert InputsSymmetric(h) by {
        forall d, o | d in h.forwardDtOp && o in h.forwardDtOp[d]
          ensures o in h.backwardOpDt && d in h.backwardOpDt[o]
        {
          assert o in g.forwardDtOp[d];
        }
        forall o, d | o in h.backwardOpDt && d in h.backwardOpDt[o]
          ensures d in h.forwardDtOp && o in h.forwardDtOp[d]
        {
          assert d in g.backwardOpDt[o];
        }
      }
      OutputsSymmetricFrame(g, h);
    }
  }

  /** `decouple_func_data` removes the one output edge `f -> v`. */
  lemma DecoupleFuncDataEffect<D, O>(g: GraphState<D, O>, f: O, v: D)
    requires Valid(g)
    ensures var (h, r) := DecoupleFuncData(g, f, v);
      && Valid(h)
      && (r.Ok? <==> v in g.data && f in g.op)
      && (r.Err? ==> h == g)
      && h.data == g.data && h.op == g.op
      && (forall d, o :: IsInput(h, d, o) <==> IsInput(g, d, o))
      && (r.Ok? ==> forall o, d :: IsOutput(h, o, d) <==> IsOutput(g, o, d) && !(d == v && o == f))
  {
    var h := DecoupleFuncData(g, f, v).0;
    if v in g.data && f in g.op {
      assert KeysMatch(h);
      InputsSymmetricFrame(g, h);
      assert OutputsSymmetric(h) by {
        forall o, d | o in h.forwardOpDt && d in h.forwardOpDt[o]
          ensures d in h.backwardDtOp && o in h.backwardDtOp[d]
        {
          assert d in g.forwardOpDt[o];
        }
        forall d, o | d in h.backwardDtOp && o in h.backwardDtOp[d]
          ensures o in h.forwardOpDt && d in h.forwardOpDt[o]
        {
          assert o in g.backwardDtOp[d];
        }
      }
    }
  }

  /** The input cache holds exactly the data nodes no op produces. */
  lemma InputCacheSources<D, O>(g: GraphState<D, O>)
    requires Valid(g)
    ensures forall d :: d in InputCache(g) <==> d in g.data && forall o :: !IsOutput(g, o, d)
  {
    forall d | d in g.data && Lookup(g.backwardDtOp, d) != {}
      ensures exists o :: IsOutput(g, o, d)
    {
      var o :| o in g.backwardDtOp[d];
      assert IsOutput(g, o, d);
    }
  }

  /** The output cache holds exactly the data nodes no op consumes. */
  lemma OutputCacheSinks<D, O>(g: GraphState<D, O>)
    requires Valid(g)
    ensures forall d :: d in OutputCache(g) <==> d in g.data && forall o :: !IsInput(g, d, o)
  {
    forall d | d in g.data && Lookup(g.forwardDtOp, d) != {}
      ensures exists o :: IsInput(g, d, o)
    {
      var o :| o in g.forwardDtOp[d];
      assert IsInput(g, d, o);
    }
  }

  /** Forward, the walk's consumers are the inputs' ops and its inputs are
      the op's inputs; backward, every edge is read reversed: an op's
      outputs are what it waits for and its inputs are what it produces. */
  lemma ViewEdges<D, O>(g: GraphState<D, O>, forward: bool)
    requires Valid(g)
    ensures var v := ViewOf(g, forward);
      && (forall d, o :: o in Lookup(v.fdo, d) <==> if forward then IsInput(g, d, o) else IsOutput(g, o, d))
      && (forall o, d :: d in Lookup(v.bod, o) <==> if forward then IsInput(g, d, o) else IsOutput(g, o, d))
      && (forall o, d :: d in Lookup(v.fod, o) <==> if forward then IsOutput(g, o, d) else IsInput(g, d, o))
  {
  }
}
