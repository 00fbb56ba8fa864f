/** The computation network: tensors and ops kept in two arenas, the
    composition map `funcs`, the set of marked input variables, the
    data/op graph over the arenas' handles and the gradient map. Tensors
    and ops are opaque values (type parameters `T` and `P`); applying an op
    or its gradient is a callback the model does not look into, so the
    walks report the ops they fire as a trace. */
module ComputeGraph {
  import opened Results
  import opened Arenas
  import opened GraphModel
  import opened Graphs

  /** The ops `visit_op` applies its closure to: all of them when neither
      list is given, otherwise those in a non-empty `allow` list and those
      missing from a non-empty `skip` list. */
  predicate Selected(allow: seq<nat>, skip: seq<nat>, i: nat)
  {
    || (|allow| == 0 && |skip| == 0)
    || (|allow| != 0 && i in allow)
    || (|skip| != 0 && i !in skip)
  }

  /** An absent list reads as an empty one. */
  function ListOrEmpty(l: Option<seq<nat>>): seq<nat>
  {
    if l.Some? then l.value else []
  }

  class Net<T(==), P> {
    var data: Arena<T>
    var ops: Arena<P>
    var funcs: map<nat, seq<nat>>
    var setMark: set<nat>
    const graph: Graph<nat, nat>
    var dataGrad: map<nat, T>
    /** The value of a freshly made tensor (`Tensor::new()`). */
    const emptyTensor: T
    /** The op that does nothing (`Op::nop()`). */
    const nop: P

    /** The arenas match the graph: every tensor slot is a data node, every
        op slot an op node with a `funcs` entry. */
    ghost predicate Valid()
      reads this, graph
    {
      && graph.Valid()
      && Arenas.Valid(data) && Arenas.Valid(ops)
      && data.entries.Keys == graph.data
      && ops.entries.Keys == graph.op
      && funcs.Keys == graph.op
    }

    constructor (emptyTensor: T, nop: P)
      ensures Valid() && fresh(graph)
      ensures data.entries == map[] && ops.entries == map[] && funcs == map[]
      ensures setMark == {} && dataGrad == map[] && graph.State() == EmptyGraph()
      ensures this.emptyTensor == emptyTensor && this.nop == nop
    {
      this.emptyTensor, this.nop := emptyTensor, nop;
      data, ops := EmptyArena(), EmptyArena();
      funcs, setMark, dataGrad := map[], {}, map[];
      graph := new Graph();
    }

    /** A fresh empty tensor slot whose handle is also registered as a data
        node; the handle is what the variable records as its id. */
    method InitVar() returns (id: nat)
      requires Valid()
      modifies this, graph
      ensures Valid()
      ensures id !in old(data.entries) && data.entries == old(data.entries)[id := emptyTensor]
      ensures graph.State() == GraphModel.AddData(old(graph.State()), id).0
      ensures graph.data == old(graph.data) + {id}
      ensures ops == old(ops) && funcs == old(funcs) && setMark == old(setMark) && dataGrad == old(dataGrad)
    {
      var (d, h) := Insert(data, emptyTensor);
      data := d;
      id := h;
      GraphProperties.AddDataEffect(graph.State(), id);
      var _ := graph.AddData(id);
    }

    /** Removes the variable's tensor slot and data node; panics when the
        handle names no live tensor. */
    method DelVar(id: nat) returns (r: Outcome<()>)
      requires Valid()
      modifies this, graph
      ensures r.Done? <==> id in old(data.entries)
      ensures r.Done? ==> Valid()
      ensures r.Done? ==> data.entries == old(data.entries) - {id}
      ensures r.Done? ==> graph.State() == GraphModel.DelData(old(graph.State()), id).0
      ensures ops == old(ops) && funcs == old(funcs) && setMark == old(setMark) && dataGrad == old(dataGrad)
    {
      var (d, removed) := Remove(data, id);
      if removed.None? {
        return Panic;
      }
      RemoveValid(data, id);
      data := d;
      GraphProperties.DelDataEffect(graph.State(), id);
      var _ := graph.DelData(id);
      r := Done(());
    }

    /** Stores `p` under a fresh op handle, registers it as an op node and
        gives it an empty composition list. */
    method InitOp(p: P) returns (id: nat)
      requires Valid()
      modifies this, graph
      ensures Valid()
      ensures id !in old(ops.entries) && ops.entries == old(ops.entries)[id := p]
      ensures funcs == old(funcs)[id := []]
      ensures graph.State() == GraphModel.AddOp(old(graph.State()), id).0
      ensures data == old(data) && setMark == old(setMark) && dataGrad == old(dataGrad)
    {
      var (o, h) := Insert(ops, p);
      ops := o;
      id := h;
      var _ := graph.AddOp(id);
      funcs := funcs[id := []];
    }

    /** Registers a composite op: a `nop` whose composition list is `fs`. */
    method InitFunc(fs: seq<nat>) returns (id: nat)
      requires Valid()
      modifies this, graph
      ensures Valid()
      ensures id !in old(ops.entries) && ops.entries == old(ops.entries)[id := nop]
      ensures funcs == old(funcs)[id := fs]
      ensures graph.State() == GraphModel.AddOp(old(graph.State()), id).0
      ensures data == old(data) && setMark == old(setMark) && dataGrad == old(dataGrad)
    {
      var (o, h) := Insert(ops, nop);
      ops := o;
      id := h;
      var _ := graph.AddOp(id);
      funcs := funcs[id := fs];
    }

    /** The composition list of `func`, exactly as registered; panics on a
        handle with no entry. */
    method GetSubFunc(func: nat) returns (r: Outcome<seq<nat>>)
      ensures r.Done? <==> func in funcs
      ensures r.Done? ==> r.value == funcs[func]
    {
      if func !in funcs {
        return Panic;
      }
      r := Done(funcs[func]);
    }

    /** Creates a new op node for `p` (never reusing an existing one) and
        wires `input` into it and it into `output`; panics when an id in
        either list is not a data node, after the op has been created. */
    method Connect(input: seq<nat>, p: P, output: seq<nat>) returns (r: Outcome<nat>)
      requires Valid()
      modifies this, graph
      ensures r.Done? <==> Elems(input) <= old(graph.data) && Elems(output) <= old(graph.data)
      ensures r.Done? ==> Valid()
      ensures r.Done? ==> r.value !in old(graph.op) && ops.entries == old(ops.entries)[r.value := p]
      ensures r.Done? ==>
        graph.State() == GraphModel.Connect(GraphModel.AddOp(old(graph.State()), r.value).0, input, output, r.value).0
      ensures r.Done? ==> funcs == old(funcs)[r.value := []]
      ensures data == old(data) && setMark == old(setMark) && dataGrad == old(dataGrad)
    {
      var opid := InitOp(p);
      GraphProperties.ConnectEffect(graph.State(), input, output, opid);
      var c := graph.Connect(input, output, opid);
      if c.Err? {
        return Panic;
      }
      r := Done(opid);
    }

    /** Marks `did` as holding an input value. */
    method SetMark(did: nat)
      modifies this
      ensures setMark == old(setMark) + {did}
      ensures data == old(data) && ops == old(ops) && funcs == old(funcs) && dataGrad == old(dataGrad)
    {
      setMark := setMark + {did};
    }

    /** Unmarks `did`; unmarking an unmarked id changes nothing. */
    method UnsetMark(did: nat)
      modifies this
      ensures setMark == old(setMark) - {did}
      ensures data == old(data) && ops == old(ops) && funcs == old(funcs) && dataGrad == old(dataGrad)
    {
      setMark := setMark - {did};
    }

    /** The forward pass: walks forward from exactly the marked ids and
        returns the walk's outcome unchanged; `fired` is the order in which
        ops were applied. A marked id that is no longer a data node makes
        the walk panic. */
    method Eval(fuel: nat) returns (outcome: WalkOutcome<nat>, fired: seq<Firing<nat, nat>>)
      requires Valid()
      ensures Admissible(ViewOf(graph.State(), true), setMark, fired)
      ensures outcome.Panicked? ==> !(setMark <= graph.data) && fired == []
      ensures fuel > 0 && !(setMark <= graph.data) ==> outcome.Panicked?
      ensures outcome.Returned? ==>
        var jobs := Replay(ViewOf(graph.State(), true), setMark, fired).jobs;
        Quiescent(ViewOf(graph.State(), true), jobs) && outcome.result == Finish(jobs)
    {
      var allInput := SetToSeq(setMark);
      outcome, fired := graph.Walk(allInput, true, fuel);
    }

    /** `bptt`'s set-up of the gradient map: cleared, refilled with the
        caller's gradients, then completed with a fresh empty tensor for
        every data node that has none. */
    method ResetGrads(outputGrad: map<nat, T>)
      modifies this
      ensures dataGrad == SeededGrads(outputGrad, graph.data, emptyTensor)
      ensures data == old(data) && ops == old(ops) && funcs == old(funcs) && setMark == old(setMark)
    {
      dataGrad := map[];
      dataGrad := CopyGrads(dataGrad, outputGrad);
      var all := graph.ListData();
      dataGrad := FillGrads(dataGrad, all, emptyTensor);
      assert dataGrad == SeededGrads(outputGrad, Elems(all), emptyTensor);
    }

    /** Back-propagation: sets up `dataGrad` as `ResetGrads` does, then walks
        the graph backward from exactly the seeded ids. A walk that returns
        `Err` makes the call panic. */
    method Bptt(outputGrad: map<nat, T>, fuel: nat) returns (outcome: WalkOutcome<nat>, fired: seq<Firing<nat, nat>>)
      requires Valid()
      modifies this
      ensures Valid()
      ensures dataGrad == SeededGrads(outputGrad, graph.data, emptyTensor)
      ensures data == old(data) && ops == old(ops) && funcs == old(funcs) && setMark == old(setMark)
      ensures Admissible(ViewOf(graph.State(), false), outputGrad.Keys, fired)
      ensures outcome.Returned? ==>
        var jobs := Replay(ViewOf(graph.State(), false), outputGrad.Keys, fired).jobs;
        Quiescent(ViewOf(graph.State(), false), jobs) && jobs == {} && outcome.result == Ok(())
      ensures outcome.Panicked? ==>
        || (!(outputGrad.Keys <= graph.data) && fired == [])
        || Replay(ViewOf(graph.State(), false), outputGrad.Keys, fired).jobs != {}
    {
      ResetGrads(outputGrad);
      var output := SetToSeq(outputGrad.Keys);
      outcome, fired := graph.Walk(output, false, fuel);
      if outcome.Returned? && outcome.result.Err? {
        outcome := Panicked;
      }
    }

    /** Seeds back-propagation with `seedOf` of the tensor of every sink
        (`get_output_cache`) and of nothing else, then runs `Bptt`. `seedOf`
        stands for filling a tensor of the sink's size with the scale. Every
        sink is a data node, so the call panics only when the walk leaves
        data in `jobs`; a sink that no op produces (a variable never
        connected) is such data, so with one the call never returns. */
    method BpttScale(seedOf: T -> T, fuel: nat) returns (outcome: WalkOutcome<nat>, fired: seq<Firing<nat, nat>>)
      requires Valid()
      modifies this
      ensures Valid()
      ensures dataGrad == SeededGrads(SeedEach(OutputCache(graph.State()), data.entries, seedOf), graph.data, emptyTensor)
      ensures data == old(data) && ops == old(ops) && funcs == old(funcs) && setMark == old(setMark)
      ensures Admissible(ViewOf(graph.State(), false), OutputCache(graph.State()), fired)
      ensures outcome.Returned? ==>
        var jobs := Replay(ViewOf(graph.State(), false), OutputCache(graph.State()), fired).jobs;
        Quiescent(ViewOf(graph.State(), false), jobs) && jobs == {} && outcome.result == Ok(())
      ensures outcome.Panicked? ==> Replay(ViewOf(graph.State(), false), OutputCache(graph.State()), fired).jobs != {}
      ensures (exists d :: d in OutputCache(graph.State()) && Lookup(graph.backwardDtOp, d) == {}) ==> !outcome.Returned?
    {
      var output := graph.GetOutputCache();
      var outputGrad := SeedAll(output, data.entries, seedOf);
      outcome, fired := Bptt(outputGrad, fuel);
      if d :| d in output && Lookup(graph.backwardDtOp, d) == {} {
        ViewOfValid(graph.State(), false);
        FinalSeedStays(ViewOf(graph.State(), false), graph.data, graph.op, output, fired, d);
      }
    }

    /** The ops `visit_op` applies its closure to, in the order it visits
        them: every op node selected by the two lists, each once. */
    method VisitOp(allow: Option<seq<nat>>, skip: Option<seq<nat>>) returns (visited: seq<nat>)
      requires Valid()
      ensures NoDuplicates(visited)
      ensures forall i :: i in visited <==> i in graph.op && Selected(ListOrEmpty(allow), ListOrEmpty(skip), i)
      ensures forall i :: i in visited ==> i in ops.entries
    {
      var allowList: seq<nat> := [];
      var skipList: seq<nat> := [];
      if allow.Some? {
        allowList := allow.value;
      }
      if skip.Some? {
        skipList := skip.value;
      }
      var all := graph.ListOp();
      visited := [];
      for n := 0 to |all|
        invariant NoDuplicates(visited)
        invariant forall i :: i in visited <==> i in all[..n] && Selected(allowList, skipList, i)
      {
        if (|allowList| == 0 && |skipList| == 0)
          || (|allowList| != 0 && all[n] in allowList)
          || (|skipList| != 0 && all[n] !in skipList)
        {
          assert all[n] !in all[..n];
          visited := visited + [all[n]];
        }
      }
      assert all[..|all|] == all;
    }
  }

  /** The gradient map back-propagation starts from: the given gradient
      for each seeded id, an empty tensor for every other node. */
  function SeededGrads<T>(seeds: map<nat, T>, nodes: set<nat>, empty: T): map<nat, T>
  {
    map k | k in seeds.Keys + nodes :: if k in seeds then seeds[k] else empty
  }

  /** Every seed survives, every other node starts from an empty tensor and
      nothing else has an entry, whatever the map held before. */
  lemma SeededGradsMeaning<T>(seeds: map<nat, T>, nodes: set<nat>, empty: T)
    ensures var g := SeededGrads(seeds, nodes, empty);
      && g.Keys == seeds.Keys + nodes
      && (forall k :: k in seeds ==> g[k] == seeds[k])
      && (forall k :: k in nodes && k !in seeds ==> g[k] == empty)
  {
  }

  /** Inserts every entry of `seeds` into `m`, one at a time. */
  method CopyGrads<T>(m: map<nat, T>, seeds: map<nat, T>) returns (r: map<nat, T>)
    ensures r.Keys == m.Keys + seeds.Keys
    ensures forall k :: k in r ==> r[k] == if k in seeds then seeds[k] else m[k]
  {
    r := m;
    var rest := seeds.Keys;
    while rest != {}
      invariant rest <= seeds.Keys
      invariant r.Keys == m.Keys + (seeds.Keys - rest)
      invariant forall k :: k in r ==> r[k] == if k in seeds && k !in rest then seeds[k] else m[k]
      decreases rest
    {
      var k :| k in rest;
      r := r[k := seeds[k]];
      rest := rest - {k};
    }
  }

  /** Gives every id in `ids` that has no entry in `m` the value `empty`. */
  method FillGrads<T>(m: map<nat, T>, ids: seq<nat>, empty: T) returns (r: map<nat, T>)
    ensures r.Keys == m.Keys + Elems(ids)
    ensures forall k :: k in r ==> r[k] == if k in m then m[k] else empty
  {
    r := m;
    for n := 0 to |ids|
      invariant r.Keys == m.Keys + Elems(ids[..n])
      invariant forall k :: k in r ==> r[k] == if k in m then m[k] else empty
    {
      ElemsPrefix(ids, n);
      if ids[n] !in r {
        r := r[ids[n] := empty];
      }
    }
    assert ids[..|ids|] == ids;
  }

  /** `seedOf` of the tensor of each id in `keys`. */
  function SeedEach<T>(keys: set<nat>, tensors: map<nat, T>, seedOf: T -> T): map<nat, T>
    requires keys <= tensors.Keys
  {
    map k | k in keys :: seedOf(tensors[k])
  }

  /** Builds `SeedEach` one id at a time. */
  method SeedAll<T>(keys: set<nat>, tensors: map<nat, T>, seedOf: T -> T) returns (m: map<nat, T>)
    requires keys <= tensors.Keys
    ensures m.Keys == keys && m == SeedEach(keys, tensors, seedOf)
  {
    m := map[];
    var rest := keys;
    while rest != {}
      invariant rest <= keys
      invariant m.Keys == keys - rest
      invariant forall k :: k in m ==> m[k] == seedOf(tensors[k])
      decreases rest
    {
      var i :| i in rest;
      m := m[i := seedOf(tensors[i])];
      rest := rest - {i};
    }
  }

  /** With only an `allow` list, exactly the allowed ops are visited; with
      only a `skip` list, exactly the others; with both, an op is visited
      when it is allowed or not skipped, so the skip list wins over a
      restrictive allow list. */
  lemma SelectedCases(allow: seq<nat>, skip: seq<nat>, i: nat)
    ensures |allow| == 0 && |skip| == 0 ==> Selected(allow, skip, i)
    ensures |allow| != 0 && |skip| == 0 ==> (Selected(allow, skip, i) <==> i in allow)
    ensures |allow| == 0 && |skip| != 0 ==> (Selected(allow, skip, i) <==> i !in skip)
    ensures |allow| != 0 && |skip| != 0 ==> (Selected(allow, skip, i) <==> i in allow || i !in skip)
  {
  }
}
