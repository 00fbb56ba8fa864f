/** The graph as the program holds it: an object whose six fields the
    mutating methods update in place. Each method is specified by the
    value-level function of the same name in `GraphModel`, whose
    properties `GraphProperties` proves. */
module Graphs {
  import opened Results
  import opened GraphModel
  import GraphProperties

  class Graph<D(==), O(==)> {
    var data: set<D>
    var op: set<O>
    var forwardDtOp: map<D, set<O>>
    var forwardOpDt: map<O, set<D>>
    var backwardDtOp: map<D, set<O>>
    var backwardOpDt: map<O, set<D>>

    /** The six fields as one value. */
    function State(): GraphState<D, O>
      reads this
    {
      GraphState(data, op, forwardDtOp, forwardOpDt, backwardDtOp, backwardOpDt)
    }

    ghost predicate Valid()
      reads this
    {
      GraphModel.Valid(State())
    }

    constructor ()
      ensures Valid() && State() == EmptyGraph()
    {
      data, op := {}, {};
      forwardDtOp, forwardOpDt, backwardDtOp, backwardOpDt := map[], map[], map[], map[];
    }

    method AddData(id: D) returns (r: Result<D, GraphError>)
      requires Valid()
      modifies this
      ensures Valid()
      ensures (State(), r) == GraphModel.AddData(old(State()), id)
    {
      GraphProperties.AddDataEffect(State(), id);
      if id !in data {
        data := data + {id};
        forwardDtOp := forwardDtOp[id := {}];
        backwardDtOp := backwardDtOp[id := {}];
        r := Ok(id);
      } else {
        r := Err(DataExists);
      }
    }

    method AddOp(id: O) returns (r: Result<O, GraphError>)
      requires Valid()
      modifies this
      ensures Valid()
      ensures (State(), r) == GraphModel.AddOp(old(State()), id)
    {
      GraphProperties.AddOpEffect(State(), id);
      if id !in op {
        op := op + {id};
        forwardOpDt := forwardOpDt[id := {}];
        backwardOpDt := backwardOpDt[id := {}];
        r := Ok(id);
      } else {
        r := Err(OpExists);
      }
    }

    method DelData(id: D) returns (r: Result<D, GraphError>)
      requires Valid()
      modifies this
      ensures Valid()
      ensures (State(), r) == GraphModel.DelData(old(State()), id)
    {
      if id !in data {
        return Err(DataNotFound);
      }
      GraphProperties.DelDataValid(State(), id);
      RemoveData(id);
      r := Ok(id);
    }

    /** The mutating half of `del_data`. */
    method RemoveData(id: D)
      requires id in forwardDtOp && id in backwardDtOp
      requires forwardDtOp[id] <= backwardOpDt.Keys && backwardDtOp[id] <= forwardOpDt.Keys
      modifies this
      ensures State() == GraphState(
        old(data) - {id}, old(op),
        old(forwardDtOp) - {id}, Prune(old(forwardOpDt), old(backwardDtOp)[id], id),
        old(backwardDtOp) - {id}, Prune(old(backwardOpDt), old(forwardDtOp)[id], id))
    {
      data := data - {id};
      // each consumer of `id` forgets it as an input
      backwardOpDt := PruneAll(backwardOpDt, forwardDtOp[id], id);
      forwardDtOp := forwardDtOp - {id};
      // each producer of `id` forgets it as an output
      forwardOpDt := PruneAll(forwardOpDt, backwardDtOp[id], id);
      backwardDtOp := backwardDtOp - {id};
    }

    method DelOp(id: O) returns (r: Result<O, GraphError>)
      requires Valid()
      modifies this
      ensures Valid()
      ensures (State(), r) == GraphModel.DelOp(old(State()), id)
    {
      if id !in op {
        return Err(OpNotFound);
      }
      GraphProperties.DelOpValid(State(), id);
      RemoveOp(id);
      r := Ok(id);
    }

    /** The mutating half of `del_op`. */
    method RemoveOp(id: O)
      requires id in forwardOpDt && id in backwardOpDt
      requires forwardOpDt[id] <= backwardDtOp.Keys && backwardOpDt[id] <= forwardDtOp.Keys
      modifies this
      ensures State() == GraphState(
        old(data), old(op) - {id},
        Prune(old(forwardDtOp), old(backwardOpDt)[id], id), old(forwardOpDt) - {id},
        Prune(old(backwardDtOp), old(forwardOpDt)[id], id), old(backwardOpDt) - {id})
    {
      op := op - {id};
      // each output of `id` forgets it as a producer
      backwardDtOp := PruneAll(backwardDtOp, forwardOpDt[id], id);
      forwardOpDt := forwardOpDt - {id};
      // each input of `id` forgets it as a consumer
      forwardDtOp := PruneAll(forwardDtOp, backwardOpDt[id], id);
      backwardOpDt := backwardOpDt - {id};
    }

    method DecoupleDataFunc(v: D, f: O) returns (r: Result<(), GraphError>)
      requires Valid()
      modifies this
      ensures Valid()
      ensures (State(), r) == GraphModel.DecoupleDataFunc(old(State()), v, f)
    {
      GraphProperties.DecoupleDataFuncEffect(State(), v, f);
      if v in data && f in op {
        forwardDtOp := forwardDtOp[v := forwardDtOp[v] - {f}];
        backwardOpDt := backwardOpDt[f := backwardOpDt[f] - {v}];
        r := Ok(());
      } else {
        r := Err(NotRegistered);
      }
    }

    method DecoupleFuncData(f: O, v: D) returns (r: Result<(), GraphError>)
      requires Valid()
      modifies this
      ensures Valid()
      ensures (State(), r) == GraphModel.DecoupleFuncData(old(State()), f, v)
    {
      GraphProperties.DecoupleFuncDataEffect(State(), f, v);
      if v in data && f in op {
        forwardOpDt := forwardOpDt[f := forwardOpDt[f] - {v}];
        backwardDtOp := backwardDtOp[v := backwardDtOp[v] - {f}];
        r := Ok(());
      } else {
        r := Err(NotRegistered);
      }
    }

    method Connect(dti: seq<D>, dto: seq<D>, id: O) returns (r: Result<O, GraphError>)
      requires Valid()
      modifies this
      ensures Valid()
      ensures (State(), r) == GraphModel.Connect(old(State()), dti, dto, id)
    {
      ghost var g := State();
      GraphProperties.ConnectValid(g, dti, dto, id);
      // every id is checked before anything changes
      var validIds := id in op;
      var inputsKnown := AllIn(dti, data);
      var outputsKnown := AllIn(dto, data);
      validIds := validIds && inputsKnown && outputsKnown;
      if !validIds {
        return Err(InvalidId);
      }
      AddEdges(dti, dto, id);
      r := Ok(id);
    }

    /** The mutating half of `connect`: both directions of each input edge,
        then of each output edge. */
    method AddEdges(dti: seq<D>, dto: seq<D>, id: O)
      requires id in forwardOpDt && id in backwardOpDt
      requires Elems(dti) <= forwardDtOp.Keys && Elems(dto) <= backwardDtOp.Keys
      modifies this
      ensures State() == old(State()).(
        forwardDtOp := Extend(old(forwardDtOp), Elems(dti), id),
        backwardOpDt := old(backwardOpDt)[id := old(backwardOpDt)[id] + Elems(dti)],
        forwardOpDt := old(forwardOpDt)[id := old(forwardOpDt)[id] + Elems(dto)],
        backwardDtOp := Extend(old(backwardDtOp), Elems(dto), id))
    {
      forwardDtOp := ExtendAll(forwardDtOp, dti, id);
      var inputs := InsertAll(backwardOpDt[id], dti);
      backwardOpDt := backwardOpDt[id := inputs];
      var outputs := InsertAll(forwardOpDt[id], dto);
      forwardOpDt := forwardOpDt[id := outputs];
      backwardDtOp := ExtendAll(backwardDtOp, dto, id);
    }

    /** Every data node, each once. */
    method ListData() returns (r: seq<D>)
      ensures Elems(r) == data && NoDuplicates(r)
    {
      r := SetToSeq(data);
    }

    /** Every op node, each once. */
    method ListOp() returns (r: seq<O>)
      ensures Elems(r) == op && NoDuplicates(r)
    {
      r := SetToSeq(op);
    }

    /** The ops `v` is an input of; fails on an unregistered `v`. */
    method ListAsInput(v: D) returns (r: Result<seq<O>, GraphError>)
      requires Valid()
      ensures r.Ok? <==> v in data
      ensures r.Err? ==> r.error == DataNotFound
      ensures r.Ok? ==> NoDuplicates(r.value) && forall o :: o in r.value <==> IsInput(State(), v, o)
    {
      if v !in data {
        return Err(DataNotFound);
      }
      var ops := SetToSeq(forwardDtOp[v]);
      r := Ok(ops);
    }

    /** The ops `v` is an output of; fails on an unregistered `v`. */
    method ListAsOutput(v: D) returns (r: Result<seq<O>, GraphError>)
      requires Valid()
      ensures r.Ok? <==> v in data
      ensures r.Err? ==> r.error == DataNotFound
      ensures r.Ok? ==> NoDuplicates(r.value) && forall o :: o in r.value <==> IsOutput(State(), o, v)
    {
      if v !in data {
        return Err(DataNotFound);
      }
      var ops := SetToSeq(backwardDtOp[v]);
      r := Ok(ops);
    }

    /** The inputs of `f`; fails on an unregistered `f`. */
    method ListInput(f: O) returns (r: Result<seq<D>, GraphError>)
      requires Valid()
      ensures r.Ok? <==> f in op
      ensures r.Err? ==> r.error == OpNotFound
      ensures r.Ok? ==> NoDuplicates(r.value) && forall d :: d in r.value <==> IsInput(State(), d, f)
    {
      if f !in op {
        return Err(OpNotFound);
      }
      var ds := SetToSeq(backwardOpDt[f]);
      r := Ok(ds);
    }

    /** The outputs of `f`; fails on an unregistered `f`. */
    method ListOutput(f: O) returns (r: Result<seq<D>, GraphError>)
      requires Valid()
      ensures r.Ok? <==> f in op
      ensures r.Err? ==> r.error == OpNotFound
      ensures r.Ok? ==> NoDuplicates(r.value) && forall d :: d in r.value <==> IsOutput(State(), f, d)
    {
      if f !in op {
        return Err(OpNotFound);
      }
      var ds := SetToSeq(forwardOpDt[f]);
      r := Ok(ds);
    }

    /** The data nodes no op produces. */
    method GetInputCache() returns (r: set<D>)
      requires Valid()
      ensures r == InputCache(State())
      ensures forall d :: d in r <==> d in data && forall o :: !IsOutput(State(), o, d)
    {
      r := {};
      var rest := data;
      while rest != {}
        invariant rest <= data
        invariant forall d :: d in r <==> d in data - rest && backwardDtOp[d] == {}
        decreases rest
      {
        var i :| i in rest;
        if |backwardDtOp[i]| <= 0 {
          r := r + {i};
        }
        rest := rest - {i};
      }
      GraphProperties.InputCacheSources(State());
    }

    /** The data nodes no op consumes. */
    method GetOutputCache() returns (r: set<D>)
      requires Valid()
      ensures r == OutputCache(State())
      ensures forall d :: d in r <==> d in data && forall o :: !IsInput(State(), d, o)
    {
      r := {};
      var rest := data;
      while rest != {}
        invariant rest <= data
        invariant forall d :: d in r <==> d in data - rest && forwardDtOp[d] == {}
        decreases rest
      {
        var i :| i in rest;
        if |forwardDtOp[i]| <= 0 {
          r := r + {i};
        }
        rest := rest - {i};
      }
      GraphProperties.OutputCacheSinks(State());
    }

    /** Walks the graph from `start`, forward or (over the swapped maps)
        backward, making at most `fuel` passes. `fired` lists the callback
        invocations in order. Every firing is one the walk may make; when the
        walk returns, no candidate can fire and the result is `Ok` exactly
        when no data is left in `jobs`. A start node that is not registered
        makes the first pass panic before any callback. */
    method Walk(start: seq<D>, forward: bool, fuel: nat) returns (outcome: WalkOutcome<D>, fired: seq<Firing<D, O>>)
      requires Valid()
      ensures Admissible(ViewOf(State(), forward), Elems(start), fired)
      ensures outcome.Panicked? ==> !(Elems(start) <= data) && fired == []
      ensures fuel > 0 && !(Elems(start) <= data) ==> outcome.Panicked?
      ensures outcome.Returned? ==>
        var jobs := Replay(ViewOf(State(), forward), Elems(start), fired).jobs;
        Quiescent(ViewOf(State(), forward), jobs) && outcome.result == Finish(jobs)
    {
      var v := ViewOf(State(), forward);
      ViewOfValid(State(), forward);
      var jobs := InsertAll({}, start);
      var done: set<O> := {};
      fired := [];
      var passes := 0;
      while passes < fuel
        invariant Admissible(v, Elems(start), fired)
        invariant WalkState(jobs, done) == Replay(v, Elems(start), fired)
        invariant passes > 0 ==> Elems(start) <= data
        invariant passes == 0 ==> fired == []
        decreases fuel - passes
      {
        var edge, panicked := EdgeOps(v, jobs);
        if panicked {
          if passes > 0 {
            ReplayWithin(v, data, op, Elems(start), fired);
          }
          return Panicked, fired;
        }
        var progress;
        jobs, done, fired, progress := RunPass(v, data, op, Elems(start), edge, jobs, done, fired);
        if !progress {
          return Returned(Finish(jobs)), fired;
        }
        passes := passes + 1;
      }
      outcome := OutOfFuel;
    }
  }

  /** Removes `x` from the set of each key in `keys`, one key at a time. */
  method PruneAll<K, V>(m: map<K, set<V>>, keys: set<K>, x: V) returns (p: map<K, set<V>>)
    requires keys <= m.Keys
    ensures p == Prune(m, keys, x)
  {
    p := m;
    assert p == Prune(m, {}, x);
    var rest := keys;
    while rest != {}
      invariant rest <= keys
      invariant p == Prune(m, keys - rest, x)
      decreases rest
    {
      var k :| k in rest;
      PruneStep(m, keys - rest, k, x);
      p := p[k := p[k] - {x}];
      assert keys - (rest - {k}) == (keys - rest) + {k};
      rest := rest - {k};
    }
  }

  /** Adds `x` to the set of each key listed in `keys`, in order. */
  method ExtendAll<K, V>(m: map<K, set<V>>, keys: seq<K>, x: V) returns (p: map<K, set<V>>)
    requires Elems(keys) <= m.Keys
    ensures p == Extend(m, Elems(keys), x)
  {
    p := m;
    assert p == Extend(m, {}, x);
    for k := 0 to |keys|
      invariant p == Extend(m, Elems(keys[..k]), x)
    {
      ElemsPrefix(keys, k);
      ExtendStep(m, Elems(keys[..k]), keys[k], x);
      p := p[keys[k] := p[keys[k]] + {x}];
    }
    assert keys[..|keys|] == keys;
  }

  /** Whether every element of `xs` is in `s`, checked one by one. */
  method AllIn<T>(xs: seq<T>, s: set<T>) returns (b: bool)
    ensures b <==> Elems(xs) <= s
  {
    b := true;
    for k := 0 to |xs|
      invariant b <==> Elems(xs[..k]) <= s
    {
      ElemsPrefix(xs, k);
      if xs[k] !in s {
        b := false;
      }
    }
    assert xs[..|xs|] == xs;
  }

  /** Adds the elements of `xs` to `s`, in order. */
  method InsertAll<T>(s: set<T>, xs: seq<T>) returns (r: set<T>)
    ensures r == s + Elems(xs)
  {
    r := s;
    for k := 0 to |xs|
      invariant r == s + Elems(xs[..k])
    {
      ElemsPrefix(xs, k);
      r := r + {xs[k]};
    }
    assert xs[..|xs|] == xs;
  }
  /** The elements of `s`, each once, in the order they are taken out. */
  method SetToSeq<T(==)>(s: set<T>) returns (r: seq<T>)
    ensures Elems(r) == s && NoDuplicates(r)
  {
    r := [];
    var rest := s;
    while rest != {}
      invariant rest <= s
      invariant Elems(r) == s - rest && NoDuplicates(r)
      decreases rest
    {
      var x :| x in rest;
      assert x !in Elems(r);
      assert Elems(r + [x]) == Elems(r) + {x};
      r := r + [x];
      rest := rest - {x};
    }
  }

  /** Whether every element of `s` is in `t`, checked one by one. */
  method SubsetOf<T>(s: set<T>, t: set<T>) returns (b: bool)
    ensures b <==> s <= t
  {
    b := true;
    var rest := s;
    while rest != {}
      invariant rest <= s
      invariant b <==> s - rest <= t
      decreases rest
    {
      var x :| x in rest;
      if x !in t {
        b := false;
      }
      rest := rest - {x};
    }
  }

  /** The ops consuming some data node in `jobs`: the candidates of one
      pass. Panics (`panicked`) when a node in `jobs` has no entry. */
  method EdgeOps<D, O>(v: View<D, O>, jobs: set<D>) returns (edge: set<O>, panicked: bool)
    ensures panicked <==> !(jobs <= v.fdo.Keys)
    ensures !panicked ==> edge == Candidates(v, jobs)
  {
    edge := {};
    var rest := jobs;
    while rest != {}
      invariant rest <= jobs
      invariant jobs - rest <= v.fdo.Keys
      invariant edge == Candidates(v, jobs - rest)
      decreases rest
    {
      var dt :| dt in rest;
      if dt !in v.fdo {
        return {}, true;
      }
      CandidatesAdd(v, jobs - rest, dt);
      var ops := v.fdo[dt];
      while ops != {}
        invariant ops <= v.fdo[dt]
        invariant edge + ops == Candidates(v, jobs - rest) + v.fdo[dt]
        decreases ops
      {
        var o :| o in ops;
        edge := edge + {o};
        ops := ops - {o};
      }
      assert (jobs - rest) + {dt} == jobs - (rest - {dt});
      rest := rest - {dt};
    }
    panicked := false;
  }

  /** Fires `o`: marks it done, retires each input all of whose consumers
      are done, then adds each output that has a consumer. */
  method FireOp<D, O>(v: View<D, O>, jobs0: set<D>, done0: set<O>, o: O) returns (jobs: set<D>, done: set<O>)
    requires o in v.bod && o in v.fod
    requires v.bod[o] <= v.fdo.Keys && v.fod[o] <= v.fdo.Keys
    ensures WalkState(jobs, done) == Fire(v, WalkState(jobs0, done0), o)
  {
    done := done0 + {o};
    jobs := jobs0;
    var rest := v.bod[o];
    while rest != {}
      invariant rest <= v.bod[o]
      invariant forall d :: d in jobs <==> d in jobs0 && !(d in v.bod[o] - rest && v.fdo[d] <= done)
      decreases rest
    {
      var input :| input in rest;
      var allDone := SubsetOf(v.fdo[input], done);
      if allDone {
        jobs := jobs - {input};
      }
      rest := rest - {input};
    }
    assert jobs == jobs0 - Retired(v, done, o);
    ghost var retained := jobs;
    rest := v.fod[o];
    while rest != {}
      invariant rest <= v.fod[o]
      invariant forall d :: d in jobs <==> d in retained || (d in v.fod[o] - rest && v.fdo[d] != {})
      decreases rest
    {
      var output :| output in rest;
      if |v.fdo[output]| > 0 {
        jobs := jobs + {output};
      }
      rest := rest - {output};
    }
    assert jobs == retained + Produced(v, o);
  }

  /** One pass of the walk over the candidates `edge` computed at its start:
      each candidate whose inputs all hold values is fired, in turn. Without
      a firing the state is unchanged and quiescent. */
  method RunPass<D, O>(v: View<D, O>, ghost data: set<D>, ghost op: set<O>, ghost start: set<D>,
                       edge: set<O>, jobs0: set<D>, done0: set<O>, fired0: seq<Firing<D, O>>)
    returns (jobs: set<D>, done: set<O>, fired: seq<Firing<D, O>>, progress: bool)
    requires ValidView(v, data, op)
    requires Admissible(v, start, fired0) && WalkState(jobs0, done0) == Replay(v, start, fired0)
    requires edge == Candidates(v, jobs0)
    ensures Admissible(v, start, fired) && WalkState(jobs, done) == Replay(v, start, fired)
    ensures progress || (fired == fired0 && jobs == jobs0 && Quiescent(v, jobs0))
  {
    jobs, done, fired, progress := jobs0, done0, fired0, false;
    var rest := edge;
    while rest != {}
      invariant rest <= edge
      invariant Admissible(v, start, fired) && WalkState(jobs, done) == Replay(v, start, fired)
      invariant !progress ==> fired == fired0 && jobs == jobs0
      invariant !progress ==> forall o :: o in edge - rest ==> !Fireable(v, jobs0, o)
      decreases rest
    {
      var o :| o in rest;
      CandidateHasInput(v, data, op, jobs0, o);
      var ready := SubsetOf(v.bod[o], jobs);
      if ready {
        FireableIsCandidate(v, data, op, jobs, o);
        var f := Firing(v.bod[o], v.fod[o], o);
        assert FiringAllowed(v, jobs, f);
        ReplayAppend(v, start, fired, f);
        jobs, done := FireOp(v, jobs, done, o);
        fired := fired + [f];
        progress := true;
      }
      rest := rest - {o};
    }
  }
}
