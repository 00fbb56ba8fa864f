/** Value-level model of the bipartite data/op graph: the state of a graph,
    what each mutating operation does to it, and the readiness-driven walk
    as a step function over (jobs, done). The imperative `Graphs.Graph`
    class is specified against these functions. */
module GraphModel {
  import opened Results

  datatype GraphError = DataExists | DataNotFound | OpExists | OpNotFound | InvalidId | NotRegistered

  /** The six fields of the graph. `forwardDtOp[d]` are the ops that consume
      `d`, `forwardOpDt[o]` the data `o` produces; the backward maps are
      their inverses. */
  datatype GraphState<D, O> = GraphState(
    data: set<D>,
    op: set<O>,
    forwardDtOp: map<D, set<O>>,
    forwardOpDt: map<O, set<D>>,
    backwardDtOp: map<D, set<O>>,
    backwardOpDt: map<O, set<D>>)

  function EmptyGraph<D, O>(): GraphState<D, O>
  {
    GraphState({}, {}, map[], map[], map[], map[])
  }

  /** The set of the elements of a sequence. */
  function Elems<T>(s: seq<T>): set<T>
  {
    set x | x in s
  }

  lemma ElemsPrefix<T>(s: seq<T>, k: nat)
    requires k < |s|
    ensures Elems(s[..k + 1]) == Elems(s[..k]) + {s[k]}
  {
    assert s[..k + 1] == s[..k] + [s[k]];
  }

  /** No element occurs twice. */
  predicate NoDuplicates<T(==)>(s: seq<T>)
  {
    forall i, j :: 0 <= i < j < |s| ==> s[i] != s[j]
  }

  /** `m[k]`, or the empty set when `k` is not a key. */
  function Lookup<K, V>(m: map<K, set<V>>, k: K): set<V>
  {
    if k in m then m[k] else {}
  }

  /** `d` is an input of `o`: recorded as `o` in `forwardDtOp[d]`. */
  predicate IsInput<D, O>(g: GraphState<D, O>, d: D, o: O)
  {
    d in g.forwardDtOp && o in g.forwardDtOp[d]
  }

  /** `d` is an output of `o`: recorded as `d` in `forwardOpDt[o]`. */
  predicate IsOutput<D, O>(g: GraphState<D, O>, o: O, d: D)
  {
    o in g.forwardOpDt && d in g.forwardOpDt[o]
  }

  /** Every registered node has an entry in the two maps of its kind. */
  ghost predicate KeysMatch<D, O>(g: GraphState<D, O>)
  {
    && g.forwardDtOp.Keys == g.data && g.backwardDtOp.Keys == g.data
    && g.forwardOpDt.Keys == g.op && g.backwardOpDt.Keys == g.op
  }

  /** Each input edge is recorded both in `forwardDtOp` and `backwardOpDt`. */
  ghost predicate InputsSymmetric<D, O>(g: GraphState<D, O>)
  {
    && (forall d, o | d in g.forwardDtOp && o in g.forwardDtOp[d] ::
          o in g.backwardOpDt && d in g.backwardOpDt[o])
    && (forall o, d | o in g.backwardOpDt && d in g.backwardOpDt[o] ::
          d in g.forwardDtOp && o in g.forwardDtOp[d])
  }

  /** Each output edge is recorded both in `forwardOpDt` and `backwardDtOp`. */
  ghost predicate OutputsSymmetric<D, O>(g: GraphState<D, O>)
  {
    && (forall o, d | o in g.forwardOpDt && d in g.forwardOpDt[o] ::
          d in g.backwardDtOp && o in g.backwardDtOp[d])
    && (forall d, o | d in g.backwardDtOp && o in g.backwardDtOp[d] ::
          o in g.forwardOpDt && d in g.forwardOpDt[o])
  }

  /** The graph's invariant: keys match the node sets and each edge is
      recorded in both directions. */
  ghost predicate Valid<D, O>(g: GraphState<D, O>)
  {
    KeysMatch(g) && InputsSymmetric(g) && OutputsSymmetric(g)
  }

  /** Removes `x` from the set of every key in `keys`. */
  function Prune<K, V>(m: map<K, set<V>>, keys: set<K>, x: V): map<K, set<V>>
  {
    map k | k in m :: if k in keys then m[k] - {x} else m[k]
  }

  /** Adds `x` to the set of every key in `keys`. */
  function Extend<K, V>(m: map<K, set<V>>, keys: set<K>, x: V): map<K, set<V>>
  {
    map k | k in m :: if k in keys then m[k] + {x} else m[k]
  }

  /** Pruning one more key, as one step of a loop over the keys does. */
  lemma PruneStep<K, V>(m: map<K, set<V>>, keys: set<K>, k: K, x: V)
    requires k in m
    ensures var p := Prune(m, keys, x); p[k := p[k] - {x}] == Prune(m, keys + {k}, x)
  {
    var p, q := Prune(m, keys, x), Prune(m, keys + {k}, x);
    assert p[k] - {x} == m[k] - {x};
    assert p[k := p[k] - {x}].Keys == q.Keys;
  }

  /** Extending one more key, as one step of a loop over the keys does. */
  lemma ExtendStep<K, V>(m: map<K, set<V>>, keys: set<K>, k: K, x: V)
    requires k in m
    ensures var e := Extend(m, keys, x); e[k := e[k] + {x}] == Extend(m, keys + {k}, x)
  {
    var e, f := Extend(m, keys, x), Extend(m, keys + {k}, x);
    assert e[k] + {x} == m[k] + {x};
    assert e[k := e[k] + {x}].Keys == f.Keys;
  }

  // ---------------------------------------------------------------------
  // Mutating operations: each returns the new state and the call's result.

  function AddData<D, O>(g: GraphState<D, O>, id: D): (r: (GraphState<D, O>, Result<D, GraphError>))
  {
    if id !in g.data then
      (g.(data := g.data + {id},
          forwardDtOp := g.forwardDtOp[id := {}],
          backwardDtOp := g.backwardDtOp[id := {}]), Ok(id))
    else
      (g, Err(DataExists))
  }

  function AddOp<D, O>(g: GraphState<D, O>, id: O): (r: (GraphState<D, O>, Result<O, GraphError>))
  {
    if id !in g.op then
      (g.(op := g.op + {id},
          forwardOpDt := g.forwardOpDt[id := {}],
          backwardOpDt := g.backwardOpDt[id := {}]), Ok(id))
    else
      (g, Err(OpExists))
  }

  /** Removes a data node and prunes it from the op sets of its neighbours. */
  function DelData<D, O>(g: GraphState<D, O>, id: D): (r: (GraphState<D, O>, Result<D, GraphError>))
  {
    if id in g.data then
      (GraphState(
         g.data - {id},
         g.op,
         g.forwardDtOp - {id},
         Prune(g.forwardOpDt, Lookup(g.backwardDtOp, id), id),
         g.backwardDtOp - {id},
         Prune(g.backwardOpDt, Lookup(g.forwardDtOp, id), id)), Ok(id))
    else
      (g, Err(DataNotFound))
  }

  /** Removes an op node and prunes it from the data sets of its neighbours. */
  function DelOp<D, O>(g: GraphState<D, O>, id: O): (r: (GraphState<D, O>, Result<O, GraphError>))
  {
    if id in g.op then
      (GraphState(
         g.data,
         g.op - {id},
         Prune(g.forwardDtOp, Lookup(g.backwardOpDt, id), id),
         g.forwardOpDt - {id},
         Prune(g.backwardDtOp, Lookup(g.forwardOpDt, id), id),
         g.backwardOpDt - {id}), Ok(id))
    else
      (g, Err(OpNotFound))
  }

  /** Both endpoints of `connect` are registered. */
  predicate ConnectIdsValid<D, O>(g: GraphState<D, O>, dti: seq<D>, dto: seq<D>, op: O)
  {
    op in g.op && Elems(dti) <= g.data && Elems(dto) <= g.data
  }

  /** Records `op` as a consumer of every id in `dti` and a producer of
      every id in `dto`, or fails without change when an id is unknown. */
  function Connect<D, O>(g: GraphState<D, O>, dti: seq<D>, dto: seq<D>, op: O): (r: (GraphState<D, O>, Result<O, GraphError>))
  {
    if ConnectIdsValid(g, dti, dto, op) then
      (g.(forwardDtOp := Extend(g.forwardDtOp, Elems(dti), op),
          backwardOpDt := g.backwardOpDt[op := Lookup(g.backwardOpDt, op) + Elems(dti)],
          forwardOpDt := g.forwardOpDt[op := Lookup(g.forwardOpDt, op) + Elems(dto)],
          backwardDtOp := Extend(g.backwardDtOp, Elems(dto), op)), Ok(op))
    else
      (g, Err(InvalidId))
  }

  /** Drops the input edge from `v` to `f`, in both directions. */
  function DecoupleDataFunc<D, O>(g: GraphState<D, O>, v: D, f: O): (r: (GraphState<D, O>, Result<(), GraphError>))
  {
    if v in g.data && f in g.op then
      (g.(forwardDtOp := g.forwardDtOp[v := Lookup(g.forwardDtOp, v) - {f}],
          backwardOpDt := g.backwardOpDt[f := Lookup(g.backwardOpDt, f) - {v}]), Ok(()))
    else
      (g, Err(NotRegistered))
  }

  /** Drops the output edge from `f` to `v`, in both directions. */
  function DecoupleFuncData<D, O>(g: GraphState<D, O>, f: O, v: D): (r: (GraphState<D, O>, Result<(), GraphError>))
  {
    if v in g.data && f in g.op then
      (g.(forwardOpDt := g.forwardOpDt[f := Lookup(g.forwardOpDt, f) - {v}],
          backwardDtOp := g.backwardDtOp[v := Lookup(g.backwardDtOp, v) - {f}]), Ok(()))
    else
      (g, Err(NotRegistered))
  }

  /** Data nodes no op produces (the graph's sources). */
  ghost function InputCache<D, O>(g: GraphState<D, O>): set<D>
  {
    set d | d in g.data && Lookup(g.backwardDtOp, d) == {}
  }

  /** Data nodes no op consumes (the graph's sinks). */
  ghost function OutputCache<D, O>(g: GraphState<D, O>): set<D>
  {
    set d | d in g.data && Lookup(g.forwardDtOp, d) == {}
  }

  // ---------------------------------------------------------------------
  // The readiness-driven walk

  /** The three maps a walk reads: consumers of a data node (`fdo`), outputs
      of an op (`fod`) and inputs of an op (`bod`), all in the direction of
      travel. */
  datatype View<D, O> = View(fdo: map<D, set<O>>, fod: map<O, set<D>>, bod: map<O, set<D>>)

  /** Forward the walk uses the forward maps and `backwardOpDt` as inputs;
      backward it swaps each for its counterpart. */
  function ViewOf<D, O>(g: GraphState<D, O>, forward: bool): View<D, O>
  {
    if forward then View(g.forwardDtOp, g.forwardOpDt, g.backwardOpDt)
    else View(g.backwardDtOp, g.backwardOpDt, g.forwardOpDt)
  }

  /** The view's maps cover the registered nodes, point only at registered
      nodes, and `bod` is the inverse of `fdo`. */
  ghost predicate ValidView<D, O>(v: View<D, O>, data: set<D>, op: set<O>)
  {
    && v.fdo.Keys == data && v.fod.Keys == op && v.bod.Keys == op
    && (forall d | d in v.fdo :: v.fdo[d] <= op)
    && (forall o | o in v.fod :: v.fod[o] <= data)
    && (forall o | o in v.bod :: v.bod[o] <= data)
    && (forall d, o | d in v.fdo && o in v.fdo[d] :: d in v.bod[o])
    && (forall o, d | o in v.bod && d in v.bod[o] :: o in v.fdo[d])
  }

  lemma ViewOfValid<D, O>(g: GraphState<D, O>, forward: bool)
    requires Valid(g)
    ensures ValidView(ViewOf(g, forward), g.data, g.op)
  {
  }

  /** Ops that consume some data node currently holding a value. */
  ghost function Candidates<D, O>(v: View<D, O>, jobs: set<D>): set<O>
  {
    set d, o | d in jobs && d in v.fdo && o in v.fdo[d] :: o
  }

  /** An op consuming a data node that holds a value is a candidate. */
  lemma CandidateOf<D, O>(v: View<D, O>, jobs: set<D>, d: D, o: O)
    requires d in jobs && d in v.fdo && o in v.fdo[d]
    ensures o in Candidates(v, jobs)
  {
  }

  /** The candidates of a union of job sets. */
  lemma CandidatesAdd<D, O>(v: View<D, O>, jobs: set<D>, d: D)
    requires d in v.fdo
    ensures Candidates(v, jobs + {d}) == Candidates(v, jobs) + v.fdo[d]
  {
    forall o | o in v.fdo[d] ensures o in Candidates(v, jobs + {d}) {
      CandidateOf(v, jobs + {d}, d, o);
    }
    forall o | o in Candidates(v, jobs) ensures o in Candidates(v, jobs + {d}) {
      var e :| e in jobs && e in v.fdo && o in v.fdo[e];
      CandidateOf(v, jobs + {d}, e, o);
    }
  }

  /** A candidate of a well-formed view is a registered op with at least
      one input. */
  lemma CandidateHasInput<D, O>(v: View<D, O>, data: set<D>, op: set<O>, jobs: set<D>, o: O)
    requires ValidView(v, data, op)
    requires o in Candidates(v, jobs)
    ensures o in op && v.bod[o] != {}
  {
    var d :| d in jobs && d in v.fdo && o in v.fdo[d];
    assert d in v.bod[o];
  }

  /** Every input of `o` holds a value. */
  ghost predicate Fireable<D, O>(v: View<D, O>, jobs: set<D>, o: O)
  {
    o in v.bod && v.bod[o] <= jobs
  }

  /** Data that hold a value (`jobs`) and ops already fired (`done`). */
  datatype WalkState<D, O> = WalkState(jobs: set<D>, done: set<O>)

  /** The inputs of `o` that leave `jobs` once the ops in `done` have
      fired: those all of whose consumers are done. */
  ghost function Retired<D, O>(v: View<D, O>, done: set<O>, o: O): set<D>
  {
    set i | i in Lookup(v.bod, o) && Lookup(v.fdo, i) <= done
  }

  /** The outputs of `o` that enter `jobs`: those that have a consumer. */
  ghost function Produced<D, O>(v: View<D, O>, o: O): set<D>
  {
    set x | x in Lookup(v.fod, o) && Lookup(v.fdo, x) != {}
  }

  /** What firing `o` does to the walk's state: `o` becomes done, the
      retired inputs leave `jobs`, then the produced outputs enter it. */
  ghost function Fire<D, O>(v: View<D, O>, s: WalkState<D, O>, o: O): WalkState<D, O>
  {
    var done := s.done + {o};
    WalkState((s.jobs - Retired(v, done, o)) + Produced(v, o), done)
  }

  /** After a firing the op is done; a data node leaves `jobs` only if it is
      an input of the op all of whose consumers are done, and enters only if
      it is an output of the op that has a consumer. */
  lemma FireEffect<D, O>(v: View<D, O>, s: WalkState<D, O>, o: O)
    ensures var r := Fire(v, s, o);
      && o in r.done && r.done == s.done + {o}
      && (forall d :: d in s.jobs && d !in r.jobs ==>
            d in Lookup(v.bod, o) && Lookup(v.fdo, d) <= r.done)
      && (forall d :: d in r.jobs && d !in s.jobs ==>
            d in Lookup(v.fod, o) && Lookup(v.fdo, d) != {})
  {
  }

  /** One callback invocation: the op and the inputs and outputs it was
      given. */
  datatype Firing<D, O> = Firing(inputs: set<D>, outputs: set<D>, op: O)

  /** The walk's state after the given firings, starting from `start`. */
  ghost function Replay<D, O>(v: View<D, O>, start: set<D>, fired: seq<Firing<D, O>>): WalkState<D, O>
  {
    if |fired| == 0 then WalkState(start, {})
    else Fire(v, Replay(v, start, fired[..|fired| - 1]), fired[|fired| - 1].op)
  }

  /** A firing the walk may make when `jobs` hold values: its op is a
      candidate, all its inputs hold values, and the callback receives the
      op's full input and output sets. */
  ghost predicate FiringAllowed<D, O>(v: View<D, O>, jobs: set<D>, f: Firing<D, O>)
  {
    && f.op in Candidates(v, jobs)
    && Fireable(v, jobs, f.op)
    && f.inputs == v.bod[f.op]
    && f.outputs == Lookup(v.fod, f.op)
  }

  /** Every firing of the trace was allowed in the state it was made in. */
  ghost predicate Admissible<D, O>(v: View<D, O>, start: set<D>, fired: seq<Firing<D, O>>)
  {
    forall k :: 0 <= k < |fired| ==> FiringAllowed(v, Replay(v, start, fired[..k]).jobs, fired[k])
  }

  /** No candidate can fire: the condition on which the walk stops. */
  ghost predicate Quiescent<D, O>(v: View<D, O>, jobs: set<D>)
  {
    forall o :: o in Candidates(v, jobs) ==> !Fireable(v, jobs, o)
  }

  /** How a walk ends: it returns `Ok` or the data left in `jobs`, it
      panics on a start node that is not registered, or it is still
      running when the model's bound on passes is reached. */
  datatype WalkOutcome<D> = Returned(result: Result<(), set<D>>) | Panicked | OutOfFuel

  /** The value the walk returns when it stops with `jobs` left. */
  function Finish<D>(jobs: set<D>): (r: Result<(), set<D>>)
    ensures r.Ok? <==> jobs == {}
    ensures r.Err? ==> r.error == jobs
  {
    if |jobs| > 0 then Err(jobs) else Ok(())
  }

  lemma ReplayAppend<D, O>(v: View<D, O>, start: set<D>, fired: seq<Firing<D, O>>, f: Firing<D, O>)
    ensures Replay(v, start, fired + [f]) == Fire(v, Replay(v, start, fired), f.op)
    ensures Admissible(v, start, fired) && FiringAllowed(v, Replay(v, start, fired).jobs, f)
      ==> Admissible(v, start, fired + [f])
  {
    assert (fired + [f])[..|fired|] == fired;
    forall k | 0 <= k < |fired| ensures (fired + [f])[..k] == fired[..k] { }
  }

  /** A fireable op that has an input is a candidate: some input of it
      holds a value and lists it as a consumer. */
  lemma FireableIsCandidate<D, O>(v: View<D, O>, data: set<D>, op: set<O>, jobs: set<D>, o: O)
    requires ValidView(v, data, op)
    requires Fireable(v, jobs, o) && v.bod[o] != {}
    ensures o in Candidates(v, jobs)
  {
    var d :| d in v.bod[o];
    CandidateOf(v, jobs, d, o);
  }

  /** The walk never leaves the registered nodes: the jobs stay data nodes
      and the done ops stay registered ops. */
  lemma {:induction false} ReplayWithin<D, O>(v: View<D, O>, data: set<D>, op: set<O>, start: set<D>, fired: seq<Firing<D, O>>)
    requires ValidView(v, data, op) && start <= data
    requires Admissible(v, start, fired)
    ensures Replay(v, start, fired).jobs <= data
    ensures Replay(v, start, fired).done <= op
    decreases |fired|
  {
    if |fired| > 0 {
      var n := |fired| - 1;
      forall k | 0 <= k < n
        ensures FiringAllowed(v, Replay(v, start, fired[..n][..k]).jobs, fired[..n][k])
      {
        assert fired[..n][..k] == fired[..k];
      }
      ReplayWithin(v, data, op, start, fired[..n]);
      assert fired[..n] == fired[..|fired| - 1];
      assert FiringAllowed(v, Replay(v, start, fired[..n]).jobs, fired[n]);
    }
  }

  // ---------------------------------------------------------------------
  // Start nodes with no consumer in the direction of travel

  /** A start node that no op consumes in the direction of travel is never
      an input of a fired op, so no firing retires it: it stays in `jobs`
      whatever the walk fires, and the walk can only end in `Err`. Outputs
      of that kind are kept out of `jobs`; start nodes are not. */
  lemma {:induction false} FinalSeedStays<D, O>(v: View<D, O>, data: set<D>, op: set<O>, start: set<D>, fired: seq<Firing<D, O>>, d: D)
    requires ValidView(v, data, op)
    requires d in start && Lookup(v.fdo, d) == {}
    ensures d in Replay(v, start, fired).jobs
    ensures Finish(Replay(v, start, fired).jobs).Err?
    decreases |fired|
  {
    if |fired| > 0 {
      var n := |fired| - 1;
      FinalSeedStays(v, data, op, start, fired[..n], d);
      NotAnInput(v, data, op, d, fired[n].op);
    }
  }

  /** A node with no consumer is an input of no op. */
  lemma NotAnInput<D, O>(v: View<D, O>, data: set<D>, op: set<O>, d: D, o: O)
    requires ValidView(v, data, op)
    requires Lookup(v.fdo, d) == {}
    ensures d !in Lookup(v.bod, o)
  {
  }

  /** The start nodes that some op consumes in the direction of travel: the
      start set with final nodes left out, as the walk leaves them out of
      the outputs it adds. */
  ghost function LiveStart<D, O>(v: View<D, O>, start: set<D>): set<D>
  {
    set d | d in start && Lookup(v.fdo, d) != {}
  }

  /** From the live start nodes, `jobs` only ever holds data that some op
      consumes, so no final node is ever left over. */
  lemma {:induction false} LiveJobsConsumed<D, O>(v: View<D, O>, start: set<D>, fired: seq<Firing<D, O>>)
    ensures forall d :: d in Replay(v, LiveStart(v, start), fired).jobs ==> Lookup(v.fdo, d) != {}
    decreases |fired|
  {
    if |fired| > 0 {
      LiveJobsConsumed(v, start, fired[..|fired| - 1]);
    }
  }

  /** Adding final nodes to `jobs` changes neither the candidates nor which
      of them can fire, nor what a firing retires or produces. */
  lemma FinalNodesInert<D, O>(v: View<D, O>, data: set<D>, op: set<O>, jobs: set<D>, dead: set<D>, done: set<O>, o: O)
    requires ValidView(v, data, op)
    requires forall d :: d in dead ==> Lookup(v.fdo, d) == {}
    ensures Candidates(v, jobs + dead) == Candidates(v, jobs)
    ensures Fireable(v, jobs + dead, o) <==> Fireable(v, jobs, o)
    ensures Fire(v, WalkState(jobs + dead, done), o).jobs == Fire(v, WalkState(jobs, done), o).jobs + dead
  {
    forall c | c in Candidates(v, jobs + dead) ensures c in Candidates(v, jobs) {
      var d :| d in jobs + dead && d in v.fdo && c in v.fdo[d];
      assert d !in dead;
      CandidateOf(v, jobs, d, c);
    }
    forall d | d in dead ensures d !in Lookup(v.bod, o) {
      NotAnInput(v, data, op, d, o);
    }
  }

  /** Seeding only the live start nodes is the evidently intended start: the
      walk makes exactly the same firings, its `jobs` are those of the walk
      as written without the final start nodes, and it stops at the same
      point. */
  lemma {:induction false} LiveStartReplay<D, O>(v: View<D, O>, data: set<D>, op: set<O>, start: set<D>, fired: seq<Firing<D, O>>)
    requires ValidView(v, data, op)
    ensures var dead := start - LiveStart(v, start);
      && Replay(v, start, fired).jobs == Replay(v, LiveStart(v, start), fired).jobs + dead
      && Replay(v, start, fired).done == Replay(v, LiveStart(v, start), fired).done
      && Replay(v, LiveStart(v, start), fired).jobs == Replay(v, start, fired).jobs - dead
    decreases |fired|
  {
    var dead := start - LiveStart(v, start);
    if |fired| > 0 {
      var n := |fired| - 1;
      LiveStartReplay(v, data, op, start, fired[..n]);
      var a := Replay(v, LiveStart(v, start), fired[..n]);
      var o := fired[n].op;
      forall d | d in dead ensures d !in Lookup(v.bod, o) {
        NotAnInput(v, data, op, d, o);
      }
      var done := a.done + {o};
      assert (a.jobs + dead) - Retired(v, done, o) + Produced(v, o)
          == (a.jobs - Retired(v, done, o) + Produced(v, o)) + dead;
    }
    LiveJobsConsumed(v, start, fired);
  }

  /** The firings allowed from the live start nodes are exactly those
      allowed from the start as written, and both walks stop together. */
  lemma LiveStartAllowed<D, O>(v: View<D, O>, data: set<D>, op: set<O>, start: set<D>, fired: seq<Firing<D, O>>, f: Firing<D, O>)
    requires ValidView(v, data, op)
    ensures FiringAllowed(v, Replay(v, start, fired).jobs, f)
        <==> FiringAllowed(v, Replay(v, LiveStart(v, start), fired).jobs, f)
    ensures Quiescent(v, Replay(v, start, fired).jobs)
        <==> Quiescent(v, Replay(v, LiveStart(v, start), fired).jobs)
  {
    LiveStartReplay(v, data, op, start, fired);
    var jobs := Replay(v, LiveStart(v, start), fired).jobs;
    var dead := start - LiveStart(v, start);
    forall o ensures Fireable(v, jobs + dead, o) <==> Fireable(v, jobs, o) {
      FinalNodesInert(v, data, op, jobs, dead, {}, o);
    }
    FinalNodesInert(v, data, op, jobs, dead, {}, f.op);
  }

  /** A trace is admissible from the live start nodes exactly when it is
      admissible from the start as written. */
  lemma LiveStartAdmissible<D, O>(v: View<D, O>, data: set<D>, op: set<O>, start: set<D>, fired: seq<Firing<D, O>>)
    requires ValidView(v, data, op)
    ensures Admissible(v, start, fired) <==> Admissible(v, LiveStart(v, start), fired)
  {
    forall k | 0 <= k < |fired|
      ensures FiringAllowed(v, Replay(v, start, fired[..k]).jobs, fired[k])
          <==> FiringAllowed(v, Replay(v, LiveStart(v, start), fired[..k]).jobs, fired[k])
    {
      LiveStartAllowed(v, data, op, start, fired[..k], fired[k]);
    }
  }
}
