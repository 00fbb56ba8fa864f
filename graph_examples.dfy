/** The two small graphs the graph module's own tests build, written out as
    states and proved equal to what the tests' `add_data`, `add_op` and
    `connect` calls leave behind, and walks over them. Data and op handles are `nat`. */
module GraphExamples {
  import opened Results
  import opened GraphModel

  /** A and B (data 0, 1) feed op 0, which produces C (data 2). */
  function YGraph(): GraphState<nat, nat>
  {
    GraphState({0, 1, 2}, {0},
      map[0 := {0}, 1 := {0}, 2 := {}], map[0 := {2}],
      map[0 := {}, 1 := {}, 2 := {0}], map[0 := {0, 1}])
  }

  /** A and B (data 0, 1) feed op 0, which produces C (data 2); C and D
      (data 3) feed op 1, which produces E (data 4). */
  function YYGraph(): GraphState<nat, nat>
  {
    GraphState({0, 1, 2, 3, 4}, {0, 1},
      map[0 := {0}, 1 := {0}, 2 := {1}, 3 := {1}, 4 := {}], map[0 := {2}, 1 := {4}],
      map[0 := {}, 1 := {}, 2 := {0}, 3 := {}, 4 := {1}], map[0 := {0, 1}, 1 := {2, 3}])
  }

  /** `setup_y`: adding A, B and C, then the op, then connecting A and B
      to C through it, succeeds at every step and leaves the Y graph. */
  lemma YGraphBuilt()
    ensures
      var s1 := AddData(EmptyGraph<nat, nat>(), 0);
      var s2 := AddData(s1.0, 1);
      var s3 := AddData(s2.0, 2);
      var s4 := AddOp(s3.0, 0);
      var s5 := Connect(s4.0, [0, 1], [2], 0);
      && s1.1.Ok? && s2.1.Ok? && s3.1.Ok? && s4.1.Ok? && s5.1.Ok?
      && s5.0 == YGraph()
  {
    YAdds();
    YConnect();
  }

  /** The three data nodes and the op of `setup_y`, with no edges. */
  function YUnconnected(): GraphState<nat, nat>
  {
    var noOps: map<nat, set<nat>> := map[0 := {}, 1 := {}, 2 := {}];
    GraphState({0, 1, 2}, {0}, noOps, map[0 := {}], noOps, map[0 := {}])
  }

  lemma YAdds()
    ensures
      var s1 := AddData(EmptyGraph<nat, nat>(), 0);
      var s2 := AddData(s1.0, 1);
      var s3 := AddData(s2.0, 2);
      var s4 := AddOp(s3.0, 0);
      && s1.1.Ok? && s2.1.Ok? && s3.1.Ok? && s4.1.Ok?
      && s4.0 == YUnconnected()
  {
  }

  lemma YConnect()
    ensures Connect(YUnconnected(), [0, 1], [2], 0) == (YGraph(), Ok(0))
  {
    ElemsPair(0, 1);
    ElemsOne(2);
    YConsumers();
    YProducers();
    var g := YUnconnected();
    assert ConnectIdsValid(g, [0, 1], [2], 0);
    assert Lookup(g.backwardOpDt, 0) + {0, 1} == {0, 1};
    assert Lookup(g.forwardOpDt, 0) + {2} == {2};
    assert g.backwardOpDt[0 := Lookup(g.backwardOpDt, 0) + {0, 1}] == YGraph().backwardOpDt;
    assert g.forwardOpDt[0 := Lookup(g.forwardOpDt, 0) + {2}] == YGraph().forwardOpDt;
  }

  lemma YConsumers()
    ensures Extend(YUnconnected().forwardDtOp, {0, 1}, 0) == YGraph().forwardDtOp
  {
    var e := Extend(YUnconnected().forwardDtOp, {0, 1}, 0);
    assert e.Keys == {0, 1, 2} && e[0] == {0} && e[1] == {0} && e[2] == {};
  }

  lemma YProducers()
    ensures Extend(YUnconnected().backwardDtOp, {2}, 0) == YGraph().backwardDtOp
  {
    var f := Extend(YUnconnected().backwardDtOp, {2}, 0);
    assert f.Keys == {0, 1, 2} && f[0] == {} && f[1] == {} && f[2] == {0};
  }

  lemma ElemsPair(x: nat, y: nat)
    ensures Elems([x, y]) == {x, y}
  {
    assert [x, y][0] == x && [x, y][1] == y;
  }

  lemma ElemsOne(x: nat)
    ensures Elems([x]) == {x}
  {
    assert [x][0] == x;
  }

  /** `setup_yy`: adding A to E, then the two ops, then the two connects,
      succeeds at every step and leaves the double-Y graph. */
  lemma YYGraphBuilt()
    ensures
      var s1 := AddData(EmptyGraph<nat, nat>(), 0);
      var s2 := AddData(s1.0, 1);
      var s3 := AddData(s2.0, 2);
      var s4 := AddData(s3.0, 3);
      var s5 := AddData(s4.0, 4);
      var s6 := AddOp(s5.0, 0);
      var s7 := AddOp(s6.0, 1);
      var s8 := Connect(s7.0, [0, 1], [2], 0);
      var s9 := Connect(s8.0, [2, 3], [4], 1);
      && s1.1.Ok? && s2.1.Ok? && s3.1.Ok? && s4.1.Ok? && s5.1.Ok?
      && s6.1.Ok? && s7.1.Ok? && s8.1.Ok? && s9.1.Ok?
      && s9.0 == YYGraph()
  {
    YYAdds();
    YYFirstConnect();
    YYSecondConnect();
  }

  /** The five data nodes and two ops of `setup_yy`, with no edges. */
  function YYUnconnected(): GraphState<nat, nat>
  {
    var noOps: map<nat, set<nat>> := map[0 := {}, 1 := {}, 2 := {}, 3 := {}, 4 := {}];
    var noData: map<nat, set<nat>> := map[0 := {}, 1 := {}];
    GraphState({0, 1, 2, 3, 4}, {0, 1}, noOps, noData, noOps, noData)
  }

  lemma YYAdds()
    ensures
      var s1 := AddData(EmptyGraph<nat, nat>(), 0);
      var s2 := AddData(s1.0, 1);
      var s3 := AddData(s2.0, 2);
      var s4 := AddData(s3.0, 3);
      var s5 := AddData(s4.0, 4);
      var s6 := AddOp(s5.0, 0);
      var s7 := AddOp(s6.0, 1);
      && s1.1.Ok? && s2.1.Ok? && s3.1.Ok? && s4.1.Ok? && s5.1.Ok?
      && s6.1.Ok? && s7.1.Ok?
      && s7.0 == YYUnconnected()
  {
  }

  /** The double-Y graph before its second `connect`. */
  function YYHalf(): GraphState<nat, nat>
  {
    GraphState({0, 1, 2, 3, 4}, {0, 1},
      map[0 := {0}, 1 := {0}, 2 := {}, 3 := {}, 4 := {}], map[0 := {2}, 1 := {}],
      map[0 := {}, 1 := {}, 2 := {0}, 3 := {}, 4 := {}], map[0 := {0, 1}, 1 := {}])
  }

  lemma YYFirstConnect()
    ensures Connect(YYUnconnected(), [0, 1], [2], 0) == (YYHalf(), Ok(0))
  {
    ElemsPair(0, 1);
    ElemsOne(2);
    YYFirstConsumers();
    YYFirstProducers();
    var g := YYUnconnected();
    assert ConnectIdsValid(g, [0, 1], [2], 0);
    assert Lookup(g.backwardOpDt, 0) + {0, 1} == {0, 1};
    assert Lookup(g.forwardOpDt, 0) + {2} == {2};
    assert g.backwardOpDt[0 := Lookup(g.backwardOpDt, 0) + {0, 1}] == YYHalf().backwardOpDt;
    assert g.forwardOpDt[0 := Lookup(g.forwardOpDt, 0) + {2}] == YYHalf().forwardOpDt;
  }

  lemma YYFirstConsumers()
    ensures Extend(YYUnconnected().forwardDtOp, {0, 1}, 0) == YYHalf().forwardDtOp
  {
    var e := Extend(YYUnconnected().forwardDtOp, {0, 1}, 0);
    assert e.Keys == {0, 1, 2, 3, 4} && e[0] == {0} && e[1] == {0} && e[2] == {} && e[3] == {} && e[4] == {};
  }

  lemma YYFirstProducers()
    ensures Extend(YYUnconnected().backwardDtOp, {2}, 0) == YYHalf().backwardDtOp
  {
    var f := Extend(YYUnconnected().backwardDtOp, {2}, 0);
    assert f.Keys == {0, 1, 2, 3, 4} && f[0] == {} && f[1] == {} && f[2] == {0} && f[3] == {} && f[4] == {};
  }

  lemma YYSecondConnect()
    ensures Connect(YYHalf(), [2, 3], [4], 1) == (YYGraph(), Ok(1))
  {
    ElemsPair(2, 3);
    ElemsOne(4);
    YYSecondConsumers();
    YYSecondProducers();
    var g := YYHalf();
    assert ConnectIdsValid(g, [2, 3], [4], 1);
    assert Lookup(g.backwardOpDt, 1) + {2, 3} == {2, 3};
    assert Lookup(g.forwardOpDt, 1) + {4} == {4};
    assert g.backwardOpDt[1 := Lookup(g.backwardOpDt, 1) + {2, 3}] == YYGraph().backwardOpDt;
    assert g.forwardOpDt[1 := Lookup(g.forwardOpDt, 1) + {4}] == YYGraph().forwardOpDt;
  }

  lemma YYSecondConsumers()
    ensures Extend(YYHalf().forwardDtOp, {2, 3}, 1) == YYGraph().forwardDtOp
  {
    var e := Extend(YYHalf().forwardDtOp, {2, 3}, 1);
    assert e.Keys == {0, 1, 2, 3, 4} && e[0] == {0} && e[1] == {0} && e[2] == {1} && e[3] == {1} && e[4] == {};
  }

  lemma YYSecondProducers()
    ensures Extend(YYHalf().backwardDtOp, {4}, 1) == YYGraph().backwardDtOp
  {
    var f := Extend(YYHalf().backwardDtOp, {4}, 1);
    assert f.Keys == {0, 1, 2, 3, 4} && f[0] == {} && f[1] == {} && f[2] == {0} && f[3] == {} && f[4] == {1};
  }

  lemma YGraphValid()
    ensures Valid(YGraph())
  {
  }

  lemma YYGraphValid()
    ensures Valid(YYGraph())
  {
    YYKeysMatch();
    YYInputsSymmetric();
    YYOutputsSymmetric();
  }

  lemma YYKeysMatch()
    ensures KeysMatch(YYGraph())
  {
  }

  lemma YYInputsSymmetric()
    ensures InputsSymmetric(YYGraph())
  {
  }

  lemma YYOutputsSymmetric()
    ensures OutputsSymmetric(YYGraph())
  {
  }

  /** The Y graph has the two sources A and B and the single sink C. */
  lemma YGraphCaches()
    ensures InputCache(YGraph()) == {0, 1} && |InputCache(YGraph())| == 2
    ensures OutputCache(YGraph()) == {2} && |OutputCache(YGraph())| == 1
  {
  }

  /** The double-Y graph has the three sources A, B and D and the single
      sink E. */
  lemma YYGraphCaches()
    ensures InputCache(YYGraph()) == {0, 1, 3} && |InputCache(YYGraph())| == 3
    ensures OutputCache(YYGraph()) == {4} && |OutputCache(YYGraph())| == 1
  {
  }

  /** One firing of a walk over the double-Y graph: allowed with `jobs`
      holding values, and moving the walk from `s` to `s'`. */
  ghost predicate YYStep(forward: bool, s: WalkState<nat, nat>, f: Firing<nat, nat>, s': WalkState<nat, nat>)
  {
    var v := ViewOf(YYGraph(), forward);
    FiringAllowed(v, s.jobs, f) && Fire(v, s, f.op) == s'
  }

  lemma YYForwardFirst()
    ensures YYStep(true, WalkState({0, 1, 3}, {}), Firing({0, 1}, {2}, 0), WalkState({2, 3}, {0}))
  {
    var v := ViewOf(YYGraph(), true);
    CandidateOf(v, {0, 1, 3}, 0, 0);
    assert Retired(v, {0}, 0) == {0, 1};
    assert Produced(v, 0) == {2};
  }

  lemma YYForwardSecond()
    ensures YYStep(true, WalkState({2, 3}, {0}), Firing({2, 3}, {4}, 1), WalkState({}, {0, 1}))
  {
    var v := ViewOf(YYGraph(), true);
    CandidateOf(v, {2, 3}, 2, 1);
    assert Retired(v, {0, 1}, 1) == {2, 3};
    assert Produced(v, 1) == {};
  }

  lemma YYBackwardFirst()
    ensures YYStep(false, WalkState({4}, {}), Firing({4}, {2, 3}, 1), WalkState({2}, {1}))
  {
    var v := ViewOf(YYGraph(), false);
    CandidateOf(v, {4}, 4, 1);
    assert Retired(v, {1}, 1) == {4};
    assert Produced(v, 1) == {2};
  }

  lemma YYBackwardSecond()
    ensures YYStep(false, WalkState({2}, {1}), Firing({2}, {0, 1}, 0), WalkState({}, {0, 1}))
  {
    var v := ViewOf(YYGraph(), false);
    CandidateOf(v, {2}, 2, 0);
    assert Retired(v, {0, 1}, 0) == {2};
    assert Produced(v, 0) == {};
  }

  /** Two allowed firings from `start` make an admissible trace ending where
      the second one leaves the walk. */
  lemma TwoSteps(forward: bool, start: set<nat>, f1: Firing<nat, nat>, s1: WalkState<nat, nat>,
                 f2: Firing<nat, nat>, s2: WalkState<nat, nat>)
    requires YYStep(forward, WalkState(start, {}), f1, s1) && YYStep(forward, s1, f2, s2)
    ensures Admissible(ViewOf(YYGraph(), forward), start, [f1, f2])
    ensures Replay(ViewOf(YYGraph(), forward), start, [f1, f2]) == s2
  {
    var v := ViewOf(YYGraph(), forward);
    ReplayAppend(v, start, [], f1);
    assert [] + [f1] == [f1];
    ReplayAppend(v, start, [f1], f2);
    assert [f1] + [f2] == [f1, f2];
  }

  /** Forward from the three sources: op 0 fires, then op 1, and the walk
      stops with nothing left in `jobs`, so it returns `Ok`. */
  lemma YYForwardWalk()
    ensures var v, start := ViewOf(YYGraph(), true), {0, 1, 3};
      var fired := [Firing({0, 1}, {2}, 0), Firing({2, 3}, {4}, 1)];
      && Admissible(v, start, fired)
      && Replay(v, start, fired) == WalkState({}, {0, 1})
      && Quiescent(v, Replay(v, start, fired).jobs)
      && Finish(Replay(v, start, fired).jobs) == Ok(())
  {
    YYForwardFirst();
    YYForwardSecond();
    TwoSteps(true, {0, 1, 3}, Firing({0, 1}, {2}, 0), WalkState({2, 3}, {0}),
      Firing({2, 3}, {4}, 1), WalkState({}, {0, 1}));
  }

  /** Backward from the sink E, the way back-propagation walks: op 1 fires
      first, then op 0, and the walk returns `Ok`. */
  lemma YYBackwardWalk()
    ensures var v, start := ViewOf(YYGraph(), false), {4};
      var fired := [Firing({4}, {2, 3}, 1), Firing({2}, {0, 1}, 0)];
      && Admissible(v, start, fired)
      && Replay(v, start, fired) == WalkState({}, {0, 1})
      && Quiescent(v, Replay(v, start, fired).jobs)
      && Finish(Replay(v, start, fired).jobs) == Ok(())
  {
    YYBackwardFirst();
    YYBackwardSecond();
    TwoSteps(false, {4}, Firing({4}, {2, 3}, 1), WalkState({2}, {1}),
      Firing({2}, {0, 1}, 0), WalkState({}, {0, 1}));
  }

  /** Data 0 feeds ops 0 and 1; op 1 also needs data 1, which no op
      produces. Neither op has outputs. */
  function RefireGraph(): GraphState<nat, nat>
  {
    GraphState({0, 1}, {0, 1},
      map[0 := {0, 1}, 1 := {1}], map[0 := {}, 1 := {}],
      map[0 := {}, 1 := {}], map[0 := {0}, 1 := {0, 1}])
  }

  /** With data 0 holding a value and at most op 0 done, the only allowed
      firing is op 0's, and it leaves data 0 holding a value. */
  lemma RefireStep(done: set<nat>, f: Firing<nat, nat>)
    requires done <= {0} && FiringAllowed(ViewOf(RefireGraph(), true), {0}, f)
    ensures f.op == 0
    ensures Fire(ViewOf(RefireGraph(), true), WalkState({0}, done), f.op) == WalkState({0}, {0})
  {
    var v := ViewOf(RefireGraph(), true);
    assert Candidates(v, {0}) == {0, 1} by {
      CandidateOf(v, {0}, 0, 0);
      CandidateOf(v, {0}, 0, 1);
    }
    assert !Fireable(v, {0}, 1) by {
      assert 1 in v.bod[1];
    }
    assert 1 !in done + {0};
    assert Retired(v, done + {0}, 0) == {};
    assert Produced(v, 0) == {};
  }

  /** Started from data 0 alone, op 0 is the only op that can ever fire and
      it stays fireable after every firing, because data 0 keeps a consumer
      (op 1) that is not done: the walk never reaches a quiescent state, so
      it never returns. */
  lemma {:induction false} RefireNeverQuiescent(fired: seq<Firing<nat, nat>>)
    requires Admissible(ViewOf(RefireGraph(), true), {0}, fired)
    ensures Replay(ViewOf(RefireGraph(), true), {0}, fired).jobs == {0}
    ensures Replay(ViewOf(RefireGraph(), true), {0}, fired).done <= {0}
    ensures !Quiescent(ViewOf(RefireGraph(), true), Replay(ViewOf(RefireGraph(), true), {0}, fired).jobs)
    decreases |fired|
  {
    var v := ViewOf(RefireGraph(), true);
    CandidateOf(v, {0}, 0, 0);
    assert Fireable(v, {0}, 0);
    if |fired| > 0 {
      var n := |fired| - 1;
      forall k | 0 <= k < n
        ensures FiringAllowed(v, Replay(v, {0}, fired[..n][..k]).jobs, fired[..n][k])
      {
        assert fired[..n][..k] == fired[..k];
      }
      RefireNeverQuiescent(fired[..n]);
      RefireStep(Replay(v, {0}, fired[..n]).done, fired[n]);
    }
  }

  /** A net holding one variable that was never connected. */
  function LoneVariable(): GraphState<nat, nat>
  {
    AddData(EmptyGraph(), 0).0
  }

  /** `bptt_scale` on that net seeds the variable, a sink that no op
      produces. The backward walk stops at once, and whatever it fires the
      variable stays in `jobs`, so the walk returns `Err` and `bptt`
      panics. Seeding only the live start nodes seeds nothing, and that
      walk returns `Ok`. */
  lemma LoneVariableBackward(fired: seq<Firing<nat, nat>>)
    ensures OutputCache(LoneVariable()) == {0}
    ensures Quiescent(ViewOf(LoneVariable(), false), {0}) && Finish({0}) == Err({0})
    ensures Finish(Replay(ViewOf(LoneVariable(), false), OutputCache(LoneVariable()), fired).jobs).Err?
    ensures LiveStart(ViewOf(LoneVariable(), false), {0}) == {}
    ensures Finish(Replay(ViewOf(LoneVariable(), false), {}, []).jobs) == Ok(())
  {
    var g := LoneVariable();
    assert OutputCache(g) == {0};
    ViewOfValid(g, false);
    FinalSeedStays(ViewOf(g, false), g.data, g.op, {0}, fired, 0);
  }
}
