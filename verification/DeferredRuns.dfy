/**
  Which commits run the deferred pieces of a transaction: the commit of a component executes the
  pieces of a member only if its finish request has come, and the barrier does not always wait for it.
 */
module DeferredRuns {
  import opened Common
  import opened Reachability
  import opened DepGraph
  import opened CommitBarrier
  import SortedScc
  import Ancestors

  /** Only a finish request finishes a transaction with pieces here, and it comes before the barrier. */
  ghost predicate InvolvedOk(x: Site) {
    && (forall v :: v in x.involved ==> (x.Of(v).finish <==> v in x.res))
    && x.told !! x.involved
    && (forall v :: v in x.during && v in x.involved ==> v in x.res)
  }

  /** Every transaction with pieces here that was committed here has run them. */
  ghost predicate DeferredRun(x: Site) {
    forall u :: u in x.order && u in x.involved ==> u in x.ran
  }

  /** A commit of a component finds its open members with pieces here finished. */
  ghost predicate MembersFinished(x: Site, s: Step) {
    s.FireCom? && !x.Of(s.v).commit ==>
      forall u :: u in s.scc && u in x.involved && !x.Of(u).commit ==> x.Of(u).finish
  }

  lemma StepInvolved(x: Site, s: Step)
    requires InvolvedOk(x) && Enabled(x, s)
    ensures InvolvedOk(Next(x, s)) && Next(x, s).involved == x.involved
  {
    hide IsSortedScc, OpenAncestors, Ancestors.NearestAncestors, Fresh, InRes, Committing;
    if s.FireCom? && !x.Of(s.v).commit {
      forall v: Vid ensures Next(x, s).Of(v).finish == x.Of(v).finish {
        CommittingOf(x, s.scc, v);
      }
    }
  }

  lemma StepRunsIff(x: Site, s: Step)
    requires Inv(x) && InvolvedOk(x) && Enabled(x, s)
    ensures DeferredRun(Next(x, s)) <==> DeferredRun(x) && MembersFinished(x, s)
  {
    hide Inv, IsSortedScc, OpenAncestors, Ancestors.NearestAncestors, Fresh, InRes, Committing;
    if s.FireCom? && !x.Of(s.v).commit {
      CommitRunsIff(x, s.v, s.scc);
    }
  }

  lemma CommitRunsIff(x: Site, v: Vid, scc: seq<Vid>)
    requires Inv(x) && InvolvedOk(x) && Enabled(x, FireCom(v, scc)) && !x.Of(v).commit
    ensures DeferredRun(Next(x, FireCom(v, scc))) <==> DeferredRun(x) && MembersFinished(x, FireCom(v, scc))
  {
    hide WaitsOk, StagesOk, SortedScc.Component, SortedScc.Immediate, SortedScc.Before, Fresh, InRes, Committing;
    var x', f := Next(x, FireCom(v, scc)), Fresh(x, scc);
    FreshIn(x, scc);
    InResIn(x.res, f);
    assert forall u :: u in x'.ran <==> u in x.ran || (u in f && u in x.res);
    assert forall u :: u in x'.order <==> u in x.order || u in f;
    assert forall u :: u in f ==> u !in x.order && u !in x.ran;
  }

  ghost predicate AllFinished(x: Site, ss: seq<Step>)
    decreases |ss|
  {
    ss == [] || (Enabled(x, ss[0]) && MembersFinished(x, ss[0]) && AllFinished(Next(x, ss[0]), ss[1..]))
  }

  lemma {:induction false} RunDefersIff(x: Site, ss: seq<Step>, x': Site)
    requires Inv(x) && InvolvedOk(x) && Run(x, ss, x')
    ensures DeferredRun(x') <==> DeferredRun(x) && AllFinished(x, ss)
    decreases |ss|
  {
    hide Inv, InvolvedOk, Enabled, Next, DeferredRun, MembersFinished;
    if ss != [] {
      StepKeepsInv(x, ss[0]);
      StepInvolved(x, ss[0]);
      StepRunsIff(x, ss[0]);
      RunDefersIff(Next(x, ss[0]), ss[1..], x');
    }
  }

  /**
    Over any run: every transaction with pieces here that was committed here has run them, if and only if at
    each commit of a component all its open members with pieces here had finished.
   */
  lemma DeferredRunsIff(x0: Site, ss: seq<Step>, x: Site)
    requires Initial(x0) && InvolvedOk(x0) && Run(x0, ss, x)
    ensures DeferredRun(x) <==> AllFinished(x0, ss)
  {
    hide Run, Inv, AllFinished, InvolvedOk;
    InitialInv(x0);
    RunDefersIff(x0, ss, x);
  }

  // ---- what the barrier waits for ----

  /** The transaction itself and those its first barrier waits for have finished. */
  lemma WaitedFinished(x: Site, v: Vid, scc: seq<Vid>, u: Vid)
    requires Inv(x) && InvolvedOk(x) && Enabled(x, FireCom(v, scc))
    requires u in x.involved && !x.Of(u).commit && v in x.fin && (u == v || u in x.fin[v].need)
    ensures x.Of(u).finish
  {
    hide CommitsOk, IsSortedScc;
    OneWait(x, Fin, v);
    FiredMeansDone(x, Fin, v);
  }

  /** At step `i` of the run, in state `y`, the barrier of `v` was set up. */
  ghost predicate Begun(x0: Site, ss: seq<Step>, v: Vid, i: nat, y: Site) {
    i < |ss| && ss[i] == Begin(v) && Run(x0, ss[..i], y) && v in y.g.Vertices()
  }

  lemma FinStays(x: Site, s: Step, v: Vid)
    requires Inv(x) && Enabled(x, s) && v in Next(x, s).fin
    ensures if v in x.fin then Next(x, s).fin[v].need == x.fin[v].need
            else s == Begin(v) && v in x.g.Vertices() &&
                 Next(x, s).fin[v].need == OpenAncestors(x.g, x.Committed(), v)
  {
    hide WaitsOk, CommitsOk, IsSortedScc, OpenAncestors, Ancestors.NearestAncestors, Fresh, InRes, Committing;
  }

  lemma StaysFin(x: Site, s: Step, v: Vid)
    requires Enabled(x, s) && v in x.fin
    ensures v in Next(x, s).fin
  {
    hide IsSortedScc, OpenAncestors, Ancestors.NearestAncestors, Fresh, InRes, Committing;
  }

  lemma {:induction false} FinOrigin(x: Site, ss: seq<Step>, x': Site, v: Vid) returns (i: nat, y: Site)
    requires Inv(x) && Run(x, ss, x') && v in x'.fin
    ensures if v in x.fin then x'.fin[v].need == x.fin[v].need
            else Begun(x, ss, v, i, y) && x'.fin[v].need == OpenAncestors(y.g, y.Committed(), v)
    decreases |ss|
  {
    hide Inv, Enabled, Next, OpenAncestors;
    i, y := 0, x;
    if ss != [] {
      var x1 := Next(x, ss[0]);
      StepKeepsInv(x, ss[0]);
      i, y := FinOrigin(x1, ss[1..], x', v);
      if v in x1.fin {
        FinStays(x, ss[0], v);
        i, y := 0, x;
        assert ss[..0] == [];
      } else {
        if v in x.fin { StaysFin(x, ss[0], v); }
        assert ss[..i + 1] == [ss[0]] + ss[1..][..i];
        assert ss[..i + 1][1..] == ss[1..][..i];
        i := i + 1;
      }
    }
  }

  /** The members of a component with nothing committed in it are open ancestors of each other. */
  lemma OpenMember(g: Graph, committed: set<Vid>, v: Vid, u: Vid)
    requires u in SortedScc.Component(g, v) && forall a :: a in SortedScc.Component(g, v) ==> a !in committed
    requires g.Valid() && v in g.Vertices()
    ensures u == v || u in OpenAncestors(g, committed, v)
  {
    hide Graph.EdgeSet;
    var es, open := g.EdgeSet(), Ancestors.OpenEdges(g, committed);
    var p :| IsPath(es, p, u, v);
    forall i | 0 <= i < |p| - 1 ensures (p[i], p[i + 1]) in open {
      OnTheWay(g, v, u, p, i);
      g.InEdgeSet(p[i], p[i + 1]);
      Ancestors.OpenEdge(g, committed, p[i], p[i + 1]);
    }
    assert IsPath(open, p, u, v);
  }

  lemma OnTheWay(g: Graph, v: Vid, u: Vid, p: seq<Vid>, i: nat)
    requires u in SortedScc.Component(g, v) && IsPath(g.EdgeSet(), p, u, v) && i < |p| && g.Valid() && v in g.Vertices()
    ensures p[i] in SortedScc.Component(g, v)
  {
    hide Graph.EdgeSet, Reach;
    var es := g.EdgeSet();
    PathPrefix(es, p, u, v, i);
    PathSuffix(es, p, u, v, i);
    ReachTrans(es, v, u, p[i]);
    SortedScc.InComponent(g, v, p[i]);
  }

  /** Since `y` the component of `v` has got no new member, and none was committed then. */
  ghost predicate Whole(y: Site, x: Site, v: Vid) {
    forall u :: u in SortedScc.Component(x.g, v) ==> u in SortedScc.Component(y.g, v)
  }

  ghost predicate NoneCommitted(y: Site, v: Vid) {
    forall u :: u in SortedScc.Component(y.g, v) ==> !y.Of(u).commit
  }

  /**
    The members have finished if the component has not grown since the barrier was set up and none of
    its members was committed then.
   */
  lemma BarrierCoversComponent(x0: Site, ss: seq<Step>, x: Site, v: Vid, scc: seq<Vid>)
    requires Initial(x0) && InvolvedOk(x0) && Run(x0, ss, x) && Enabled(x, FireCom(v, scc))
    ensures exists i, y :: Begun(x0, ss, v, i, y) &&
                           (Whole(y, x, v) && NoneCommitted(y, v) ==> MembersFinished(x, FireCom(v, scc)))
  {
    hide Run, Inv, InvolvedOk, OpenAncestors, SortedScc.Component, Begun;
    InitialInv(x0);
    RunKeepsInv(x0, ss, x);
    RunInvolved(x0, ss, x);
    ComHasFin(x, v);
    var i, y := FinOrigin(x0, ss, x, v);
    assert Begun(x0, ss, v, i, y);
    if Whole(y, x, v) && NoneCommitted(y, v) && !x.Of(v).commit {
      forall u | u in scc && u in x.involved && !x.Of(u).commit ensures x.Of(u).finish {
        BegunVertex(x0, ss, v, i, y);
        OpenMember(y.g, y.Committed(), v, u);
        WaitedFinished(x, v, scc, u);
      }
    }
  }

  lemma BegunVertex(x0: Site, ss: seq<Step>, v: Vid, i: nat, y: Site)
    requires x0.g.Valid() && Begun(x0, ss, v, i, y)
    ensures v in y.g.Vertices() && y.g.Valid()
  {
    RunGraphValid(x0, ss[..i], y);
  }

  lemma {:induction false} RunGraphValid(x: Site, ss: seq<Step>, x': Site)
    requires x.g.Valid() && Run(x, ss, x')
    ensures x'.g.Valid()
    decreases |ss|
  {
    hide Graph.Valid, IsSortedScc, OpenAncestors, Ancestors.NearestAncestors, Fresh, InRes, Committing;
    if ss != [] {
      RunGraphValid(Next(x, ss[0]), ss[1..], x');
    }
  }

  lemma ComHasFin(x: Site, v: Vid)
    requires Inv(x) && v in x.com
    ensures v in x.fin
  {
  }

  lemma {:induction false} RunInvolved(x: Site, ss: seq<Step>, x': Site)
    requires InvolvedOk(x) && Run(x, ss, x')
    ensures InvolvedOk(x') && x'.involved == x.involved
    decreases |ss|
  {
    hide InvolvedOk, Enabled, Next;
    if ss != [] {
      StepInvolved(x, ss[0]);
      RunInvolved(Next(x, ss[0]), ss[1..], x');
    }
  }

  // ---- the failing runs ----

  /** The component of `v` commits though the barrier of `v` waits for nobody. */
  function Alone(v: Vid, g: Graph, scc: seq<Vid>): seq<Step> {
    [Finish(v), Begin(v), Grow(g), Own(Fin, v), FireFin(v), Own(Com, v), FireCom(v, scc)]
  }

  /** The barrier is set up, the graph grows, and the barrier opens. */
  lemma FirstBarrier(x: Site, v: Vid, g: Graph) returns (x': Site)
    requires v in x.g.Vertices() && v !in x.during && Extends(x.g, g) && OpenAncestors(x.g, x.Committed(), v) == {}
    ensures Run(x, [Finish(v), Begin(v), Grow(g), Own(Fin, v)], x') && v in x'.fin
    ensures x' == x.(g := g, status := x.status[v := x.Of(v).(finish := true)], res := x.res + {v},
                     during := x.during + {v}, fin := x.fin[v := Wait({}, {}, {}, false, 0, false)])
  {
    hide Run, OpenAncestors, Extends;
    var x1 := Next(x, Finish(v));
    assert x1.Committed() == x.Committed();
    var x2 := Next(x1, Begin(v));
    var x3 := Next(x2, Grow(g));
    x' := Next(x3, Own(Fin, v));
    RunNil(x');
    RunCons(x3, Own(Fin, v), [], x');
    RunCons(x2, Grow(g), [Own(Fin, v)] + [], x');
    RunCons(x1, Begin(v), [Grow(g)] + ([Own(Fin, v)] + []), x');
    RunCons(x, Finish(v), [Begin(v)] + ([Grow(g)] + ([Own(Fin, v)] + [])), x');
    assert [Finish(v)] + ([Begin(v)] + ([Grow(g)] + ([Own(Fin, v)] + []))) ==
           [Finish(v), Begin(v), Grow(g), Own(Fin, v)];
  }

  lemma SecondBarrier(x: Site, v: Vid, scc: seq<Vid>) returns (x': Site)
    requires v in x.fin && x.fin[v].count == 0 && !x.fin[v].fired && Ancestors.NearestAncestors(x.g, v) == {}
    requires !x.Of(v).commit && IsSortedScc(x.g, v, scc)
    ensures Run(x, [FireFin(v), Own(Com, v), FireCom(v, scc)], x') && x'.involved == x.involved
    ensures forall u: Vid :: u in x'.order <==> u in x.order || (u in scc && !x.Of(u).commit)
    ensures forall u: Vid :: u in x'.ran <==> u in x.ran || (u in scc && !x.Of(u).commit && u in x.res)
  {
    hide Run, IsSortedScc, Ancestors.NearestAncestors, Fresh, InRes, Committing;
    var x1 := Next(x, FireFin(v));
    var x2 := Next(x1, Own(Com, v));
    x' := Next(x2, FireCom(v, scc));
    CommitsOpen(x2, v, scc);
    RunNil(x');
    RunCons(x2, FireCom(v, scc), [], x');
    RunCons(x1, Own(Com, v), [FireCom(v, scc)] + [], x');
    RunCons(x, FireFin(v), [Own(Com, v)] + ([FireCom(v, scc)] + []), x');
    assert [FireFin(v)] + ([Own(Com, v)] + ([FireCom(v, scc)] + [])) == [FireFin(v), Own(Com, v), FireCom(v, scc)];
  }

  lemma CommitAlone(x: Site, v: Vid, g: Graph, scc: seq<Vid>) returns (x': Site)
    requires v in x.g.Vertices() && v !in x.during && !x.Of(v).commit && Extends(x.g, g) && IsSortedScc(g, v, scc)
    requires OpenAncestors(x.g, x.Committed(), v) == {} && Ancestors.NearestAncestors(g, v) == {}
    ensures Run(x, Alone(v, g, scc), x') && x'.involved == x.involved
    ensures forall u: Vid :: u in x'.order <==> u in x.order || (u in scc && !x.Of(u).commit)
    ensures forall u: Vid :: u in x'.ran <==> u in x.ran || (u in scc && !x.Of(u).commit && (u == v || u in x.res))
  {
    hide Run, IsSortedScc, OpenAncestors, Ancestors.NearestAncestors, Extends;
    var y := FirstBarrier(x, v, g);
    x' := SecondBarrier(y, v, scc);
    var a, b := [Finish(v), Begin(v), Grow(g), Own(Fin, v)], [FireFin(v), Own(Com, v), FireCom(v, scc)];
    RunConcat(x, a, y, b, x');
    assert a + b == Alone(v, g, scc);
  }

  lemma {:induction false} RunConcat(x: Site, a: seq<Step>, y: Site, b: seq<Step>, z: Site)
    requires Run(x, a, y) && Run(y, b, z)
    ensures Run(x, a + b, z)
    decreases |a|
  {
    hide Enabled, Next;
    if a == [] {
      assert a + b == b;
    } else {
      RunConcat(Next(x, a[0]), a[1..], y, b, z);
      assert (a + b)[1..] == a[1..] + b;
    }
  }

  lemma CommitsOpen(x: Site, v: Vid, scc: seq<Vid>)
    requires Enabled(x, FireCom(v, scc)) && !x.Of(v).commit
    ensures var x' := Next(x, FireCom(v, scc));
            && (forall u: Vid :: u in x'.order <==> u in x.order || (u in scc && !x.Of(u).commit))
            && (forall u: Vid :: u in x'.ran <==> u in x.ran || (u in scc && !x.Of(u).commit && u in x.res))
  {
    hide Fresh, InRes, Committing, SortedScc.Component, SortedScc.Immediate, SortedScc.Before;
    FreshIn(x, scc);
    InResIn(x.res, Fresh(x, scc));
  }

  lemma RunNil(x: Site)
    ensures Run(x, [], x)
  {
  }

  lemma RunCons(x: Site, s: Step, ss: seq<Step>, x': Site)
    requires Enabled(x, s) && Run(Next(x, s), ss, x')
    ensures Run(x, [s] + ss, x')
  {
    hide Enabled, Next;
    assert ([s] + ss)[1..] == ss;
  }

  /** 1, 2 and 3 depend on each other in a circle. */
  const CIRCLE := Graph(
    map[1 := map[2 := 1], 2 := map[3 := 1], 3 := map[1 := 1]],
    map[1 := map[3 := 1], 2 := map[1 := 1], 3 := map[2 := 1]])

  /** 2 has no pieces here and its commit was learned. */
  const LEARNED_2 := Site(
    CIRCLE, {1, 3}, map[2 := Status(false, false, true)], {}, map[], map[], {}, [], [], {2})

  lemma CircleEdges(a: Vid, b: Vid)
    ensures (a, b) in CIRCLE.EdgeSet() <==> (a, b) in {(1, 2), (2, 3), (3, 1)}
  {
    CIRCLE.InEdgeSet(a, b);
  }

  lemma CircleIsComponent()
    ensures SortedScc.Component(CIRCLE, 3) == {1, 2, 3} && Ancestors.NearestAncestors(CIRCLE, 3) == {}
  {
    hide Reach, Graph.EdgeSet;
    var es := CIRCLE.EdgeSet();
    CircleEdges(1, 2);
    CircleEdges(2, 3);
    CircleEdges(3, 1);
    ReachRefl(es, 3);
    ReachEdge(es, 1, 2);
    ReachEdge(es, 2, 3);
    ReachEdge(es, 3, 1);
    ReachTrans(es, 1, 2, 3);
    ReachTrans(es, 3, 1, 2);
  }

  lemma CircleTo(a: Vid, b: Vid)
    ensures CIRCLE.HasTo(a, b) <==> (a, b) in {(1, 2), (2, 3), (3, 1)}
    ensures CIRCLE.HasTo(a, b) ==> CIRCLE.to[a][b] == 1
  {
  }

  lemma CircleFrom(a: Vid, b: Vid)
    ensures CIRCLE.HasFrom(a, b) <==> (a, b) in {(1, 2), (2, 3), (3, 1)}
    ensures CIRCLE.HasFrom(a, b) ==> CIRCLE.from[b][a] == 1
  {
  }

  lemma CircleMirrors(a: Vid, b: Vid)
    ensures CIRCLE.HasTo(a, b) <==> CIRCLE.HasFrom(a, b)
    ensures CIRCLE.HasTo(a, b) ==> b in CIRCLE.to && CIRCLE.to[a][b] == CIRCLE.from[b][a]
  {
    CircleTo(a, b);
    CircleFrom(a, b);
  }

  lemma CircleValid()
    ensures CIRCLE.Valid()
  {
    var g := CIRCLE;
    forall a, b
      ensures g.HasTo(a, b) <==> g.HasFrom(a, b)
      ensures g.HasTo(a, b) ==> b in g.to && g.to[a][b] == g.from[b][a]
    {
      CircleMirrors(a, b);
    }
    assert g.Valid();
  }

  lemma NothingImmediate(a: Vid, b: Vid)
    ensures !SortedScc.Immediate(CIRCLE, a, b)
  {
  }

  lemma CircleSorted()
    ensures IsSortedScc(CIRCLE, 3, [1, 2, 3]) && Ancestors.NearestAncestors(CIRCLE, 3) == {}
  {
    hide Ancestors.NearestAncestors, SortedScc.Component, SortedScc.Before, SortedScc.Immediate;
    CircleIsComponent();
    forall a, b ensures !SortedScc.Immediate(CIRCLE, a, b) {
      NothingImmediate(a, b);
    }
    ThreeMembers(SortedScc.Component(CIRCLE, 3));
  }

  lemma ThreeMembers(c: set<Vid>)
    requires c == {1, 2, 3}
    ensures Distinct([1, 2, 3]) && forall a :: a in [1, 2, 3] <==> a in c
  {
  }

  /** The search for open ancestors of 3 stops at 2. */
  lemma StopsAtLearned()
    ensures OpenAncestors(CIRCLE, {2}, 3) == {}
  {
    hide Graph.EdgeSet;
    var open := Ancestors.OpenEdges(CIRCLE, {2});
    forall a: Vid | a != 3 && Reach(open, a, 3) ensures false {
      var p :| IsPath(open, p, a, 3);
      var i := |p| - 2;
      assert (p[i], p[i + 1]) in open;
      CircleEdges(p[i], p[i + 1]);
    }
  }

  /**
    A member learned to be committed hides what lies behind it: 1 is committed before its finish request, and its
    pieces never run.
   */
  lemma LearnedMemberFails() returns (x': Site)
    ensures Initial(LEARNED_2) && InvolvedOk(LEARNED_2) && Run(LEARNED_2, Alone(3, CIRCLE, [1, 2, 3]), x')
    ensures 1 in x'.order && 1 in x'.involved && 1 !in x'.ran
  {
    hide OpenAncestors, Ancestors.NearestAncestors, IsSortedScc, Run, Alone;
    assert LEARNED_2.Committed() == {2};
    StopsAtLearned();
    CircleValid();
    CircleSorted();
    x' := CommitAlone(LEARNED_2, 3, CIRCLE, [1, 2, 3]);
  }

  const ONE := Graph(map[1 := map[]], map[1 := map[]])
  const TWO := Graph(map[1 := map[2 := 1], 2 := map[1 := 1]], map[1 := map[2 := 1], 2 := map[1 := 1]])
  const ONLY_1 := Site(ONE, {1, 2}, map[], {}, map[], map[], {}, [], [], {})

  lemma TwoIsComponent()
    ensures SortedScc.Component(TWO, 1) == {1, 2} && Ancestors.NearestAncestors(TWO, 1) == {}
  {
    hide Reach, Graph.EdgeSet;
    var es := TWO.EdgeSet();
    TWO.InEdgeSet(1, 2);
    TWO.InEdgeSet(2, 1);
    ReachRefl(es, 1);
    ReachEdge(es, 1, 2);
    ReachEdge(es, 2, 1);
  }

  lemma TwoSorted()
    ensures TWO.Valid() && IsSortedScc(TWO, 1, [1, 2]) && Ancestors.NearestAncestors(TWO, 1) == {}
  {
    hide Ancestors.NearestAncestors, SortedScc.Component;
    TwoIsComponent();
  }

  lemma NoAncestors()
    ensures OpenAncestors(ONE, {}, 1) == {}
  {
  }

  /** A member that joins after the barrier was set up is not waited for. */
  lemma LateMemberFails() returns (x': Site)
    ensures Initial(ONLY_1) && InvolvedOk(ONLY_1) && Run(ONLY_1, Alone(1, TWO, [1, 2]), x')
    ensures 2 in x'.order && 2 in x'.involved && 2 !in x'.ran
  {
    hide OpenAncestors, Ancestors.NearestAncestors, IsSortedScc, Run, Alone;
    TwoSorted();
    assert ONLY_1.Committed() == {};
    NoAncestors();
    x' := CommitAlone(ONLY_1, 1, TWO, [1, 2]);
  }
}
