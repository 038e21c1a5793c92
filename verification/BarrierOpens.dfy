/**
  No trigger of the commit barrier is lost: what is learned is kept bit by bit, and a ball all of whose
  vertices have the awaited status can always be brought to fire.
 */
module BarrierOpens {
  import opened Reachability
  import opened DepGraph
  import opened CommitBarrier
  import SortedScc
  import Ancestors
  import DeferredRuns

  /** A status learned from another server is added bit by bit, unless the transaction has pieces here. */
  lemma LearnAdds(x: Site, v: Vid, st: Status)
    ensures Enabled(x, Learn(v, st))
    ensures var s, s' := x.Of(v), Next(x, Learn(v, st)).Of(v);
            if v in x.involved then s' == s
            else
              && (s'.start <==> s.start || st.start) && (s'.finish <==> s.finish || st.finish)
              && (s'.commit <==> s.commit || st.commit)
    ensures forall u: Vid :: u != v ==> Next(x, Learn(v, st)).Of(u) == x.Of(u)
  {
  }

  /** Everything the ball waits for has the awaited status. */
  ghost predicate AllThere(x: Site, w: Which, v: Vid) {
    v in WaitsOf(x, w) && forall a :: a in WaitsOf(x, w)[v].need ==> Needed(w) <= x.Of(a).Level()
  }

  /** A step of the ball that is enabled. */
  lemma BallCanMove(x: Site, w: Which, v: Vid) returns (s: Step)
    requires Inv(x) && AllThere(x, w, v) && WaitsOf(x, w)[v].count > 0
    ensures Enabled(x, s) && (s.Register? || s.Own? || s.Trigger?) && s.w == w && s.v == v
  {
    hide StagesOk, CommitsOk;
    OneWait(x, w, v);
    var b := WaitsOf(x, w)[v];
    if b.todo != {} {
      var a :| a in b.todo;
      s := Register(w, v, a);
    } else if b.own {
      s := Own(w, v);
    } else {
      assert b.held != {};
      var a :| a in b.held;
      s := Trigger(w, v, a);
    }
  }

  lemma BallMoves(x: Site, w: Which, v: Vid, s: Step)
    requires Inv(x) && AllThere(x, w, v) && Enabled(x, s)
    requires (s.Register? || s.Own? || s.Trigger?) && s.w == w && s.v == v
    ensures var x' := Next(x, s);
            && AllThere(x', w, v) && x'.g == x.g && x'.status == x.status
            && WaitsOf(x', w)[v].count == WaitsOf(x, w)[v].count - 1
            && WaitsOf(x', w)[v].fired == WaitsOf(x, w)[v].fired
            && WaitsOf(x', if w == Fin then Com else Fin) == WaitsOf(x, if w == Fin then Com else Fin)
  {
    hide StagesOk, CommitsOk;
    OneWait(x, w, v);
  }

  /** The ball can be brought to zero by its own triggers. */
  lemma {:induction false} BallEmpties(x: Site, w: Which, v: Vid) returns (ss: seq<Step>, x': Site)
    requires Inv(x) && AllThere(x, w, v)
    ensures Run(x, ss, x') && Inv(x') && AllThere(x', w, v) && x'.g == x.g && x'.status == x.status
    ensures WaitsOf(x', w)[v].count == 0 && WaitsOf(x', w)[v].fired == WaitsOf(x, w)[v].fired
    decreases WaitsOf(x, w)[v].count
  {
    hide Inv, AllThere, Enabled, Next, Run;
    CountIsLeft(x, w, v);
    if WaitsOf(x, w)[v].count == 0 {
      ss, x' := [], x;
      DeferredRuns.RunNil(x);
    } else {
      var s := BallCanMove(x, w, v);
      BallMoves(x, w, v, s);
      StepKeepsInv(x, s);
      var rest;
      rest, x' := BallEmpties(Next(x, s), w, v);
      DeferredRuns.RunCons(x, s, rest, x');
      ss := [s] + rest;
    }
  }

  lemma CountIsLeft(x: Site, w: Which, v: Vid)
    requires Inv(x) && AllThere(x, w, v)
    ensures v in WaitsOf(x, w) && WaitsOf(x, w)[v].count >= 0
  {
    hide StagesOk, CommitsOk;
    OneWait(x, w, v);
  }

  /** Once all open ancestors have finished, the wait for the parents of the component can begin ... */
  lemma FirstStageOpens(x: Site, v: Vid) returns (ss: seq<Step>, x': Site)
    requires Inv(x) && AllThere(x, Fin, v) && !x.fin[v].fired
    ensures Run(x, ss, x') && v in x'.com && x'.com[v].need == Ancestors.NearestAncestors(x.g, v)
  {
    hide Inv, AllThere, Run, Ancestors.NearestAncestors;
    var y;
    ss, y := BallEmpties(x, Fin, v);
    CountIsLeft(y, Fin, v);
    x' := Next(y, FireFin(v));
    DeferredRuns.RunNil(x');
    DeferredRuns.RunCons(y, FireFin(v), [], x');
    DeferredRuns.RunConcat(x, ss, y, [FireFin(v)] + [], x');
    ss := ss + ([FireFin(v)] + []);
  }

  /** ... and once those have committed, so can the transaction. */
  lemma SecondStageOpens(x: Site, v: Vid, scc: seq<Vid>) returns (ss: seq<Step>, x': Site)
    requires Inv(x) && AllThere(x, Com, v) && !x.com[v].fired && (x.Of(v).commit || IsSortedScc(x.g, v, scc))
    requires v in x.g.Vertices()
    ensures Run(x, ss, x') && x'.Of(v).commit
  {
    hide Inv, AllThere, Run, IsSortedScc;
    var y;
    ss, y := BallEmpties(x, Com, v);
    CountIsLeft(y, Com, v);
    assert y.Of(v) == x.Of(v);
    x' := Next(y, FireCom(v, scc));
    if !y.Of(v).commit {
      OwnIsSorted(x.g, v, scc);
      CommittedNow(y, v, scc, v);
    }
    DeferredRuns.RunNil(x');
    DeferredRuns.RunCons(y, FireCom(v, scc), [], x');
    DeferredRuns.RunConcat(x, ss, y, [FireCom(v, scc)] + [], x');
    ss := ss + ([FireCom(v, scc)] + []);
  }

  lemma OwnIsSorted(g: Graph, v: Vid, scc: seq<Vid>)
    requires IsSortedScc(g, v, scc) && v in g.Vertices()
    ensures v in scc
  {
    SortedScc.OwnComponent(g, v);
  }
}
