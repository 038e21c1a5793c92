/**
  The commit barrier of the dependency-graph protocol on one server. A transaction first waits
  until its uncommitted ancestors have finished, then until the parents of its component have
  committed, then commits its whole component. Nested calls under the server's mutex appear
  as successive small steps.
 */
module CommitBarrier {
  import opened Common
  import opened Reachability
  import opened DepGraph
  import SortedScc
  import Ancestors

  /** `status_`: three bits. */
  datatype Status = Status(start: bool, finish: bool, commit: bool) {
    function Level(): int {
      (if start then 1 else 0) + (if finish then 2 else 0) + if commit then 4 else 0
    }

    function Union(s: Status): Status {
      Status(start || s.start, finish || s.finish, commit || s.commit)
    }
  }

  const UNKNOWN := Status(false, false, false)
  const FINISH := 2
  const COMMIT := 4

  /** A `DragonBall` with the vertices it is still to be registered at and those whose event lists hold it. */
  datatype Wait = Wait(need: set<Vid>, todo: set<Vid>, held: set<Vid>, own: bool, count: int, fired: bool)

  function NewWait(need: set<Vid>): Wait {
    Wait(need, need, {}, true, |need| + 1, false)
  }

  /** `involved` are the transactions with pieces here; `res` marks those whose finish request came here; `order`
      lists local commits, `ran` deferred executions, `told` the commits learned from other servers. */
  datatype Site = Site(
    g: Graph, involved: set<Vid>, status: map<Vid, Status>, during: set<Vid>, fin: map<Vid, Wait>,
    com: map<Vid, Wait>, res: set<Vid>, order: seq<Vid>, ran: seq<Vid>, told: set<Vid>)
  {
    function Of(v: Vid): Status {
      if v in status then status[v] else UNKNOWN
    }

    function Committed(): set<Vid> {
      set v | v in status && status[v].commit
    }
  }

  datatype Which = Fin | Com

  datatype Step =
    | Grow(g: Graph)
    | Learn(v: Vid, s: Status)
    | Finish(v: Vid)
    | Begin(v: Vid)
    | Register(w: Which, v: Vid, a: Vid)
    | Own(w: Which, v: Vid)
    | Trigger(w: Which, v: Vid, a: Vid)
    | FireFin(v: Vid)
    | FireCom(v: Vid, scc: seq<Vid>)

  function WaitsOf(x: Site, w: Which): map<Vid, Wait> {
    match w case Fin => x.fin case Com => x.com
  }

  function WithWait(x: Site, w: Which, v: Vid, b: Wait): Site {
    match w
    case Fin => x.(fin := x.fin[v := b])
    case Com => x.(com := x.com[v := b])
  }

  function Needed(w: Which): int {
    match w case Fin => FINISH case Com => COMMIT
  }

  /** What `find_txn_anc_opt` returns. */
  ghost function OpenAncestors(g: Graph, committed: set<Vid>, v: Vid): set<Vid> {
    set a | a in g.Vertices() && a != v && Reach(Ancestors.OpenEdges(g, committed), a, v)
  }

  /** What `sorted_scc` writes when it does not stop. */
  ghost predicate IsSortedScc(g: Graph, v: Vid, scc: seq<Vid>) {
    && Distinct(scc) && (forall a :: a in scc <==> a in SortedScc.Component(g, v))
    && forall a, b :: a in scc && b in scc && SortedScc.Immediate(g, a, b) ==> SortedScc.Before(scc, a, b)
  }

  ghost predicate Extends(g: Graph, g': Graph) {
    g'.Valid() && g.Vertices() <= g'.Vertices() && forall a, b :: g.HasTo(a, b) ==> g'.HasTo(a, b)
  }

  ghost predicate Enabled(x: Site, s: Step) {
    match s
    case Grow(g) => Extends(x.g, g)
    case Learn(v, _) => true
    case Finish(v) => v in x.g.Vertices()
    case Begin(v) => v in x.g.Vertices() && (v in x.involved ==> v in x.res)
    case Register(w, v, a) => v in WaitsOf(x, w) && a in WaitsOf(x, w)[v].todo
    case Own(w, v) => v in WaitsOf(x, w) && WaitsOf(x, w)[v].todo == {} && WaitsOf(x, w)[v].own
    case Trigger(w, v, a) => v in WaitsOf(x, w) && a in WaitsOf(x, w)[v].held && Needed(w) <= x.Of(a).Level()
    case FireFin(v) => v in x.fin && x.fin[v].count == 0 && !x.fin[v].fired
    case FireCom(v, scc) =>
      && v in x.com && x.com[v].count == 0 && !x.com[v].fired
      && (x.Of(v).commit || IsSortedScc(x.g, v, scc))
  }

  function Fresh(x: Site, scc: seq<Vid>): seq<Vid> {
    if scc == [] then []
    else Fresh(x, scc[..|scc| - 1]) + if x.Of(scc[|scc| - 1]).commit then [] else [scc[|scc| - 1]]
  }

  function InRes(res: set<Vid>, vs: seq<Vid>): seq<Vid> {
    if vs == [] then [] else InRes(res, vs[..|vs| - 1]) + if vs[|vs| - 1] in res then [vs[|vs| - 1]] else []
  }

  /** Every vertex of `vs` becomes COMMIT. */
  function Committing(status: map<Vid, Status>, vs: seq<Vid>): map<Vid, Status> {
    map v | v in status.Keys + (set u | u in vs) ::
      var s := if v in status then status[v] else UNKNOWN;
      if v in vs then s.(commit := true) else s
  }

  ghost function Next(x: Site, s: Step): Site
    requires Enabled(x, s)
  {
    match s
    case Grow(g) => x.(g := g)
    case Learn(v, st) =>
      if v in x.involved then x
      else
        x.(status := x.status[v := x.Of(v).Union(st)],
           told := if st.commit && !x.Of(v).commit then x.told + {v} else x.told)
    case Finish(v) =>
      x.(status := x.status[v := x.Of(v).(finish := true)], res := x.res + {v})
    case Begin(v) =>
      if v in x.during then x
      else x.(during := x.during + {v}, fin := x.fin[v := NewWait(OpenAncestors(x.g, x.Committed(), v))])
    case Register(w, v, a) =>
      var b := WaitsOf(x, w)[v];
      if Needed(w) <= x.Of(a).Level() then WithWait(x, w, v, b.(todo := b.todo - {a}, count := b.count - 1))
      else WithWait(x, w, v, b.(todo := b.todo - {a}, held := b.held + {a}))
    case Own(w, v) =>
      var b := WaitsOf(x, w)[v];
      WithWait(x, w, v, b.(own := false, count := b.count - 1))
    case Trigger(w, v, a) =>
      var b := WaitsOf(x, w)[v];
      WithWait(x, w, v, b.(held := b.held - {a}, count := b.count - 1))
    case FireFin(v) =>
      x.(fin := x.fin[v := x.fin[v].(fired := true)], com := x.com[v := NewWait(Ancestors.NearestAncestors(x.g, v))])
    case FireCom(v, scc) =>
      var x1 := x.(com := x.com[v := x.com[v].(fired := true)]);
      if x.Of(v).commit then x1
      else
        x1.(status := Committing(x.status, scc), order := x.order + Fresh(x, scc),
            ran := x.ran + InRes(x.res, Fresh(x, scc)))
  }

  // ---- invariant ----

  /** Every trigger is accounted for, and a triggered vertex has the awaited status. */
  ghost predicate WaitOk(x: Site, w: Which, b: Wait) {
    && b.todo <= b.need && b.held <= b.need && b.todo !! b.held
    && b.count == |b.todo| + |b.held| + (if b.own then 1 else 0)
    && (forall a :: a in b.need && a !in b.todo && a !in b.held ==> Needed(w) <= x.Of(a).Level())
    && (b.fired ==> b.count == 0)
  }

  ghost predicate WaitsOk(x: Site, w: Which) {
    forall v :: v in WaitsOf(x, w) ==> WaitOk(x, w, WaitsOf(x, w)[v])
  }

  /** One barrier per transaction: `during_commit` guards the first stage, the first stage the second. */
  ghost predicate StagesOk(x: Site) {
    && x.fin.Keys <= x.during
    && forall v :: v in x.com ==> v in x.fin && x.fin[v].fired
  }

  ghost predicate CommitsOk(x: Site) {
    && Distinct(x.order) && Distinct(x.ran)
    && (forall v :: v in x.order ==> x.Of(v).commit)
    && (forall v :: v in x.ran ==> v in x.order)
    && (forall v :: v in x.status && x.status[v].commit ==> v in x.order || v in x.told)
    && (forall v :: v in x.told ==> v !in x.order && x.Of(v).commit)
  }

  ghost predicate Inv(x: Site) {
    WaitsOk(x, Fin) && WaitsOk(x, Com) && StagesOk(x) && CommitsOk(x)
  }

  ghost predicate Grows(x: Site, x': Site) {
    forall v: Vid :: x.Of(v).Level() <= x'.Of(v).Level()
  }

  lemma WaitFrame(x: Site, x': Site, w: Which, b: Wait)
    requires WaitOk(x, w, b) && Grows(x, x')
    ensures WaitOk(x', w, b)
  {
  }

  lemma FreshIn(x: Site, scc: seq<Vid>)
    requires Distinct(scc)
    ensures Distinct(Fresh(x, scc)) && forall v :: v in Fresh(x, scc) <==> v in scc && !x.Of(v).commit
  {
    if scc != [] {
      var n := |scc| - 1;
      FreshIn(x, scc[..n]);
      assert scc == scc[..n] + [scc[n]];
      assert scc[n] !in scc[..n];
    }
  }

  lemma InResIn(res: set<Vid>, vs: seq<Vid>)
    requires Distinct(vs)
    ensures Distinct(InRes(res, vs)) && forall v :: v in InRes(res, vs) <==> v in vs && v in res
  {
    if vs != [] {
      var n := |vs| - 1;
      InResIn(res, vs[..n]);
      assert vs == vs[..n] + [vs[n]];
      assert vs[n] !in vs[..n];
    }
  }

  lemma StatusGrows(x: Site, s: Step)
    requires Enabled(x, s)
    ensures Grows(x, Next(x, s))
  {
    hide IsSortedScc, OpenAncestors, Ancestors.NearestAncestors, Fresh, InRes;
  }

  lemma WaitStep(x: Site, w: Which, b: Wait, a: Vid, b': Wait)
    requires WaitOk(x, w, b)
    requires || (a in b.todo && b' == b.(todo := b.todo - {a}, count := b.count - 1) && Needed(w) <= x.Of(a).Level())
             || (a in b.todo && b' == b.(todo := b.todo - {a}, held := b.held + {a}))
             || (a in b.held && b' == b.(held := b.held - {a}, count := b.count - 1) && Needed(w) <= x.Of(a).Level())
             || (b.own && b' == b.(own := false, count := b.count - 1))
    ensures WaitOk(x, w, b')
  {
  }

  lemma NewWaitOk(x: Site, w: Which, need: set<Vid>)
    ensures WaitOk(x, w, NewWait(need))
  {
  }

  lemma WaitsFrame(x: Site, x': Site, w: Which)
    requires WaitsOk(x, w) && Grows(x, x') && WaitsOf(x', w) == WaitsOf(x, w)
    ensures WaitsOk(x', w)
  {
    hide WaitOk;
    forall v | v in WaitsOf(x', w) ensures WaitOk(x', w, WaitsOf(x', w)[v]) {
      assert WaitOk(x, w, WaitsOf(x, w)[v]);
      WaitFrame(x, x', w, WaitsOf(x, w)[v]);
    }
  }

  /** One wait changes, by a step that is right for it. */
  lemma WaitsUpdate(x: Site, x': Site, w: Which, v: Vid, b': Wait)
    requires WaitsOk(x, w) && Grows(x, x') && WaitsOf(x', w) == WaitsOf(x, w)[v := b'] && WaitOk(x, w, b')
    ensures WaitsOk(x', w)
  {
    hide WaitOk;
    forall u | u in WaitsOf(x', w) ensures WaitOk(x', w, WaitsOf(x', w)[u]) {
      assert u != v ==> WaitOk(x, w, WaitsOf(x, w)[u]);
      WaitFrame(x, x', w, WaitsOf(x', w)[u]);
    }
  }

  lemma BallMoves(x: Site, s: Step)
    requires Enabled(x, s) && (s.Register? || s.Own? || s.Trigger?) && WaitOk(x, s.w, WaitsOf(x, s.w)[s.v])
    ensures var x', b := Next(x, s), WaitsOf(x, s.w)[s.v];
            && s.v in WaitsOf(x', s.w) && WaitsOf(x', s.w)[s.v].fired == b.fired
            && x' == WithWait(x, s.w, s.v, WaitsOf(x', s.w)[s.v])
            && WaitOk(x, s.w, WaitsOf(x', s.w)[s.v])
  {
    hide WaitOk, OpenAncestors, IsSortedScc, Ancestors.NearestAncestors, Fresh, InRes, Committing;
    WaitStep(x, s.w, WaitsOf(x, s.w)[s.v], if s.Own? then 0 else s.a, WaitsOf(Next(x, s), s.w)[s.v]);
  }

  lemma OneWaitChanges(x: Site, w: Which, v: Vid, b': Wait)
    ensures var x' := WithWait(x, w, v, b'); WaitsOf(x', w) == WaitsOf(x, w)[v := b']
    ensures var x', o := WithWait(x, w, v, b'), if w == Fin then Com else Fin; WaitsOf(x', o) == WaitsOf(x, o)
    ensures var x' := WithWait(x, w, v, b');
            x'.status == x.status && x'.order == x.order && x'.ran == x.ran && x'.told == x.told &&
            x'.during == x.during
  {
  }

  lemma BallStep(x: Site, s: Step)
    requires Inv(x) && Enabled(x, s) && (s.Register? || s.Own? || s.Trigger?)
    ensures Inv(Next(x, s))
  {
    hide CommitsOk, WaitOk, Next, WithWait, WaitsOf, StagesOk;
    var x', w, v := Next(x, s), s.w, s.v;
    BallEnabled(x, s);
    var b := WaitsOf(x, w)[v];
    OneWait(x, w, v);
    BallMoves(x, s);
    var b' := WaitsOf(x', w)[v];
    OneWaitChanges(x, w, v, b');
    WaitsUpdate(x, x', w, v, b');
    WaitsFrame(x, x', if w == Fin then Com else Fin);
    CommitsFrame(x, x');
    StageFrame(x, w, v, b, x');
  }

  lemma BallEnabled(x: Site, s: Step)
    requires Enabled(x, s) && (s.Register? || s.Own? || s.Trigger?)
    ensures s.v in WaitsOf(x, s.w)
  {
  }

  lemma OneWait(x: Site, w: Which, v: Vid)
    requires WaitsOk(x, Fin) && WaitsOk(x, Com) && v in WaitsOf(x, w)
    ensures WaitOk(x, w, WaitsOf(x, w)[v])
  {
    hide WaitOk;
  }

  lemma StageFrame(x: Site, w: Which, v: Vid, b: Wait, x': Site)
    requires StagesOk(x) && v in WaitsOf(x, w) && b == WaitsOf(x, w)[v] && x'.during == x.during
    requires v in WaitsOf(x', w) && WaitsOf(x', w)[v].fired == b.fired && x' == WithWait(x, w, v, WaitsOf(x', w)[v])
    ensures StagesOk(x')
  {
  }

  lemma CommitsFrame(x: Site, x': Site)
    requires CommitsOk(x) && x'.status == x.status && x'.order == x.order && x'.ran == x.ran && x'.told == x.told
    ensures CommitsOk(x')
  {
  }

  lemma StatusStep(x: Site, s: Step)
    requires Inv(x) && Enabled(x, s) && (s.Grow? || s.Learn? || s.Finish?)
    ensures Inv(Next(x, s))
  {
    hide WaitsOk;
    StatusGrows(x, s);
    WaitsFrame(x, Next(x, s), Fin);
    WaitsFrame(x, Next(x, s), Com);
  }

  lemma BeginStep(x: Site, v: Vid)
    requires Inv(x) && Enabled(x, Begin(v))
    ensures Inv(Next(x, Begin(v)))
  {
    hide WaitsOk, CommitsOk, OpenAncestors;
    var x' := Next(x, Begin(v));
    if v !in x.during {
      var need := OpenAncestors(x.g, x.Committed(), v);
      NewWaitOk(x, Fin, need);
      WaitsUpdate(x, x', Fin, v, NewWait(need));
      WaitsFrame(x, x', Com);
      CommitsFrame(x, x');
    }
  }

  lemma FireFinStep(x: Site, v: Vid)
    requires Inv(x) && Enabled(x, FireFin(v))
    ensures Inv(Next(x, FireFin(v)))
  {
    hide CommitsOk, Ancestors.NearestAncestors;
    var x', need := Next(x, FireFin(v)), Ancestors.NearestAncestors(x.g, v);
    NewWaitOk(x, Com, need);
    WaitsUpdate(x, x', Com, v, NewWait(need));
    WaitsUpdate(x, x', Fin, v, x.fin[v].(fired := true));
    CommitsFrame(x, x');
  }

  lemma CommittingOf(x: Site, vs: seq<Vid>, u: Vid)
    ensures var s' := Committing(x.status, vs);
            && (u in s' <==> u in x.status || u in vs)
            && (u in s' ==> s'[u] == if u in vs then x.Of(u).(commit := true) else x.Of(u))
  {
  }

  lemma FireComCommits(x: Site, v: Vid, scc: seq<Vid>)
    requires CommitsOk(x) && Enabled(x, FireCom(v, scc))
    ensures CommitsOk(Next(x, FireCom(v, scc)))
  {
    hide SortedScc.Component, SortedScc.Immediate, SortedScc.Before, Fresh, InRes, Committing;
    var x', f := Next(x, FireCom(v, scc)), Fresh(x, scc);
    if !x.Of(v).commit {
      FreshIn(x, scc);
      InResIn(x.res, f);
      forall u: Vid ensures (u in x'.status <==> u in x.status || u in scc) &&
                       (u in x'.status ==> x'.status[u] == if u in scc then x.Of(u).(commit := true) else x.Of(u))
      {
        CommittingOf(x, scc, u);
      }
      DistinctConcat(x.order, f);
      DistinctConcat(x.ran, InRes(x.res, f));
    }
  }

  lemma DistinctConcat(a: seq<Vid>, b: seq<Vid>)
    requires Distinct(a) && Distinct(b) && forall v :: v in a ==> v !in b
    ensures Distinct(a + b)
  {
    forall i, j | 0 <= i < j < |a + b| ensures (a + b)[i] != (a + b)[j] {
      if i < |a| <= j {
        assert a[i] in a && b[j - |a|] in b;
      }
    }
  }

  /** The callback of `v` commits every member of its component, or nothing if `v` is committed already. */
  lemma FireComStep(x: Site, v: Vid, scc: seq<Vid>)
    requires Inv(x) && Enabled(x, FireCom(v, scc))
    ensures var x' := Next(x, FireCom(v, scc));
            && Inv(x')
            && if x.Of(v).commit then x'.status == x.status && x'.order == x.order && x'.ran == x.ran
               else forall u :: u in SortedScc.Component(x.g, v) ==> x'.Of(u).commit
  {
    hide CommitsOk, IsSortedScc, Fresh, InRes, Committing, SortedScc.Component;
    if !x.Of(v).commit {
      SortedIsComponent(x.g, v, scc);
      forall u | u in scc ensures Next(x, FireCom(v, scc)).Of(u).commit {
        CommittedNow(x, v, scc, u);
      }
    }
    var x' := Next(x, FireCom(v, scc));
    FireComCommits(x, v, scc);
    StatusGrows(x, FireCom(v, scc));
    WaitsUpdate(x, x', Com, v, x.com[v].(fired := true));
    WaitsFrame(x, x', Fin);
  }

  lemma StepKeepsInv(x: Site, s: Step)
    requires Inv(x) && Enabled(x, s)
    ensures Inv(Next(x, s))
  {
    hide Inv, Enabled, Next;
    match s
    case Grow(_) => StatusStep(x, s);
    case Learn(_, _) => StatusStep(x, s);
    case Finish(_) => StatusStep(x, s);
    case Begin(v) => BeginStep(x, v);
    case Register(_, _, _) => BallStep(x, s);
    case Own(_, _) => BallStep(x, s);
    case Trigger(_, _, _) => BallStep(x, s);
    case FireFin(v) => FireFinStep(x, v);
    case FireCom(v, scc) => FireComStep(x, v, scc);
  }

  /** A ball that fires has been triggered by everything it waits for: all of it has the awaited status. */
  lemma FiredMeansDone(x: Site, w: Which, v: Vid)
    requires Inv(x) && v in WaitsOf(x, w) && WaitsOf(x, w)[v].count == 0
    ensures forall a :: a in WaitsOf(x, w)[v].need ==> Needed(w) <= x.Of(a).Level()
  {
    var b := WaitsOf(x, w)[v];
    assert WaitOk(x, w, b);
    assert b.todo == {} && b.held == {};
  }

  // ---- runs ----

  ghost predicate Run(x: Site, ss: seq<Step>, x': Site)
    decreases |ss|
  {
    if ss == [] then x' == x else Enabled(x, ss[0]) && Run(Next(x, ss[0]), ss[1..], x')
  }

  /** Nothing started; what is committed was learned. */
  ghost predicate Initial(x: Site) {
    && x.g.Valid() && x.during == {} && x.fin == map[] && x.com == map[] && x.order == [] && x.ran == []
    && forall v :: v in x.told <==> v in x.status && x.status[v].commit
  }

  lemma {:induction false} RunKeepsInv(x: Site, ss: seq<Step>, x': Site)
    requires Inv(x) && Run(x, ss, x')
    ensures Inv(x')
    decreases |ss|
  {
    hide Inv, Enabled, Next;
    if ss != [] {
      StepKeepsInv(x, ss[0]);
      RunKeepsInv(Next(x, ss[0]), ss[1..], x');
    }
  }

  /** At step `i` of the run, in state `y`, the ancestors of `v` had finished and its nearest ancestors were
      looked up. */
  ghost predicate LookedUp(x0: Site, ss: seq<Step>, v: Vid, i: nat, y: Site) {
    i < |ss| && ss[i] == FireFin(v) && Run(x0, ss[..i], y)
  }

  /**
    The commit callback runs only when every vertex is committed that `find_txn_scc_nearest_anc`
    returned when the callback was set up, earlier in the run ...
   */
  lemma CommitWaitsForParents(x0: Site, ss: seq<Step>, x: Site, v: Vid, scc: seq<Vid>)
    requires Initial(x0) && Run(x0, ss, x) && Enabled(x, FireCom(v, scc))
    ensures exists i, y :: LookedUp(x0, ss, v, i, y) &&
                           forall a :: a in Ancestors.NearestAncestors(y.g, v) ==> x.Of(a).commit
  {
    hide Run, Inv, IsSortedScc, Ancestors.NearestAncestors, LookedUp;
    InitialInv(x0);
    RunKeepsInv(x0, ss, x);
    FiredMeansDone(x, Com, v);
    var i, y := NeedOrigin(x0, ss, x, v);
    assert LookedUp(x0, ss, v, i, y);
  }

  lemma NeedStays(x: Site, s: Step, v: Vid)
    requires Inv(x) && Enabled(x, s) && v in Next(x, s).com
    ensures if v in x.com then Next(x, s).com[v].need == x.com[v].need
            else s == FireFin(v) && Next(x, s).com[v].need == Ancestors.NearestAncestors(x.g, v)
  {
    hide WaitsOk, CommitsOk, IsSortedScc, OpenAncestors, Ancestors.NearestAncestors, Fresh, InRes, Committing;
  }

  /** Where a wait for commits comes from. */
  lemma {:induction false} NeedOrigin(x: Site, ss: seq<Step>, x': Site, v: Vid) returns (i: nat, y: Site)
    requires Inv(x) && Run(x, ss, x') && v in x'.com
    ensures if v in x.com then x'.com[v].need == x.com[v].need
            else LookedUp(x, ss, v, i, y) && x'.com[v].need == Ancestors.NearestAncestors(y.g, v)
    decreases |ss|
  {
    hide Inv, Enabled, Next, Ancestors.NearestAncestors;
    i, y := 0, x;
    if ss != [] {
      var x1 := Next(x, ss[0]);
      StepKeepsInv(x, ss[0]);
      i, y := NeedOrigin(x1, ss[1..], x', v);
      if v in x1.com {
        NeedStays(x, ss[0], v);
        i, y := 0, x;
        assert ss[..0] == [];
      } else {
        NotYet(x, ss[0], v);
        assert ss[..i + 1] == [ss[0]] + ss[1..][..i];
        assert ss[..i + 1][1..] == ss[1..][..i];
        i := i + 1;
      }
    }
  }

  lemma NotYet(x: Site, s: Step, v: Vid)
    requires Enabled(x, s) && v !in Next(x, s).com
    ensures v !in x.com
  {
    hide IsSortedScc, OpenAncestors, Ancestors.NearestAncestors, Fresh, InRes, Committing;
  }

  lemma InitialInv(x: Site)
    requires Initial(x)
    ensures Inv(x)
  {
  }

  /** ... each transaction commits and executes its deferred pieces at most once ... */
  lemma CommitsOnce(x0: Site, ss: seq<Step>, x: Site)
    requires Initial(x0) && Run(x0, ss, x)
    ensures Distinct(x.order) && Distinct(x.ran) && forall v :: v in x.ran ==> v in x.order
  {
    hide Run;
    InitialInv(x0);
    RunKeepsInv(x0, ss, x);
  }

  ghost predicate Done(x: Site, v: Vid) {
    v in x.com && x.com[v].fired
  }

  lemma FiredStays(x: Site, s: Step, v: Vid)
    requires Inv(x) && Enabled(x, s) && Done(x, v)
    ensures Done(Next(x, s), v) && !(s.FireCom? && s.v == v)
  {
    hide WaitsOk, CommitsOk, IsSortedScc, OpenAncestors, Ancestors.NearestAncestors, Fresh, InRes, Committing;
  }

  lemma {:induction false} FiredOnce(x: Site, ss: seq<Step>, x': Site, v: Vid, j: nat)
    requires Inv(x) && Run(x, ss, x') && Done(x, v) && j < |ss|
    ensures !(ss[j].FireCom? && ss[j].v == v)
    decreases |ss|
  {
    hide Inv, Enabled, Next, Done;
    StepKeepsInv(x, ss[0]);
    FiredStays(x, ss[0], v);
    if j > 0 {
      FiredOnce(Next(x, ss[0]), ss[1..], x', v, j - 1);
    }
  }

  /** ... and its callback runs at most once. */
  lemma {:induction false} CallbackOnce(x: Site, ss: seq<Step>, x': Site, v: Vid, i: nat, j: nat)
    requires Inv(x) && Run(x, ss, x') && i < j < |ss| && ss[i].FireCom? && ss[i].v == v
    ensures !(ss[j].FireCom? && ss[j].v == v)
    decreases |ss|
  {
    hide Inv, Enabled, Next, Done;
    var x1 := Next(x, ss[0]);
    StepKeepsInv(x, ss[0]);
    if i == 0 {
      FiringDone(x, ss[0]);
      FiredOnce(x1, ss[1..], x', v, j - 1);
    } else {
      CallbackOnce(x1, ss[1..], x', v, i - 1, j - 1);
    }
  }

  lemma FiringDone(x: Site, s: Step)
    requires Enabled(x, s) && s.FireCom?
    ensures Done(Next(x, s), s.v)
  {
    hide IsSortedScc, Fresh, InRes, Committing;
  }

  // ---- a graph whose settled part no longer changes ----

  /** No new edge leads to a vertex from which a transaction that waits to commit, or has committed, can be reached. */
  ghost predicate Quiet(x: Site, g': Graph) {
    forall a: Vid, b: Vid, v: Vid ::
      v in x.com && g'.HasTo(a, b) && !x.g.HasTo(a, b) ==> !Reach(g'.EdgeSet(), b, v)
  }

  /** The graph may grow all through the run, but quietly. */
  ghost predicate QuietGrowth(x: Site, ss: seq<Step>)
    decreases |ss|
  {
    ss == [] ||
    (Enabled(x, ss[0]) && (ss[0].Grow? ==> Quiet(x, ss[0].g)) && QuietGrowth(Next(x, ss[0]), ss[1..]))
  }

  ghost predicate Avoids(p: seq<Vid>, told: set<Vid>) {
    forall i :: 0 <= i < |p| ==> p[i] !in told
  }

  /** A path from `a` to `b` with no vertex in `told`. */
  ghost predicate ReachPast(es: Edges, told: set<Vid>, a: Vid, b: Vid) {
    exists p :: IsPath(es, p, a, b) && Avoids(p, told)
  }

  /** Whatever reaches a vertex of `order` from another component, past the vertices of `told`, comes before it. */
  ghost predicate AncestorsFirst(g: Graph, order: seq<Vid>, told: set<Vid>) {
    forall j: nat, u: Vid ::
      j < |order| && ReachPast(g.EdgeSet(), told, u, order[j]) && !SameScc(g.EdgeSet(), order[j], u) ==> u in order[..j]
  }

  /** A component with a vertex that was committed here is committed. */
  ghost predicate WholeComponents(x: Site) {
    forall v, u :: v in x.order && u in SortedScc.Component(x.g, v) ==> x.Of(u).commit
  }

  ghost predicate Awaited(x: Site, w: Vid) {
    exists v :: v in x.com && w in SortedScc.Component(x.g, v)
  }

  ghost predicate Settled(x: Site) {
    && x.g.Valid() && x.fin.Keys <= x.g.Vertices() && x.com.Keys <= x.g.Vertices()
    && (forall v :: v in x.com ==> x.com[v].need == Ancestors.NearestAncestors(x.g, v))
    && (forall w :: w in x.order ==> Awaited(x, w))
    && AncestorsFirst(x.g, x.order, x.told) && WholeComponents(x)
  }

  // ---- paths ----

  lemma PathSuffix(es: Edges, p: seq<Vid>, a: Vid, b: Vid, k: nat)
    requires IsPath(es, p, a, b) && k < |p|
    ensures IsPath(es, p[k..], p[k], b) && Reach(es, p[k], b)
  {
    var q := p[k..];
    forall i | 0 <= i < |q| - 1 ensures (q[i], q[i + 1]) in es {
      assert (p[k + i], p[k + i + 1]) in es;
    }
    assert IsPath(es, q, p[k], b);
  }

  lemma PathPrefix(es: Edges, p: seq<Vid>, a: Vid, b: Vid, k: nat)
    requires IsPath(es, p, a, b) && k < |p|
    ensures IsPath(es, p[..k + 1], a, p[k]) && Reach(es, a, p[k])
  {
    assert IsPath(es, p[..k + 1], a, p[k]);
  }

  lemma SameComponent(g: Graph, v: Vid, u: Vid, a: Vid)
    requires u in SortedScc.Component(g, v)
    ensures a in SortedScc.Component(g, u) <==> a in SortedScc.Component(g, v)
  {
    hide Reach;
    var es := g.EdgeSet();
    if SameScc(es, v, a) { ReachTrans(es, u, v, a); ReachTrans(es, a, v, u); }
    if SameScc(es, u, a) { ReachTrans(es, v, u, a); ReachTrans(es, a, u, v); }
  }

  lemma ComponentReaches(g: Graph, v: Vid, w: Vid)
    requires w in SortedScc.Component(g, v)
    ensures Reach(g.EdgeSet(), w, v) && Reach(g.EdgeSet(), v, w) && w in g.Vertices()
  {
  }

  /** A path into a component from outside enters it through one of its nearest ancestors. */
  lemma {:induction false} EntersThrough(g: Graph, v: Vid, p: seq<Vid>, k: nat) returns (i: nat)
    requires g.Valid() && v in g.Vertices() && k < |p|
    requires p[0] !in SortedScc.Component(g, v) && p[k] in SortedScc.Component(g, v)
    requires forall i :: 0 <= i < |p| - 1 ==> (p[i], p[i + 1]) in g.EdgeSet()
    ensures i < k && p[i] in Ancestors.NearestAncestors(g, v)
  {
    hide SortedScc.Component, Graph.EdgeSet;
    assert (p[k - 1], p[k - 1 + 1]) in g.EdgeSet();
    g.InEdgeSet(p[k - 1], p[k]);
    if p[k - 1] in SortedScc.Component(g, v) {
      i := EntersThrough(g, v, p, k - 1);
    } else {
      i := k - 1;
    }
  }

  // ---- quiet growth ----

  lemma ReachGrows(g: Graph, g': Graph, a: Vid, b: Vid)
    requires Extends(g, g') && Reach(g.EdgeSet(), a, b)
    ensures Reach(g'.EdgeSet(), a, b)
  {
    hide Graph.EdgeSet;
    var es, es' := g.EdgeSet(), g'.EdgeSet();
    var p :| IsPath(es, p, a, b);
    forall i | 0 <= i < |p| - 1 ensures (p[i], p[i + 1]) in es' {
      assert (p[i], p[i + 1]) in es;
      g.InEdgeSet(p[i], p[i + 1]);
      g'.InEdgeSet(p[i], p[i + 1]);
    }
    assert IsPath(es', p, a, b);
  }

  /** A path to something that reaches `v` uses old edges only. */
  lemma OldPath(x: Site, g': Graph, v: Vid, p: seq<Vid>, a: Vid, b: Vid)
    requires Quiet(x, g') && v in x.com && IsPath(g'.EdgeSet(), p, a, b) && Reach(g'.EdgeSet(), b, v)
    ensures IsPath(x.g.EdgeSet(), p, a, b)
  {
    hide Graph.EdgeSet, Reach;
    var es, es' := x.g.EdgeSet(), g'.EdgeSet();
    forall i | 0 <= i < |p| - 1 ensures (p[i], p[i + 1]) in es {
      assert (p[i], p[i + 1]) in es';
      PathSuffix(es', p, a, b, i + 1);
      ReachTrans(es', p[i + 1], b, v);
      x.g.InEdgeSet(p[i], p[i + 1]);
      g'.InEdgeSet(p[i], p[i + 1]);
    }
  }

  lemma OldReach(x: Site, g': Graph, v: Vid, a: Vid, b: Vid)
    requires Quiet(x, g') && v in x.com && Reach(g'.EdgeSet(), a, b) && Reach(g'.EdgeSet(), b, v)
    ensures Reach(x.g.EdgeSet(), a, b)
  {
    hide Graph.EdgeSet, Quiet;
    var p :| IsPath(g'.EdgeSet(), p, a, b);
    OldPath(x, g', v, p, a, b);
  }

  lemma OldComponent(x: Site, g': Graph, v: Vid, u: Vid)
    requires x.g.Valid() && Extends(x.g, g') && Quiet(x, g') && v in x.com && v in x.g.Vertices()
    ensures u in SortedScc.Component(g', v) <==> u in SortedScc.Component(x.g, v)
  {
    hide Reach, Quiet, Graph.EdgeSet;
    var es, es' := x.g.EdgeSet(), g'.EdgeSet();
    ReachRefl(es', v);
    if SameScc(es', v, u) {
      OldReach(x, g', v, u, v);
      OldReach(x, g', v, v, u);
      SortedScc.ReachedIsVertex(x.g, v, u);
    }
    if SameScc(es, v, u) {
      ReachGrows(x.g, g', v, u);
      ReachGrows(x.g, g', u, v);
    }
  }

  lemma OldNearest(x: Site, g': Graph, v: Vid)
    requires x.g.Valid() && Extends(x.g, g') && Quiet(x, g') && v in x.com && v in x.g.Vertices()
    ensures Ancestors.NearestAncestors(g', v) == Ancestors.NearestAncestors(x.g, v)
  {
    hide Reach, Quiet, SortedScc.Component, Graph.EdgeSet;
    forall u: Vid ensures u in SortedScc.Component(g', v) <==> u in SortedScc.Component(x.g, v) {
      OldComponent(x, g', v, u);
    }
    forall p, m | m in SortedScc.Component(g', v) && g'.HasTo(p, m) ensures x.g.HasTo(p, m) {
      OldEdge(x, g', v, p, m);
    }
  }

  lemma OldEdge(x: Site, g': Graph, v: Vid, p: Vid, m: Vid)
    requires Quiet(x, g') && v in x.com && m in SortedScc.Component(g', v) && g'.HasTo(p, m)
    ensures x.g.HasTo(p, m)
  {
    hide Reach;
    ComponentReaches(g', v, m);
  }

  /** The component of an awaited vertex stays what it was. */
  lemma OldAwaited(x: Site, g': Graph, w: Vid)
    requires Settled(x) && Extends(x.g, g') && Quiet(x, g') && Awaited(x, w)
    ensures Awaited(x.(g := g'), w)
    ensures forall u :: u in SortedScc.Component(g', w) ==> u in SortedScc.Component(x.g, w)
  {
    hide Quiet, SortedScc.Component, Graph.EdgeSet, AncestorsFirst, WholeComponents;
    var v :| v in x.com && w in SortedScc.Component(x.g, v);
    OldComponent(x, g', v, w);
    forall u | u in SortedScc.Component(g', w) ensures u in SortedScc.Component(x.g, w) {
      SameComponent(g', v, w, u);
      OldComponent(x, g', v, u);
      SameComponent(x.g, v, w, u);
    }
  }

  lemma OldReachPast(x: Site, g': Graph, u: Vid, w: Vid)
    requires Settled(x) && Extends(x.g, g') && Quiet(x, g') && Awaited(x, w) && ReachPast(g'.EdgeSet(), x.told, u, w)
    ensures ReachPast(x.g.EdgeSet(), x.told, u, w)
  {
    hide Quiet, SortedScc.Component, Graph.EdgeSet, AncestorsFirst, WholeComponents, Reach;
    var v :| v in x.com && w in SortedScc.Component(x.g, v);
    ComponentReaches(x.g, v, w);
    ReachGrows(x.g, g', w, v);
    var p :| IsPath(g'.EdgeSet(), p, u, w) && Avoids(p, x.told);
    OldPath(x, g', v, p, u, w);
  }

  lemma GrowSettled(x: Site, g': Graph)
    requires Settled(x) && Extends(x.g, g') && Quiet(x, g')
    ensures Settled(x.(g := g'))
  {
    hide Quiet, SortedScc.Component, Graph.EdgeSet, Reach, ReachPast, Ancestors.NearestAncestors, Awaited;
    var x' := x.(g := g');
    forall v | v in x.com ensures x.com[v].need == Ancestors.NearestAncestors(g', v) {
      OldNearest(x, g', v);
    }
    forall w | w in x.order ensures Awaited(x', w) {
      OldAwaited(x, g', w);
    }
    forall j: nat, u: Vid | j < |x.order| && ReachPast(g'.EdgeSet(), x.told, u, x.order[j]) &&
                            !SameScc(g'.EdgeSet(), x.order[j], u)
      ensures u in x.order[..j]
    {
      assert x.order[j] in x.order;
      OldReachPast(x, g', u, x.order[j]);
      StillApart(x.g, g', x.order[j], u);
    }
    forall v, u | v in x.order && u in SortedScc.Component(g', v) ensures x'.Of(u).commit {
      OldAwaited(x, g', v);
      WholeAt(x, v, u);
      assert x'.Of(u) == x.Of(u);
    }
  }

  lemma StillApart(g: Graph, g': Graph, a: Vid, b: Vid)
    requires Extends(g, g') && !SameScc(g'.EdgeSet(), a, b)
    ensures !SameScc(g.EdgeSet(), a, b)
  {
    hide Reach;
    if SameScc(g.EdgeSet(), a, b) {
      ReachGrows(g, g', a, b);
      ReachGrows(g, g', b, a);
    }
  }

  // ---- the commit of a component ----

  /** What reaches a component past `told` is committed here, if the component's nearest ancestors are committed. */
  lemma AllAncestorsCommitted(x: Site, v: Vid, w: Vid, u: Vid)
    requires CommitsOk(x) && Settled(x) && v in x.g.Vertices() && w in SortedScc.Component(x.g, v)
    requires forall a :: a in Ancestors.NearestAncestors(x.g, v) ==> x.Of(a).commit
    requires ReachPast(x.g.EdgeSet(), x.told, u, w) && u !in SortedScc.Component(x.g, v)
    ensures u in x.order
  {
    hide Reach, Ancestors.NearestAncestors, SortedScc.Component, Graph.EdgeSet, Awaited;
    var es := x.g.EdgeSet();
    var p :| IsPath(es, p, u, w) && Avoids(p, x.told);
    var k := EntersThrough(x.g, v, p, |p| - 1);
    var a := p[k];
    assert a in x.order;
    var i :| 0 <= i < |x.order| && x.order[i] == a;
    PathPrefix(es, p, u, w, k);
    assert Avoids(p[..k + 1], x.told);
    if SameScc(es, a, u) {
      NearestIsVertex(x.g, v, a);
      SortedScc.InComponent(x.g, a, u);
      assert p[0] == u && x.Of(u).commit;
    } else {
      assert u in x.order[..i];
    }
  }

  lemma NearestIsVertex(g: Graph, v: Vid, a: Vid)
    requires a in Ancestors.NearestAncestors(g, v)
    ensures a in g.Vertices()
  {
  }

  lemma OrderGrows(x: Site, v: Vid, f: seq<Vid>)
    requires CommitsOk(x) && Settled(x) && v in x.g.Vertices()
    requires forall a :: a in Ancestors.NearestAncestors(x.g, v) ==> x.Of(a).commit
    requires forall a :: a in f ==> a in SortedScc.Component(x.g, v)
    ensures AncestorsFirst(x.g, x.order + f, x.told)
  {
    hide Reach, Ancestors.NearestAncestors, SortedScc.Component, Graph.EdgeSet, ReachPast, CommitsOk, Awaited;
    var o := x.order + f;
    forall j: nat, u: Vid | j < |o| && ReachPast(x.g.EdgeSet(), x.told, u, o[j]) && !SameScc(x.g.EdgeSet(), o[j], u)
      ensures u in o[..j]
    {
      if j < |x.order| {
        assert o[j] == x.order[j] && o[..j] == x.order[..j];
      } else {
        assert o[j] == f[j - |x.order|] && f[j - |x.order|] in f;
        OutsideComponent(x.g, v, o[j], u);
        AllAncestorsCommitted(x, v, o[j], u);
        assert o[..j] == x.order + f[..j - |x.order|];
      }
    }
  }

  lemma OutsideComponent(g: Graph, v: Vid, w: Vid, u: Vid)
    requires w in SortedScc.Component(g, v) && !SameScc(g.EdgeSet(), w, u)
    ensures u !in SortedScc.Component(g, v)
  {
    hide Reach;
    SameComponent(g, v, w, u);
  }

  lemma FireComWhole(x: Site, v: Vid, scc: seq<Vid>)
    requires WholeComponents(x) && Enabled(x, FireCom(v, scc)) && !x.Of(v).commit
    requires Distinct(scc) && forall a :: a in scc <==> a in SortedScc.Component(x.g, v)
    ensures WholeComponents(Next(x, FireCom(v, scc)))
  {
    hide SortedScc.Component, Fresh, InRes, Committing, IsSortedScc, Site.Of;
    var x' := Next(x, FireCom(v, scc));
    FreshIn(x, scc);
    forall w, u | w in x'.order && u in SortedScc.Component(x.g, w) ensures x'.Of(u).commit {
      if w in x.order {
        WholeAt(x, w, u);
        CommitStays(x, FireCom(v, scc), u);
      } else {
        SameComponent(x.g, v, w, u);
        CommittedNow(x, v, scc, u);
      }
    }
  }

  lemma CommittedNow(x: Site, v: Vid, scc: seq<Vid>, u: Vid)
    requires Enabled(x, FireCom(v, scc)) && !x.Of(v).commit && u in scc
    ensures Next(x, FireCom(v, scc)).Of(u).commit
  {
    hide IsSortedScc, Fresh, InRes;
    CommittingOf(x, scc, u);
  }

  lemma FireComSettled(x: Site, v: Vid, scc: seq<Vid>)
    requires Inv(x) && Settled(x) && Enabled(x, FireCom(v, scc))
    ensures Settled(Next(x, FireCom(v, scc)))
  {
    hide AncestorsFirst, SortedScc.Component, Ancestors.NearestAncestors, Fresh, InRes, Committing, IsSortedScc;
    hide Awaited;
    hide WholeComponents, WaitsOk, StagesOk;
    var x' := Next(x, FireCom(v, scc));
    FiredMeansDone(x, Com, v);
    if !x.Of(v).commit {
      SortedIsComponent(x.g, v, scc);
      FreshIn(x, scc);
      OrderGrows(x, v, Fresh(x, scc));
      FireComWhole(x, v, scc);
      forall w | w in x'.order ensures Awaited(x', w) {
        StillAwaited(x, x', v, scc, w);
      }
    } else {
      WholeStays(x, FireCom(v, scc));
      forall w | w in x'.order ensures Awaited(x', w) {
        StillAwaited(x, x', v, [], w);
      }
    }
  }

  lemma SortedIsComponent(g: Graph, v: Vid, scc: seq<Vid>)
    requires IsSortedScc(g, v, scc)
    ensures Distinct(scc) && forall a :: a in scc <==> a in SortedScc.Component(g, v)
  {
  }

  lemma StillAwaited(x: Site, x': Site, v: Vid, scc: seq<Vid>, w: Vid)
    requires x'.g == x.g && x.com.Keys <= x'.com.Keys && v in x'.com
    requires Awaited(x, w) || (w in scc && forall a :: a in scc ==> a in SortedScc.Component(x.g, v))
    ensures Awaited(x', w)
  {
    hide SortedScc.Component;
    if Awaited(x, w) {
      var u :| u in x.com && w in SortedScc.Component(x.g, u);
      assert u in x'.com;
    }
  }

  // ---- the other steps ----

  lemma LearnSettled(x: Site, v: Vid, st: Status)
    requires Settled(x)
    ensures Settled(Next(x, Learn(v, st)))
  {
    hide Reach, SortedScc.Component, Graph.EdgeSet, Ancestors.NearestAncestors, Awaited;
    var x' := Next(x, Learn(v, st));
    forall w | w in x.order ensures Awaited(x', w) {
      SameAwaited(x, x', w);
    }
    forall j: nat, u: Vid | j < |x.order| && ReachPast(x.g.EdgeSet(), x'.told, u, x.order[j]) &&
                            !SameScc(x.g.EdgeSet(), x.order[j], u)
      ensures u in x.order[..j]
    {
      PastMore(x.g.EdgeSet(), x.told, x'.told, u, x.order[j]);
    }
    WholeStays(x, Learn(v, st));
  }

  lemma SameAwaited(x: Site, x': Site, w: Vid)
    requires Awaited(x, w) && x'.g == x.g && x.com.Keys <= x'.com.Keys
    ensures Awaited(x', w)
  {
    hide SortedScc.Component;
    var v :| v in x.com && w in SortedScc.Component(x.g, v);
    assert v in x'.com;
  }

  lemma PastMore(es: Edges, told: set<Vid>, told': set<Vid>, a: Vid, b: Vid)
    requires told <= told' && ReachPast(es, told', a, b)
    ensures ReachPast(es, told, a, b)
  {
    var p :| IsPath(es, p, a, b) && Avoids(p, told');
    assert Avoids(p, told);
  }

  lemma WholeAt(x: Site, v: Vid, u: Vid)
    requires WholeComponents(x) && v in x.order && u in SortedScc.Component(x.g, v)
    ensures x.Of(u).commit
  {
  }

  lemma CommitStays(x: Site, s: Step, u: Vid)
    requires Enabled(x, s) && x.Of(u).commit
    ensures Next(x, s).Of(u).commit
  {
    hide IsSortedScc, OpenAncestors, Ancestors.NearestAncestors, Fresh, InRes;
  }

  /** Commits stay, so a step that adds none to the order and keeps the graph keeps components whole. */
  lemma WholeStays(x: Site, s: Step)
    requires WholeComponents(x) && Enabled(x, s) && Next(x, s).g == x.g && Next(x, s).order == x.order
    ensures WholeComponents(Next(x, s))
  {
    hide Next, Enabled, SortedScc.Component, Site.Of;
    forall v, u | v in x.order && u in SortedScc.Component(x.g, v) ensures Next(x, s).Of(u).commit {
      WholeAt(x, v, u);
      CommitStays(x, s, u);
    }
  }

  lemma PlainFrame(x: Site, s: Step)
    requires Enabled(x, s) && !s.Grow? && !s.Learn? && !s.FireCom?
    ensures var x' := Next(x, s);
            && x'.g == x.g && x'.order == x.order && x'.told == x.told && x.com.Keys <= x'.com.Keys
            && (x.fin.Keys <= x.g.Vertices() ==> x'.fin.Keys <= x'.g.Vertices())
  {
    hide IsSortedScc, OpenAncestors, Ancestors.NearestAncestors, Fresh, InRes, Committing;
  }

  lemma FiringVertex(x: Site, v: Vid)
    requires Enabled(x, FireFin(v)) && x.fin.Keys <= x.g.Vertices()
    ensures v in x.g.Vertices()
  {
  }

  /** Steps that neither commit nor learn nor grow. */
  lemma PlainSettled(x: Site, s: Step)
    requires Inv(x) && Settled(x) && Enabled(x, s) && !s.Grow? && !s.Learn? && !s.FireCom?
    ensures Settled(Next(x, s))
  {
    hide AncestorsFirst, Ancestors.NearestAncestors, Awaited, SortedScc.Component, Next, Enabled, Inv, WholeComponents;
    var x' := Next(x, s);
    PlainFrame(x, s);
    forall w | w in x.order ensures Awaited(x', w) {
      SameAwaited(x, x', w);
    }
    forall v | v in x'.com ensures x'.com[v].need == Ancestors.NearestAncestors(x.g, v) && v in x.g.Vertices() {
      NeedStays(x, s, v);
      if v !in x.com { FiringVertex(x, v); }
    }
    WholeStays(x, s);
  }

  lemma StepSettled(x: Site, s: Step)
    requires Inv(x) && Settled(x) && Enabled(x, s) && (s.Grow? ==> Quiet(x, s.g))
    ensures Settled(Next(x, s))
  {
    hide Inv, Settled, Quiet;
    match s
    case Grow(g) => GrowSettled(x, g);
    case Learn(v, st) => LearnSettled(x, v, st);
    case FireCom(v, scc) => FireComSettled(x, v, scc);
    case _ => PlainSettled(x, s);
  }

  lemma {:induction false} RunSettled(x: Site, ss: seq<Step>, x': Site)
    requires Inv(x) && Settled(x) && Run(x, ss, x') && QuietGrowth(x, ss)
    ensures Settled(x')
    decreases |ss|
  {
    hide Inv, Settled, Enabled, Next, Quiet;
    if ss != [] {
      StepKeepsInv(x, ss[0]);
      StepSettled(x, ss[0]);
      RunSettled(Next(x, ss[0]), ss[1..], x');
    }
  }

  /**
    As long as no new edges lead into the past of transactions that wait for their ancestors to
    commit, the commit order is a linear extension of the order of components: whatever reaches a
    vertex committed here from another component, past the vertices whose commit was learned from
    other servers, was committed here before it; and components commit whole.
   */
  lemma CommitOrderIsLinearExtension(x0: Site, ss: seq<Step>, x: Site)
    requires Initial(x0) && Run(x0, ss, x) && QuietGrowth(x0, ss)
    ensures AncestorsFirst(x.g, x.order, x.told) && WholeComponents(x)
  {
    hide Run, QuietGrowth, AncestorsFirst, WholeComponents, Inv;
    InitialInv(x0);
    NothingCommitted(x0);
    RunSettled(x0, ss, x);
  }

  lemma NothingCommitted(x: Site)
    requires x.order == []
    ensures AncestorsFirst(x.g, x.order, x.told) && WholeComponents(x)
  {
  }

  /** If no commit was learned, this is the order of the whole past. */
  lemma NothingLearned(g: Graph, order: seq<Vid>, j: nat, u: Vid)
    requires AncestorsFirst(g, order, {}) && j < |order|
    requires Reach(g.EdgeSet(), u, order[j]) && !SameScc(g.EdgeSet(), order[j], u)
    ensures u in order[..j]
  {
    hide Graph.EdgeSet;
    var p :| IsPath(g.EdgeSet(), p, u, order[j]);
    assert Avoids(p, {});
  }
}
