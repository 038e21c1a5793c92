/**
  The order inside a component: one commit callback commits the open members in the order in which
  `sorted_scc` wrote them, and deferred pieces run in commit order.
 */
module CommitOrder {
  import opened Common
  import opened Reachability
  import opened DepGraph
  import opened CommitBarrier
  import SortedScc
  import Ancestors

  // ---- before and after in sequences ----

  lemma BeforeAt(s: seq<Vid>, i: nat, j: nat)
    requires i < j < |s|
    ensures SortedScc.Before(s, s[i], s[j])
  {
  }

  lemma BeforeIn(p: seq<Vid>, q: seq<Vid>, a: Vid, b: Vid)
    requires SortedScc.Before(p, a, b) || (a in p && b in q) || SortedScc.Before(q, a, b)
    ensures SortedScc.Before(p + q, a, b)
  {
    if SortedScc.Before(p, a, b) {
      var i, j :| 0 <= i < j < |p| && p[i] == a && p[j] == b;
      BeforeAt(p + q, i, j);
    } else if SortedScc.Before(q, a, b) {
      var i, j :| 0 <= i < j < |q| && q[i] == a && q[j] == b;
      BeforeAt(p + q, |p| + i, |p| + j);
    } else {
      var i :| 0 <= i < |p| && p[i] == a;
      var j :| 0 <= j < |q| && q[j] == b;
      BeforeAt(p + q, i, |p| + j);
    }
  }

  lemma BeforeOf(p: seq<Vid>, q: seq<Vid>, a: Vid, b: Vid)
    requires SortedScc.Before(p + q, a, b)
    ensures SortedScc.Before(p, a, b) || (a in p && b in q) || SortedScc.Before(q, a, b)
  {
    var i, j :| 0 <= i < j < |p + q| && (p + q)[i] == a && (p + q)[j] == b;
    if j < |p| {
      BeforeAt(p, i, j);
    } else if |p| <= i {
      BeforeAt(q, i - |p|, j - |p|);
    } else {
      assert a == p[i] && b == q[j - |p|];
    }
  }

  lemma BeforeBoth(s: seq<Vid>, a: Vid, b: Vid)
    requires SortedScc.Before(s, a, b)
    ensures a in s && b in s && (Distinct(s) ==> a != b && !SortedScc.Before(s, b, a))
  {
  }

  lemma OneFirst(s: seq<Vid>, a: Vid, b: Vid)
    requires a in s && b in s && a != b
    ensures SortedScc.Before(s, a, b) || SortedScc.Before(s, b, a)
  {
    var i :| 0 <= i < |s| && s[i] == a;
    var j :| 0 <= j < |s| && s[j] == b;
    if i < j { BeforeAt(s, i, j); } else { BeforeAt(s, j, i); }
  }

  /** Before in a sequence without its last element, or with it as the later one. */
  lemma BeforeLast(s: seq<Vid>, a: Vid, b: Vid)
    requires SortedScc.Before(s, a, b)
    ensures s != [] && (SortedScc.Before(s[..|s| - 1], a, b) || (a in s[..|s| - 1] && b == s[|s| - 1]))
  {
    var i, j :| 0 <= i < j < |s| && s[i] == a && s[j] == b;
    if j < |s| - 1 {
      BeforeAt(s[..|s| - 1], i, j);
    } else {
      assert s[..|s| - 1][i] == a;
    }
  }

  // ---- one callback ----

  lemma {:induction false} FreshInOrder(x: Site, scc: seq<Vid>, a: Vid, b: Vid)
    requires SortedScc.Before(scc, a, b) && !x.Of(a).commit && !x.Of(b).commit
    ensures SortedScc.Before(Fresh(x, scc), a, b)
    decreases |scc|
  {
    hide SortedScc.Before;
    BeforeLast(scc, a, b);
    var n := |scc| - 1;
    var last := if x.Of(scc[n]).commit then [] else [scc[n]];
    if SortedScc.Before(scc[..n], a, b) {
      FreshInOrder(x, scc[..n], a, b);
    } else {
      OpenIsFresh(x, scc[..n], a);
    }
    BeforeIn(Fresh(x, scc[..n]), last, a, b);
  }

  lemma {:induction false} OpenIsFresh(x: Site, scc: seq<Vid>, a: Vid)
    requires a in scc && !x.Of(a).commit
    ensures a in Fresh(x, scc)
    decreases |scc|
  {
    var n := |scc| - 1;
    if a != scc[n] {
      OpenIsFresh(x, scc[..n], a);
    }
  }

  lemma {:induction false} RunInOrder(res: set<Vid>, vs: seq<Vid>, a: Vid, b: Vid)
    requires SortedScc.Before(vs, a, b) && a in res && b in res
    ensures SortedScc.Before(InRes(res, vs), a, b)
    decreases |vs|
  {
    hide SortedScc.Before;
    BeforeLast(vs, a, b);
    var n := |vs| - 1;
    if SortedScc.Before(vs[..n], a, b) {
      RunInOrder(res, vs[..n], a, b);
    } else {
      FinishedRuns(res, vs[..n], a);
    }
    BeforeIn(InRes(res, vs[..n]), if vs[n] in res then [vs[n]] else [], a, b);
  }

  lemma {:induction false} FinishedRuns(res: set<Vid>, vs: seq<Vid>, a: Vid)
    requires a in vs && a in res
    ensures a in InRes(res, vs)
    decreases |vs|
  {
    var n := |vs| - 1;
    if a != vs[n] {
      FinishedRuns(res, vs[..n], a);
    }
  }

  // ---- deferred pieces run in commit order ----

  ghost predicate SameOrder(x: Site) {
    forall a, b :: a in x.ran && b in x.ran && SortedScc.Before(x.order, a, b) ==> SortedScc.Before(x.ran, a, b)
  }

  lemma CommitSameOrder(x: Site, v: Vid, scc: seq<Vid>)
    requires CommitsOk(x) && SameOrder(x) && Enabled(x, FireCom(v, scc)) && !x.Of(v).commit
    ensures SameOrder(Next(x, FireCom(v, scc)))
  {
    hide SortedScc.Before, SortedScc.Component, SortedScc.Immediate, Fresh, InRes, Committing;
    var x', f := Next(x, FireCom(v, scc)), Fresh(x, scc);
    FreshIn(x, scc);
    InResIn(x.res, f);
    var r := InRes(x.res, f);
    forall a, b | a in x'.ran && b in x'.ran && SortedScc.Before(x'.order, a, b)
      ensures SortedScc.Before(x'.ran, a, b)
    {
      BeforeOf(x.order, f, a, b);
      if SortedScc.Before(x.order, a, b) {
        BeforeBoth(x.order, a, b);
      } else if SortedScc.Before(f, a, b) {
        BeforeBoth(f, a, b);
        RunInOrder(x.res, f, a, b);
      }
      BeforeIn(x.ran, r, a, b);
    }
  }

  lemma StepSameOrder(x: Site, s: Step)
    requires Inv(x) && SameOrder(x) && Enabled(x, s)
    ensures SameOrder(Next(x, s))
  {
    hide SortedScc.Before, IsSortedScc, OpenAncestors, Ancestors.NearestAncestors, Fresh, InRes, Committing, WaitsOk;
    if s.FireCom? && !x.Of(s.v).commit {
      CommitSameOrder(x, s.v, s.scc);
    }
  }

  lemma {:induction false} RunSameOrder(x: Site, ss: seq<Step>, x': Site)
    requires Inv(x) && SameOrder(x) && Run(x, ss, x')
    ensures Inv(x') && SameOrder(x')
    decreases |ss|
  {
    hide Inv, SameOrder, Enabled, Next;
    if ss != [] {
      StepKeepsInv(x, ss[0]);
      StepSameOrder(x, ss[0]);
      RunSameOrder(Next(x, ss[0]), ss[1..], x');
    }
  }

  /** Over any run, what ran, ran in the order of the commits. */
  lemma RanInCommitOrder(x0: Site, ss: seq<Step>, x: Site, a: Vid, b: Vid)
    requires Initial(x0) && Run(x0, ss, x) && a in x.ran && b in x.ran
    ensures SortedScc.Before(x.ran, a, b) <==> SortedScc.Before(x.order, a, b)
  {
    hide Run, SortedScc.Before;
    InitialInv(x0);
    RunSameOrder(x0, ss, x);
    if SortedScc.Before(x.ran, a, b) {
      BeforeBoth(x.ran, a, b);
      OneFirst(x.order, a, b);
    }
  }

  // ---- members of one component ----

  lemma OrderStep(x: Site, s: Step)
    requires Enabled(x, s)
    ensures x.order <= Next(x, s).order
  {
    hide IsSortedScc, OpenAncestors, Ancestors.NearestAncestors, Fresh, InRes, Committing;
  }

  lemma {:induction false} OrderGrowsOnly(x: Site, ss: seq<Step>, x': Site)
    requires Run(x, ss, x')
    ensures x.order <= x'.order
    decreases |ss|
  {
    hide Enabled, Next;
    if ss != [] {
      OrderStep(x, ss[0]);
      OrderGrowsOnly(Next(x, ss[0]), ss[1..], x');
    }
  }

  lemma {:induction false} RunFrom(x0: Site, ss: seq<Step>, x: Site, i: nat, y: Site)
    requires Run(x0, ss, x) && i <= |ss| && Run(x0, ss[..i], y)
    ensures Run(y, ss[i..], x)
    decreases i
  {
    hide Enabled, Next;
    if i > 0 {
      assert ss[..i][0] == ss[0] && ss[..i][1..] == ss[1..][..i - 1];
      RunFrom(Next(x0, ss[0]), ss[1..], x, i - 1, y);
      assert ss[1..][i - 1..] == ss[i..];
    } else {
      assert ss[..0] == [] && ss[0..] == ss;
    }
  }

  /** In state `y`, at step `i` of the run, the callback of `v` commits its component, of which `a` and `b` are open. */
  ghost predicate CommittedTogether(x0: Site, ss: seq<Step>, i: nat, y: Site, a: Vid, b: Vid) {
    && i < |ss| && Run(x0, ss[..i], y) && ss[i].FireCom? && !y.Of(ss[i].v).commit
    && a in ss[i].scc && b in ss[i].scc && !y.Of(a).commit && !y.Of(b).commit
  }

  /**
    Over any run, the members one callback commits are committed, and run, in the order in which
    `sorted_scc` wrote them ...
   */
  lemma CommittedAsSorted(x0: Site, ss: seq<Step>, x: Site, i: nat, y: Site, a: Vid, b: Vid)
    requires Initial(x0) && Run(x0, ss, x) && CommittedTogether(x0, ss, i, y, a, b)
    requires SortedScc.Before(ss[i].scc, a, b)
    ensures SortedScc.Before(x.order, a, b) && (a in x.ran && b in x.ran ==> SortedScc.Before(x.ran, a, b))
  {
    hide SortedScc.Before, IsSortedScc, OpenAncestors, Ancestors.NearestAncestors, Fresh, InRes, Committing;
    RunFrom(x0, ss, x, i, y);
    var rest := ss[i..];
    assert rest[0] == ss[i];
    var y' := Next(y, ss[i]);
    FreshInOrder(y, ss[i].scc, a, b);
    BeforeIn(y.order, Fresh(y, ss[i].scc), a, b);
    OrderGrowsOnly(y', rest[1..], x);
    BeforeIn(y'.order, x.order[|y'.order|..], a, b);
    assert x.order == y'.order + x.order[|y'.order|..];
    if a in x.ran && b in x.ran {
      RanInCommitOrder(x0, ss, x, a, b);
    }
  }

  /** ... so the source of an immediate edge comes before its target. */
  lemma ImmediateFirst(x0: Site, ss: seq<Step>, x: Site, i: nat, y: Site, a: Vid, b: Vid)
    requires Initial(x0) && Run(x0, ss, x) && CommittedTogether(x0, ss, i, y, a, b) && SortedScc.Immediate(y.g, a, b)
    ensures SortedScc.Before(x.order, a, b) && (a in x.ran && b in x.ran ==> SortedScc.Before(x.ran, a, b))
  {
    hide SortedScc.Before, SortedScc.Component, SortedScc.Immediate, Next, Initial;
    RunFrom(x0, ss, x, i, y);
    assert ss[i..][0] == ss[i];
    CommittedAsSorted(x0, ss, x, i, y, a, b);
  }
}
