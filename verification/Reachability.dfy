/** Reachability in a finite directed graph given as a set of edges. */
module Reachability {

  type Vid = nat
  type Edges = set<(Vid, Vid)>

  ghost predicate IsPath(es: Edges, p: seq<Vid>, a: Vid, b: Vid)
  {
    && |p| > 0 && p[0] == a && p[|p| - 1] == b
    && forall i :: 0 <= i < |p| - 1 ==> (p[i], p[i + 1]) in es
  }

  /** `b` can be reached from `a` by zero or more edges. */
  ghost predicate Reach(es: Edges, a: Vid, b: Vid)
  {
    exists p :: IsPath(es, p, a, b)
  }

  /** `b` can be reached from `a` by one or more edges. */
  ghost predicate ReachPlus(es: Edges, a: Vid, b: Vid)
  {
    exists p :: |p| > 1 && IsPath(es, p, a, b)
  }

  ghost predicate SameScc(es: Edges, a: Vid, b: Vid)
  {
    Reach(es, a, b) && Reach(es, b, a)
  }

  /** No edge leaves `c`. */
  ghost predicate Closed(es: Edges, c: set<Vid>)
  {
    forall e :: e in es && e.0 in c ==> e.1 in c
  }

  lemma ReachRefl(es: Edges, a: Vid)
    ensures Reach(es, a, a)
  {
    assert IsPath(es, [a], a, a);
  }

  lemma ReachEdge(es: Edges, a: Vid, b: Vid)
    requires (a, b) in es
    ensures Reach(es, a, b)
  {
    assert IsPath(es, [a, b], a, b);
  }

  lemma ReachTrans(es: Edges, a: Vid, b: Vid, c: Vid)
    requires Reach(es, a, b) && Reach(es, b, c)
    ensures Reach(es, a, c)
  {
    var p :| IsPath(es, p, a, b);
    var q :| IsPath(es, q, b, c);
    var r := p + q[1..];
    assert forall i :: |p| <= i < |r| ==> r[i] == q[i - |p| + 1];
    forall i | 0 <= i < |r| - 1
      ensures (r[i], r[i + 1]) in es
    {
      if i >= |p| - 1 {
        var j := i - |p| + 1;
        assert r[i] == q[j];
        assert (q[j], q[j + 1]) in es;
      }
    }
    assert IsPath(es, r, a, c);
  }

  lemma {:induction false} PathStaysInside(es: Edges, c: set<Vid>, p: seq<Vid>, k: nat)
    requires Closed(es, c) && |p| > 0 && p[0] in c && k < |p|
    requires forall i :: 0 <= i < |p| - 1 ==> (p[i], p[i + 1]) in es
    ensures p[k] in c
  {
    if k > 0 {
      PathStaysInside(es, c, p, k - 1);
      assert (p[k - 1], p[k - 1 + 1]) in es;
      var e := (p[k - 1], p[k]);
      assert e in es && e.0 in c;
    }
  }

  /** A closed set cannot be left. */
  lemma ReachStaysInside(es: Edges, c: set<Vid>, a: Vid, b: Vid)
    requires Closed(es, c) && a in c && Reach(es, a, b)
    ensures b in c
  {
    var p :| IsPath(es, p, a, b);
    PathStaysInside(es, c, p, |p| - 1);
  }
}
