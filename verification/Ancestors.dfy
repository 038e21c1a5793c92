/** Ancestor searches of `Graph` and `DepGraph`. */
module Ancestors {
  import opened Reachability
  import opened DepGraph
  import Tarjan
  import SortedScc

  /** The edges of `g` whose source is not in `stop`. */
  ghost function OpenEdges(g: Graph, stop: set<Vid>): Edges {
    set e | e in g.EdgeSet() && e.0 !in stop
  }

  lemma OpenEdge(g: Graph, stop: set<Vid>, a: Vid, b: Vid)
    ensures (a, b) in OpenEdges(g, stop) <==> g.HasTo(a, b) && a !in stop
  {
    g.InEdgeSet(a, b);
  }

  /** Adding sources one at a time: reaching through one more edge. */
  lemma ReachByEdge(es: Edges, a: Vid, b: Vid, c: Vid)
    requires (a, b) in es && Reach(es, b, c)
    ensures Reach(es, a, c)
  {
    hide Reach;
    ReachEdge(es, a, b);
    ReachTrans(es, a, b, c);
  }

  lemma {:induction false} PathEndsInside(es: Edges, c: set<Vid>, p: seq<Vid>, k: nat)
    requires |p| > 0 && k < |p| && p[|p| - 1] in c
    requires forall i :: 0 <= i < |p| - 1 ==> (p[i], p[i + 1]) in es
    requires forall e :: e in es && e.1 in c ==> e.0 in c
    ensures p[k] in c
    decreases |p| - k
  {
    if k < |p| - 1 {
      PathEndsInside(es, c, p, k + 1);
      var e := (p[k], p[k + 1]);
      assert e in es && e.1 in c;
    }
  }

  /** A set that contains the source of every edge into it contains everything that reaches it. */
  lemma BackwardClosed(es: Edges, c: set<Vid>, a: Vid, b: Vid)
    requires b in c && Reach(es, a, b)
    requires forall e :: e in es && e.1 in c ==> e.0 in c
    ensures a in c
  {
    var p :| IsPath(es, p, a, b);
    PathEndsInside(es, c, p, 0);
  }

  /** Every parent of `v` that is not in `stop` was found. */
  ghost predicate Expanded(g: Graph, stop: set<Vid>, found: set<Vid>, v: Vid) {
    forall p :: g.HasTo(p, v) && p !in stop ==> p in found
  }

  /** Everything found reaches the source, and what is not expanded waits on the stack. */
  ghost predicate Searching(g: Graph, stop: set<Vid>, source: Vid, found: set<Vid>, stack: seq<Vid>)
  {
    && found <= g.Vertices()
    && (forall x :: x in found ==> x !in stop && Reach(OpenEdges(g, stop), x, source))
    && (forall x :: x in stack ==> x in found || x == source)
    && (forall x :: x in found || x == source ==> x in stack || Expanded(g, stop, found, x))
  }

  lemma SearchDone(g: Graph, stop: set<Vid>, source: Vid, found: set<Vid>)
    requires g.Valid() && source in g.Vertices()
    requires Searching(g, stop, source, found, [])
    ensures forall x :: x != source ==> (x in found <==> Reach(OpenEdges(g, stop), x, source))
  {
    hide Reach;
    var es, c := OpenEdges(g, stop), found + {source};
    forall e | e in es && e.1 in c ensures e.0 in c {
      assert e == (e.0, e.1);
      OpenEdge(g, stop, e.0, e.1);
      assert Expanded(g, stop, found, e.1);
    }
    forall x | x != source && Reach(es, x, source) ensures x in found {
      BackwardClosed(es, c, x, source);
    }
  }

  /** Expanding one vertex taken from the stack: the inner loop of `find_txn_anc_opt`. */
  method Expand(g: Graph, stop: set<Vid>, source: Vid, v: Vid, found: set<Vid>, stack: seq<Vid>)
    returns (found': set<Vid>, stack': seq<Vid>)
    requires g.Valid() && source in g.Vertices() && (v in found || v == source)
    requires Searching(g, stop, source, found, stack + [v])
    ensures Searching(g, stop, source, found', stack')
    ensures found <= found' && (found' == found ==> stack' == stack)
  {
    hide Reach, OpenEdges;
    found', stack' := found, stack;
    var es := OpenEdgesOf(g, stop);
    assert Reach(es, v, source) by { ReachRefl(es, source); }
    var todo := g.from[v].Keys;
    while todo != {}
      invariant todo <= g.from[v].Keys && found <= found' <= g.Vertices()
      invariant found' == found ==> stack' == stack
      invariant forall x :: x in found' ==> x !in stop && Reach(es, x, source)
      invariant forall x :: x in stack' ==> x in found' || x == source
      invariant forall x :: x in stack ==> x in stack'
      invariant forall x :: x in found' && x !in found ==> x in stack'
      invariant forall p :: g.HasFrom(p, v) && p !in todo && p !in stop ==> p in found'
    {
      var parent :| parent in todo;
      assert g.HasFrom(parent, v) && g.HasTo(parent, v);
      todo := todo - {parent};
      if parent !in stop && parent !in found' {
        OpenEdge(g, stop, parent, v);
        ReachByEdge(es, parent, v, source);
        found' := found' + {parent};
        stack' := stack' + [parent];
      }
    }
    assert Expanded(g, stop, found', v) by {
      assert forall p :: g.HasTo(p, v) ==> g.HasFrom(p, v);
    }
    forall x | x in found' || x == source ensures x in stack' || Expanded(g, stop, found', x) {
      if x !in stack' && x != v {
        assert x in found || x == source;
        assert x !in stack + [v];
        assert Expanded(g, stop, found, x);
      }
    }
  }

  ghost function OpenEdgesOf(g: Graph, stop: set<Vid>): (es: Edges)
    ensures es == OpenEdges(g, stop)
  {
    OpenEdges(g, stop)
  }

  /**
    `find_txn_anc_opt`: exactly the uncommitted vertices, other than the source,
    that reach it through uncommitted vertices.
   */
  method FindTxnAncOpt(g: Graph, committed: set<Vid>, source: Vid) returns (retSet: set<Vid>)
    requires g.Valid() && source in g.Vertices()
    ensures forall x :: x in retSet <==> x != source && Reach(OpenEdges(g, committed), x, source)
    ensures retSet <= g.Vertices() && retSet !! committed
  {
    hide Reach, OpenEdges;
    retSet := {};
    var searchStack := [source];
    while searchStack != []
      invariant Searching(g, committed, source, retSet, searchStack)
      decreases g.Vertices() - retSet, |searchStack|
    {
      var v := searchStack[|searchStack| - 1];
      assert searchStack == searchStack[..|searchStack| - 1] + [v];
      searchStack := searchStack[..|searchStack| - 1];
      ghost var before := retSet;
      retSet, searchStack := Expand(g, committed, source, v, retSet, searchStack);
      assert before != retSet ==> g.Vertices() - retSet < g.Vertices() - before;
    }
    SearchDone(g, committed, source, retSet);
    retSet := retSet - {source};
  }

  /** `sub_txn_graph`: the vertices sent back with a start reply. */
  method SubTxnGraph(g: Graph, committed: set<Vid>, tid: Vid) returns (retSet: set<Vid>)
    requires g.Valid() && tid in g.Vertices()
    ensures forall x :: x in retSet <==> Reach(OpenEdges(g, committed), x, tid)
  {
    hide Reach, OpenEdges;
    retSet := FindTxnAncOpt(g, committed, tid);
    ReachRefl(OpenEdges(g, committed), tid);
    retSet := retSet + {tid};
  }

  /** `find_ancestor`: everything that reaches the vertex, except the vertex itself. */
  method FindAncestor(g: Graph, vertex: Vid) returns (ret: set<Vid>)
    requires g.Valid() && vertex in g.Vertices()
    ensures forall x :: x in ret <==> x != vertex && Reach(g.EdgeSet(), x, vertex)
  {
    hide Reach;
    ret := {};
    var togo := [vertex];
    ghost var es := g.EdgeSet();
    ReachRefl(es, vertex);
    while togo != []
      invariant ret <= g.Vertices()
      invariant forall x :: x in ret ==> Reach(es, x, vertex)
      invariant forall x :: x in togo ==> x in g.Vertices() && Reach(es, x, vertex)
      invariant vertex in ret || vertex in togo
      invariant forall a, b :: g.HasTo(a, b) && b in ret ==> a in ret || a in togo
      decreases g.Vertices() - ret, |togo|
    {
      var v := togo[|togo| - 1];
      ghost var togo0, ret0 := togo, ret;
      assert togo == togo[..|togo| - 1] + [v];
      togo := togo[..|togo| - 1];
      if v !in ret {
        ret := ret + {v};
        togo := PushParents(g, v, ret, togo);
        forall x | x in togo ensures x in g.Vertices() && Reach(es, x, vertex) {
          if g.HasTo(x, v) {
            g.InEdgeSet(x, v);
            ReachByEdge(es, x, v, vertex);
          }
        }
        assert g.Vertices() - ret < g.Vertices() - ret0;
      }
    }
    forall e | e in es && e.1 in ret ensures e.0 in ret {
      assert e == (e.0, e.1);
      g.InEdgeSet(e.0, e.1);
    }
    forall x | Reach(es, x, vertex) ensures x in ret {
      BackwardClosed(es, ret, x, vertex);
    }
    ret := ret - {vertex};
  }

  method PushParents(g: Graph, v: Vid, ret: set<Vid>, togo: seq<Vid>) returns (togo': seq<Vid>)
    requires g.Valid() && v in g.Vertices()
    ensures togo <= togo' && forall x :: x in togo ==> x in togo'
    ensures forall x :: x in togo' ==> x in togo || (x in g.Vertices() && g.HasTo(x, v))
    ensures forall p :: g.HasTo(p, v) ==> p in ret || p in togo'
  {
    togo' := togo;
    var todo := g.from[v].Keys;
    while todo != {}
      invariant todo <= g.from[v].Keys && togo <= togo'
      invariant forall x :: x in togo ==> x in togo'
      invariant forall x :: x in togo' ==> x in togo || (x in g.Vertices() && g.HasTo(x, v))
      invariant forall p :: g.HasFrom(p, v) && p !in todo ==> p in ret || p in togo'
    {
      var p :| p in todo;
      assert g.HasFrom(p, v) && g.HasTo(p, v);
      todo := todo - {p};
      if p !in ret {
        togo' := togo' + [p];
      }
    }
    assert forall p :: g.HasTo(p, v) ==> g.HasFrom(p, v);
  }

  /** `find_scc_ancestor`: what reaches the component of the vertex from outside. */
  method FindSccAncestor(g: Graph, vertex: Vid) returns (ret: set<Vid>)
    requires g.Valid() && vertex in g.Vertices()
    ensures forall x :: x in ret <==> Reach(g.EdgeSet(), x, vertex) && !Reach(g.EdgeSet(), vertex, x)
  {
    hide Reach;
    ret := FindAncestor(g, vertex);
    var scc := Tarjan.FindScc(g, vertex);
    ReachRefl(g.EdgeSet(), vertex);
    ret := ret - set x | x in scc;
  }

  /** A path between two vertices of one component never leaves it. */
  lemma InnerPath(g: Graph, committed: set<Vid>, v: Vid, a: Vid, b: Vid, p: seq<Vid>, k: nat)
    requires SameScc(g.EdgeSet(), v, a) && SameScc(g.EdgeSet(), v, b)
    requires forall x :: SameScc(g.EdgeSet(), v, x) ==> x !in committed
    requires IsPath(g.EdgeSet(), p, a, b) && k < |p|
    ensures Reach(OpenEdges(g, committed), p[k], b)
    decreases |p| - k
  {
    var es, open := g.EdgeSet(), OpenEdges(g, committed);
    hide Reach, OpenEdges, Graph.EdgeSet;
    if k == |p| - 1 {
      ReachRefl(open, b);
    } else {
      InnerPath(g, committed, v, a, b, p, k + 1);
      assert (p[k], p[k + 1]) in es;
      PathParts(es, p, a, b, k);
      ReachTrans(es, v, a, p[k]);
      ReachTrans(es, p[k], b, v);
      assert SameScc(es, v, p[k]);
      g.InEdgeSet(p[k], p[k + 1]);
      OpenEdge(g, committed, p[k], p[k + 1]);
      ReachByEdge(open, p[k], p[k + 1], b);
    }
  }

  lemma PathParts(es: Edges, p: seq<Vid>, a: Vid, b: Vid, k: nat)
    requires IsPath(es, p, a, b) && k < |p|
    ensures Reach(es, a, p[k]) && Reach(es, p[k], b)
  {
    assert IsPath(es, p[..k + 1], a, p[k]);
    assert IsPath(es, p[k..], p[k], b);
  }

  /** Uncommitted members of one component have the same uncommitted ancestors. */
  lemma SameOpenAncestors(g: Graph, committed: set<Vid>, v: Vid, a: Vid, b: Vid, x: Vid)
    requires SameScc(g.EdgeSet(), v, a) && SameScc(g.EdgeSet(), v, b)
    requires forall y :: SameScc(g.EdgeSet(), v, y) ==> y !in committed
    requires Reach(OpenEdges(g, committed), x, a)
    ensures Reach(OpenEdges(g, committed), x, b)
  {
    var es := g.EdgeSet();
    assert Reach(es, a, b) by {
      hide Reach;
      ReachTrans(es, a, v, b);
    }
    var p :| IsPath(es, p, a, b);
    InnerPath(g, committed, v, a, b, p, 0);
    ReachTrans(OpenEdges(g, committed), x, a, b);
  }

  /**
    `find_txn_scc_anc_opt`: it searches from the first vertex of the component only.
    With no committed member this is the search from any member.
   */
  method FindTxnSccAncOpt(g: Graph, committed: set<Vid>, txnId: Vid) returns (retSet: set<Vid>, ghost first: Vid)
    requires g.Valid() && txnId in g.Vertices()
    ensures SameScc(g.EdgeSet(), txnId, first)
    ensures forall x :: x in retSet <==>
                          !SameScc(g.EdgeSet(), txnId, x) && Reach(OpenEdges(g, committed), x, first)
    ensures (forall y :: SameScc(g.EdgeSet(), txnId, y) ==> y !in committed) ==>
              forall x, m :: SameScc(g.EdgeSet(), txnId, m) ==>
                (x in retSet <==> !SameScc(g.EdgeSet(), txnId, x) && Reach(OpenEdges(g, committed), x, m))
  {
    hide Reach, OpenEdges;
    var scc := Tarjan.FindScc(g, txnId);
    assert txnId in scc by { ReachRefl(g.EdgeSet(), txnId); }
    var v := scc[0];
    first := v;
    assert v in scc;
    SortedScc.ReachedIsVertex(g, txnId, v);
    retSet := FindTxnAncOpt(g, committed, v);
    retSet := retSet - set x | x in scc;
    if forall y :: SameScc(g.EdgeSet(), txnId, y) ==> y !in committed {
      forall x, m | SameScc(g.EdgeSet(), txnId, m)
        ensures x in retSet <==> !SameScc(g.EdgeSet(), txnId, x) && Reach(OpenEdges(g, committed), x, m)
      {
        if Reach(OpenEdges(g, committed), x, m) { SameOpenAncestors(g, committed, txnId, m, v, x); }
        if Reach(OpenEdges(g, committed), x, v) { SameOpenAncestors(g, committed, txnId, v, m, x); }
      }
    }
  }

  /** `find_txn_scc_nearest_anc`: the parents of the component that lie outside it. */
  method FindTxnSccNearestAnc(g: Graph, v: Vid) returns (retSet: set<Vid>)
    requires g.Valid() && v in g.Vertices()
    ensures retSet == NearestAncestors(g, v)
  {
    hide Reach, SameScc;
    var scc := Tarjan.FindScc(g, v);
    forall x | x in scc ensures x in SortedScc.Component(g, v) { SortedScc.InComponent(g, v, x); }
    retSet := {};
    for i := 0 to |scc|
      invariant forall p :: p in retSet <==> exists k :: 0 <= k < i && g.HasFrom(p, scc[k])
    {
      assert scc[i] in scc;
      retSet := retSet + g.from[scc[i]].Keys;
    }
    retSet := retSet - set x | x in scc;
    forall p ensures p in retSet <==> p in NearestAncestors(g, v) {
      if p in NearestAncestors(g, v) {
        var m :| m in SortedScc.Component(g, v) && g.HasTo(p, m);
        var k :| 0 <= k < |scc| && scc[k] == m;
        assert g.HasFrom(p, scc[k]);
      }
      if p in retSet {
        var k :| 0 <= k < |scc| && g.HasFrom(p, scc[k]);
        assert scc[k] in scc && g.HasTo(p, scc[k]);
      }
    }
  }

  ghost function NearestAncestors(g: Graph, v: Vid): set<Vid> {
    set p | p in g.Vertices() && p !in SortedScc.Component(g, v) &&
            exists m :: m in SortedScc.Component(g, v) && g.HasTo(p, m)
  }
}
