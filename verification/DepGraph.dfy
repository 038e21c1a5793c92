/** Labelled dependency graph: the value of a `Graph<TxnInfo>` (vertices with `to_` and `from_` maps). */
module DepGraph {
  import opened Reachability

  /** Edge label bits: EDGE_D = 1 (deferred), EDGE_I = 2 (immediate). */
  type Label = nat

  datatype Graph = Graph(to: map<Vid, map<Vid, Label>>, from: map<Vid, map<Vid, Label>>) {

    predicate HasTo(a: Vid, b: Vid) {
      a in to && b in to[a]
    }

    predicate HasFrom(a: Vid, b: Vid) {
      b in from && a in from[b]
    }

    /** `from_` mirrors `to_`, and every edge stays inside the graph. */
    ghost predicate Valid() {
      && to.Keys == from.Keys
      && (forall a, b :: HasTo(a, b) <==> HasFrom(a, b))
      && (forall a, b :: HasTo(a, b) ==> b in to && to[a][b] == from[b][a])
    }

    function Vertices(): set<Vid> {
      to.Keys
    }

    function EdgeSet(): Edges {
      set a, b | a in to && b in to[a] :: (a, b)
    }

    lemma InEdgeSet(a: Vid, b: Vid)
      ensures (a, b) in EdgeSet() <==> HasTo(a, b)
    {
    }
  }

  /** No edge leaves the vertices of a graph. */
  lemma GraphClosed(g: Graph)
    requires g.Valid()
    ensures Closed(g.EdgeSet(), g.Vertices())
  {
    hide Graph.EdgeSet;
    forall e | e in g.EdgeSet() && e.0 in g.Vertices() ensures e.1 in g.Vertices() {
      assert e == (e.0, e.1);
      g.InEdgeSet(e.0, e.1);
    }
  }
}
