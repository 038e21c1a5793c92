/** Tarjan's algorithm as `Graph::strong_connect` and `Graph::find_scc` run it. */
module Tarjan {
  import opened Common
  import opened Reachability
  import opened DepGraph

  ghost function Elems(s: seq<Vid>): set<Vid> {
    set x | x in s
  }

  /**
    What holds between any two steps of the search. `gray` are the vertices whose
    call of strong_connect has not returned; `idx.Keys` without the stack are the
    vertices of components that were already popped.
   */
  ghost predicate Inv(es: Edges, idx: map<Vid, nat>, n: nat, s: seq<Vid>, gray: set<Vid>)
  {
    && (forall x :: x in idx ==> idx[x] < n)
    && (forall x :: x in s ==> x in idx)
    && (forall x :: x in gray ==> x in s)
    && (forall i, j :: 0 <= i < j < |s| ==> idx[s[i]] < idx[s[j]])
    && (forall e :: e in es && e.0 in idx && e.0 !in gray ==> e.1 in idx)
    && Closed(es, idx.Keys - Elems(s))
    && (forall i, j :: 0 <= i <= j < |s| ==> Reach(es, s[i], s[j]))
    && (forall y :: y in s ==> ReachesOlder(es, idx, gray, y))
  }

  /** `y` reaches a vertex of `gray` that was numbered no later than `y`. */
  ghost predicate ReachesOlder(es: Edges, idx: map<Vid, nat>, gray: set<Vid>, y: Vid)
  {
    exists r :: r in gray && r in idx && y in idx && Reach(es, y, r) && idx[r] <= idx[y]
  }

  /** Every edge from the part of `s` above `s0` down into `s0` ends at index `low` or later;
      of the edges of `v` only those to `seen` are considered. */
  ghost predicate Hangs(es: Edges, s0: seq<Vid>, s: seq<Vid>, idx: map<Vid, nat>, low: nat, v: Vid, seen: set<Vid>)
  {
    forall e :: e in es && e.0 in s && e.0 !in s0 && e.1 in s0 && e.1 in idx && (e.0 == v ==> e.1 in seen) ==>
      low <= idx[e.1]
  }

  /** `low` is the index of a vertex of `s` that `v` reaches. */
  ghost predicate LowOk(es: Edges, idx: map<Vid, nat>, s: seq<Vid>, v: Vid, low: nat)
  {
    exists u :: u in s && u in idx && idx[u] == low && Reach(es, v, u)
  }

  /** Invariant of the loop over the edges of `v`, pushed on top of `s0`. */
  ghost predicate LoopInv(es: Edges, idx: map<Vid, nat>, n: nat, s0: seq<Vid>, s: seq<Vid>, gray: set<Vid>,
                          v: Vid, low: nat, seen: set<Vid>)
  {
    && Inv(es, idx, n, s, gray + {v})
    && s0 + [v] <= s
    && v !in s0 && v !in gray && (forall x :: x in gray ==> x in s0)
    && v in idx && low <= idx[v]
    && LowOk(es, idx, s, v, low)
    && (forall w :: w in seen ==> w in idx)
    && Hangs(es, s0, s, idx, low, v, seen)
  }

  lemma OlderGray(es: Edges, idx: map<Vid, nat>, gray: set<Vid>, y: Vid) returns (r: Vid)
    requires ReachesOlder(es, idx, gray, y)
    ensures r in gray && r in idx && y in idx && Reach(es, y, r) && idx[r] <= idx[y]
  {
    hide Reach;
    r :| r in gray && r in idx && y in idx && Reach(es, y, r) && idx[r] <= idx[y];
  }

  lemma IsOlderGray(es: Edges, idx: map<Vid, nat>, gray: set<Vid>, y: Vid, r: Vid)
    requires r in gray && r in idx && y in idx && Reach(es, y, r) && idx[r] <= idx[y]
    ensures ReachesOlder(es, idx, gray, y)
  {
  }

  lemma LowWitness(es: Edges, idx: map<Vid, nat>, s: seq<Vid>, v: Vid, low: nat) returns (u: Vid)
    requires LowOk(es, idx, s, v, low)
    ensures u in s && u in idx && idx[u] == low && Reach(es, v, u)
  {
    hide Reach;
    u :| u in s && u in idx && idx[u] == low && Reach(es, v, u);
  }

  lemma IsLow(es: Edges, idx: map<Vid, nat>, s: seq<Vid>, v: Vid, low: nat, u: Vid)
    requires u in s && u in idx && idx[u] == low && Reach(es, v, u)
    ensures LowOk(es, idx, s, v, low)
  {
  }

  /** Starting vertex `v`: it goes on the stack and becomes gray. */
  lemma Push(es: Edges, idx: map<Vid, nat>, n: nat, s: seq<Vid>, gray: set<Vid>, v: Vid)
    requires Inv(es, idx, n, s, gray) && v !in idx
    requires forall r :: r in gray ==> Reach(es, r, v)
    ensures LoopInv(es, idx[v := n], n + 1, s, s + [v], gray, v, n, {})
  {
    hide Reach, ReachesOlder, LowOk;
    var idx', s' := idx[v := n], s + [v];
    ReachRefl(es, v);
    forall i | 0 <= i < |s| ensures Reach(es, s[i], v) {
      var r := OlderGray(es, idx, gray, s[i]);
      ReachTrans(es, s[i], r, v);
    }
    assert idx'.Keys - Elems(s') == idx.Keys - Elems(s);
    forall y | y in s' ensures ReachesOlder(es, idx', gray + {v}, y) {
      if y == v {
        IsOlderGray(es, idx', gray + {v}, v, v);
      } else {
        var r := OlderGray(es, idx, gray, y);
        IsOlderGray(es, idx', gray + {v}, y, r);
      }
    }
    IsLow(es, idx', s', v, n, v);
  }

  /** An edge to a vertex that is already numbered: only stack members lower the link. */
  lemma SeeNumbered(es: Edges, idx: map<Vid, nat>, n: nat, s0: seq<Vid>, s: seq<Vid>, gray: set<Vid>,
                    v: Vid, low: nat, seen: set<Vid>, w: Vid)
    requires LoopInv(es, idx, n, s0, s, gray, v, low, seen)
    requires (v, w) in es && w in idx
    ensures w in s ==> LoopInv(es, idx, n, s0, s, gray, v, if low < idx[w] then low else idx[w], seen + {w})
    ensures w !in s ==> LoopInv(es, idx, n, s0, s, gray, v, low, seen + {w})
  {
    hide Reach, Inv, LowOk;
    ReachEdge(es, v, w);
    PrefixElems(s0, s);
    if w in s {
      IsLow(es, idx, s, v, idx[w], w);
    }
  }

  /** The child `w` was searched and its component popped. */
  lemma ChildPopped(es: Edges, idx: map<Vid, nat>, n: nat, s0: seq<Vid>, s: seq<Vid>, gray: set<Vid>,
                    v: Vid, low: nat, seen: set<Vid>, w: Vid, idx': map<Vid, nat>, n': nat)
    requires LoopInv(es, idx, n, s0, s, gray, v, low, seen)
    requires w !in idx && w in idx'
    requires forall x :: x in idx ==> x in idx' && idx'[x] == idx[x]
    requires forall x :: x in s ==> x in idx
    requires Inv(es, idx', n', s, gray + {v})
    ensures LoopInv(es, idx', n', s0, s, gray, v, low, seen + {w})
  {
    hide Reach, Inv, LowOk;
    var u := LowWitness(es, idx, s, v, low);
    IsLow(es, idx', s, v, low, u);
    PrefixElems(s0, s);
  }

  /** The child `w` was searched and stays on the stack, hanging below an older vertex. */
  lemma ChildHangs(es: Edges, idx: map<Vid, nat>, n: nat, s0: seq<Vid>, s: seq<Vid>, gray: set<Vid>,
                   v: Vid, low: nat, seen: set<Vid>, w: Vid, idx': map<Vid, nat>, n': nat, s': seq<Vid>, lowW: nat)
    requires LoopInv(es, idx, n, s0, s, gray, v, low, seen)
    requires (v, w) in es && w !in idx && w in idx'
    requires forall x :: x in idx ==> x in idx' && idx'[x] == idx[x]
    requires forall x :: x in s ==> x in idx
    requires Inv(es, idx', n', s', gray + {v}) && s <= s'
    requires LowOk(es, idx', s, w, lowW)
    requires Hangs(es, s, s', idx', lowW, w, idx'.Keys)
    ensures LoopInv(es, idx', n', s0, s', gray, v, if low < lowW then low else lowW, seen + {w})
  {
    hide Reach, Inv, LowOk;
    var low' := if low < lowW then low else lowW;
    var u := LowWitness(es, idx, s, v, low);
    var uw := LowWitness(es, idx', s, w, lowW);
    ReachEdge(es, v, w);
    ReachTrans(es, v, w, uw);
    IsLow(es, idx', s', v, low', if low < lowW then u else uw);
    PrefixElems(s0, s);
    PrefixElems(s, s');
  }

  /** All edges of `v` seen and its link is its own index: nothing leads from the top of the stack down. */
  lemma PopInv(es: Edges, idx: map<Vid, nat>, n: nat, s0: seq<Vid>, s: seq<Vid>, gray: set<Vid>, v: Vid, seen: set<Vid>)
    requires v in idx && LoopInv(es, idx, n, s0, s, gray, v, idx[v], seen)
    requires forall e :: e in es && e.0 == v ==> e.1 in seen
    ensures Inv(es, idx, n, s0, gray)
  {
    hide Reach, ReachesOlder, LowOk;
    var popped := idx.Keys - Elems(s);
    var popped' := idx.Keys - Elems(s0);
    assert s[|s0|] == v;
    assert forall i :: 0 <= i < |s0| ==> s[i] == s0[i];
    forall y | y in s0 ensures ReachesOlder(es, idx, gray, y) && idx[y] < idx[v] {
      var i :| 0 <= i < |s0| && s0[i] == y;
      assert s[i] == y && y in s;
      var r := OlderGray(es, idx, gray + {v}, y);
      IsOlderGray(es, idx, gray, y, r);
    }
    forall e | e in es && e.0 in popped' ensures e.1 in popped' {
      if e.0 in popped {
        assert e.1 in popped;
        PrefixElems(s0, s);
      } else {
        assert e.0 in s && e.0 !in s0;
      }
    }
  }

  /** ... and what lies there is the component of `v`. */
  lemma PopScc(es: Edges, idx: map<Vid, nat>, n: nat, s0: seq<Vid>, s: seq<Vid>, gray: set<Vid>, v: Vid, seen: set<Vid>)
    requires v in idx && LoopInv(es, idx, n, s0, s, gray, v, idx[v], seen)
    requires Inv(es, idx, n, s0, gray)
    ensures forall x :: x in s[|s0|..] <==> SameScc(es, v, x)
  {
    hide Reach, ReachesOlder, LowOk, Hangs;
    var t := s[|s0|..];
    var popped := idx.Keys - Elems(s);
    var popped' := idx.Keys - Elems(s0);
    assert s == s0 + t && t[0] == v == s[|s0|];
    assert forall x :: x in s <==> x in s0 || x in t;
    forall x | x in t ensures SameScc(es, v, x) {
      var j :| 0 <= j < |t| && t[j] == x;
      assert s[|s0| + j] == x && Reach(es, s[|s0|], s[|s0| + j]);
      var r := OlderGray(es, idx, gray + {v}, x);
      InTopNotBelow(idx, s0, s, x);
      ReachStaysInside(es, popped', x, r);
    }
    forall x | SameScc(es, v, x) ensures x in t {
      InTopNotBelow(idx, s0, s, v);
      ReachStaysInside(es, popped', v, x);
      if x in popped {
        ReachStaysInside(es, popped, x, v);
      }
    }
  }

  lemma SmallerIsLower(idx: map<Vid, nat>, s: seq<Vid>, i: nat, j: nat)
    requires forall y :: y in s ==> y in idx
    requires forall i, j :: 0 <= i < j < |s| ==> idx[s[i]] < idx[s[j]]
    requires i < |s| && j < |s| && idx[s[i]] < idx[s[j]]
    ensures i < j
  {
  }

  lemma PrefixElems(s0: seq<Vid>, s: seq<Vid>)
    requires s0 <= s
    ensures forall x :: x in s0 ==> x in s
  {
    forall x | x in s0 ensures x in s {
      var i :| 0 <= i < |s0| && s0[i] == x;
      assert s[i] == x;
    }
  }

  lemma InTopNotBelow(idx: map<Vid, nat>, s0: seq<Vid>, s: seq<Vid>, x: Vid)
    requires s0 <= s && x in s[|s0|..]
    requires forall y :: y in s ==> y in idx
    requires forall i, j :: 0 <= i < j < |s| ==> idx[s[i]] < idx[s[j]]
    ensures x !in s0
  {
    var j :| 0 <= j < |s| - |s0| && s[|s0|..][j] == x;
    assert s[|s0| + j] == x;
    assert forall i :: 0 <= i < |s0| ==> s[i] == s0[i] && idx[s[i]] < idx[s[|s0| + j]];
  }

  /** All edges of `v` seen and its link is older: `v` stays and stops being gray. */
  lemma Keep(es: Edges, idx: map<Vid, nat>, n: nat, s0: seq<Vid>, s: seq<Vid>, gray: set<Vid>, v: Vid, low: nat,
             seen: set<Vid>)
    requires LoopInv(es, idx, n, s0, s, gray, v, low, seen)
    requires forall e :: e in es && e.0 == v ==> e.1 in seen
    requires low < idx[v]
    ensures Inv(es, idx, n, s, gray)
    ensures LowOk(es, idx, s0, v, low)
    ensures Hangs(es, s0, s, idx, low, v, idx.Keys)
  {
    hide Reach, ReachesOlder, LowOk;
    var u := LowWitness(es, idx, s, v, low);
    assert u in s0 by {
      var i :| 0 <= i < |s| && s[i] == u;
      assert s[|s0|] == v;
      SmallerIsLower(idx, s, i, |s0|);
    }
    IsLow(es, idx, s0, v, low, u);
    var r := OlderGray(es, idx, gray + {v}, u);
    ReachTrans(es, v, u, r);
    forall y | y in s ensures ReachesOlder(es, idx, gray, y) {
      var q := OlderGray(es, idx, gray + {v}, y);
      if q == v {
        ReachTrans(es, y, v, r);
        IsOlderGray(es, idx, gray, y, r);
      } else {
        IsOlderGray(es, idx, gray, y, q);
      }
    }
  }

  /** The facts about the loop that do not mention reachability. */
  lemma LoopFacts(es: Edges, idx: map<Vid, nat>, n: nat, s0: seq<Vid>, s: seq<Vid>, gray: set<Vid>,
                  v: Vid, low: nat, seen: set<Vid>)
    requires LoopInv(es, idx, n, s0, s, gray, v, low, seen)
    ensures Inv(es, idx, n, s, gray + {v}) && s0 + [v] <= s && Distinct(s)
    ensures forall x :: x in s ==> x in idx
    ensures v in idx && low <= idx[v] < n
  {
    hide Reach, ReachesOlder, LowOk, Hangs, Closed;
    forall i, j | 0 <= i < j < |s| ensures s[i] != s[j] {
      assert idx[s[i]] < idx[s[j]];
    }
  }

  /** Once no call is open the stack is empty. */
  lemma NoGrayNoStack(es: Edges, idx: map<Vid, nat>, n: nat, s: seq<Vid>)
    requires Inv(es, idx, n, s, {})
    ensures s == []
  {
    hide Reach;
    hide ReachesOlder;
    if s != [] {
      var _ := OlderGray(es, idx, {}, s[0]);
    }
  }

  lemma EdgeOfGraph(g: Graph, v: Vid, w: Vid)
    requires g.Valid() && v in g.to && w in g.to[v]
    ensures (v, w) in g.EdgeSet() && w in g.Vertices()
  {
    assert g.HasTo(v, w);
  }

  class Search {
    const g: Graph
    var indexes: map<Vid, nat>
    var lowlinks: map<Vid, nat>
    var index: nat
    var stack: seq<Vid>

    constructor (g: Graph)
      ensures this.g == g && indexes == map[] && lowlinks == map[] && index == 0 && stack == []
    {
      this.g := g;
      indexes, lowlinks, index, stack := map[], map[], 0, [];
    }

    ghost predicate Ok(gray: set<Vid>)
      reads this
    {
      && g.Valid()
      && indexes.Keys <= g.Vertices()
      && lowlinks.Keys == indexes.Keys
      && Inv(g.EdgeSet(), indexes, index, stack, gray)
    }

    method StrongConnect(v: Vid, ghost gray: set<Vid>) returns (ret: seq<Vid>)
      requires Ok(gray)
      requires v in g.Vertices() && v !in indexes
      requires forall r :: r in gray ==> Reach(g.EdgeSet(), r, v)
      modifies this
      ensures Ok(gray)
      ensures Extends(old(indexes), old(lowlinks))
      ensures v in indexes && indexes[v] == old(index)
      ensures old(stack) <= stack
      // either the component of v was popped and returned ...
      ensures stack == old(stack) ==>
                && lowlinks[v] == indexes[v]
                && Distinct(ret)
                && forall x :: x in ret <==> SameScc(g.EdgeSet(), v, x)
      // ... or v hangs below an older vertex of the stack
      ensures stack != old(stack) ==>
                && ret == []
                && LowOk(g.EdgeSet(), indexes, old(stack), v, lowlinks[v])
                && Hangs(g.EdgeSet(), old(stack), stack, indexes, lowlinks[v], v, indexes.Keys)
      decreases g.Vertices() - indexes.Keys, 0
    {
      hide Reach, Inv, Mid, LowOk, Hangs, SameScc, Graph.Valid, Graph.EdgeSet;
      ghost var s0 := stack;
      Open(v, gray);
      var todo := g.to[v].Keys;
      assert g.to[v].Keys - todo == {};
      while todo != {}
        invariant todo <= g.to[v].Keys
        invariant Extends(old(indexes), old(lowlinks)) && v in indexes && indexes[v] == old(index)
        invariant Mid(v, s0, gray, g.to[v].Keys - todo)
      {
        var w :| w in todo;
        ghost var seen := g.to[v].Keys - todo;
        todo := todo - {w};
        assert g.to[v].Keys - todo == seen + {w};
        Visit(v, w, s0, gray, seen);
      }
      assert g.to[v].Keys - todo == g.to[v].Keys;
      ret := Close(v, s0, gray);
    }

    /** The vertex gets the next number and goes on the stack. */
    method Open(v: Vid, ghost gray: set<Vid>)
      requires Ok(gray)
      requires v in g.Vertices() && v !in indexes
      requires forall r :: r in gray ==> Reach(g.EdgeSet(), r, v)
      modifies this
      ensures Mid(v, old(stack), gray, {})
      ensures indexes == old(indexes)[v := old(index)] && lowlinks == old(lowlinks)[v := old(index)]
    {
      hide Reach, Inv, LoopInv, Graph.EdgeSet;
      Push(g.EdgeSet(), indexes, index, stack, gray, v);
      indexes := indexes[v := index];
      lowlinks := lowlinks[v := index];
      index := index + 1;
      stack := stack + [v];
    }

    /** After the last edge: `v` is the root of a component, or it stays on the stack. */
    method Close(v: Vid, ghost s0: seq<Vid>, ghost gray: set<Vid>) returns (ret: seq<Vid>)
      requires v in g.to && Mid(v, s0, gray, g.to[v].Keys)
      modifies this`stack
      ensures Ok(gray) && s0 <= stack
      ensures stack == s0 ==>
                && lowlinks[v] == indexes[v]
                && Distinct(ret)
                && forall x :: x in ret <==> SameScc(g.EdgeSet(), v, x)
      ensures stack != s0 ==>
                && ret == []
                && LowOk(g.EdgeSet(), indexes, s0, v, lowlinks[v])
                && Hangs(g.EdgeSet(), s0, stack, indexes, lowlinks[v], v, indexes.Keys)
    {
      hide Reach, Inv, LoopInv, LowOk, Hangs, SameScc;
      ghost var es := g.EdgeSet();
      LoopFacts(es, indexes, index, s0, stack, gray, v, lowlinks[v], g.to[v].Keys);
      ret := [];
      if lowlinks[v] == indexes[v] {
        PopInv(es, indexes, index, s0, stack, gray, v, g.to[v].Keys);
        PopScc(es, indexes, index, s0, stack, gray, v, g.to[v].Keys);
        ret := PopUntil(v, s0);
      } else {
        Keep(es, indexes, index, s0, stack, gray, v, lowlinks[v], g.to[v].Keys);
      }
    }

    /** State between two edges of `v`. */
    ghost predicate Mid(v: Vid, s0: seq<Vid>, gray: set<Vid>, seen: set<Vid>)
      reads this
    {
      && g.Valid()
      && indexes.Keys <= g.Vertices() && lowlinks.Keys == indexes.Keys && v in indexes
      && LoopInv(g.EdgeSet(), indexes, index, s0, stack, gray, v, lowlinks[v], seen)
    }

    /** Numbers and links given before are kept. */
    ghost predicate Extends(idx0: map<Vid, nat>, low0: map<Vid, nat>)
      reads this
    {
      && low0.Keys == idx0.Keys && lowlinks.Keys == indexes.Keys
      && forall x :: x in idx0 ==> x in indexes && indexes[x] == idx0[x] && lowlinks[x] == low0[x]
    }

    /** As Extends, but the link of `v` itself may have been lowered. */
    ghost predicate ExtendsBut(v: Vid, idx0: map<Vid, nat>, low0: map<Vid, nat>)
      reads this
    {
      && low0.Keys == idx0.Keys && lowlinks.Keys == indexes.Keys
      && forall x :: x in idx0 ==> x in indexes && indexes[x] == idx0[x] && (x != v ==> lowlinks[x] == low0[x])
    }

    /** One edge `v -> w` of the loop in strong_connect. */
    method Visit(v: Vid, w: Vid, ghost s0: seq<Vid>, ghost gray: set<Vid>, ghost seen: set<Vid>)
      requires Mid(v, s0, gray, seen)
      requires v in g.to && w in g.to[v]
      requires forall r :: r in gray ==> Reach(g.EdgeSet(), r, v)
      modifies this
      ensures Mid(v, s0, gray, seen + {w}) && ExtendsBut(v, old(indexes), old(lowlinks))
      decreases g.Vertices() - indexes.Keys, 2
    {
      hide Reach, LoopInv, Graph.Valid, Graph.EdgeSet;
      EdgeOfGraph(g, v, w);
      if w !in indexes {
        Descend(v, w, s0, gray, seen);
      } else {
        SeeNumbered(g.EdgeSet(), indexes, index, s0, stack, gray, v, lowlinks[v], seen, w);
        LowerLink(v, w);
      }
    }

    /** The recursive call for an edge `v -> w` to a new vertex. */
    method Descend(v: Vid, w: Vid, ghost s0: seq<Vid>, ghost gray: set<Vid>, ghost seen: set<Vid>)
      requires Mid(v, s0, gray, seen) && w !in indexes && w in g.Vertices() && (v, w) in g.EdgeSet()
      requires forall r :: r in gray ==> Reach(g.EdgeSet(), r, v)
      modifies this
      ensures Mid(v, s0, gray, seen + {w}) && ExtendsBut(v, old(indexes), old(lowlinks))
      decreases g.Vertices() - indexes.Keys, 1
    {
      hide Reach, Inv, LoopInv, LowOk, Hangs, SameScc, Graph.Valid, Graph.EdgeSet;
      ghost var es := g.EdgeSet();
      ghost var idx1, n1, s1, low1 := indexes, index, stack, lowlinks[v];
      LoopFacts(es, idx1, n1, s0, s1, gray, v, low1, seen);
      ReachEdge(es, v, w);
      forall r | r in gray + {v} ensures Reach(es, r, w) {
        if r != v { ReachTrans(es, r, v, w); }
      }
      var _ := StrongConnect(w, gray + {v});
      if stack == s1 {
        ChildPopped(es, idx1, n1, s0, s1, gray, v, low1, seen, w, indexes, index);
      } else {
        ChildHangs(es, idx1, n1, s0, s1, gray, v, low1, seen, w, indexes, index, stack, lowlinks[w]);
      }
      lowlinks := lowlinks[v := if lowlinks[v] < lowlinks[w] then lowlinks[v] else lowlinks[w]];
    }

    /** The scan of the stack for `w`; only a stack member lowers the link of `v`. */
    method LowerLink(v: Vid, w: Vid)
      requires v in lowlinks && w in indexes
      modifies this`lowlinks
      ensures lowlinks == if w in stack then
                            old(lowlinks)[v := if old(lowlinks)[v] < indexes[w] then old(lowlinks)[v] else indexes[w]]
                          else old(lowlinks)
    {
      var i := 0;
      while i < |stack|
        invariant 0 <= i <= |stack|
        invariant v in lowlinks
        invariant lowlinks == if w in stack[..i] then
                           old(lowlinks)[v := if old(lowlinks)[v] < indexes[w] then old(lowlinks)[v] else indexes[w]]
                              else old(lowlinks)
      {
        if stack[i] == w {
          lowlinks := lowlinks[v := if lowlinks[v] < indexes[w] then lowlinks[v] else indexes[w]];
        }
        i := i + 1;
      }
      assert stack[..i] == stack;
    }

    /** Pops down to and including `v`, which lies right above `s0`. */
    method PopUntil(v: Vid, ghost s0: seq<Vid>) returns (ret: seq<Vid>)
      requires s0 + [v] <= stack && Distinct(stack)
      modifies this`stack
      ensures stack == s0
      ensures Distinct(ret)
      ensures forall x :: x in ret <==> x in old(stack)[|s0|..]
    {
      ghost var s := stack;
      assert s[|s0|] == v;
      var w := stack[|stack| - 1];
      stack := stack[..|stack| - 1];
      ret := [w];
      while w != v
        invariant |s0| <= |stack| < |s|
        invariant stack == s[..|stack|] && w == s[|stack|]
        invariant w == v <==> |stack| == |s0|
        invariant |ret| == |s| - |stack|
        invariant forall i :: 0 <= i < |ret| ==> ret[i] == s[|s| - 1 - i]
        decreases |stack|
      {
        w := stack[|stack| - 1];
        stack := stack[..|stack| - 1];
        ret := ret + [w];
      }
      forall x | x in s[|s0|..] ensures x in ret {
        var i :| 0 <= i < |s| - |s0| && s[|s0|..][i] == x;
        assert ret[|s| - 1 - (|s0| + i)] == x;
      }
    }
  }

  /** `find_scc`: exactly the strongly connected component of `v`, each vertex once. */
  method FindScc(g: Graph, v: Vid) returns (ret: seq<Vid>)
    requires g.Valid() && v in g.Vertices()
    ensures Distinct(ret)
    ensures forall x :: x in ret <==> SameScc(g.EdgeSet(), v, x)
  {
    var s := new Search(g);
    ret := s.StrongConnect(v, {});
    NoGrayNoStack(g.EdgeSet(), s.indexes, s.index, s.stack);
  }
}
