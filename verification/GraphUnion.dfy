/**
  Joining dependency graphs as the coordinator does with the graphs in its start replies:
  `union_graph` computes a least upper bound, whatever order it visits vertices and edges in.
 */
module GraphUnion {
  import opened Reachability
  import DepGraph

  function Or(a: bv8, b: bv8): bv8 {
    a | b
  }

  /** The part of `TxnInfo` that travels: status bits and participating servers. */
  datatype Info = Info(status: bv8, servers: set<nat>) {
    function Union(i: Info): Info {
      Info(Or(status, i.status), servers + i.servers)
    }
  }

  type EdgeMap = map<(Vid, Vid), bv8>

  /** `to[(a, b)]` is the label `a` keeps for its edge to `b`, `from[(b, a)]` the one `b` keeps. */
  datatype Graph = Graph(info: map<Vid, Info>, to: EdgeMap, from: EdgeMap) {
    ghost predicate Valid() {
      && (forall a, b :: (a, b) in to <==> (b, a) in from)
      && (forall a, b :: (a, b) in to ==> a in info && b in info && to[(a, b)] == from[(b, a)])
    }
  }

  // ---- the join ----

  function JoinInfo(m: map<Vid, Info>, n: map<Vid, Info>): map<Vid, Info> {
    map v | v in m.Keys + n.Keys ::
      if v !in n then m[v] else if v !in m then n[v] else m[v].Union(n[v])
  }

  function JoinEdges(m: EdgeMap, n: EdgeMap): EdgeMap {
    map e | e in m.Keys + n.Keys ::
      if e !in n then m[e] else if e !in m then n[e] else Or(m[e], n[e])
  }

  function Join(g: Graph, h: Graph): Graph {
    Graph(JoinInfo(g.info, h.info), JoinEdges(g.to, h.to), JoinEdges(g.from, h.from))
  }

  lemma JoinValid(g: Graph, h: Graph)
    requires g.Valid() && h.Valid()
    ensures Join(g, h).Valid()
  {
  }

  lemma OrBits(a: bv8, b: bv8, c: bv8)
    ensures Or(a, b) == Or(b, a) && Or(Or(a, b), c) == Or(a, Or(b, c)) && Or(a, a) == a && Or(a, 0) == a &&
            Or(0, a) == a
  {
  }

  function Label(m: EdgeMap, e: (Vid, Vid)): bv8 {
    if e in m then m[e] else 0
  }

  lemma JoinEdgesAt(m: EdgeMap, n: EdgeMap, e: (Vid, Vid))
    ensures e in JoinEdges(m, n) <==> e in m || e in n
    ensures Label(JoinEdges(m, n), e) == Or(Label(m, e), Label(n, e))
  {
    hide Or;
    OrBits(Label(m, e), 0, 0);
    OrBits(Label(n, e), 0, 0);
  }

  lemma SameEdges(m: EdgeMap, n: EdgeMap)
    requires forall e :: (e in m <==> e in n) && Label(m, e) == Label(n, e)
    ensures m == n
  {
    forall e | e in m ensures m[e] == n[e] {
      assert Label(m, e) == Label(n, e);
    }
  }

  lemma JoinEdgesLaws(m: EdgeMap, n: EdgeMap, o: EdgeMap)
    ensures JoinEdges(m, n) == JoinEdges(n, m)
    ensures JoinEdges(JoinEdges(m, n), o) == JoinEdges(m, JoinEdges(n, o))
    ensures JoinEdges(m, m) == m
  {
    hide JoinEdges, Label, Or;
    var l, r := JoinEdges(JoinEdges(m, n), o), JoinEdges(m, JoinEdges(n, o));
    forall e
      ensures (e in l <==> e in r) && Label(l, e) == Label(r, e)
      ensures (e in JoinEdges(m, n) <==> e in JoinEdges(n, m)) && Label(JoinEdges(m, n), e) == Label(JoinEdges(n, m), e)
      ensures (e in JoinEdges(m, m) <==> e in m) && Label(JoinEdges(m, m), e) == Label(m, e)
    {
      JoinEdgesAt(m, n, e);
      JoinEdgesAt(n, m, e);
      JoinEdgesAt(n, o, e);
      JoinEdgesAt(m, m, e);
      JoinEdgesAt(JoinEdges(m, n), o, e);
      JoinEdgesAt(m, JoinEdges(n, o), e);
      OrBits(Label(m, e), Label(n, e), Label(o, e));
    }
    SameEdges(l, r);
    SameEdges(JoinEdges(m, n), JoinEdges(n, m));
    SameEdges(JoinEdges(m, m), m);
  }

  lemma InfoLaws(a: Info, b: Info, c: Info)
    ensures a.Union(b) == b.Union(a) && a.Union(b).Union(c) == a.Union(b.Union(c)) && a.Union(a) == a
  {
    OrBits(a.status, b.status, c.status);
    assert a.servers + b.servers == b.servers + a.servers;
    assert a.servers + b.servers + c.servers == a.servers + (b.servers + c.servers);
    assert a.servers + a.servers == a.servers;
  }

  const NONE := Info(0, {})

  function InfoOf(m: map<Vid, Info>, v: Vid): Info {
    if v in m then m[v] else NONE
  }

  lemma JoinInfoAt(m: map<Vid, Info>, n: map<Vid, Info>, v: Vid)
    ensures v in JoinInfo(m, n) <==> v in m || v in n
    ensures InfoOf(JoinInfo(m, n), v) == InfoOf(m, v).Union(InfoOf(n, v))
  {
    InfoLaws(InfoOf(m, v), NONE, InfoOf(n, v));
  }

  lemma SameInfo(m: map<Vid, Info>, n: map<Vid, Info>)
    requires forall v: Vid :: (v in m <==> v in n) && InfoOf(m, v) == InfoOf(n, v)
    ensures m == n
  {
    forall v | v in m ensures m[v] == n[v] {
      assert InfoOf(m, v) == InfoOf(n, v);
    }
  }

  lemma JoinInfoLaws(m: map<Vid, Info>, n: map<Vid, Info>, o: map<Vid, Info>)
    ensures JoinInfo(m, n) == JoinInfo(n, m)
    ensures JoinInfo(JoinInfo(m, n), o) == JoinInfo(m, JoinInfo(n, o))
    ensures JoinInfo(m, m) == m
  {
    hide JoinInfo, InfoOf, Info.Union, Or;
    var l, r := JoinInfo(JoinInfo(m, n), o), JoinInfo(m, JoinInfo(n, o));
    forall v: Vid
      ensures (v in l <==> v in r) && InfoOf(l, v) == InfoOf(r, v)
      ensures (v in JoinInfo(m, n) <==> v in JoinInfo(n, m)) && InfoOf(JoinInfo(m, n), v) == InfoOf(JoinInfo(n, m), v)
      ensures (v in JoinInfo(m, m) <==> v in m) && InfoOf(JoinInfo(m, m), v) == InfoOf(m, v)
    {
      JoinInfoAt(m, n, v);
      JoinInfoAt(n, m, v);
      JoinInfoAt(n, o, v);
      JoinInfoAt(m, m, v);
      JoinInfoAt(JoinInfo(m, n), o, v);
      JoinInfoAt(m, JoinInfo(n, o), v);
      InfoLaws(InfoOf(m, v), InfoOf(n, v), InfoOf(o, v));
    }
    SameInfo(l, r);
    SameInfo(JoinInfo(m, n), JoinInfo(n, m));
    SameInfo(JoinInfo(m, m), m);
  }

  /** Commutative, associative, idempotent. */
  lemma JoinLaws(g: Graph, h: Graph, k: Graph)
    ensures Join(g, h) == Join(h, g)
    ensures Join(Join(g, h), k) == Join(g, Join(h, k))
    ensures Join(g, g) == g
  {
    hide JoinInfo, JoinEdges;
    JoinInfoLaws(g.info, h.info, k.info);
    JoinEdgesLaws(g.to, h.to, k.to);
    JoinEdgesLaws(g.from, h.from, k.from);
  }

  // ---- the join, bit by bit ----

  /** Some of the bits `mask` are set in `b`. */
  predicate Has(b: bv8, mask: bv8) {
    b & mask != 0
  }

  lemma OrHas(a: bv8, b: bv8, mask: bv8)
    ensures Has(Or(a, b), mask) <==> Has(a, mask) || Has(b, mask)
    ensures !Has(0, mask)
  {
    assert (a | b) & mask == (a & mask) | (b & mask);
  }

  /** Every vertex, server, edge, status bit and label bit of `r` is one of `g` or of `h`, and the other way round. */
  ghost predicate Unites(g: Graph, h: Graph, r: Graph) {
    && (forall v: Vid :: v in r.info <==> v in g.info || v in h.info)
    && (forall v: Vid, mask: bv8 ::
          Has(InfoOf(r.info, v).status, mask) <==>
          Has(InfoOf(g.info, v).status, mask) || Has(InfoOf(h.info, v).status, mask))
    && (forall v: Vid, s: nat ::
          s in InfoOf(r.info, v).servers <==> s in InfoOf(g.info, v).servers || s in InfoOf(h.info, v).servers)
    && (forall e: (Vid, Vid) :: e in r.to <==> e in g.to || e in h.to)
    && (forall e: (Vid, Vid), mask: bv8 ::
          Has(Label(r.to, e), mask) <==> Has(Label(g.to, e), mask) || Has(Label(h.to, e), mask))
  }

  lemma JoinUnites(g: Graph, h: Graph)
    ensures Unites(g, h, Join(g, h))
  {
    hide JoinInfo, JoinEdges, InfoOf, Label, Has, Or;
    var r := Join(g, h);
    forall v: Vid ensures v in r.info <==> v in g.info || v in h.info {
      JoinInfoAt(g.info, h.info, v);
    }
    forall v: Vid, mask: bv8
      ensures Has(InfoOf(r.info, v).status, mask) <==>
              Has(InfoOf(g.info, v).status, mask) || Has(InfoOf(h.info, v).status, mask)
    {
      JoinInfoAt(g.info, h.info, v);
      OrHas(InfoOf(g.info, v).status, InfoOf(h.info, v).status, mask);
    }
    forall v: Vid, s: nat
      ensures s in InfoOf(r.info, v).servers <==> s in InfoOf(g.info, v).servers || s in InfoOf(h.info, v).servers
    {
      JoinInfoAt(g.info, h.info, v);
    }
    forall e: (Vid, Vid), mask: bv8
      ensures e in r.to <==> e in g.to || e in h.to
      ensures Has(Label(r.to, e), mask) <==> Has(Label(g.to, e), mask) || Has(Label(h.to, e), mask)
    {
      JoinEdgesAt(g.to, h.to, e);
      OrHas(Label(g.to, e), Label(h.to, e), mask);
    }
    assert forall e: (Vid, Vid) :: e in r.to <==> e in g.to || e in h.to by {
      forall e: (Vid, Vid) ensures e in r.to <==> e in g.to || e in h.to {
        JoinEdgesAt(g.to, h.to, e);
      }
    }
  }

  // ---- any number of replies ----

  /** The coordinator's graph after the replies `gs`, in that order. */
  function JoinAll(g: Graph, gs: seq<Graph>): Graph {
    if gs == [] then g else Join(JoinAll(g, gs[..|gs| - 1]), gs[|gs| - 1])
  }

  /** Any reply might as well have come last. */
  lemma {:induction false} JoinLast(g: Graph, gs: seq<Graph>, i: nat)
    requires i < |gs|
    ensures JoinAll(g, gs) == Join(JoinAll(g, gs[..i] + gs[i + 1..]), gs[i])
    decreases |gs|
  {
    hide Join;
    var n := |gs| - 1;
    if i == n {
      assert gs[..i] + gs[i + 1..] == gs[..n];
    } else {
      var rest, last := gs[..n], gs[n];
      JoinLast(g, rest, i);
      assert rest[..i] + rest[i + 1..] == (gs[..i] + gs[i + 1..])[..n - 1];
      assert (gs[..i] + gs[i + 1..])[n - 1] == last;
      var a := JoinAll(g, rest[..i] + rest[i + 1..]);
      JoinLaws(a, gs[i], last);
      JoinLaws(gs[i], last, a);
      JoinLaws(a, last, gs[i]);
    }
  }

  lemma WithoutIndex(gs: seq<Graph>, i: nat)
    requires i < |gs|
    ensures multiset(gs[..i] + gs[i + 1..]) == multiset(gs) - multiset{gs[i]}
  {
    assert gs == gs[..i] + [gs[i]] + gs[i + 1..];
  }

  /** The graph the coordinator sends at finish does not depend on the order of the replies. */
  lemma {:induction false} ReplyOrderIrrelevant(g: Graph, gs: seq<Graph>, hs: seq<Graph>)
    requires multiset(gs) == multiset(hs)
    ensures JoinAll(g, gs) == JoinAll(g, hs)
    decreases |gs|
  {
    hide Join;
    if gs == [] {
      assert |multiset(hs)| == 0;
    } else {
      var n, last := |gs| - 1, gs[|gs| - 1];
      assert last in multiset(gs);
      var i :| 0 <= i < |hs| && hs[i] == last;
      JoinLast(g, hs, i);
      WithoutIndex(hs, i);
      WithoutIndex(gs, n);
      assert gs[..n] + gs[n + 1..] == gs[..n];
      ReplyOrderIrrelevant(g, gs[..n], hs[..i] + hs[i + 1..]);
    }
  }

  /** A reply that adds nothing new changes nothing: duplicates are harmless. */
  lemma DuplicateReply(g: Graph, gs: seq<Graph>, i: nat)
    requires i < |gs|
    ensures JoinAll(g, gs + [gs[i]]) == JoinAll(g, gs)
  {
    hide Join;
    JoinLast(g, gs, i);
    var a := JoinAll(g, gs[..i] + gs[i + 1..]);
    assert (gs + [gs[i]])[..|gs|] == gs;
    JoinLaws(a, gs[i], gs[i]);
    JoinLaws(gs[i], gs[i], a);
  }

  /** After any number of replies, a vertex and what is known of it come from the old graph or from some reply ... */
  lemma {:induction false} RepliesVertex(g: Graph, gs: seq<Graph>, v: Vid, mask: bv8, s: nat)
    ensures v in JoinAll(g, gs).info <==> v in g.info || exists i :: 0 <= i < |gs| && v in gs[i].info
    ensures Has(InfoOf(JoinAll(g, gs).info, v).status, mask) <==>
            || Has(InfoOf(g.info, v).status, mask)
            || exists i :: 0 <= i < |gs| && Has(InfoOf(gs[i].info, v).status, mask)
    ensures s in InfoOf(JoinAll(g, gs).info, v).servers <==>
            || s in InfoOf(g.info, v).servers
            || exists i :: 0 <= i < |gs| && s in InfoOf(gs[i].info, v).servers
  {
    hide Join, InfoOf, Has;
    if gs != [] {
      var n := |gs| - 1;
      var rest := gs[..n];
      RepliesVertex(g, rest, v, mask, s);
      JoinUnites(JoinAll(g, rest), gs[n]);
      assert forall i :: 0 <= i < |gs| ==> gs[i] == if i < n then rest[i] else gs[n];
    }
  }

  /** ... and so do an edge and the bits of its label. */
  lemma {:induction false} RepliesEdge(g: Graph, gs: seq<Graph>, e: (Vid, Vid), mask: bv8)
    ensures e in JoinAll(g, gs).to <==> e in g.to || exists i :: 0 <= i < |gs| && e in gs[i].to
    ensures Has(Label(JoinAll(g, gs).to, e), mask) <==>
            Has(Label(g.to, e), mask) || exists i :: 0 <= i < |gs| && Has(Label(gs[i].to, e), mask)
  {
    hide Join, Label, Has;
    if gs != [] {
      var n := |gs| - 1;
      var rest := gs[..n];
      RepliesEdge(g, rest, e, mask);
      JoinUnites(JoinAll(g, rest), gs[n]);
      assert forall i :: 0 <= i < |gs| ==> gs[i] == if i < n then rest[i] else gs[n];
    }
  }

  // ---- union_graph ----

  /** The information part way through: vertices in `done` are joined, targets of the edges `es` are at least copied. */
  ghost function InfoSoFar(m: map<Vid, Info>, n: map<Vid, Info>, done: set<Vid>, es: set<(Vid, Vid)>): map<Vid, Info> {
    map v | v in m.Keys + done + (set e | e in es :: e.1) ::
      if v in done then InfoOf(m, v).Union(InfoOf(n, v)) else if v in m then m[v] else InfoOf(n, v)
  }

  ghost function Restrict(n: EdgeMap, es: set<(Vid, Vid)>): EdgeMap {
    map e | e in n && e in es :: n[e]
  }

  ghost predicate Mirrors(to: EdgeMap, from: EdgeMap) {
    && (forall a, b :: (a, b) in to <==> (b, a) in from)
    && (forall a, b :: (a, b) in to ==> to[(a, b)] == from[(b, a)])
  }

  lemma VisitStep(m: map<Vid, Info>, n: map<Vid, Info>, done: set<Vid>, es: set<(Vid, Vid)>, v: Vid)
    requires v in n && v !in done
    ensures var s := InfoSoFar(m, n, done, es);
            InfoSoFar(m, n, done + {v}, es) == s[v := if v in s then s[v].Union(n[v]) else n[v]]
  {
    InfoLaws(n[v], NONE, NONE);
    InfoLaws(NONE, n[v], NONE);
    var s, s' := InfoSoFar(m, n, done, es), InfoSoFar(m, n, done + {v}, es);
    assert s'.Keys == s.Keys + {v};
    assert s'[v] == if v in s then s[v].Union(n[v]) else n[v];
  }

  lemma TargetStep(m: map<Vid, Info>, n: map<Vid, Info>, done: set<Vid>, es: set<(Vid, Vid)>, a: Vid, b: Vid)
    requires b in n
    ensures var s := InfoSoFar(m, n, done, es);
            InfoSoFar(m, n, done, es + {(a, b)}) == if b in s then s else s[b := n[b]]
  {
    var s, s' := InfoSoFar(m, n, done, es), InfoSoFar(m, n, done, es + {(a, b)});
    assert (set e | e in es + {(a, b)} :: e.1) == (set e | e in es :: e.1) + {b};
    assert s'.Keys == s.Keys + {b};
  }

  lemma EdgeStep(m: EdgeMap, n: EdgeMap, es: set<(Vid, Vid)>, e: (Vid, Vid))
    requires e in n && e !in es
    ensures var s := JoinEdges(m, Restrict(n, es));
            JoinEdges(m, Restrict(n, es + {e})) == s[e := Or(Label(s, e), n[e])]
  {
    hide Or;
    OrBits(n[e], 0, 0);
    var s, s' := JoinEdges(m, Restrict(n, es)), JoinEdges(m, Restrict(n, es + {e}));
    assert s'.Keys == s.Keys + {e};
    assert s'[e] == Or(Label(s, e), n[e]);
  }

  lemma MirrorStep(to: EdgeMap, from: EdgeMap, a: Vid, b: Vid, l: bv8)
    requires Mirrors(to, from)
    ensures Mirrors(to[(a, b) := Or(Label(to, (a, b)), l)], from[(b, a) := Or(Label(from, (b, a)), l)])
  {
    assert Label(to, (a, b)) == Label(from, (b, a));
  }

  /** At the end everything has been joined. */
  lemma AllJoined(g: Graph, h: Graph, to: EdgeMap, from: EdgeMap)
    requires g.Valid() && h.Valid() && to == JoinEdges(g.to, Restrict(h.to, h.to.Keys)) && Mirrors(to, from)
    ensures to == JoinEdges(g.to, h.to) && from == JoinEdges(g.from, h.from)
    ensures InfoSoFar(g.info, h.info, h.info.Keys, h.to.Keys) == JoinInfo(g.info, h.info)
  {
    hide JoinInfo, InfoSoFar, JoinEdges, Mirrors, Graph.Valid;
    assert Restrict(h.to, h.to.Keys) == h.to;
    MirrorJoined(g, h, to, from);
    AllInfoJoined(g, h);
  }

  lemma AllInfoJoined(g: Graph, h: Graph)
    requires h.Valid()
    ensures InfoSoFar(g.info, h.info, h.info.Keys, h.to.Keys) == JoinInfo(g.info, h.info)
  {
    hide Or, Info.Union;
    forall v: Vid ensures v in InfoSoFar(g.info, h.info, h.info.Keys, h.to.Keys) <==> v in JoinInfo(g.info, h.info) {
      if e :| e in h.to && e.1 == v {
        assert (e.0, e.1) in h.to;
      }
    }
    forall v | v in JoinInfo(g.info, h.info)
      ensures InfoSoFar(g.info, h.info, h.info.Keys, h.to.Keys)[v] == JoinInfo(g.info, h.info)[v]
    {
      NoneIsUnit(InfoOf(g.info, v));
      NoneIsUnit(InfoOf(h.info, v));
    }
  }

  lemma NoneIsUnit(i: Info)
    ensures NONE.Union(i) == i && i.Union(NONE) == i
  {
    OrBits(i.status, 0, 0);
    assert {} + i.servers == i.servers && i.servers + {} == i.servers;
  }

  lemma MirrorJoined(g: Graph, h: Graph, to: EdgeMap, from: EdgeMap)
    requires g.Valid() && h.Valid() && to == JoinEdges(g.to, h.to) && Mirrors(to, from)
    ensures from == JoinEdges(g.from, h.from)
  {
    forall e
      ensures e in from <==> e in JoinEdges(g.from, h.from)
      ensures Label(from, e) == Label(JoinEdges(g.from, h.from), e)
    {
      var b, a := e.0, e.1;
      assert e == (b, a);
      JoinEdgesAt(g.to, h.to, (a, b));
      JoinEdgesAt(g.from, h.from, (b, a));
      assert (b, a) in from <==> (a, b) in to;
    }
    SameEdges(from, JoinEdges(g.from, h.from));
  }

  class GraphStore {
    var info: map<Vid, Info>
    var to: EdgeMap
    var from: EdgeMap

    constructor ()
      ensures Value() == Graph(map[], map[], map[])
    {
      info, to, from := map[], map[], map[];
    }

    ghost function Value(): Graph
      reads this
    {
      Graph(info, to, from)
    }

    /** A vertex of the other graph: copied, or its information joined (`union_data` at the coordinator). */
    method Visit(v: Vid, data: Info)
      modifies this`info
      ensures info == old(info)[v := if v in old(info) then old(info)[v].Union(data) else data]
    {
      if v !in info {
        info := info[v := data];
      } else {
        info := info[v := info[v].Union(data)];
      }
    }

    /** One edge: its target is created if missing; both ends or in the label. */
    method AddEdge(a: Vid, b: Vid, data: Info, l: bv8)
      modifies this
      ensures info == if b in old(info) then old(info) else old(info)[b := data]
      ensures to == old(to)[(a, b) := Or(Label(old(to), (a, b)), l)]
      ensures from == old(from)[(b, a) := Or(Label(old(from), (b, a)), l)]
    {
      hide Or, Label;
      if b !in info {
        info := info[b := data];
      }
      to := to[(a, b) := Or(Label(to, (a, b)), l)];
      from := from[(b, a) := Or(Label(from, (b, a)), l)];
    }

    /** The edges of one vertex. */
    method AddEdges(v: Vid, h: Graph, ghost g: Graph, ghost done: set<Vid>, ghost es: set<(Vid, Vid)>)
      returns (ghost es': set<(Vid, Vid)>)
      requires h.Valid() && (forall b :: (v, b) !in es)
      requires info == InfoSoFar(g.info, h.info, done, es) && to == JoinEdges(g.to, Restrict(h.to, es)) &&
               Mirrors(to, from)
      modifies this
      ensures es' == es + set e | e in h.to && e.0 == v
      ensures info == InfoSoFar(g.info, h.info, done, es') && to == JoinEdges(g.to, Restrict(h.to, es')) &&
              Mirrors(to, from)
    {
      hide Or, InfoSoFar, JoinEdges, Restrict, Mirrors, Label;
      var todo := set e | e in h.to && e.0 == v;
      es' := es;
      while todo != {}
        invariant todo <= set e | e in h.to && e.0 == v
        invariant es' == es + ((set e | e in h.to && e.0 == v) - todo)
        invariant info == InfoSoFar(g.info, h.info, done, es') && to == JoinEdges(g.to, Restrict(h.to, es')) &&
                  Mirrors(to, from)
      {
        var e :| e in todo;
        var b := e.1;
        assert e == (v, b);
        TargetStep(g.info, h.info, done, es', v, b);
        EdgeStep(g.to, h.to, es', e);
        MirrorStep(to, from, v, b, h.to[e]);
        AddEdge(v, b, h.info[b], h.to[e]);
        todo := todo - {e};
        es' := es' + {e};
      }
    }

    /** `union_graph` at the coordinator. */
    method UnionGraph(h: Graph)
      requires Value().Valid() && h.Valid()
      modifies this
      ensures Value() == Join(old(Value()), h) && Value().Valid()
      ensures Unites(old(Value()), h, Value())
    {
      hide Unites, Or, InfoSoFar, JoinEdges, Restrict, Mirrors, Label, JoinInfo;
      ghost var g := Value();
      var todo := h.info.Keys;
      ghost var done, es := {}, {};
      NothingJoined(g, h);
      while todo != {}
        invariant todo <= h.info.Keys && done == h.info.Keys - todo
        invariant es == set e | e in h.to && e.0 in done
        invariant info == InfoSoFar(g.info, h.info, done, es) && to == JoinEdges(g.to, Restrict(h.to, es)) &&
                  Mirrors(to, from)
      {
        var v :| v in todo;
        VisitStep(g.info, h.info, done, es, v);
        Visit(v, h.info[v]);
        todo := todo - {v};
        done := done + {v};
        es := AddEdges(v, h, g, done, es);
      }
      assert done == h.info.Keys && es == h.to.Keys by {
        forall e | e in h.to ensures e.0 in h.info {
          assert (e.0, e.1) in h.to;
        }
      }
      AllJoined(g, h, to, from);
      JoinValid(g, h);
      JoinUnites(g, h);
    }
  }

  lemma NothingJoined(g: Graph, h: Graph)
    requires g.Valid()
    ensures InfoSoFar(g.info, h.info, {}, {}) == g.info && JoinEdges(g.to, Restrict(h.to, {})) == g.to &&
            Mirrors(g.to, g.from)
  {
  }

  // ---- the graph the engine works on ----

  function Number(l: bv8): nat {
    l as nat
  }

  /** The same vertices and labelled edges, as the searches of the dependency-graph engine see them. */
  function Plain(g: Graph): DepGraph.Graph {
    DepGraph.Graph(map a | a in g.info :: PlainRow(g.info.Keys, g.to, a),
                   map b | b in g.info :: PlainRow(g.info.Keys, g.from, b))
  }

  function PlainRow(vs: set<Vid>, m: EdgeMap, a: Vid): map<Vid, DepGraph.Label> {
    map b | b in vs && (a, b) in m :: Number(m[(a, b)])
  }

  lemma PlainRowAt(vs: set<Vid>, m: EdgeMap, a: Vid, b: Vid)
    ensures b in PlainRow(vs, m, a) <==> b in vs && (a, b) in m
    ensures b in PlainRow(vs, m, a) ==> PlainRow(vs, m, a)[b] == Number(m[(a, b)])
  {
    hide Number;
  }

  /** The engine's graph of a mirrored one is mirrored. */
  lemma PlainValid(g: Graph)
    requires g.Valid()
    ensures Plain(g).Valid() && Plain(g).Vertices() == g.info.Keys
    ensures forall a: Vid, b: Vid :: Plain(g).HasTo(a, b) <==> (a, b) in g.to
  {
    hide PlainRow, Number;
    var p := Plain(g);
    forall a: Vid, b: Vid
      ensures p.HasTo(a, b) <==> (a, b) in g.to
      ensures p.HasFrom(a, b) <==> (a, b) in g.to
      ensures p.HasTo(a, b) ==> b in p.to && p.to[a][b] == p.from[b][a]
    {
      PlainRowAt(g.info.Keys, g.to, a, b);
      PlainRowAt(g.info.Keys, g.from, b, a);
    }
  }
}
