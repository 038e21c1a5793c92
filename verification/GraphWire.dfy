/**
  The wire form of a subgraph: what the decoder makes of the bytes written for a vertex set is
  the subgraph that set induces. The stream is a queue of typed items.
 */
module GraphWire {
  import opened Common
  import opened Reachability
  import opened GraphUnion

  datatype Tok = Len(n: int) | Id(v: nat) | Byte(b: bv8)

  /** What the decoder has read: `ids` are the transaction ids inside the vertex data. */
  datatype Parsed = Parsed(info: map<Vid, Info>, ids: map<Vid, Vid>, to: EdgeMap)

  function SetOf(s: seq<nat>): set<nat> {
    set x | x in s
  }

  function Identity(vs: set<Vid>): map<Vid, Vid> {
    map v | v in vs :: v
  }

  // ---- decoding ----

  function ParseServers(s: seq<Tok>, k: int, acc: set<nat>): Option<(set<nat>, seq<Tok>)>
    decreases k
  {
    if k <= 0 then Some((acc, s))
    else if s != [] && s[0].Id? then ParseServers(s[1..], k - 1, acc + {s[0].v})
    else None
  }

  /** Labels of repeated targets are or-ed. */
  function ParseEdges(s: seq<Tok>, k: int, o: Vid, acc: EdgeMap): Option<(EdgeMap, seq<Tok>)>
    decreases k
  {
    if k <= 0 then Some((acc, s))
    else if |s| >= 2 && s[0].Id? && s[1].Byte? then
      ParseEdges(s[2..], k - 1, o, acc[(o, s[0].v) := Or(Label(acc, (o, s[0].v)), s[1].b)])
    else None
  }

  function ParseVertex(s: seq<Tok>, p: Parsed): Option<(Parsed, seq<Tok>)> {
    if |s| >= 4 && s[0].Id? && s[1].Id? && s[2].Byte? && s[3].Len? then
      match ParseServers(s[4..], s[3].n, {})
      case None => None
      case Some((servers, s1)) =>
        if s1 == [] || !s1[0].Len? then None
        else
          match ParseEdges(s1[1..], s1[0].n, s[0].v, p.to)
          case None => None
          case Some((to, s2)) =>
            Some((Parsed(p.info[s[0].v := Info(s[2].b, servers)], p.ids[s[0].v := s[1].v], to), s2))
    else None
  }

  function ParseVertices(s: seq<Tok>, n: int, p: Parsed): Option<(Parsed, seq<Tok>)>
    decreases n
  {
    if n <= 0 then Some((p, s))
    else
      match ParseVertex(s, p)
      case None => None
      case Some((p', s')) => ParseVertices(s', n - 1, p')
  }

  function Flip(to: EdgeMap): EdgeMap {
    map e | e in (set x | x in to :: (x.1, x.0)) :: to[(e.1, e.0)]
  }

  const EMPTY := Parsed(map[], map[], map[])

  /** The graph decoder; `None` where it stops at a `verify`, or would follow an edge to a vertex it was not sent. */
  function Decode(s: seq<Tok>): Option<(Graph, map<Vid, Vid>)> {
    if s == [] || !s[0].Len? || s[0].n <= 0 then None
    else
      match ParseVertices(s[1..], s[0].n, EMPTY)
      case None => None
      case Some((p, _)) =>
        if |p.info| == s[0].n && forall e :: e in p.to ==> e.1 in p.info then
          Some((Graph(p.info, p.to, Flip(p.to)), p.ids))
        else None
  }

  // ---- what a set of vertices induces ----

  function InfoIn(g: Graph, vs: set<Vid>): map<Vid, Info> {
    map v | v in g.info && v in vs :: g.info[v]
  }

  /** Edges from `vs` into `all`. */
  function EdgesIn(g: Graph, vs: set<Vid>, all: set<Vid>): EdgeMap {
    map e | e in g.to && e.0 in vs && e.1 in all :: g.to[e]
  }

  ghost function Induced(g: Graph, vs: set<Vid>): Graph {
    Graph(InfoIn(g, vs), EdgesIn(g, vs, vs), map e | e in g.from && e.0 in vs && e.1 in vs :: g.from[e])
  }

  ghost function Sent(g: Graph, done: set<Vid>, all: set<Vid>): Parsed {
    Parsed(InfoIn(g, done), map v | v in g.info && v in done :: v, EdgesIn(g, done, all))
  }

  // ---- encoding, one part at a time ----

  function ServerToks(order: seq<nat>): seq<Tok> {
    seq(|order|, i requires 0 <= i < |order| => Id(order[i]))
  }

  lemma {:induction false} ServersRead(order: seq<nat>, rest: seq<Tok>, acc: set<nat>)
    ensures ParseServers(ServerToks(order) + rest, |order|, acc) == Some((acc + SetOf(order), rest))
    decreases |order|
  {
    if order == [] {
      assert ServerToks(order) + rest == rest;
      assert acc + SetOf(order) == acc;
    } else {
      var s := ServerToks(order) + rest;
      assert s[1..] == ServerToks(order[1..]) + rest;
      ServersRead(order[1..], rest, acc + {order[0]});
      assert order == [order[0]] + order[1..];
      assert acc + {order[0]} + SetOf(order[1..]) == acc + SetOf(order);
    }
  }

  function EdgeToks(g: Graph, o: Vid, tos: seq<Vid>): seq<Tok>
    requires forall b :: b in tos ==> (o, b) in g.to
  {
    if tos == [] then []
    else
      assert tos[0] in tos;
      [Id(tos[0]), Byte(g.to[(o, tos[0])])] + EdgeToks(g, o, tos[1..])
  }

  ghost function WithEdges(g: Graph, o: Vid, tos: seq<Vid>, acc: EdgeMap): EdgeMap
    requires forall b :: b in tos ==> (o, b) in g.to
  {
    map e | e in acc.Keys + (set b | b in tos :: (o, b)) :: if e.0 == o && e.1 in tos then g.to[e] else acc[e]
  }

  lemma {:induction false} EdgesRead(g: Graph, o: Vid, tos: seq<Vid>, rest: seq<Tok>, acc: EdgeMap)
    requires (forall b :: b in tos ==> (o, b) in g.to) && Distinct(tos) && forall b :: b in tos ==> (o, b) !in acc
    ensures ParseEdges(EdgeToks(g, o, tos) + rest, |tos|, o, acc) == Some((WithEdges(g, o, tos, acc), rest))
    decreases |tos|
  {
    hide WithEdges, Or;
    if tos == [] {
      NoEdges(g, o, acc);
      assert EdgeToks(g, o, tos) + rest == rest;
    } else {
      var s, b := EdgeToks(g, o, tos) + rest, tos[0];
      assert b in tos && b !in tos[1..] && tos == [b] + tos[1..];
      assert s[0] == Id(b) && s[1] == Byte(g.to[(o, b)]);
      assert s[2..] == EdgeToks(g, o, tos[1..]) + rest;
      var l := g.to[(o, b)];
      OrBits(l, 0, 0);
      EdgesRead(g, o, tos[1..], rest, acc[(o, b) := l]);
      WithEdgesStep(g, o, tos, acc);
    }
  }

  lemma NoEdges(g: Graph, o: Vid, acc: EdgeMap)
    ensures WithEdges(g, o, [], acc) == acc
  {
  }

  lemma WithEdgesStep(g: Graph, o: Vid, tos: seq<Vid>, acc: EdgeMap)
    requires (forall b :: b in tos ==> (o, b) in g.to) && tos != []
    ensures tos[0] in tos &&
            WithEdges(g, o, tos[1..], acc[(o, tos[0]) := g.to[(o, tos[0])]]) == WithEdges(g, o, tos, acc)
  {
    assert tos[0] in tos && tos == [tos[0]] + tos[1..];
    var l, r := WithEdges(g, o, tos[1..], acc[(o, tos[0]) := g.to[(o, tos[0])]]), WithEdges(g, o, tos, acc);
    forall e ensures e in l <==> e in r {
      assert e == (e.0, e.1);
    }
  }

  function VertexToks(g: Graph, v: Vid, servers: seq<nat>, tos: seq<Vid>): seq<Tok>
    requires v in g.info && forall b :: b in tos ==> (v, b) in g.to
  {
    [Id(v), Id(v), Byte(g.info[v].status), Len(|servers|)] + ServerToks(servers) + [Len(|tos|)] + EdgeToks(g, v, tos)
  }

  lemma VertexRead(g: Graph, v: Vid, servers: seq<nat>, tos: seq<Vid>, rest: seq<Tok>, p: Parsed)
    requires v in g.info && (forall b :: b in tos ==> (v, b) in g.to) && Distinct(tos) &&
             forall b :: b in tos ==> (v, b) !in p.to
    requires SetOf(servers) == g.info[v].servers
    ensures ParseVertex(VertexToks(g, v, servers, tos) + rest, p) ==
            Some((Parsed(p.info[v := g.info[v]], p.ids[v := v], WithEdges(g, v, tos, p.to)), rest))
  {
    hide ParseServers, ParseEdges, ServerToks, EdgeToks, WithEdges;
    var s := VertexToks(g, v, servers, tos) + rest;
    var s1 := [Len(|tos|)] + EdgeToks(g, v, tos) + rest;
    assert s[0] == Id(v) && s[1] == Id(v) && s[2] == Byte(g.info[v].status) && s[3] == Len(|servers|);
    assert s[4..] == ServerToks(servers) + s1;
    ServersRead(servers, s1, {});
    assert {} + SetOf(servers) == g.info[v].servers;
    assert s1[0] == Len(|tos|) && s1[1..] == EdgeToks(g, v, tos) + rest;
    EdgesRead(g, v, tos, rest, p.to);
    assert ParseServers(s[4..], s[3].n, {}) == Some((g.info[v].servers, s1));
    assert ParseEdges(s1[1..], s1[0].n, v, p.to) == Some((WithEdges(g, v, tos, p.to), rest));
    assert g.info[v] == Info(s[2].b, g.info[v].servers);
  }

  // ---- the writer ----

  /** `body` takes the vertex loop from `p` with `n` to go to `p'` with `m` to go. */
  ghost predicate Reads(body: seq<Tok>, n: int, p: Parsed, m: int, p': Parsed) {
    forall rest :: ParseVertices(body + rest, n, p) == ParseVertices(rest, m, p')
  }

  lemma ReadsNothing(n: int, p: Parsed)
    ensures Reads([], n, p, n, p)
  {
    forall rest ensures ParseVertices([] + rest, n, p) == ParseVertices(rest, n, p) {
      assert [] + rest == rest;
    }
  }

  lemma ReadsMore(a: seq<Tok>, b: seq<Tok>, n: int, p: Parsed, m: int, q: Parsed, q': Parsed)
    requires Reads(a, n, p, m, q) && m > 0 && forall rest :: ParseVertex(b + rest, q) == Some((q', rest))
    ensures Reads(a + b, n, p, m - 1, q')
  {
    hide ParseVertex;
    forall rest ensures ParseVertices((a + b) + rest, n, p) == ParseVertices(rest, m - 1, q') {
      assert (a + b) + rest == a + (b + rest);
      assert ParseVertices(a + (b + rest), n, p) == ParseVertices(b + rest, m, q);
      assert ParseVertex(b + rest, q) == Some((q', rest));
    }
  }

  lemma SentStep(g: Graph, done: set<Vid>, all: set<Vid>, v: Vid, tos: seq<Vid>)
    requires v in g.info && v !in done && (forall b :: b in tos <==> (v, b) in g.to && b in all)
    ensures (forall b :: b in tos ==> (v, b) in g.to && (v, b) !in Sent(g, done, all).to)
    ensures var p := Sent(g, done, all);
            Sent(g, done + {v}, all) == Parsed(p.info[v := g.info[v]], p.ids[v := v], WithEdges(g, v, tos, p.to))
  {
    var l, r := EdgesIn(g, done + {v}, all), WithEdges(g, v, tos, Sent(g, done, all).to);
    forall e ensures e in l <==> e in r {
      assert e == (e.0, e.1);
    }
    forall e | e in l ensures l[e] == r[e] {
      assert e == (e.0, e.1);
    }
  }

  /** List a set in some order. */
  method List(s: set<nat>) returns (order: seq<nat>)
    ensures Distinct(order) && SetOf(order) == s && |order| == |s|
  {
    order := [];
    var todo := s;
    while todo != {}
      invariant todo <= s && Distinct(order) && SetOf(order) == s - todo && |order| == |s| - |todo|
    {
      var x :| x in todo;
      assert forall y :: y in order ==> y in s - todo;
      assert SetOf(order + [x]) == SetOf(order) + {x};
      assert s - (todo - {x}) == s - todo + {x};
      todo := todo - {x};
      order := order + [x];
    }
  }

  /** `marshal_help_1` first collects the targets inside the set, then writes them. */
  method Targets(g: Graph, all: set<Vid>, v: Vid) returns (tos: seq<Vid>)
    ensures Distinct(tos) && forall b :: b in tos <==> (v, b) in g.to && b in all
  {
    var outs := set e | e in g.to && e.0 == v :: e.1;
    tos := [];
    while outs != {}
      invariant Distinct(tos) && outs <= set e | e in g.to && e.0 == v :: e.1
      invariant forall b :: b in tos <==> (v, b) in g.to && b in all && b !in outs
    {
      var b :| b in outs;
      outs := outs - {b};
      if b in all {
        tos := tos + [b];
      }
    }
  }

  method WriteEdges(g: Graph, v: Vid, tos: seq<Vid>) returns (toks: seq<Tok>)
    requires forall b :: b in tos ==> (v, b) in g.to
    ensures toks == EdgeToks(g, v, tos)
  {
    toks := [];
    var i := 0;
    while i < |tos|
      invariant 0 <= i <= |tos| && toks + EdgeToks(g, v, tos[i..]) == EdgeToks(g, v, tos)
    {
      assert tos[i] in tos && tos[i..][0] == tos[i] && tos[i..][1..] == tos[i + 1..];
      toks := toks + [Id(tos[i]), Byte(g.to[(v, tos[i])])];
      i := i + 1;
    }
  }

  /** `write_to_marshal`, for a set of vertices of the graph. */
  method WriteToMarshal(g: Graph, all: set<Vid>) returns (out: seq<Tok>)
    requires g.Valid() && all <= g.info.Keys && all != {}
    ensures Decode(out) == Some((Induced(g, all), Identity(all)))
  {
    hide ParseVertices, ParseVertex, Reads, Sent, VertexToks, WithEdges, EdgeToks;
    var todo, body := all, [];
    ghost var done := {};
    NothingSent(g, all);
    ReadsNothing(|all|, EMPTY);
    while todo != {}
      invariant todo <= all && done == all - todo && Reads(body, |all|, EMPTY, |todo|, Sent(g, done, all))
    {
      var v :| v in todo;
      var servers := List(g.info[v].servers);
      var tos := Targets(g, all, v);
      SentStep(g, done, all, v, tos);
      var edges := WriteEdges(g, v, tos);
      var b := [Id(v), Id(v), Byte(g.info[v].status), Len(|servers|)] + ServerToks(servers) + [Len(|tos|)] + edges;
      VertexIs(g, v, servers, tos, b);
      ghost var p := Sent(g, done, all);
      forall rest ensures ParseVertex(b + rest, p) == Some((Sent(g, done + {v}, all), rest)) {
        VertexRead(g, v, servers, tos, rest, p);
      }
      ReadsMore(body, b, |all|, EMPTY, |todo|, p, Sent(g, done + {v}, all));
      body := body + b;
      todo := todo - {v};
      done := done + {v};
    }
    assert done == all;
    out := [Len(|all|)] + body;
    RoundTrip(g, all, body);
  }

  lemma VertexIs(g: Graph, v: Vid, servers: seq<nat>, tos: seq<Vid>, b: seq<Tok>)
    requires v in g.info && forall t :: t in tos ==> (v, t) in g.to
    requires b == [Id(v), Id(v), Byte(g.info[v].status), Len(|servers|)] + ServerToks(servers) +
                  [Len(|tos|)] + EdgeToks(g, v, tos)
    ensures b == VertexToks(g, v, servers, tos)
  {
  }

  lemma NothingSent(g: Graph, all: set<Vid>)
    ensures Sent(g, {}, all) == EMPTY
  {
  }

  lemma RoundTrip(g: Graph, all: set<Vid>, body: seq<Tok>)
    requires g.Valid() && all <= g.info.Keys && all != {} && Reads(body, |all|, EMPTY, 0, Sent(g, all, all))
    ensures Decode([Len(|all|)] + body) == Some((Induced(g, all), Identity(all)))
  {
    hide Sent, Flip, Induced;
    var s, p := [Len(|all|)] + body, Sent(g, all, all);
    assert s[1..] == body + [];
    assert ParseVertices(body + [], |all|, EMPTY) == ParseVertices([], 0, p);
    SentAll(g, all);
  }

  lemma SentAll(g: Graph, all: set<Vid>)
    requires g.Valid() && all <= g.info.Keys
    ensures var p := Sent(g, all, all);
            && |p.info| == |all| && p.ids == Identity(all) && (forall e :: e in p.to ==> e.1 in p.info)
            && Graph(p.info, p.to, Flip(p.to)) == Induced(g, all)
  {
    hide Flip;
    var p := Sent(g, all, all);
    assert p.info.Keys == all;
    forall e | e in p.to ensures e.1 in p.info {
      assert (e.0, e.1) in g.to;
    }
    FlipInduced(g, all);
  }

  lemma FlipInduced(g: Graph, all: set<Vid>)
    requires g.Valid()
    ensures Flip(EdgesIn(g, all, all)) == Induced(g, all).from
  {
    var f, h := Flip(EdgesIn(g, all, all)), Induced(g, all).from;
    forall e ensures e in f <==> e in h {
      assert e == (e.0, e.1);
      assert (e.1, e.0) in EdgesIn(g, all, all) <==> e in h;
    }
    forall e | e in f ensures f[e] == h[e] {
      assert e == (e.0, e.1);
    }
  }

  // ---- the reader ----

  /** `operator>>` for graphs: the loops over vertices and edges. */
  method ReadFromMarshal(s: seq<Tok>) returns (r: Option<(Graph, map<Vid, Vid>)>)
    ensures r == Decode(s)
  {
    if s == [] || !s[0].Len? || s[0].n <= 0 {
      return None;
    }
    var n, nn, rest := s[0].n, s[0].n, s[1..];
    var p := EMPTY;
    while nn > 0
      invariant ParseVertices(s[1..], n, EMPTY) == ParseVertices(rest, nn, p)
    {
      var v := ParseVertex(rest, p);
      if v == None {
        return None;
      }
      p, rest, nn := v.value.0, v.value.1, nn - 1;
    }
    if |p.info| != n {
      return None;
    }
    var todo, from := p.to.Keys, map[];
    while todo != {}
      invariant todo <= p.to.Keys
      invariant forall e :: e in p.to && e !in todo ==> e.1 in p.info
      invariant from == Flip(map e | e in p.to && e !in todo :: p.to[e])
    {
      var e :| e in todo;
      if e.1 !in p.info {
        return None;
      }
      FlipStep(p.to, todo, e);
      from := from[(e.1, e.0) := p.to[e]];
      todo := todo - {e};
    }
    assert (map e | e in p.to && e !in todo :: p.to[e]) == p.to;
    return Some((Graph(p.info, p.to, from), p.ids));
  }

  lemma FlipStep(to: EdgeMap, todo: set<(Vid, Vid)>, e: (Vid, Vid))
    requires e in todo && todo <= to.Keys
    ensures Flip(map x | x in to && x !in todo - {e} :: to[x]) ==
            Flip(map x | x in to && x !in todo :: to[x])[(e.1, e.0) := to[e]]
  {
    var a, b := map x | x in to && x !in todo :: to[x], map x | x in to && x !in todo - {e} :: to[x];
    var l, r := Flip(b), Flip(a)[(e.1, e.0) := to[e]];
    forall f ensures f in l <==> f in r {
      assert f == (f.0, f.1);
      FlipAt(a, f);
      FlipAt(b, f);
    }
    forall f | f in l ensures l[f] == r[f] {
      assert f == (f.0, f.1);
      FlipAt(a, f);
      FlipAt(b, f);
    }
  }

  lemma FlipAt(m: EdgeMap, f: (Vid, Vid))
    ensures f in Flip(m) <==> (f.1, f.0) in m
    ensures f in Flip(m) ==> Flip(m)[f] == m[(f.1, f.0)]
  {
    if (f.1, f.0) in m {
      var x := (f.1, f.0);
      assert x in m && (x.1, x.0) == f;
    }
  }
}
