/** `Graph::sorted_scc`: order the component of a vertex along its immediate edges. */
module SortedScc {
  import opened Common
  import opened Reachability
  import opened DepGraph
  import Tarjan
  import SortVv

  /** R->W or W->R edge, kept in immediate order: label of EDGE_I or more. */
  predicate Immediate(g: Graph, a: Vid, b: Vid) {
    g.HasTo(a, b) && g.to[a][b] >= 2
  }

  /** The immediate edges inside the component `c`. */
  ghost function InnerEdges(g: Graph, c: set<Vid>): Edges {
    set a, b | a in c && b in c && Immediate(g, a, b) :: (a, b)
  }

  ghost predicate HasInnerParent(g: Graph, c: set<Vid>, v: Vid) {
    exists p :: p in c && Immediate(g, p, v)
  }

  ghost predicate ParentsIn(g: Graph, v: Vid, out: seq<Vid>) {
    forall p :: Immediate(g, p, v) ==> p in out
  }

  /** `v` may follow the vertices of `out`: it starts an order or all its parents are there. */
  ghost predicate Ready(g: Graph, c: set<Vid>, v: Vid, out: seq<Vid>) {
    !HasInnerParent(g, c, v) || ParentsIn(g, v, out)
  }

  /** Each vertex of `out` comes after the sources of its inner immediate edges. */
  ghost predicate Ordered(g: Graph, c: set<Vid>, out: seq<Vid>) {
    forall i :: 0 <= i < |out| ==> Ready(g, c, out[i], out[..i])
  }

  /** The condition under which the order is complete. */
  ghost predicate Orderable(g: Graph, c: set<Vid>) {
    && (forall v :: v in c ==> !ReachPlus(InnerEdges(g, c), v, v))
    && (forall v, p :: v in c && HasInnerParent(g, c, v) && Immediate(g, p, v) ==> p in c)
  }

  ghost predicate Progress(g: Graph, c: set<Vid>, out: seq<Vid>, stack: seq<Vid>) {
    && Distinct(out) && Distinct(stack)
    && (forall x :: x in out ==> x in c)
    && (forall x :: x in stack ==> x in c && x !in out && Ready(g, c, x, out))
    && Ordered(g, c, out)
    && (forall x :: x in c && Ready(g, c, x, out) ==> x in out || x in stack)
  }

  // ---- sequences without repetition ----

  lemma {:induction false} CountOfDistinct(s: seq<Vid>, x: Vid)
    requires Distinct(s)
    ensures multiset(s)[x] <= 1
  {
    if s != [] {
      var s' := s[..|s| - 1];
      assert s == s' + [s[|s| - 1]];
      CountOfDistinct(s', x);
      assert s[|s| - 1] !in s';
    }
  }

  lemma DistinctByCount(s: seq<Vid>)
    requires forall x :: multiset(s)[x] <= 1
    ensures Distinct(s)
  {
    forall i, j | 0 <= i < j < |s| ensures s[i] != s[j] {
      assert s == s[..j] + s[j..];
      assert s[i] == s[..j][i] && s[..j][i] in multiset(s[..j]);
      assert s[j] == s[j..][0] && s[j..][0] in multiset(s[j..]);
      assert multiset(s)[s[j]] == multiset(s[..j])[s[j]] + multiset(s[j..])[s[j]];
    }
  }

  lemma PermutedDistinct(s: seq<Vid>, t: seq<Vid>)
    requires Distinct(s) && multiset(s) == multiset(t)
    ensures Distinct(t) && forall x :: x in t <==> x in s
  {
    forall x ensures multiset(t)[x] <= 1 && (x in t <==> x in s) {
      CountOfDistinct(s, x);
      assert x in t <==> x in multiset(t);
      assert x in s <==> x in multiset(s);
    }
    DistinctByCount(t);
  }

  lemma {:induction false} DistinctCard(s: seq<Vid>)
    requires Distinct(s)
    ensures |Tarjan.Elems(s)| == |s|
  {
    if s != [] {
      var s' := s[..|s| - 1];
      DistinctCard(s');
      assert s == s' + [s[|s| - 1]];
      assert s[|s| - 1] !in s';
      assert Tarjan.Elems(s) == Tarjan.Elems(s') + {s[|s| - 1]};
    } else {
      assert Tarjan.Elems(s) == {};
    }
  }

  /** A sequence without repetition inside a finite set covers it exactly if it is long enough. */
  lemma CoversByCard(s: seq<Vid>, c: set<Vid>)
    requires Distinct(s) && forall x :: x in s ==> x in c
    ensures |s| <= |c|
    ensures |s| == |c| <==> forall x :: x in c ==> x in s
  {
    DistinctCard(s);
    var e := Tarjan.Elems(s);
    assert e <= c;
    SubsetCard(e, c);
    if forall x :: x in c ==> x in s {
      assert e == c;
    }
  }

  lemma SubsetCard(e: set<Vid>, c: set<Vid>)
    requires e <= c
    ensures |e| <= |c| && (|e| == |c| ==> e == c)
  {
    assert c == e + (c - e);
    assert |c| == |e| + |c - e|;
    if |e| == |c| {
      assert c - e == {};
    }
  }

  // ---- one step of the search ----

  lemma ReadyGrows(g: Graph, c: set<Vid>, x: Vid, out: seq<Vid>, v: Vid)
    requires Ready(g, c, x, out)
    ensures Ready(g, c, x, out + [v])
  {
  }

  /** Emitting the top of the stack. */
  lemma Emit(g: Graph, c: set<Vid>, out: seq<Vid>, stack: seq<Vid>)
    requires Progress(g, c, out, stack) && stack != []
    ensures var v := stack[|stack| - 1]; var rest := stack[..|stack| - 1]; var out' := out + [v];
            && v in c && v !in out
            && Distinct(out') && Distinct(rest)
            && (forall x :: x in out' ==> x in c)
            && (forall x :: x in rest ==> x in c && x !in out' && Ready(g, c, x, out'))
            && Ordered(g, c, out')
  {
    hide HasInnerParent;
    var v := stack[|stack| - 1];
    var rest := stack[..|stack| - 1];
    var out' := out + [v];
    assert stack == rest + [v];
    forall i | 0 <= i < |out'| ensures Ready(g, c, out'[i], out'[..i]) {
      if i < |out| {
        assert out'[..i] == out[..i];
        assert Ready(g, c, out[i], out[..i]);
      } else {
        assert out'[..i] == out;
      }
    }
    forall x | x in rest ensures x in c && x !in out' && Ready(g, c, x, out') {
      assert x in stack;
      ReadyGrows(g, c, x, out, v);
      var i :| 0 <= i < |rest| && rest[i] == x;
      assert stack[i] == x;
    }
  }

  /** What becomes ready by emitting `v` are children of `v` that were never on the stack. */
  lemma NewlyReady(g: Graph, c: set<Vid>, out: seq<Vid>, stack: seq<Vid>, x: Vid)
    requires Progress(g, c, out, stack) && stack != [] && x in c
    ensures var v := stack[|stack| - 1]; var rest := stack[..|stack| - 1]; var out' := out + [v];
            && (Immediate(g, v, x) ==> x !in out' && x !in rest && HasInnerParent(g, c, x))
            && (Ready(g, c, x, out') ==> x in out' || x in rest || (Immediate(g, v, x) && ParentsIn(g, x, out')))
  {
    var v := stack[|stack| - 1];
    var rest := stack[..|stack| - 1];
    var out' := out + [v];
    assert stack == rest + [v];
    assert v in stack;
    if Immediate(g, v, x) {
      assert v in c;
      assert !Ready(g, c, x, out);
      NotEmittedYet(g, c, out, x);
      assert x !in stack;
    } else if Ready(g, c, x, out') {
      assert Ready(g, c, x, out) by {
        if HasInnerParent(g, c, x) {
          forall p | Immediate(g, p, x) ensures p in out { assert p in out'; }
        }
      }
      assert x in stack ==> x in rest || x == v;
    }
  }

  lemma NotEmittedYet(g: Graph, c: set<Vid>, out: seq<Vid>, x: Vid)
    requires Ordered(g, c, out) && !Ready(g, c, x, out)
    ensures x !in out
  {
    hide HasInnerParent;
    forall i | 0 <= i < |out| ensures out[i] != x {
      assert Ready(g, c, out[i], out[..i]);
      assert forall y :: y in out[..i] ==> y in out;
    }
  }

  // ---- completeness ----

  ghost predicate HasPred(es: Edges, u: set<Vid>, x: Vid) {
    exists w :: w in u && (w, x) in es
  }

  lemma PickPred(es: Edges, u: set<Vid>, x: Vid) returns (w: Vid)
    requires HasPred(es, u, x)
    ensures w in u && (w, x) in es
  {
    w :| w in u && (w, x) in es;
  }

  lemma IsPred(es: Edges, u: set<Vid>, x: Vid, w: Vid)
    requires w in u && (w, x) in es
    ensures HasPred(es, u, x)
  {
  }

  lemma NotBeforeItself(out: seq<Vid>, v: Vid)
    requires Distinct(out)
    ensures !Before(out, v, v)
  {
  }

  /** Walking backwards for `n` steps inside a set in which every vertex has a predecessor. */
  lemma {:induction false} BackwardWalk(es: Edges, u: set<Vid>, n: nat) returns (p: seq<Vid>)
    requires u != {} && forall x :: x in u ==> HasPred(es, u, x)
    ensures |p| == n + 1 && (forall i :: 0 <= i < |p| ==> p[i] in u)
    ensures forall i :: 0 <= i < |p| - 1 ==> (p[i], p[i + 1]) in es
  {
    hide HasPred;
    if n == 0 {
      var x :| x in u;
      p := [x];
    } else {
      var q := BackwardWalk(es, u, n - 1);
      var w := PickPred(es, u, q[0]);
      p := [w] + q;
    }
  }

  /** A finite set in which every vertex has a predecessor contains a cycle. */
  lemma CycleExists(es: Edges, u: set<Vid>) returns (v: Vid)
    requires u != {} && forall x :: x in u ==> HasPred(es, u, x)
    ensures v in u && ReachPlus(es, v, v)
  {
    hide HasPred;
    var p := BackwardWalk(es, u, |u|);
    assert !Distinct(p) by {
      if Distinct(p) { CoversByCard(p, u); }
    }
    var i, j :| 0 <= i < j < |p| && p[i] == p[j];
    v := p[i];
    var q := p[i..j + 1];
    assert forall k :: 0 <= k < |q| ==> q[k] == p[i + k];
    assert IsPath(es, q, v, v) && |q| > 1;
  }

  /** With an orderable component the search emits everything. */
  lemma EmitsAll(g: Graph, c: set<Vid>, out: seq<Vid>)
    requires Progress(g, c, out, []) && Orderable(g, c)
    ensures forall x :: x in c ==> x in out
  {
    hide ReachPlus, HasPred, HasInnerParent;
    var es := InnerEdges(g, c);
    var u := set x | x in c && x !in out;
    if u != {} {
      forall x | x in u ensures HasPred(es, u, x) {
        assert !Ready(g, c, x, out);
        var w :| Immediate(g, w, x) && w !in out;
        IsPred(es, u, x, w);
      }
      var v := CycleExists(es, u);
    }
    assert forall x :: x in c && x !in out ==> x in u;
  }

  ghost predicate Before(out: seq<Vid>, a: Vid, b: Vid) {
    exists i, j :: 0 <= i < j < |out| && out[i] == a && out[j] == b
  }

  /** In an ordered sequence the source of an inner immediate edge precedes its target. */
  lemma EdgeBefore(g: Graph, c: set<Vid>, out: seq<Vid>, a: Vid, b: Vid)
    requires Ordered(g, c, out) && a in c && b in out && Immediate(g, a, b)
    ensures Before(out, a, b)
  {
    var j :| 0 <= j < |out| && out[j] == b;
    assert Ready(g, c, out[j], out[..j]);
    assert HasInnerParent(g, c, b);
    assert a in out[..j];
    var i :| 0 <= i < j && out[..j][i] == a;
    assert out[i] == a;
  }

  lemma {:induction false} PathBefore(g: Graph, c: set<Vid>, out: seq<Vid>, p: seq<Vid>, k: nat)
    requires Ordered(g, c, out) && Distinct(out) && (forall x :: x in c ==> x in out)
    requires 0 < k < |p| && forall i :: 0 <= i < |p| - 1 ==> (p[i], p[i + 1]) in InnerEdges(g, c)
    ensures Before(out, p[0], p[k])
  {
    assert (p[k - 1], p[k - 1 + 1]) in InnerEdges(g, c);
    EdgeBefore(g, c, out, p[k - 1], p[k]);
    if k > 1 {
      PathBefore(g, c, out, p, k - 1);
      var i, j :| 0 <= i < j < |out| && out[i] == p[0] && out[j] == p[k - 1];
      var j', l :| 0 <= j' < l < |out| && out[j'] == p[k - 1] && out[l] == p[k];
      assert j == j';
      assert out[i] == p[0] && out[l] == p[k];
    }
  }

  /** If everything was emitted the component was orderable. */
  lemma EmittedIsOrderable(g: Graph, c: set<Vid>, out: seq<Vid>)
    requires Progress(g, c, out, []) && forall x :: x in c ==> x in out
    ensures Orderable(g, c)
  {
    forall v | v in c ensures !ReachPlus(InnerEdges(g, c), v, v) {
      if ReachPlus(InnerEdges(g, c), v, v) {
        var p :| |p| > 1 && IsPath(InnerEdges(g, c), p, v, v);
        PathBefore(g, c, out, p, |p| - 1);
        NotBeforeItself(out, v);
      }
    }
    forall v, p | v in c && HasInnerParent(g, c, v) && Immediate(g, p, v) ensures p in c {
      var i :| 0 <= i < |out| && out[i] == v;
      assert Ready(g, c, out[i], out[..i]);
      assert p in out[..i];
      var k :| 0 <= k < i && out[..i][k] == p;
      assert out[k] in out;
    }
  }

  // ---- the procedure as a function ----

  /** All vertices in the order of their addresses, in which the source walks its sets and maps. */
  ghost predicate Addresses(g: Graph, mem: seq<Vid>) {
    Distinct(mem) && forall x :: x in mem <==> x in g.Vertices()
  }

  /** The elements of `s` in that order. */
  function Listed(mem: seq<Vid>, s: set<Vid>): seq<Vid> {
    if mem == [] then []
    else Listed(mem[..|mem| - 1], s) + if mem[|mem| - 1] in s then [mem[|mem| - 1]] else []
  }

  lemma ListedMore(mem: seq<Vid>, i: nat, s: set<Vid>)
    requires i < |mem|
    ensures Listed(mem[..i + 1], s) == Listed(mem[..i], s) + if mem[i] in s then [mem[i]] else []
  {
    assert mem[..i + 1][..i] == mem[..i];
  }

  lemma {:induction false} ListedAre(mem: seq<Vid>, s: set<Vid>)
    requires Distinct(mem)
    ensures Distinct(Listed(mem, s)) && forall x :: x in Listed(mem, s) <==> x in mem && x in s
    decreases |mem|
  {
    if mem != [] {
      var n := |mem| - 1;
      ListedAre(mem[..n], s);
      assert mem == mem[..n] + [mem[n]];
      assert mem[n] !in mem[..n];
    }
  }

  ghost function StartSet(g: Graph, c: set<Vid>): set<Vid> {
    set x | x in c && !HasInnerParent(g, c, x)
  }

  ghost function ChildSet(g: Graph, c: set<Vid>, v: Vid): set<Vid> {
    set x | x in c && Immediate(g, v, x)
  }

  /** The inner immediate children of each member, as the source lists and sorts them. */
  ghost function Kids(g: Graph, c: set<Vid>, mem: seq<Vid>): map<Vid, seq<Vid>> {
    map v | v in c :: SortedIds(Listed(mem, ChildSet(g, c, v)), SortVv.Up)
  }

  ghost predicate KidsOk(g: Graph, c: set<Vid>, kids: map<Vid, seq<Vid>>) {
    kids.Keys == c &&
    forall v :: v in c ==> Distinct(kids[v]) && forall x :: x in kids[v] <==> x in ChildSet(g, c, v)
  }

  lemma SortedListed(g: Graph, mem: seq<Vid>, s: set<Vid>, flag: SortVv.Flag)
    requires Addresses(g, mem) && s <= g.Vertices()
    ensures Distinct(SortedIds(Listed(mem, s), flag)) && forall x :: x in SortedIds(Listed(mem, s), flag) <==> x in s
  {
    ListedAre(mem, s);
    PermutedDistinct(Listed(mem, s), SortedIds(Listed(mem, s), flag));
  }

  lemma KidsAre(g: Graph, c: set<Vid>, mem: seq<Vid>)
    requires Addresses(g, mem) && c <= g.Vertices()
    ensures KidsOk(g, c, Kids(g, c, mem))
  {
    hide Immediate;
    forall v | v in c
      ensures Distinct(Kids(g, c, mem)[v]) && forall x :: x in Kids(g, c, mem)[v] <==> x in ChildSet(g, c, v)
    {
      SortedListed(g, mem, ChildSet(g, c, v), SortVv.Up);
    }
  }

  /** Those whose immediate parents have all been emitted. */
  ghost function Released(g: Graph, out: seq<Vid>, cs: seq<Vid>): seq<Vid> {
    if cs == [] then []
    else Released(g, out, cs[..|cs| - 1]) + if ParentsIn(g, cs[|cs| - 1], out) then [cs[|cs| - 1]] else []
  }

  lemma ReleasedMore(g: Graph, out: seq<Vid>, cs: seq<Vid>, i: nat)
    requires i < |cs|
    ensures Released(g, out, cs[..i + 1]) ==
            Released(g, out, cs[..i]) + if ParentsIn(g, cs[i], out) then [cs[i]] else []
  {
    hide ParentsIn;
    assert cs[..i + 1][..i] == cs[..i];
  }

  lemma {:induction false} ReleasedAre(g: Graph, out: seq<Vid>, cs: seq<Vid>)
    requires Distinct(cs)
    ensures Distinct(Released(g, out, cs)) && forall x :: x in Released(g, out, cs) <==> x in cs && ParentsIn(g, x, out)
    decreases |cs|
  {
    hide ParentsIn;
    if cs != [] {
      var n := |cs| - 1;
      ReleasedAre(g, out, cs[..n]);
      assert cs == cs[..n] + [cs[n]];
      assert cs[n] !in cs[..n];
    }
  }

  lemma DfsStep(g: Graph, c: set<Vid>, kids: map<Vid, seq<Vid>>, out: seq<Vid>, stack: seq<Vid>)
    requires KidsOk(g, c, kids) && Progress(g, c, out, stack) && stack != []
    ensures var v := stack[|stack| - 1]; var out' := out + [v];
            && v in c && |out| < |c|
            && Progress(g, c, out', stack[..|stack| - 1] + Released(g, out', kids[v]))
  {
    hide HasInnerParent, ParentsIn, Immediate, Ready, Ordered, Released;
    var v, rest := stack[|stack| - 1], stack[..|stack| - 1];
    var out' := out + [v];
    Emit(g, c, out, stack);
    CoversByCard(out', c);
    forall x | x in c
      ensures Immediate(g, v, x) ==> x !in out' && x !in rest && HasInnerParent(g, c, x)
      ensures Ready(g, c, x, out') ==> x in out' || x in rest || (Immediate(g, v, x) && ParentsIn(g, x, out'))
    {
      NewlyReady(g, c, out, stack, x);
    }
    ReleasedAre(g, out', kids[v]);
    var more := Released(g, out', kids[v]);
    DistinctBoth(rest, more);
    forall x | x in rest + more ensures x in c && x !in out' && Ready(g, c, x, out') {
      if x in more { ParentsMakeReady(g, c, x, out'); }
    }
  }

  lemma DistinctBoth(a: seq<Vid>, b: seq<Vid>)
    requires Distinct(a) && Distinct(b) && forall x :: x in b ==> x !in a
    ensures Distinct(a + b)
  {
    forall i, j | 0 <= i < j < |a + b| ensures (a + b)[i] != (a + b)[j] {
      if i < |a| <= j { assert a[i] in a && b[j - |a|] in b; }
    }
  }

  /** The output loop: what it writes from `out` and `stack` on. */
  ghost function Dfs(g: Graph, c: set<Vid>, kids: map<Vid, seq<Vid>>, out: seq<Vid>, stack: seq<Vid>): (r: seq<Vid>)
    requires KidsOk(g, c, kids) && Progress(g, c, out, stack)
    ensures Progress(g, c, r, [])
    decreases |c| - |out|
  {
    if stack == [] then out
    else
      DfsStep(g, c, kids, out, stack);
      var v, out' := stack[|stack| - 1], out + [stack[|stack| - 1]];
      Dfs(g, c, kids, out', stack[..|stack| - 1] + Released(g, out', kids[v]))
  }

  /** The start vertices, as the source lists and sorts them. */
  ghost function Starts(g: Graph, c: set<Vid>, mem: seq<Vid>): seq<Vid> {
    SortedIds(Listed(mem, StartSet(g, c)), SortVv.Down)
  }

  /** The output of the whole procedure. */
  ghost function Output(g: Graph, c: set<Vid>, mem: seq<Vid>): (r: seq<Vid>)
    requires Addresses(g, mem) && c <= g.Vertices()
    ensures Progress(g, c, r, [])
  {
    KidsAre(g, c, mem);
    SortedListed(g, mem, StartSet(g, c), SortVv.Down);
    StartProgress(g, c, Starts(g, c, mem));
    Dfs(g, c, Kids(g, c, mem), [], Starts(g, c, mem))
  }

  // ---- the procedure ----

  lemma SortedIdsAre(s: seq<Vid>, flag: SortVv.Flag)
    ensures forall i :: 0 <= i < |SortVv.SortVvSpec(s, flag)| ==> SortVv.SortVvSpec(s, flag)[i] >= 0
  {
    var t := SortVv.SortVvSpec(s, flag);
    SortVv.SortVvPermutes(s, flag);
    forall i | 0 <= i < |t| ensures t[i] >= 0 {
      assert t[i] in multiset(t);
      assert t[i] in s;
    }
  }

  /** What `sort_vv` makes of a list of vertices. */
  ghost function SortedIds(s: seq<Vid>, flag: SortVv.Flag): (t: seq<Vid>)
    ensures multiset(t) == multiset(s) && t == SortVv.SortVvSpec(s, flag)
  {
    SortVv.SortVvPermutes(s, flag);
    SortedIdsAre(s, flag);
    SortVv.SortVvSpec(s, flag)
  }

  method SortIds(s: seq<Vid>, flag: SortVv.Flag) returns (t: seq<Vid>)
    requires |s| > 0
    ensures t == SortedIds(s, flag)
  {
    var vv := new int[|s|](i requires 0 <= i < |s| => s[i]);
    assert vv[..] == s;
    SortVv.Sort(vv, flag);
    SortedIdsAre(s, flag);
    assert forall i :: 0 <= i < vv.Length ==> vv[i] == vv[..][i];
    t := vv[..];
  }

  /** Does `v` have an immediate parent inside the component? */
  method HasType2Parent(g: Graph, c: set<Vid>, v: Vid) returns (type2: bool)
    requires g.Valid() && v in g.Vertices()
    ensures type2 <==> HasInnerParent(g, c, v)
  {
    type2 := false;
    var todo := g.from[v].Keys;
    while todo != {}
      invariant todo <= g.from[v].Keys
      invariant type2 <==> exists p :: p in g.from[v].Keys - todo && p in c && Immediate(g, p, v)
    {
      var p :| p in todo;
      todo := todo - {p};
      assert g.HasFrom(p, v) && g.HasTo(p, v);
      if g.from[v][p] > 1 && p in c {
        assert p in g.from[v].Keys - todo && Immediate(g, p, v);
        type2 := true;
      }
    }
    assert forall p :: Immediate(g, p, v) ==> g.HasFrom(p, v);
  }

  /** Have all immediate parents of `v`, inside the component or not, been emitted? */
  method AllParentsVisited(g: Graph, v: Vid, out: seq<Vid>) returns (all: bool)
    requires g.Valid() && v in g.Vertices()
    ensures all <==> ParentsIn(g, v, out)
  {
    var todo := g.from[v].Keys;
    all := true;
    while todo != {} && all
      invariant todo <= g.from[v].Keys
      invariant all ==> forall p :: p in g.from[v].Keys - todo && Immediate(g, p, v) ==> p in out
      invariant !all ==> !ParentsIn(g, v, out)
    {
      var p :| p in todo;
      todo := todo - {p};
      assert g.HasFrom(p, v) && g.HasTo(p, v);
      if g.from[v][p] >= 2 && p !in out {
        assert Immediate(g, p, v);
        all := false;
      }
    }
    assert all ==> forall p :: Immediate(g, p, v) ==> g.HasFrom(p, v);
  }

  method StartVertices(g: Graph, c: set<Vid>, mem: seq<Vid>) returns (start: seq<Vid>)
    requires g.Valid() && c <= g.Vertices()
    ensures start == Listed(mem, StartSet(g, c))
  {
    hide HasInnerParent;
    start := [];
    for i := 0 to |mem|
      invariant start == Listed(mem[..i], StartSet(g, c))
    {
      ListedMore(mem, i, StartSet(g, c));
      if mem[i] in c {
        var type2 := HasType2Parent(g, c, mem[i]);
        if !type2 {
          start := start + [mem[i]];
        }
      }
    }
    assert mem[..|mem|] == mem;
  }

  method InnerChildren(g: Graph, c: set<Vid>, v: Vid, mem: seq<Vid>) returns (children: seq<Vid>)
    requires g.Valid() && v in g.Vertices()
    ensures children == SortedIds(Listed(mem, ChildSet(g, c, v)), SortVv.Up)
  {
    children := [];
    for i := 0 to |mem|
      invariant children == Listed(mem[..i], ChildSet(g, c, v))
    {
      ListedMore(mem, i, ChildSet(g, c, v));
      if mem[i] in g.to[v] {
        assert g.HasTo(v, mem[i]);
        if g.to[v][mem[i]] >= 2 && mem[i] in c {
          children := children + [mem[i]];
        }
      }
    }
    assert mem[..|mem|] == mem;
    if children != [] {
      children := SortIds(children, SortVv.Up);
    }
  }

  /** Pushes the children whose immediate parents have all been emitted. */
  method Release(g: Graph, children: seq<Vid>, out: seq<Vid>, stack: seq<Vid>) returns (stack': seq<Vid>)
    requires g.Valid() && forall x :: x in children ==> x in g.Vertices()
    ensures stack' == stack + Released(g, out, children)
  {
    hide ParentsIn, Graph.Valid;
    stack' := stack;
    for i := 0 to |children|
      invariant stack' == stack + Released(g, out, children[..i])
    {
      ReleasedMore(g, out, children, i);
      assert children[i] in children;
      var all := AllParentsVisited(g, children[i], out);
      if all {
        stack' := stack' + [children[i]];
      }
    }
    assert children[..|children|] == children;
  }

  /** Pops one vertex, emits it and releases its children. */
  method EmitTop(g: Graph, c: set<Vid>, mem: seq<Vid>, out: seq<Vid>, stack: seq<Vid>)
    returns (out': seq<Vid>, stack': seq<Vid>)
    requires g.Valid() && c <= g.Vertices() && Addresses(g, mem)
    requires Progress(g, c, out, stack) && stack != []
    ensures Progress(g, c, out', stack') && stack[|stack| - 1] in c && |out| < |c|
    ensures out' == out + [stack[|stack| - 1]]
    ensures stack' == stack[..|stack| - 1] + Released(g, out', Kids(g, c, mem)[stack[|stack| - 1]])
  {
    hide Progress, Immediate, SortedIds, Graph.Valid;
    var v := stack[|stack| - 1];
    KidsAre(g, c, mem);
    DfsStep(g, c, Kids(g, c, mem), out, stack);
    var children := InnerChildren(g, c, v, mem);
    assert children == Kids(g, c, mem)[v];
    out' := out + [v];
    stack' := Release(g, children, out', stack[..|stack| - 1]);
  }

  lemma ParentsMakeReady(g: Graph, c: set<Vid>, x: Vid, out: seq<Vid>)
    requires ParentsIn(g, x, out)
    ensures Ready(g, c, x, out)
  {
  }

  /** The component of `v` as a set. */
  ghost function Component(g: Graph, v: Vid): set<Vid> {
    set x | x in g.Vertices() && SameScc(g.EdgeSet(), v, x)
  }

  lemma ReachedIsVertex(g: Graph, v: Vid, x: Vid)
    requires g.Valid() && v in g.Vertices() && Reach(g.EdgeSet(), v, x)
    ensures x in g.Vertices()
  {
    hide Reach;
    GraphClosed(g);
    ReachStaysInside(g.EdgeSet(), g.Vertices(), v, x);
  }

  /**
    `sorted_scc`. `ok` is false where the source stops at one of its `verify` calls;
    `out` is what was written to the result by then. `mem` lists the vertices by address.
   */
  method SortedScc(g: Graph, v: Vid, mem: seq<Vid>) returns (ok: bool, out: seq<Vid>)
    requires g.Valid() && v in g.Vertices() && Addresses(g, mem)
    ensures out == Output(g, Component(g, v), mem)
    ensures Distinct(out) && forall x :: x in out ==> x in Component(g, v)
    ensures forall a, b :: a in Component(g, v) && b in out && Immediate(g, a, b) ==> Before(out, a, b)
    ensures ok <==> forall x :: x in Component(g, v) ==> x in out
    ensures ok <==> Orderable(g, Component(g, v))
  {
    hide SameScc, HasInnerParent, ParentsIn, Immediate, Ready, Orderable, Before;
    var ret := Tarjan.FindScc(g, v);
    ghost var comp := Component(g, v);
    var c := set x | x in ret;
    forall x | x in ret ensures x in comp { InComponent(g, v, x); }
    assert c == comp;
    CoversByCard(ret, c);
    assert v in c by { OwnComponent(g, v); }
    var stack := StartVertices(g, c, mem);
    out := [];
    KidsAre(g, c, mem);
    SortedListed(g, mem, StartSet(g, c), SortVv.Down);
    StartProgress(g, c, Starts(g, c, mem));
    if stack == [] {
      ok := false;
    } else {
      stack := SortIds(stack, SortVv.Down);
      while stack != []
        invariant Progress(g, c, out, stack)
        invariant Dfs(g, c, Kids(g, c, mem), out, stack) == Output(g, c, mem)
        decreases |c| - |out|
      {
        out, stack := EmitTop(g, c, mem, out, stack);
      }
      ok := |out| == |ret|;
    }
    CoversByCard(out, c);
    if Orderable(g, c) { EmitsAll(g, c, out); }
    if forall x :: x in c ==> x in out { EmittedIsOrderable(g, c, out); }
    forall a, b | a in c && b in out && Immediate(g, a, b) ensures Before(out, a, b) {
      EdgeBefore(g, c, out, a, b);
    }
  }

  lemma OwnComponent(g: Graph, v: Vid)
    ensures SameScc(g.EdgeSet(), v, v)
  {
    ReachRefl(g.EdgeSet(), v);
  }

  lemma InComponent(g: Graph, v: Vid, x: Vid)
    requires g.Valid() && v in g.Vertices() && SameScc(g.EdgeSet(), v, x)
    ensures x in Component(g, v)
  {
    ReachedIsVertex(g, v, x);
  }

  lemma StartProgress(g: Graph, c: set<Vid>, start: seq<Vid>)
    requires Distinct(start)
    requires forall x :: x in start <==> x in c && !HasInnerParent(g, c, x)
    ensures Progress(g, c, [], start)
  {
  }

  // ---- a component that cannot be written ----

  /** 1 and 2 form a component, with an immediate edge from 1 to 2; 2 has another immediate parent, 0, outside. */
  const OUTSIDE_PARENT := Graph(
    map[0 := map[2 := 2], 1 := map[2 := 2], 2 := map[1 := 1]],
    map[0 := map[], 1 := map[2 := 1], 2 := map[0 := 2, 1 := 2]])

  lemma OutsideParentEdges(a: Vid, b: Vid)
    ensures (a, b) in OUTSIDE_PARENT.EdgeSet() <==> (a, b) in {(0, 2), (1, 2), (2, 1)}
  {
    OUTSIDE_PARENT.InEdgeSet(a, b);
  }

  /** On it the source stops at its check: 2 is no start vertex and is never released. */
  lemma OutsideParentStops()
    ensures OUTSIDE_PARENT.Valid() && 1 in OUTSIDE_PARENT.Vertices()
    ensures !Orderable(OUTSIDE_PARENT, Component(OUTSIDE_PARENT, 1))
  {
    hide Reach, Graph.EdgeSet, ReachPlus;
    var g, es, c := OUTSIDE_PARENT, OUTSIDE_PARENT.EdgeSet(), Component(OUTSIDE_PARENT, 1);
    OutsideParentEdges(1, 2);
    OutsideParentEdges(2, 1);
    ReachRefl(es, 1);
    ReachEdge(es, 1, 2);
    ReachEdge(es, 2, 1);
    assert 1 in c && 2 in c;
    OutsideIsOutside();
    assert HasInnerParent(g, c, 2) && Immediate(g, 0, 2);
  }

  lemma OutsideIsOutside()
    ensures 0 !in Component(OUTSIDE_PARENT, 1)
  {
    hide Reach, Graph.EdgeSet;
    var es := OUTSIDE_PARENT.EdgeSet();
    forall e | e in es && e.0 in {1, 2} ensures e.1 in {1, 2} {
      assert e == (e.0, e.1);
      OutsideParentEdges(e.0, e.1);
    }
    if Reach(es, 1, 0) {
      ReachStaysInside(es, {1, 2}, 1, 0);
    }
  }
}
