/**
  What the ids do in `sorted_scc`. Its comment promises one result whatever the addresses of the
  vertices, because start vertices and children are sorted by id; as `sort_vv` does not always sort,
  this module says when the ids decide the order and when the addresses do.
 */
module SccIds {
  import opened Common
  import opened Reachability
  import opened DepGraph
  import opened SortedScc
  import SortVv
  import Tarjan
  import DeferredRuns

  // ---- the stack decides ----

  lemma {:induction false} DfsPrefix(g: Graph, c: set<Vid>, kids: map<Vid, seq<Vid>>, out: seq<Vid>, stack: seq<Vid>)
    requires KidsOk(g, c, kids) && Progress(g, c, out, stack)
    ensures out <= Dfs(g, c, kids, out, stack)
    decreases |c| - |out|
  {
    hide Progress, KidsOk, Released;
    if stack != [] {
      DfsStep(g, c, kids, out, stack);
      var v, out' := stack[|stack| - 1], out + [stack[|stack| - 1]];
      InKids(g, c, kids, v);
      DfsPrefix(g, c, kids, out', stack[..|stack| - 1] + Released(g, out', kids[v]));
    }
  }

  lemma InKids(g: Graph, c: set<Vid>, kids: map<Vid, seq<Vid>>, v: Vid)
    requires KidsOk(g, c, kids) && v in c
    ensures v in kids
  {
  }

  lemma {:induction false} DfsHas(
    g: Graph, c: set<Vid>, kids: map<Vid, seq<Vid>>, out: seq<Vid>, stack: seq<Vid>, i: nat)
    requires KidsOk(g, c, kids) && Progress(g, c, out, stack) && i < |stack|
    ensures stack[i] in Dfs(g, c, kids, out, stack)
    decreases |c| - |out|
  {
    hide Progress, KidsOk, Released;
    DfsStep(g, c, kids, out, stack);
    var v, out' := stack[|stack| - 1], out + [stack[|stack| - 1]];
    InKids(g, c, kids, v);
    var stack' := stack[..|stack| - 1] + Released(g, out', kids[v]);
    if i == |stack| - 1 {
      DfsPrefix(g, c, kids, out', stack');
      assert Dfs(g, c, kids, out', stack')[|out|] == v;
    } else {
      assert stack'[i] == stack[i];
      DfsHas(g, c, kids, out', stack', i);
    }
  }

  /** Last pushed, first written. */
  lemma {:induction false} DfsLifo(
    g: Graph, c: set<Vid>, kids: map<Vid, seq<Vid>>, out: seq<Vid>, stack: seq<Vid>, i: nat, j: nat)
    requires KidsOk(g, c, kids) && Progress(g, c, out, stack) && i < j < |stack|
    ensures Before(Dfs(g, c, kids, out, stack), stack[j], stack[i])
    decreases |c| - |out|
  {
    hide KidsOk, Released, Before, Ready, Ordered;
    DfsStep(g, c, kids, out, stack);
    var v, out' := stack[|stack| - 1], out + [stack[|stack| - 1]];
    InKids(g, c, kids, v);
    var stack' := stack[..|stack| - 1] + Released(g, out', kids[v]);
    assert stack'[i] == stack[i];
    if j == |stack| - 1 {
      DfsPrefix(g, c, kids, out', stack');
      DfsHas(g, c, kids, out', stack', i);
      assert stack'[i] in stack';
      LaterIn(out', Dfs(g, c, kids, out', stack'), v, stack[i]);
    } else {
      assert stack'[j] == stack[j];
      DfsLifo(g, c, kids, out', stack', i, j);
    }
  }

  lemma LaterIn(p: seq<Vid>, r: seq<Vid>, a: Vid, b: Vid)
    requires p <= r && a in p && b in r && b !in p
    ensures Before(r, a, b)
  {
    var i :| 0 <= i < |p| && p[i] == a;
    var q := r[|p|..];
    assert r == p + q;
    var j :| 0 <= j < |q| && q[j] == b;
    assert r[i] == a && r[|p| + j] == b;
  }

  // ---- start vertices ----

  lemma StartsLifo(g: Graph, c: set<Vid>, mem: seq<Vid>, i: nat, j: nat)
    requires Addresses(g, mem) && c <= g.Vertices() && i < j < |Starts(g, c, mem)|
    ensures Before(Output(g, c, mem), Starts(g, c, mem)[j], Starts(g, c, mem)[i])
  {
    hide Starts, Before, Progress, KidsOk;
    KidsAre(g, c, mem);
    StartsProgress(g, c, mem);
    DfsLifo(g, c, Kids(g, c, mem), [], Starts(g, c, mem), i, j);
  }

  lemma StartsProgress(g: Graph, c: set<Vid>, mem: seq<Vid>)
    requires Addresses(g, mem) && c <= g.Vertices()
    ensures Progress(g, c, [], Starts(g, c, mem))
    ensures Distinct(Starts(g, c, mem)) && forall x :: x in Starts(g, c, mem) <==> x in StartSet(g, c)
  {
    hide Progress, HasInnerParent;
    SortedListed(g, mem, StartSet(g, c), SortVv.Down);
    StartProgress(g, c, Starts(g, c, mem));
  }

  /** Start vertices are written in ascending order of ids. */
  ghost predicate StartsAscend(g: Graph, c: set<Vid>, out: seq<Vid>) {
    forall a, b :: a in StartSet(g, c) && b in StartSet(g, c) && a < b ==> Before(out, a, b)
  }

  lemma OutputDistinct(g: Graph, c: set<Vid>, mem: seq<Vid>)
    requires Addresses(g, mem) && c <= g.Vertices()
    ensures Distinct(Output(g, c, mem))
  {
    hide Ready, Ordered;
  }

  lemma NotBoth(out: seq<Vid>, a: Vid, b: Vid)
    requires Distinct(out) && Before(out, a, b)
    ensures !Before(out, b, a)
  {
  }

  /** They are if and only if the list of them, in the order of their addresses, is nearly sorted downwards. */
  lemma StartsAscendIff(g: Graph, c: set<Vid>, mem: seq<Vid>)
    requires Addresses(g, mem) && c <= g.Vertices()
    ensures StartsAscend(g, c, Output(g, c, mem)) <==> SortVv.NearlySorted(Listed(mem, StartSet(g, c)), SortVv.Down)
  {
    hide Before, Output, StartSet, SortVv.NearlySorted, Progress;
    var s, out := Starts(g, c, mem), Output(g, c, mem);
    SortVv.SortsIffNearlySorted(Listed(mem, StartSet(g, c)), SortVv.Down);
    StartsProgress(g, c, mem);
    if SortVv.Sorted(s, SortVv.Down) {
      forall a, b | a in StartSet(g, c) && b in StartSet(g, c) && a < b ensures Before(out, a, b) {
        assert a in s && b in s;
        var j :| 0 <= j < |s| && s[j] == a;
        var i :| 0 <= i < |s| && s[i] == b;
        StartsLifo(g, c, mem, i, j);
      }
    } else {
      var i, j :| 0 <= i < j < |s| && s[i] < s[j];
      StartsLifo(g, c, mem, i, j);
      OutputDistinct(g, c, mem);
      NotBoth(out, s[j], s[i]);
      assert s[i] in s && s[j] in s;
    }
  }

  // ---- children released together ----

  lemma {:induction false} ReleasedInOrder(g: Graph, out: seq<Vid>, cs: seq<Vid>, i: nat, j: nat)
    requires i < j < |cs| && ParentsIn(g, cs[i], out) && ParentsIn(g, cs[j], out)
    ensures Before(Released(g, out, cs), cs[i], cs[j])
    decreases |cs|
  {
    hide ParentsIn;
    var n := |cs| - 1;
    var r := Released(g, out, cs[..n]);
    if j < n {
      ReleasedInOrder(g, out, cs[..n], i, j);
      var k, l :| 0 <= k < l < |r| && r[k] == cs[i] && r[l] == cs[j];
      assert Released(g, out, cs)[k] == cs[i] && Released(g, out, cs)[l] == cs[j];
    } else {
      InReleased(g, out, cs[..n], i);
      var k :| 0 <= k < |r| && r[k] == cs[i];
      assert Released(g, out, cs)[k] == cs[i] && Released(g, out, cs)[|r|] == cs[j];
    }
  }

  lemma {:induction false} InReleased(g: Graph, out: seq<Vid>, cs: seq<Vid>, i: nat)
    requires i < |cs| && ParentsIn(g, cs[i], out)
    ensures cs[i] in Released(g, out, cs)
    decreases |cs|
  {
    hide ParentsIn;
    if i < |cs| - 1 {
      InReleased(g, out, cs[..|cs| - 1], i);
    }
  }

  /** `a` and `b` become ready together, when `r[k]` is written. */
  ghost predicate Together(g: Graph, c: set<Vid>, r: seq<Vid>, k: nat, a: Vid, b: Vid) {
    && k < |r| && a in ChildSet(g, c, r[k]) && b in ChildSet(g, c, r[k])
    && ParentsIn(g, a, r[..k + 1]) && ParentsIn(g, b, r[..k + 1])
  }

  lemma {:induction false} DfsSiblings(
    g: Graph, c: set<Vid>, kids: map<Vid, seq<Vid>>, out: seq<Vid>, stack: seq<Vid>, k: nat, i: nat, j: nat)
    requires KidsOk(g, c, kids) && Progress(g, c, out, stack) && |out| <= k < |Dfs(g, c, kids, out, stack)|
    requires var r := Dfs(g, c, kids, out, stack);
             r[k] in kids && i < j < |kids[r[k]]| && Together(g, c, r, k, kids[r[k]][i], kids[r[k]][j])
    ensures var r := Dfs(g, c, kids, out, stack); Before(r, kids[r[k]][j], kids[r[k]][i])
    decreases |c| - |out|
  {
    hide Progress, KidsOk, Released, Before, ParentsIn, ChildSet;
    DfsStep(g, c, kids, out, stack);
    var v, out' := stack[|stack| - 1], out + [stack[|stack| - 1]];
    InKids(g, c, kids, v);
    var rest, more := stack[..|stack| - 1], Released(g, out', kids[v]);
    var r := Dfs(g, c, kids, out', rest + more);
    DfsPrefix(g, c, kids, out', rest + more);
    if k == |out| {
      assert r[..k + 1] == out' && r[k] == v;
      ReleasedInOrder(g, out', kids[v], i, j);
      OnTop(g, c, kids, out', rest, more, kids[v][i], kids[v][j]);
    } else {
      DfsSiblings(g, c, kids, out', rest + more, k, i, j);
    }
  }

  lemma OnTop(
    g: Graph, c: set<Vid>, kids: map<Vid, seq<Vid>>, out: seq<Vid>, rest: seq<Vid>, more: seq<Vid>, a: Vid, b: Vid)
    requires KidsOk(g, c, kids) && Progress(g, c, out, rest + more) && Before(more, a, b)
    ensures Before(Dfs(g, c, kids, out, rest + more), b, a)
  {
    hide Progress, KidsOk;
    var i, j :| 0 <= i < j < |more| && more[i] == a && more[j] == b;
    assert (rest + more)[|rest| + i] == a && (rest + more)[|rest| + j] == b;
    DfsLifo(g, c, kids, out, rest + more, |rest| + i, |rest| + j);
  }

  /**
    Of two children that become ready together the one with the larger id is written first, if the
    children of that parent, in the order of their addresses, are nearly sorted upwards.
   */
  lemma LargerSiblingFirst(g: Graph, c: set<Vid>, mem: seq<Vid>, k: nat, a: Vid, b: Vid)
    requires Addresses(g, mem) && c <= g.Vertices() && Together(g, c, Output(g, c, mem), k, a, b) && a < b
    requires SortVv.NearlySorted(Listed(mem, ChildSet(g, c, Output(g, c, mem)[k])), SortVv.Up)
    ensures Before(Output(g, c, mem), b, a)
  {
    hide Before, ChildSet, SortVv.NearlySorted, Ready, Ordered, ParentsIn;
    var out := Output(g, c, mem);
    var v := out[k];
    assert v in out;
    KidsAre(g, c, mem);
    StartsProgress(g, c, mem);
    SortVv.SortsIffNearlySorted(Listed(mem, ChildSet(g, c, v)), SortVv.Up);
    var s := Kids(g, c, mem)[v];
    assert a in s && b in s;
    var i :| 0 <= i < |s| && s[i] == a;
    var j :| 0 <= j < |s| && s[j] == b;
    DfsSiblings(g, c, Kids(g, c, mem), [], Starts(g, c, mem), k, i, j);
  }

  // ---- one result ----

  /** Sorting the same ids gives the same list. */
  lemma {:induction false} SameSorted(s: seq<Vid>, t: seq<Vid>, flag: SortVv.Flag)
    requires Distinct(s) && Distinct(t) && SortVv.Sorted(s, flag) && SortVv.Sorted(t, flag)
    requires forall x :: x in s <==> x in t
    ensures s == t
    decreases |s|
  {
    if s == [] {
      assert forall i :: 0 <= i < |t| ==> t[i] in s;
    } else {
      assert s[0] in s && s[0] in t;
      assert t[0] in t && t[0] in s;
      var s', t' := s[1..], t[1..];
      assert s == [s[0]] + s' && t == [t[0]] + t';
      FirstFirst(s, t, flag);
      forall x ensures x in s' <==> x in t' {
        assert s[0] !in s' && t[0] !in t';
        assert (x in s <==> x == s[0] || x in s') && (x in t <==> x == t[0] || x in t');
      }
      SameSorted(s', t', flag);
    }
  }

  lemma FirstFirst(s: seq<Vid>, t: seq<Vid>, flag: SortVv.Flag)
    requires SortVv.Sorted(s, flag) && SortVv.Sorted(t, flag) && s != [] && t != [] && s[0] in t && t[0] in s
    ensures s[0] == t[0]
  {
    var i :| 0 <= i < |s| && s[i] == t[0];
    var j :| 0 <= j < |t| && t[j] == s[0];
    assert i > 0 ==> !SortVv.OutOfOrder(s[0], s[i], flag);
    assert j > 0 ==> !SortVv.OutOfOrder(t[0], t[j], flag);
  }

  lemma SortedSame(g: Graph, mem: seq<Vid>, mem': seq<Vid>, s: set<Vid>, flag: SortVv.Flag)
    requires Addresses(g, mem) && Addresses(g, mem') && s <= g.Vertices()
    requires SortVv.NearlySorted(Listed(mem, s), flag) && SortVv.NearlySorted(Listed(mem', s), flag)
    ensures SortedIds(Listed(mem, s), flag) == SortedIds(Listed(mem', s), flag)
  {
    hide SortVv.NearlySorted;
    SortedListed(g, mem, s, flag);
    SortedListed(g, mem', s, flag);
    SortVv.SortsIffNearlySorted(Listed(mem, s), flag);
    SortVv.SortsIffNearlySorted(Listed(mem', s), flag);
    SameSorted(SortedIds(Listed(mem, s), flag), SortedIds(Listed(mem', s), flag), flag);
  }

  /** Every list that is sorted by id comes in an order `sort_vv` can cope with. */
  ghost predicate Sortable(g: Graph, c: set<Vid>, mem: seq<Vid>) {
    && SortVv.NearlySorted(Listed(mem, StartSet(g, c)), SortVv.Down)
    && forall v :: v in c ==> SortVv.NearlySorted(Listed(mem, ChildSet(g, c, v)), SortVv.Up)
  }

  /** Then the addresses do not matter. */
  lemma OneOutput(g: Graph, c: set<Vid>, mem: seq<Vid>, mem': seq<Vid>)
    requires Addresses(g, mem) && Addresses(g, mem') && c <= g.Vertices()
    requires Sortable(g, c, mem) && Sortable(g, c, mem')
    ensures Output(g, c, mem) == Output(g, c, mem')
  {
    hide SortVv.NearlySorted, HasInnerParent, Immediate;
    SortedSame(g, mem, mem', StartSet(g, c), SortVv.Down);
    forall v | v in c ensures Kids(g, c, mem)[v] == Kids(g, c, mem')[v] {
      SortedSame(g, mem, mem', ChildSet(g, c, v), SortVv.Up);
    }
    assert Kids(g, c, mem) == Kids(g, c, mem');
  }

  lemma TwoAreNearlySorted(s: seq<int>, flag: SortVv.Flag)
    requires |s| <= 2
    ensures SortVv.NearlySorted(s, flag)
  {
    if |s| == 2 {
      assert s[..1] == [s[0]] && s[..0] == [];
      assert SortVv.Ahead([s[0]], s[1], flag) <= 1;
    }
  }

  lemma ListedSize(g: Graph, mem: seq<Vid>, s: set<Vid>)
    requires Addresses(g, mem) && s <= g.Vertices()
    ensures |Listed(mem, s)| == |s|
  {
    ListedAre(mem, s);
    CoversByCard(Listed(mem, s), s);
  }

  /** A component with at most two start vertices and at most two inner immediate children a member has one output. */
  lemma SmallHasOneOutput(g: Graph, c: set<Vid>, mem: seq<Vid>, mem': seq<Vid>)
    requires Addresses(g, mem) && Addresses(g, mem') && c <= g.Vertices()
    requires |StartSet(g, c)| <= 2 && forall v :: v in c ==> |ChildSet(g, c, v)| <= 2
    ensures Output(g, c, mem) == Output(g, c, mem')
  {
    hide SortVv.NearlySorted, HasInnerParent, Immediate, Output;
    SmallSortable(g, c, mem);
    SmallSortable(g, c, mem');
    OneOutput(g, c, mem, mem');
  }

  lemma SmallSortable(g: Graph, c: set<Vid>, mem: seq<Vid>)
    requires Addresses(g, mem) && c <= g.Vertices()
    requires |StartSet(g, c)| <= 2 && forall v :: v in c ==> |ChildSet(g, c, v)| <= 2
    ensures Sortable(g, c, mem)
  {
    hide SortVv.NearlySorted, HasInnerParent, Immediate;
    ListedSize(g, mem, StartSet(g, c));
    TwoAreNearlySorted(Listed(mem, StartSet(g, c)), SortVv.Down);
    forall v | v in c ensures SortVv.NearlySorted(Listed(mem, ChildSet(g, c, v)), SortVv.Up) {
      ListedSize(g, mem, ChildSet(g, c, v));
      TwoAreNearlySorted(Listed(mem, ChildSet(g, c, v)), SortVv.Up);
    }
  }

  // ---- two results ----

  lemma AllStart()
    ensures StartSet(DeferredRuns.CIRCLE, {1, 2, 3}) == {1, 2, 3}
    ensures DeferredRuns.CIRCLE.Vertices() == {1, 2, 3}
  {
    hide Immediate;
    forall a, b ensures !Immediate(DeferredRuns.CIRCLE, a, b) {
      DeferredRuns.NothingImmediate(a, b);
    }
  }

  lemma ListedAll(a: Vid, b: Vid, c: Vid, s: set<Vid>)
    requires a in s && b in s && c in s
    ensures Listed([a, b, c], s) == [a, b, c]
  {
    assert [a, b, c][..2] == [a, b] && [a, b][..1] == [a] && [a][..0] == [];
    assert Listed([a], s) == [a];
    assert Listed([a, b], s) == [a, b];
  }

  lemma SweepsOfThree()
    ensures SortVv.SortVvSpec([1, 2, 3], SortVv.Down) == [2, 3, 1]
    ensures SortVv.SortVvSpec([3, 2, 1], SortVv.Down) == [3, 2, 1]
  {
    assert [1, 2, 3][1..] == [2, 3] && [2, 3][1..] == [3];
    assert SortVv.Sweep(1, [3], SortVv.Down) == [3, 1];
    assert SortVv.Sweep(1, [2, 3], SortVv.Down) == [2, 3, 1];
    assert [2, 3, 1][1..] == [3, 1] && [3, 1][1..] == [1];
    assert SortVv.SortVvSpec([3, 1], SortVv.Down) == [3, 1];
    assert [3, 2, 1][1..] == [2, 1] && [2, 1][1..] == [1];
    assert SortVv.Sweep(2, [1], SortVv.Down) == [2, 1];
    assert SortVv.Sweep(3, [2, 1], SortVv.Down) == [3, 2, 1];
    assert SortVv.SortVvSpec([2, 1], SortVv.Down) == [2, 1];
  }

  lemma CircleAddresses(a: Vid, b: Vid, c: Vid)
    requires a != b && a != c && b != c && {a, b, c} == {1, 2, 3}
    ensures Addresses(DeferredRuns.CIRCLE, [a, b, c])
    ensures Starts(DeferredRuns.CIRCLE, {1, 2, 3}, [a, b, c]) == SortVv.SortVvSpec([a, b, c], SortVv.Down)
  {
    hide StartSet, Listed, SortVv.SortVvSpec;
    AllStart();
    ListedAll(a, b, c, {1, 2, 3});
    assert forall x :: x in [a, b, c] <==> x in {a, b, c};
  }

  lemma DifferentTops(g: Graph, c: set<Vid>, mem: seq<Vid>, mem': seq<Vid>, x: Vid, y: Vid)
    requires Addresses(g, mem) && Addresses(g, mem') && c <= g.Vertices()
    requires [y, x] <= Starts(g, c, mem) && [x, y] <= Starts(g, c, mem')
    ensures Before(Output(g, c, mem), x, y) && Before(Output(g, c, mem'), y, x)
    ensures Output(g, c, mem) != Output(g, c, mem')
  {
    hide Before, Output, Starts;
    assert Starts(g, c, mem)[0] == y && Starts(g, c, mem)[1] == x;
    assert Starts(g, c, mem')[0] == x && Starts(g, c, mem')[1] == y;
    StartsLifo(g, c, mem, 0, 1);
    StartsLifo(g, c, mem', 0, 1);
    OutputDistinct(g, c, mem);
    NotBoth(Output(g, c, mem), x, y);
  }

  /** A circle of three deferred edges is written as 1, 3, 2 or as 1, 2, 3, depending on the addresses. */
  lemma AddressesDecide()
    ensures Addresses(DeferredRuns.CIRCLE, [1, 2, 3]) && Addresses(DeferredRuns.CIRCLE, [3, 2, 1])
    ensures {1, 2, 3} <= DeferredRuns.CIRCLE.Vertices()
    ensures Before(Output(DeferredRuns.CIRCLE, {1, 2, 3}, [1, 2, 3]), 3, 2)
    ensures Before(Output(DeferredRuns.CIRCLE, {1, 2, 3}, [3, 2, 1]), 2, 3)
    ensures Output(DeferredRuns.CIRCLE, {1, 2, 3}, [1, 2, 3]) != Output(DeferredRuns.CIRCLE, {1, 2, 3}, [3, 2, 1])
  {
    hide Before, Output, Starts, StartSet, SortVv.SortVvSpec, Addresses;
    AllStart();
    CircleAddresses(1, 2, 3);
    CircleAddresses(3, 2, 1);
    SweepsOfThree();
    DifferentTops(DeferredRuns.CIRCLE, {1, 2, 3}, [1, 2, 3], [3, 2, 1], 3, 2);
  }
}
