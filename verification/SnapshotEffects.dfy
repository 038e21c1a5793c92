/**
  What calls on the multi-version map do, pair by pair: an insert adds one, an erase takes away all
  it selects and nothing else, a collection drops exactly the entries outside the members' versions.
 */
module SnapshotEffects {
  import opened Snapshots

  /** The pairs an erase call names. */
  predicate Named(sel: Sel, p: (Key, Val)) {
    match sel
    case ByKey(k) => p.0 == k
    case ByPair(k, v) => p == (k, v)
  }

  lemma {:induction false} EraseCounts(m: Pairs, sel: Sel, p: (Key, Val))
    ensures multiset(PairErased(m, sel))[p] == if Named(sel, p) then 0 else multiset(m)[p]
  {
    if m != [] {
      assert m == [m[0]] + m[1..];
      EraseCounts(m[1..], sel, p);
    }
  }

  lemma InsertCounts(m: Pairs, k: Key, v: Val, p: (Key, Val))
    ensures multiset(PairInserted(m, k, v))[p] == multiset(m)[p] + if p == (k, v) then 1 else 0
  {
    var i := PairBound(m, k);
    assert m == m[..i] + m[i..];
  }

  /** A new pair goes behind all pairs with keys up to its own and before the rest. */
  lemma {:induction false} InsertPlace(m: Pairs, k: Key, v: Val)
    requires PairsSorted(m)
    ensures exists i :: 0 <= i <= |m| && PairInserted(m, k, v) == m[..i] + [(k, v)] + m[i..] &&
                        forall j :: 0 <= j < |m| ==> (j < i <==> m[j].0 <= k)
  {
    BoundPlace(m, k);
    var i := PairBound(m, k);
    assert PairInserted(m, k, v) == m[..i] + [(k, v)] + m[i..];
  }

  lemma {:induction false} BoundPlace(m: Pairs, k: Key)
    requires PairsSorted(m)
    ensures forall j :: 0 <= j < |m| ==> (j < PairBound(m, k) <==> m[j].0 <= k)
  {
    if m != [] && m[0].0 <= k {
      BoundPlace(m[1..], k);
      forall j | 0 <= j < |m| ensures j < PairBound(m, k) <==> m[j].0 <= k {
        if j > 0 { assert m[j] == m[1..][j - 1]; }
      }
    }
  }

  /** `s` is `t` with some elements left out. */
  ghost predicate Within(s: Pairs, t: Pairs)
    decreases |t|
  {
    s == [] || (t != [] && ((s[0] == t[0] && Within(s[1..], t[1..])) || Within(s, t[1..])))
  }

  /** What an erase leaves stays in its order. */
  lemma {:induction false} EraseKeepsOrder(m: Pairs, sel: Sel)
    ensures Within(PairErased(m, sel), m)
  {
    if m != [] {
      EraseKeepsOrder(m[1..], sel);
      assert PairErased(m, sel) == PairErased(m[1..], sel) || PairErased(m, sel)[1..] == PairErased(m[1..], sel);
    }
  }

  /** How often member `i` shows `p`. */
  function Shows(g: Group, i: nat, p: (Key, Val)): nat
    requires i < |g.vers|
  {
    multiset(g.Views()[i])[p]
  }

  /** An erase takes away every pair it names from the writer, no other pair, and nothing from anybody else. */
  lemma EraseShows(g: Group, sel: Sel, i: nat, p: (Key, Val))
    requires g.Inv() && Enabled(|g.vers|, g.hasWriter, Erase(sel)) && i < |g.vers|
    ensures var g' := Step(g, Erase(sel));
            && |g'.vers| == |g.vers|
            && Shows(g', i, p) == if i == |g.vers| - 1 && Named(sel, p) then 0 else Shows(g, i, p)
  {
    hide Group.Inv, View, PairErased;
    StepSimulates(g, Erase(sel));
    EraseCounts(g.Views()[|g.vers| - 1], sel, p);
  }

  /** An insert adds the pair once for the writer and for nobody else. */
  lemma InsertShows(g: Group, k: Key, v: Val, i: nat, p: (Key, Val))
    requires g.Inv() && Enabled(|g.vers|, g.hasWriter, Insert(k, v)) && i < |g.vers|
    ensures var g' := Step(g, Insert(k, v));
            && |g'.vers| == |g.vers|
            && Shows(g', i, p) == Shows(g, i, p) + if i == |g.vers| - 1 && p == (k, v) then 1 else 0
  {
    hide Group.Inv, View, PairInserted;
    StepSimulates(g, Insert(k, v));
    InsertCounts(g.Views()[|g.vers| - 1], k, v, p);
  }

  // ---- collection ----

  lemma {:induction false} SweptCounts(data: seq<Entry>, low: int, high: int, e: Entry)
    ensures multiset(Swept(data, low, high))[e] ==
            if e.created <= high && (e.removed == NEVER || low <= e.removed) then multiset(data)[e] else 0
  {
    if data != [] {
      assert data == [data[0]] + data[1..];
      SweptCounts(data[1..], low, high, e);
    }
  }

  /** Some member is new enough for the entry, and some member has a version no later than its removal. */
  ghost predicate InReach(vers: seq<int>, e: Entry) {
    && (exists i :: 0 <= i < |vers| && e.created <= vers[i])
    && (e.removed == NEVER || exists i :: 0 <= i < |vers| && vers[i] <= e.removed)
  }

  lemma InReachIff(g: Group, e: Entry)
    requires g.Inv() && g.vers != []
    ensures InReach(g.vers, e) <==> e.created <= g.Top() && (e.removed == NEVER || g.vers[0] <= e.removed)
  {
  }

  /** Collection keeps exactly those entries, as often as they are there. */
  lemma CollectKeeps(g: Group, e: Entry)
    requires g.Inv() && g.vers != []
    ensures multiset(Collected(g).data)[e] == if InReach(g.vers, e) then multiset(g.data)[e] else 0
  {
    hide Group.Inv, InReach;
    SweptCounts(g.data, g.vers[0], g.Top(), e);
    InReachIff(g, e);
  }

  /** No member will ever see the entry: all are too old for it, or all are too new. */
  ghost predicate Unseen(vers: seq<int>, e: Entry) {
    || (forall i :: 0 <= i < |vers| ==> vers[i] < e.created)
    || (e.removed != NEVER && forall i :: 0 <= i < |vers| ==> e.removed <= vers[i])
  }

  /**
    Collection leaves no unseen entry if and only if no entry was removed at exactly the version of the
    oldest member: the source compares with `<` where `<=` would do.
   */
  lemma UnseenLeftIff(g: Group)
    requires g.Inv() && g.vers != []
    ensures (forall e :: e in Collected(g).data ==> !Unseen(g.vers, e)) <==>
            (forall e :: e in g.data && e.created <= g.Top() ==> e.removed != g.vers[0] || e.removed == NEVER)
  {
    hide Group.Inv, Swept, Group.Top;
    forall e
      ensures e in Collected(g).data <==> e in g.data && InReach(g.vers, e)
      ensures e in Collected(g).data && Unseen(g.vers, e) <==>
              e in g.data && e.created <= g.Top() && e.removed == g.vers[0] && e.removed != NEVER
    {
      CollectKeeps(g, e);
      assert e in Collected(g).data <==> multiset(Collected(g).data)[e] > 0;
      assert e in g.data <==> multiset(g.data)[e] > 0;
      InReachIff(g, e);
      UnseenIff(g, e);
    }
  }

  lemma UnseenIff(g: Group, e: Entry)
    requires g.Inv() && g.vers != []
    ensures Unseen(g.vers, e) <==> g.Top() < e.created || (e.removed != NEVER && e.removed <= g.vers[0])
  {
  }

  lemma SweptOne(e: Entry, low: int, high: int)
    requires !Garbage(e, low, high)
    ensures Swept([e], low, high) == [e]
  {
    assert [e][1..] == [] && Swept([], low, high) == [];
  }

  /** A pair inserted, then erased under a snapshot ... */
  lemma ErasedUnderSnapshot() returns (g1: Group, g2: Group, g3: Group)
    ensures Enabled(1, true, Insert(1, 10)) && g1 == Step(NEW_GROUP, Insert(1, 10))
    ensures Enabled(|g1.vers|, g1.hasWriter, Snap(0)) && g2 == Step(g1, Snap(0))
    ensures Enabled(|g2.vers|, g2.hasWriter, Erase(ByKey(1))) && g3 == Step(g2, Erase(ByKey(1)))
    ensures g3.data == [Entry(1, 10, 1, 2)] && g3.vers == [1, 2] && g3.hasWriter
  {
    g1 := Step(NEW_GROUP, Insert(1, 10));
    assert g1.data == [Entry(1, 10, 1, NEVER)] && g1.vers == [1] && g1.hasWriter;
    g2 := Step(g1, Snap(0));
    assert g2.data == g1.data && g2.vers == [1, 1] && g2.hasWriter;
    g3 := Step(g2, Erase(ByKey(1)));
  }

  /** ... which is then destroyed, before the collection. */
  lemma SnapshotGone(g3: Group) returns (g4: Group, g5: Group)
    requires g3.data == [Entry(1, 10, 1, 2)] && g3.vers == [1, 2] && g3.hasWriter
    ensures Enabled(|g3.vers|, g3.hasWriter, Destroy(0)) && g4 == Step(g3, Destroy(0))
    ensures Enabled(|g4.vers|, g4.hasWriter, Gc) && g5 == Step(g4, Gc)
    ensures g5.vers == [2] && g5.data == [Entry(1, 10, 1, 2)]
  {
    g4 := Step(g3, Destroy(0));
    assert g4.data == g3.data && g4.vers == [2];
    g5 := Step(g4, Gc);
    SweptOne(Entry(1, 10, 1, 2), 2, 2);
  }

  /** A run that leaves an unseen entry. */
  lemma TombstoneStays()
    ensures var ops := [Insert(1, 10), Snap(0), Erase(ByKey(1)), Destroy(0), Gc];
            && AllEnabled(NEW_GROUP, ops)
            && var g := Run(NEW_GROUP, ops);
            && g.vers == [2] && g.data == [Entry(1, 10, 1, 2)] && Unseen(g.vers, g.data[0])
  {
    hide Step, Run, AllEnabled;
    var g1, g2, g3 := ErasedUnderSnapshot();
    var g4, g5 := SnapshotGone(g3);
    RunNil(g5);
    RunCons(g4, Gc, []);
    RunCons(g3, Destroy(0), [Gc] + []);
    RunCons(g2, Erase(ByKey(1)), [Destroy(0)] + ([Gc] + []));
    RunCons(g1, Snap(0), [Erase(ByKey(1))] + ([Destroy(0)] + ([Gc] + [])));
    RunCons(NEW_GROUP, Insert(1, 10), [Snap(0)] + ([Erase(ByKey(1))] + ([Destroy(0)] + ([Gc] + []))));
    assert [Insert(1, 10)] + ([Snap(0)] + ([Erase(ByKey(1))] + ([Destroy(0)] + ([Gc] + [])))) ==
           [Insert(1, 10), Snap(0), Erase(ByKey(1)), Destroy(0), Gc];
  }

  lemma RunNil(g: Group)
    ensures AllEnabled(g, []) && Run(g, []) == g
  {
  }

  lemma RunCons(g: Group, op: Op, ops: seq<Op>)
    requires Enabled(|g.vers|, g.hasWriter, op) && AllEnabled(Step(g, op), ops)
    ensures AllEnabled(g, [op] + ops) && Run(g, [op] + ops) == Run(Step(g, op), ops)
  {
    hide Step;
    assert ([op] + ops)[1..] == ops;
  }
}
