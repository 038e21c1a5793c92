/**
  The multi-version sorted map as a value: one shared sequence of versioned entries, a ring
  of members each reading at its own version, and at most one writer. Every member is shown
  to be as good as a private copy of a plain ordered multimap.
 */
module Snapshots {

  type Key = int
  type Val = int
  type Pairs = seq<(Key, Val)>

  const NEVER := -1

  datatype Entry = Entry(key: Key, val: Val, created: int, removed: int) {
    predicate ValidAt(v: int) {
      created <= v && (removed == NEVER || v < removed)
    }
  }

  /** What an erase call selects: every pair with this key, or every pair with this key and value. */
  datatype Sel = ByKey(k: Key) | ByPair(k: Key, v: Val) {
    predicate Hits(key: Key, val: Val) {
      key == k && (ByPair? ==> val == v)
    }
  }

  /** What a member at version `v` sees, in order. */
  function View(data: seq<Entry>, v: int): Pairs {
    if data == [] then []
    else (if data[0].ValidAt(v) then [(data[0].key, data[0].val)] else []) + View(data[1..], v)
  }

  predicate Sorted(data: seq<Entry>) {
    forall i, j :: 0 <= i < j < |data| ==> data[i].key <= data[j].key
  }

  function LowerBound(data: seq<Entry>, k: Key): (i: nat)
    ensures i <= |data|
    ensures Sorted(data) ==> forall j :: 0 <= j < |data| ==> (j < i <==> data[j].key < k)
  {
    if data == [] || k <= data[0].key then 0 else 1 + LowerBound(data[1..], k)
  }

  function UpperBound(data: seq<Entry>, k: Key): (i: nat)
    ensures i <= |data|
    ensures Sorted(data) ==> forall j :: 0 <= j < |data| ==> (j < i <==> data[j].key <= k)
  {
    if data == [] || k < data[0].key then 0 else 1 + UpperBound(data[1..], k)
  }

  // ---- operations on the shared data ----

  /** A multimap insert goes after its equals. */
  function Inserted(data: seq<Entry>, e: Entry): seq<Entry> {
    data[..UpperBound(data, e.key)] + [e] + data[UpperBound(data, e.key)..]
  }

  /** A range of pairs inserted one after the other, all at one version. */
  function InsertedAll(data: seq<Entry>, ps: Pairs, now: int): seq<Entry>
    decreases |ps|
  {
    if ps == [] then data else InsertedAll(Inserted(data, Entry(ps[0].0, ps[0].1, now, NEVER)), ps[1..], now)
  }

  /** Mark what is visible at `at` and selected as removed at `now`. */
  function Tombstoned(data: seq<Entry>, sel: Sel, at: int, now: int): (d: seq<Entry>)
    ensures |d| == |data|
  {
    seq(|data|, i requires 0 <= i < |data| => Buried(data[i], sel, at, now))
  }

  function Buried(e: Entry, sel: Sel, at: int, now: int): Entry {
    if sel.Hits(e.key, e.val) && e.ValidAt(at) then e.(removed := now) else e
  }

  /** Drop everything selected, visible or not. */
  function Dropped(data: seq<Entry>, sel: Sel): seq<Entry> {
    if data == [] then []
    else (if sel.Hits(data[0].key, data[0].val) then [] else [data[0]]) + Dropped(data[1..], sel)
  }

  predicate Garbage(e: Entry, low: int, high: int) {
    e.created > high || (e.removed != NEVER && e.removed < low)
  }

  function Swept(data: seq<Entry>, low: int, high: int): seq<Entry> {
    if data == [] then []
    else (if Garbage(data[0], low, high) then [] else [data[0]]) + Swept(data[1..], low, high)
  }

  // ---- a plain ordered multimap ----

  function PairBound(m: Pairs, k: Key): (i: nat)
    ensures i <= |m|
  {
    if m == [] || k < m[0].0 then 0 else 1 + PairBound(m[1..], k)
  }

  function PairInserted(m: Pairs, k: Key, v: Val): Pairs {
    m[..PairBound(m, k)] + [(k, v)] + m[PairBound(m, k)..]
  }

  function PairInsertedAll(m: Pairs, ps: Pairs): Pairs
    decreases |ps|
  {
    if ps == [] then m else PairInsertedAll(PairInserted(m, ps[0].0, ps[0].1), ps[1..])
  }

  function PairErased(m: Pairs, sel: Sel): Pairs {
    if m == [] then [] else (if sel.Hits(m[0].0, m[0].1) then [] else [m[0]]) + PairErased(m[1..], sel)
  }

  // ---- views of the shared data ----

  lemma {:induction false} ViewConcat(a: seq<Entry>, b: seq<Entry>, v: int)
    ensures View(a + b, v) == View(a, v) + View(b, v)
  {
    if a == [] {
      assert a + b == b;
    } else {
      assert (a + b)[0] == a[0] && (a + b)[1..] == a[1..] + b;
      ViewConcat(a[1..], b, v);
      var h := if a[0].ValidAt(v) then [(a[0].key, a[0].val)] else [];
      assert h + (View(a[1..], v) + View(b, v)) == h + View(a[1..], v) + View(b, v);
    }
  }

  lemma {:induction false} ViewFrom(data: seq<Entry>, v: int, p: (Key, Val))
    requires p in View(data, v)
    ensures exists e :: e in data && e.ValidAt(v) && (e.key, e.val) == p
  {
    if data[0].ValidAt(v) && (data[0].key, data[0].val) == p {
      assert data[0] in data;
    } else {
      ViewFrom(data[1..], v, p);
      var e :| e in data[1..] && e.ValidAt(v) && (e.key, e.val) == p;
      assert e in data;
    }
  }

  lemma {:induction false} BoundAtSplit(a: Pairs, b: Pairs, k: Key)
    requires forall p :: p in a ==> p.0 <= k
    requires forall p :: p in b ==> p.0 > k
    ensures PairBound(a + b, k) == |a|
  {
    if a == [] {
      assert a + b == b;
      assert b != [] ==> b[0] in b;
    } else {
      assert a[0] in a && (a + b)[1..] == a[1..] + b;
      BoundAtSplit(a[1..], b, k);
    }
  }

  lemma ViewBounds(data: seq<Entry>, v: int, k: Key)
    requires Sorted(data)
    ensures forall p :: p in View(data[..UpperBound(data, k)], v) ==> p.0 <= k
    ensures forall p :: p in View(data[UpperBound(data, k)..], v) ==> p.0 > k
  {
    hide View;
    var u := UpperBound(data, k);
    forall p | p in View(data[..u], v) ensures p.0 <= k {
      ViewFrom(data[..u], v, p);
    }
    forall p | p in View(data[u..], v) ensures p.0 > k {
      ViewFrom(data[u..], v, p);
    }
  }

  lemma InsertedView(data: seq<Entry>, e: Entry, v: int)
    ensures var u := UpperBound(data, e.key);
            && View(Inserted(data, e), v) == View(data[..u], v) + View([e], v) + View(data[u..], v)
            && View(data, v) == View(data[..u], v) + View(data[u..], v)
  {
    hide View;
    var u := UpperBound(data, e.key);
    ViewConcat(data[..u] + [e], data[u..], v);
    ViewConcat(data[..u], [e], v);
    ViewConcat(data[..u], data[u..], v);
    assert data[..u] + data[u..] == data;
  }

  /** Inserting into the shared data is inserting into the view that can see it ... */
  lemma InsertRefines(data: seq<Entry>, e: Entry, v: int)
    requires Sorted(data) && e.ValidAt(v)
    ensures View(Inserted(data, e), v) == PairInserted(View(data, v), e.key, e.val)
  {
    hide PairBound, UpperBound, Sorted;
    var u := UpperBound(data, e.key);
    var a, b := View(data[..u], v), View(data[u..], v);
    InsertedView(data, e, v);
    assert View([e], v) == [(e.key, e.val)];
    ViewBounds(data, v, e.key);
    BoundAtSplit(a, b, e.key);
    assert (a + b)[..|a|] == a && (a + b)[|a|..] == b;
  }

  /** ... and is not seen by older versions. */
  lemma InsertUnseen(data: seq<Entry>, e: Entry, v: int)
    requires !e.ValidAt(v)
    ensures View(Inserted(data, e), v) == View(data, v)
  {
    InsertedView(data, e, v);
  }

  /** All versions in the data are at most `top`. */
  predicate UpTo(data: seq<Entry>, top: int) {
    forall e :: e in data ==> e.created <= top && e.removed <= top
  }

  predicate Proper(data: seq<Entry>) {
    forall e :: e in data ==> 0 <= e.created && (e.removed == NEVER || e.created < e.removed)
  }

  lemma {:induction false} TombstoneRefines(data: seq<Entry>, sel: Sel, top: int)
    requires UpTo(data, top) && 0 <= top
    ensures View(Tombstoned(data, sel, top, top + 1), top + 1) == PairErased(View(data, top), sel)
  {
    if data != [] {
      var t := Tombstoned(data, sel, top, top + 1);
      assert t[1..] == Tombstoned(data[1..], sel, top, top + 1);
      assert data[0] in data;
      TombstoneRefines(data[1..], sel, top);
      var head := if data[0].ValidAt(top) then [(data[0].key, data[0].val)] else [];
      if head == [] {
        assert View(data, top) == View(data[1..], top);
      } else {
        assert View(data, top)[1..] == View(data[1..], top);
      }
    }
  }

  lemma {:induction false} TombstoneUnseen(data: seq<Entry>, sel: Sel, at: int, now: int, v: int)
    requires v <= at < now && 0 <= now
    ensures View(Tombstoned(data, sel, at, now), v) == View(data, v)
  {
    if data != [] {
      assert Tombstoned(data, sel, at, now)[1..] == Tombstoned(data[1..], sel, at, now);
      TombstoneUnseen(data[1..], sel, at, now, v);
    }
  }

  /** The direct branch gives the writer the same view as the tombstone branch. */
  lemma {:induction false} DropRefines(data: seq<Entry>, sel: Sel, top: int)
    requires UpTo(data, top)
    ensures View(Dropped(data, sel), top + 1) == PairErased(View(data, top), sel)
  {
    if data != [] {
      assert data[0] in data;
      DropRefines(data[1..], sel, top);
      var head := if data[0].ValidAt(top) then [(data[0].key, data[0].val)] else [];
      if head == [] {
        assert View(data, top) == View(data[1..], top);
      } else {
        assert View(data, top)[1..] == View(data[1..], top);
      }
      if !sel.Hits(data[0].key, data[0].val) {
        assert Dropped(data, sel)[1..] == Dropped(data[1..], sel);
      } else {
        assert Dropped(data, sel) == Dropped(data[1..], sel);
      }
    }
  }

  lemma {:induction false} SweepKeepsViews(data: seq<Entry>, low: int, high: int, v: int)
    requires low <= v <= high
    ensures View(Swept(data, low, high), v) == View(data, v)
  {
    if data != [] {
      SweepKeepsViews(data[1..], low, high, v);
      if Garbage(data[0], low, high) {
        assert Swept(data, low, high) == Swept(data[1..], low, high);
      } else {
        assert Swept(data, low, high)[1..] == Swept(data[1..], low, high);
      }
    }
  }

  // ---- the group and its members ----

  /** The shared state; `vers` lists the members' versions round the ring, the writer last if there is one. */
  datatype Group = Group(data: seq<Entry>, vers: seq<int>, hasWriter: bool, inserts: nat, erases: nat) {
    function Top(): int
      requires vers != []
    {
      vers[|vers| - 1]
    }

    ghost predicate Inv() {
      && Sorted(data) && Proper(data)
      && (forall i, j :: 0 <= i < j < |vers| ==> vers[i] <= vers[j])
      && (forall i :: 0 <= i < |vers| ==> 0 <= vers[i])
      && (hasWriter ==> vers != [] && UpTo(data, Top()))
    }

    /** What each member shows. */
    function Views(): (vs: seq<Pairs>)
      ensures |vs| == |vers|
    {
      seq(|vers|, i requires 0 <= i < |vers| => View(data, vers[i]))
    }
  }

  /** Members are named by their place in the ring. */
  datatype Op =
    | Insert(k: Key, v: Val)
    | InsertAll(ps: Pairs)
    | Erase(sel: Sel)
    | Snap(i: nat)
    | Destroy(i: nat)
    | Gc

  predicate Enabled(n: nat, hasWriter: bool, op: Op) {
    match op
    case Insert(_, _) => n > 0 && hasWriter
    case InsertAll(_) => n > 0 && hasWriter
    case Erase(_) => n > 0 && hasWriter
    case Snap(i) => i < n
    case Destroy(i) => i < n
    case Gc => n > 0
  }

  /** How many entries a tombstoning erase marks. */
  function Hits(data: seq<Entry>, sel: Sel, at: int): nat {
    if data == [] then 0
    else (if sel.Hits(data[0].key, data[0].val) && data[0].ValidAt(at) then 1 else 0) + Hits(data[1..], sel, at)
  }

  function Without<T>(s: seq<T>, i: nat): seq<T>
    requires i < |s|
  {
    s[..i] + s[i + 1..]
  }

  /** A copy of the i-th element, to its left. */
  function Doubled<T>(s: seq<T>, i: nat): (r: seq<T>)
    requires i < |s|
    ensures |r| == |s| + 1 && forall j :: 0 <= j < |r| ==> r[j] == s[if j <= i then j else j - 1]
  {
    s[..i] + [s[i]] + s[i..]
  }

  /** `gc_run`: entries nobody from the oldest to the newest member can see. */
  function Collected(g: Group): Group
    requires g.vers != []
  {
    g.(data := Swept(g.data, g.vers[0], g.Top()), inserts := 0, erases := 0)
  }

  /** The i-th member unlinked; without its writer a group stays read-only. */
  function Left(g: Group, i: nat): Group
    requires i < |g.vers|
  {
    g.(vers := Without(g.vers, i), hasWriter := g.hasWriter && i != |g.vers| - 1)
  }

  function Step(g: Group, op: Op): Group
    requires Enabled(|g.vers|, g.hasWriter, op)
  {
    match op
    case Insert(k, v) =>
      var now := g.Top() + 1;
      g.(data := Inserted(g.data, Entry(k, v, now, NEVER)), vers := g.vers[|g.vers| - 1 := now],
         inserts := g.inserts + 1)
    case InsertAll(ps) =>
      var now := g.Top() + 1;
      g.(data := InsertedAll(g.data, ps, now), vers := g.vers[|g.vers| - 1 := now], inserts := g.inserts + |ps|)
    case Erase(sel) =>
      var at := g.Top();
      var vers := g.vers[|g.vers| - 1 := at + 1];
      if |g.vers| > 1 then
        g.(data := Tombstoned(g.data, sel, at, at + 1), vers := vers, erases := g.erases + Hits(g.data, sel, at))
      else
        g.(data := Dropped(g.data, sel), vers := vers)
    case Snap(i) =>
      var g' := g.(vers := Doubled(g.vers, i));
      if g.hasWriter && i == |g.vers| - 1 then g'.(inserts := 0, erases := 0) else g'
    case Destroy(i) =>
      var g', garbage := Left(g, i), g.inserts + g.erases;
      if g.hasWriter && !g'.hasWriter && garbage >= 16 && garbage >= |g.data| / 2 && g'.vers != [] then Collected(g')
      else g'
    case Gc => Collected(g)
  }

  /** The same calls when every member owns a plain ordered multimap. */
  function PlainStep(vs: seq<Pairs>, op: Op): (r: seq<Pairs>)
    requires Enabled(|vs|, true, op)
  {
    match op
    case Insert(k, v) => vs[|vs| - 1 := PairInserted(vs[|vs| - 1], k, v)]
    case InsertAll(ps) => vs[|vs| - 1 := PairInsertedAll(vs[|vs| - 1], ps)]
    case Erase(sel) => vs[|vs| - 1 := PairErased(vs[|vs| - 1], sel)]
    case Snap(i) => Doubled(vs, i)
    case Destroy(i) => Without(vs, i)
    case Gc => vs
  }

  // ---- the data stays in order ----

  lemma InsertKeepsOrder(data: seq<Entry>, e: Entry, top: int)
    requires Sorted(data) && Proper(data) && UpTo(data, top)
    requires 0 <= e.created <= top && e.removed == NEVER
    ensures var d := Inserted(data, e); Sorted(d) && Proper(d) && UpTo(d, top)
  {
    hide UpperBound;
    var u, d := UpperBound(data, e.key), Inserted(data, e);
    forall i, j | 0 <= i < j < |d| ensures d[i].key <= d[j].key {
      assert i < u ==> d[i] == data[i];
      assert i > u ==> d[i] == data[i - 1];
      assert j < u ==> d[j] == data[j];
      assert j > u ==> d[j] == data[j - 1];
    }
    forall x | x in d ensures x in data || x == e {
    }
  }

  lemma TombstoneKeepsOrder(data: seq<Entry>, sel: Sel, top: int)
    requires Sorted(data) && Proper(data) && UpTo(data, top) && 0 <= top
    ensures var d := Tombstoned(data, sel, top, top + 1); Sorted(d) && Proper(d) && UpTo(d, top + 1)
  {
    var d := Tombstoned(data, sel, top, top + 1);
    forall x | x in d
      ensures x.created <= top + 1 && x.removed <= top + 1 && 0 <= x.created &&
              (x.removed == NEVER || x.created < x.removed)
    {
      var i :| 0 <= i < |d| && d[i] == x;
      assert data[i] in data;
    }
  }

  lemma {:induction false} DroppedIn(data: seq<Entry>, sel: Sel)
    requires Sorted(data)
    ensures Sorted(Dropped(data, sel)) && forall e :: e in Dropped(data, sel) ==> e in data
  {
    if data != [] {
      DroppedIn(data[1..], sel);
      var d := Dropped(data[1..], sel);
      SortedCons(data, d);
    }
  }

  lemma {:induction false} SweptIn(data: seq<Entry>, low: int, high: int)
    requires Sorted(data)
    ensures Sorted(Swept(data, low, high)) && forall e :: e in Swept(data, low, high) ==> e in data
  {
    if data != [] {
      SweptIn(data[1..], low, high);
      SortedCons(data, Swept(data[1..], low, high));
    }
  }

  lemma SortedCons(data: seq<Entry>, d: seq<Entry>)
    requires Sorted(data) && data != [] && Sorted(d) && forall e :: e in d ==> e in data[1..]
    ensures Sorted([data[0]] + d)
  {
    forall j | 0 <= j < |d| ensures data[0].key <= d[j].key {
      assert d[j] in d;
      var k :| 0 <= k < |data[1..]| && data[1..][k] == d[j];
      assert data[k + 1] == d[j];
    }
  }

  // ---- each call does what it would do to plain maps ----

  lemma InsertSimulates(g: Group, k: Key, v: Val)
    requires g.Inv() && g.hasWriter
    ensures Step(g, Insert(k, v)).Inv() && Step(g, Insert(k, v)).Views() == PlainStep(g.Views(), Insert(k, v))
  {
    hide View, Sorted, Proper, PairInserted, Inserted;
    var g', e := Step(g, Insert(k, v)), Entry(k, v, g.Top() + 1, NEVER);
    InsertKeepsOrder(g.data, e, g.Top() + 1);
    InsertRefines(g.data, e, g.Top() + 1);
    UpToSees(g.data, g.Top());
    forall i | 0 <= i < |g.vers| - 1 ensures g'.Views()[i] == g.Views()[i] {
      InsertUnseen(g.data, e, g.vers[i]);
    }
  }

  lemma {:induction false} InsertAllView(data: seq<Entry>, ps: Pairs, now: int)
    requires Sorted(data) && Proper(data) && UpTo(data, now) && 0 <= now
    ensures var d := InsertedAll(data, ps, now);
            && Sorted(d) && Proper(d) && UpTo(d, now)
            && View(d, now) == PairInsertedAll(View(data, now), ps)
    decreases |ps|
  {
    hide View, Sorted, Proper, UpTo, PairInserted, Inserted;
    if ps != [] {
      var e := Entry(ps[0].0, ps[0].1, now, NEVER);
      InsertKeepsOrder(data, e, now);
      InsertRefines(data, e, now);
      InsertAllView(Inserted(data, e), ps[1..], now);
    }
  }

  lemma {:induction false} InsertAllUnseen(data: seq<Entry>, ps: Pairs, now: int, v: int)
    requires v < now
    ensures View(InsertedAll(data, ps, now), v) == View(data, v)
    decreases |ps|
  {
    hide View, Inserted;
    if ps != [] {
      var e := Entry(ps[0].0, ps[0].1, now, NEVER);
      InsertUnseen(data, e, v);
      InsertAllUnseen(Inserted(data, e), ps[1..], now, v);
    }
  }

  lemma InsertAllSimulates(g: Group, ps: Pairs)
    requires g.Inv() && g.hasWriter
    ensures Step(g, InsertAll(ps)).Inv() && Step(g, InsertAll(ps)).Views() == PlainStep(g.Views(), InsertAll(ps))
  {
    hide View, Sorted, Proper, PairInsertedAll, InsertedAll;
    var g' := Step(g, InsertAll(ps));
    InsertAllView(g.data, ps, g.Top() + 1);
    UpToSees(g.data, g.Top());
    forall i | 0 <= i < |g.vers| - 1 ensures g'.Views()[i] == g.Views()[i] {
      InsertAllUnseen(g.data, ps, g.Top() + 1, g.vers[i]);
    }
  }

  predicate PairsSorted(ps: Pairs) {
    forall i, j :: 0 <= i < j < |ps| ==> ps[i].0 <= ps[j].0
  }

  /** Every view is in key order ... */
  lemma {:induction false} ViewSorted(data: seq<Entry>, v: int)
    requires Sorted(data)
    ensures PairsSorted(View(data, v))
  {
    if data != [] {
      ViewSorted(data[1..], v);
      forall p | p in View(data[1..], v) ensures data[0].key <= p.0 {
        ViewFrom(data[1..], v, p);
      }
    }
  }

  /** ... so copying a view into an empty map reproduces it. */
  lemma {:induction false} CopyIsExact(m: Pairs, ps: Pairs)
    requires PairsSorted(m + ps)
    ensures PairInsertedAll(m, ps) == m + ps
    decreases |ps|
  {
    if ps != [] {
      var (k, v) := ps[0];
      forall p | p in m ensures p.0 <= k {
        var i :| 0 <= i < |m| && m[i] == p;
        assert (m + ps)[i] == p && (m + ps)[|m|] == ps[0];
      }
      BoundAtSplit(m, [], k);
      assert m + [] == m;
      assert PairInserted(m, k, v) == m + [(k, v)];
      assert m + [(k, v)] + ps[1..] == m + ps;
      CopyIsExact(m + [(k, v)], ps[1..]);
    } else {
      assert m + ps == m;
    }
  }

  /** Moving the writer to the next version shows it nothing new. */
  lemma {:induction false} UpToSees(data: seq<Entry>, top: int)
    requires UpTo(data, top)
    ensures View(data, top + 1) == View(data, top)
  {
    if data != [] {
      assert data[0] in data;
      UpToSees(data[1..], top);
    }
  }

  lemma EraseSimulates(g: Group, sel: Sel)
    requires g.Inv() && g.hasWriter
    ensures Step(g, Erase(sel)).Inv() && Step(g, Erase(sel)).Views() == PlainStep(g.Views(), Erase(sel))
  {
    hide View, Sorted, PairErased, Tombstoned, Dropped, Hits;
    var g' := Step(g, Erase(sel));
    if |g.vers| > 1 {
      TombstoneKeepsOrder(g.data, sel, g.Top());
      TombstoneRefines(g.data, sel, g.Top());
      forall i | 0 <= i < |g.vers| - 1 ensures g'.Views()[i] == g.Views()[i] {
        TombstoneUnseen(g.data, sel, g.Top(), g.Top() + 1, g.vers[i]);
      }
    } else {
      DroppedIn(g.data, sel);
      DropRefines(g.data, sel, g.Top());
    }
  }

  lemma CollectSimulates(g: Group)
    requires g.Inv() && g.vers != []
    ensures Collected(g).Inv() && Collected(g).Views() == g.Views()
  {
    hide View, Sorted, Swept;
    SweptIn(g.data, g.vers[0], g.Top());
    forall i | 0 <= i < |g.vers| ensures Collected(g).Views()[i] == g.Views()[i] {
      SweepKeepsViews(g.data, g.vers[0], g.Top(), g.vers[i]);
    }
  }

  lemma DestroySimulates(g: Group, i: nat)
    requires g.Inv() && i < |g.vers|
    ensures Step(g, Destroy(i)).Inv() && Step(g, Destroy(i)).Views() == Without(g.Views(), i)
  {
    hide Swept, Group.Inv, Left;
    LeaveSimulates(g, i);
    if Left(g, i).vers != [] {
      CollectSimulates(Left(g, i));
    }
  }

  lemma LeaveSimulates(g: Group, i: nat)
    requires g.Inv() && i < |g.vers|
    ensures Left(g, i).Inv() && Left(g, i).Views() == Without(g.Views(), i)
  {
    hide View, Sorted, Proper, UpTo, Swept;
  }

  lemma SnapSimulates(g: Group, i: nat)
    requires g.Inv() && i < |g.vers|
    ensures Step(g, Snap(i)).Inv() && Step(g, Snap(i)).Views() == PlainStep(g.Views(), Snap(i))
  {
    hide View, Sorted, Proper, UpTo, Doubled;
    var g' := Step(g, Snap(i));
    assert g'.Inv();
    forall j | 0 <= j < |g'.vers| ensures g'.Views()[j] == Doubled(g.Views(), i)[j] {
    }
  }

  /** Every call keeps the group in order and shows each member what a private plain map would hold. */
  lemma StepSimulates(g: Group, op: Op)
    requires g.Inv() && Enabled(|g.vers|, g.hasWriter, op)
    ensures Step(g, op).Inv() && Step(g, op).Views() == PlainStep(g.Views(), op)
  {
    hide Group.Inv, Step, PlainStep;
    match op
    case Insert(k, v) => InsertSimulates(g, k, v);
    case InsertAll(ps) => InsertAllSimulates(g, ps);
    case Erase(sel) => EraseSimulates(g, sel);
    case Snap(i) => SnapSimulates(g, i);
    case Destroy(i) => DestroySimulates(g, i); PlainDestroy(g.Views(), i);
    case Gc => CollectSimulates(g); PlainGc(g);
  }

  lemma PlainDestroy(vs: seq<Pairs>, i: nat)
    requires i < |vs|
    ensures PlainStep(vs, Destroy(i)) == Without(vs, i)
  {
  }

  lemma PlainGc(g: Group)
    requires g.vers != []
    ensures PlainStep(g.Views(), Gc) == g.Views() && Step(g, Gc) == Collected(g)
  {
  }

  // ---- runs ----

  predicate AllEnabled(g: Group, ops: seq<Op>)
    decreases |ops|
  {
    ops == [] || (Enabled(|g.vers|, g.hasWriter, ops[0]) && AllEnabled(Step(g, ops[0]), ops[1..]))
  }

  function Run(g: Group, ops: seq<Op>): Group
    requires AllEnabled(g, ops)
    decreases |ops|
  {
    if ops == [] then g else Run(Step(g, ops[0]), ops[1..])
  }

  const NEW_GROUP := Group([], [0], true, 0, 0)

  lemma NewGroupInv()
    ensures NEW_GROUP.Inv() && NEW_GROUP.Views() == [[]]
  {
  }

  ghost predicate PlainRun(vs: seq<Pairs>, ops: seq<Op>, vs': seq<Pairs>)
    decreases |ops|
  {
    if ops == [] then vs' == vs
    else Enabled(|vs|, true, ops[0]) && PlainRun(PlainStep(vs, ops[0]), ops[1..], vs')
  }

  /** Over any run, the members show exactly what private plain maps would hold. */
  lemma {:induction false} RunRefinesPlainMaps(g: Group, ops: seq<Op>)
    requires g.Inv() && AllEnabled(g, ops)
    ensures Run(g, ops).Inv() && PlainRun(g.Views(), ops, Run(g, ops).Views())
    decreases |ops|
  {
    hide Group.Inv, Step, PlainStep;
    if ops != [] {
      StepSimulates(g, ops[0]);
      RunRefinesPlainMaps(Step(g, ops[0]), ops[1..]);
    }
  }

  /** Where the i-th member is after a call that does not destroy it. */
  function Moved(i: nat, op: Op): nat {
    match op
    case Snap(j) => if j <= i then i + 1 else i
    case Destroy(j) => if j < i then i - 1 else i
    case _ => i
  }

  predicate Survives(i: nat, ops: seq<Op>)
    decreases |ops|
  {
    ops == [] || (ops[0] != Destroy(i) && Survives(Moved(i, ops[0]), ops[1..]))
  }

  function Place(i: nat, ops: seq<Op>): nat
    decreases |ops|
  {
    if ops == [] then i else Place(Moved(i, ops[0]), ops[1..])
  }

  lemma StepStable(g: Group, op: Op, i: nat)
    requires g.Inv() && Enabled(|g.vers|, g.hasWriter, op) && op != Destroy(i)
    requires i < |g.vers| && (g.hasWriter ==> i < |g.vers| - 1)
    ensures var g', i' := Step(g, op), Moved(i, op);
            && i' < |g'.vers| && (g'.hasWriter ==> i' < |g'.vers| - 1)
            && g'.Views()[i'] == g.Views()[i]
  {
    hide Group.Views, Group.Inv, PairInserted, PairErased, PairInsertedAll, InsertedAll, Inserted;
    hide Tombstoned, Dropped, Swept, Hits;
    StepSimulates(g, op);
  }

  /**
    Snapshot stability: a read-only member shows the same pairs, in the same order, for as long as it
    lives, whatever is inserted, erased, snapshotted, destroyed or collected meanwhile.
   */
  lemma {:induction false} SnapshotIsStable(g: Group, ops: seq<Op>, i: nat)
    requires g.Inv() && AllEnabled(g, ops) && Survives(i, ops)
    requires i < |g.vers| && (g.hasWriter ==> i < |g.vers| - 1)
    ensures var g', i' := Run(g, ops), Place(i, ops); i' < |g'.vers| && g'.Views()[i'] == g.Views()[i]
    decreases |ops|
  {
    hide Group.Inv, Step, Group.Views, Moved;
    if ops != [] {
      StepSimulates(g, ops[0]);
      StepStable(g, ops[0], i);
      SnapshotIsStable(Step(g, ops[0]), ops[1..], Moved(i, ops[0]));
    }
  }

  /** A snapshot starts out, and stays, with what its source showed when it was taken. */
  lemma SnapshotShowsItsSource(g: Group, i: nat, ops: seq<Op>)
    requires g.Inv() && i < |g.vers| && AllEnabled(Step(g, Snap(i)), ops) && Survives(i, ops)
    ensures var g', i' := Run(Step(g, Snap(i)), ops), Place(i, ops);
            i' < |g'.vers| && g'.Views()[i'] == g.Views()[i]
  {
    hide Group.Inv, Run, Group.Views;
    var g1 := Step(g, Snap(i));
    StepSimulates(g, Snap(i));
    assert g1.Views()[i] == g.Views()[i];
    SnapshotIsStable(g1, ops, i);
  }
}
