/**
  The multi-version sorted map as the source builds it: members linked in a ring by pointers,
  sharing one group. Every method does to the group what `Snapshots.Step` says.
 */
module SnapshotMap {
  import opened Common
  import opened Snapshots

  /** `snapshot_group`; `ring` lists the members in pointer order, oldest first, the writer last. */
  class Shared {
    var data: seq<Entry>
    var writer: Member?
    var inserts: nat
    var erases: nat
    ghost var ring: seq<Member>

    constructor (w: Member)
      ensures data == [] && writer == w && inserts == 0 && erases == 0 && ring == [w]
    {
      data, writer, inserts, erases, ring := [], w, 0, 0, [w];
    }

    ghost function Vers(): (vs: seq<int>)
      reads this`ring, ring
      ensures |vs| == |ring|
    {
      var r := ring;
      seq(|r|, i reads r requires 0 <= i < |r| => r[i].ver)
    }

    ghost function AsGroup(): Group
      reads this, ring
    {
      Group(data, Vers(), writer != null, inserts, erases)
    }

    ghost predicate LinkedAt(i: nat)
      requires i < |ring|
      reads this`ring, ring`group, ring`next, ring`prev
    {
      && ring[i].group == this
      && ring[i].next == ring[After(i, |ring|)]
      && ring[i].prev == ring[Before(i, |ring|)]
    }

    /** The pointers of the members follow the ring. */
    ghost predicate Linked()
      reads this`ring, ring`group, ring`next, ring`prev
    {
      && Distinct(ring)
      && (forall i :: 0 <= i < |ring| ==> LinkedAt(i))
    }

    ghost predicate Valid()
      reads this, ring
    {
      && Linked()
      && (writer != null ==> ring != [] && ring[|ring| - 1] == writer)
      && AsGroup().Inv()
    }

    /** The pointers of a join to the left of `src` ... */
    method Link(m: Member, src: Member, p: Member, ghost i: nat)
      requires Linked() && i < |ring| && ring[i] == src && src.prev == p && m !in ring && m.group == this
      modifies this`ring, m`prev, m`next, p`next, src`prev
      ensures Linked() && ring == old(ring)[..i] + [m] + old(ring)[i..]
    {
      hide Distinct;
      JoinDistinct(ring, i, m);
      assert LinkedAt(i) && LinkedAt(Before(i, |ring|));
      ghost var was, n := ring, |ring|;
      m.prev, m.next := p, src;
      p.next := m;
      src.prev := m;
      ring := ring[..i] + [m] + ring[i..];
      forall j | 0 <= j < n + 1 ensures LinkedAt(j) {
        if j != i {
          ghost var k := if j < i then j else j - 1;
          assert old(LinkedAt(k));
          SameIff(was, k, i);
          SameIff(was, k, Before(i, n));
          JoinNeighbours(was, i, m, j);
        }
      }
    }

    /** ... and what it means for the versions. */
    method Join(m: Member, src: Member, p: Member, ghost i: nat)
      requires Linked() && i < |ring| && ring[i] == src && src.prev == p && m !in ring && m.group == this
      modifies this`ring, m`prev, m`next, p`next, src`prev
      ensures Linked() && ring == old(ring)[..i] + [m] + old(ring)[i..]
      ensures Vers() == old(Vers())[..i] + [m.ver] + old(Vers())[i..]
    {
      hide Linked;
      Link(m, src, p, i);
    }

    /** A new member at the version of the i-th. */
    method Adopt(m: Member, src: Member, p: Member, ghost i: nat)
      requires Valid() && i < |ring| && ring[i] == src && src.prev == p
      requires m !in ring && m.group == this && m.ver == src.ver
      modifies this`ring, this`inserts, this`erases, m`prev, m`next, p`next, src`prev
      ensures Valid() && ring == old(ring)[..i] + [m] + old(ring)[i..]
      ensures AsGroup() == Step(old(AsGroup()), Snap(i))
    {
      hide Group.Inv, Linked, Vers;
      WriterIsLast(this, i);
      VersAt(this, i);
      StepSimulates(AsGroup(), Snap(i));
      Join(m, src, p, i);
      ghost var vers := Vers();
      if writer == src {
        inserts, erases := 0, 0;
      }
      assert Vers() == vers;
    }

    /** Unlink the i-th member, which is not alone. */
    method Leave(m: Member, p: Member, q: Member, ghost i: nat)
      requires Linked() && i < |ring| && ring[i] == m && |ring| > 1 && m.prev == p && m.next == q
      modifies this`ring, p`next, q`prev
      ensures Linked() && ring == Without(old(ring), i) && m !in ring
      ensures Vers() == Without(old(Vers()), i)
    {
      hide Linked;
      Unlink(m, p, q, i);
    }

    /** A member goes; if it was the writer, nobody can write any more. */
    method Discard(m: Member, p: Member, q: Member, ghost i: nat)
      requires Valid() && i < |ring| && ring[i] == m && m.prev == p && m.next == q
      modifies this`ring, this`writer, p`next, q`prev
      ensures Valid() && ring == Without(old(ring), i) && m !in ring && AsGroup() == Left(old(AsGroup()), i)
    {
      hide Group.Inv, Linked, Vers;
      WriterIsLast(this, i);
      LinkedPrev(this, i);
      LeaveSimulates(AsGroup(), i);
      ghost var g := AsGroup();
      if p != m {
        Leave(m, p, q, i);
      } else {
        ring := [];
        EmptyRing(this);
      }
      ghost var vers := Vers();
      if writer == m {
        writer := null;
      }
      assert vers == Without(g.vers, i) && Vers() == vers;
    }

    method Unlink(m: Member, p: Member, q: Member, ghost i: nat)
      requires Linked() && i < |ring| && ring[i] == m && |ring| > 1 && m.prev == p && m.next == q
      modifies this`ring, p`next, q`prev
      ensures Linked() && ring == Without(old(ring), i) && m !in ring
    {
      hide Distinct;
      WithoutDistinct(ring, i);
      assert LinkedAt(i) && LinkedAt(Before(i, |ring|)) && LinkedAt(After(i, |ring|));
      ghost var was, n := ring, |ring|;
      p.next := q;
      q.prev := p;
      ring := Without(ring, i);
      forall j | 0 <= j < n - 1 ensures LinkedAt(j) {
        ghost var k := if j < i then j else j + 1;
        assert old(LinkedAt(k));
        SameIff(was, k, Before(i, n));
        SameIff(was, k, After(i, n));
        LeaveNeighbours(was, i, j);
      }
    }

    /** Tombstone what is selected and visible at `at`; the key's entries are one stretch of the data. */
    method Bury(sel: Sel, at: int, now: int)
      requires Sorted(data)
      modifies this`data, this`erases
      ensures data == Tombstoned(old(data), sel, at, now)
      ensures erases == old(erases) + Hits(old(data), sel, at)
    {
      hide LowerBound, UpperBound, Hits;
      BoundsOrdered(data, sel.k);
      var i, hi := LowerBound(data, sel.k), UpperBound(data, sel.k);
      NoHits(data[..i], sel, at);
      while i < hi
        invariant LowerBound(old(data), sel.k) <= i <= hi
        invariant |data| == |old(data)|
        invariant forall j :: 0 <= j < |data| ==>
                    data[j] == if j < i then Buried(old(data)[j], sel, at, now) else old(data)[j]
        invariant erases == old(erases) + Hits(old(data)[..i], sel, at)
      {
        HitsSnoc(old(data), sel, at, i);
        if data[i].ValidAt(at) && sel.Hits(data[i].key, data[i].val) {
          data := data[i := data[i].(removed := now)];
          erases := erases + 1;
        }
        i := i + 1;
      }
      HitsConcat(old(data)[..i], old(data)[i..], sel, at);
      NoHits(old(data)[i..], sel, at);
      assert old(data)[..i] + old(data)[i..] == old(data);
    }

    /** Drop all pairs `(k, v)`, one erase at a time. */
    method DropPairs(k: Key, v: Val)
      requires Sorted(data)
      modifies this`data
      ensures data == Dropped(old(data), ByPair(k, v))
    {
      hide LowerBound, UpperBound, Dropped;
      var sel := ByPair(k, v);
      BoundsOrdered(data, k);
      var i, hi := LowerBound(data, k), UpperBound(data, k);
      ghost var m := i;
      KeptAll(data[..i], sel);
      assert data[..i] + data[i..] == data;
      while i < hi
        invariant i <= m <= |old(data)| && hi - i == UpperBound(old(data), k) - m
        invariant |Dropped(old(data)[..m], sel)| == i && data == Dropped(old(data)[..m], sel) + old(data)[m..]
      {
        assert data[i] == old(data)[m];
        DropSnoc(old(data), sel, m);
        if data[i].val == v {
          data := data[..i] + data[i + 1..];
          hi := hi - 1;
        } else {
          i := i + 1;
        }
        m := m + 1;
      }
      KeptAll(old(data)[m..], sel);
      DropConcat(old(data)[..m], old(data)[m..], sel);
      assert old(data)[..m] + old(data)[m..] == old(data);
    }

    /** Drop everything with key `k`: one stretch of the data. */
    method DropKey(k: Key)
      requires Sorted(data)
      modifies this`data
      ensures data == Dropped(old(data), ByKey(k))
    {
      var lo, hi := LowerBound(data, k), UpperBound(data, k);
      StretchDropped(data, k);
      data := data[..lo] + data[hi..];
    }

    /** Remove the garbage between the two versions. */
    method Sweep(low: int, high: int)
      modifies this`data
      ensures data == Swept(old(data), low, high)
    {
      hide Swept, Garbage;
      NothingSwept(low, high);
      var i := 0;
      ghost var m := 0;
      while i < |data|
        invariant i <= |data| && m <= |old(data)|
        invariant data[..i] == Swept(old(data)[..m], low, high) && data[i..] == old(data)[m..]
        decreases |data| - i
      {
        assert data[i] == data[i..][0] == old(data)[m..][0];
        assert data[i + 1..] == data[i..][1..] == old(data)[m..][1..] == old(data)[m + 1..];
        SweepSnoc(old(data), low, high, m);
        if Garbage(data[i], low, high) {
          data := data[..i] + data[i + 1..];
        } else {
          assert data[..i + 1] == data[..i] + [data[i]];
          i := i + 1;
        }
        m := m + 1;
      }
      assert old(data)[..m] == old(data) && data[..i] == data;
    }
  }

  /** `snapshot_range`: enumerate what a version sees of a stretch of the data, one pair of look-ahead. */
  class Range {
    const data: seq<Entry>
    const ver: int
    const begin: nat
    const end: nat
    var next: nat
    var cached: bool
    var cachedNext: (Key, Val)

    ghost predicate Valid()
      reads this
    {
      begin <= next <= end <= |data|
    }

    /** The pairs still to come. */
    ghost function Remaining(): Pairs
      requires Valid()
      reads this
    {
      (if cached then [cachedNext] else []) + View(data[next..end], ver)
    }

    constructor (data: seq<Entry>, ver: int, begin: nat, end: nat)
      requires begin <= end <= |data|
      ensures this.data == data && this.ver == ver && this.begin == begin && this.end == end
      ensures Valid() && Remaining() == View(data[begin..end], ver)
    {
      this.data, this.ver, this.begin, this.end := data, ver, begin, end;
      next, cached, cachedNext := begin, false, (0, 0);
    }

    method PrefetchNext() returns (ok: bool)
      requires Valid() && !cached
      modifies this
      ensures Valid() && ok == cached && Remaining() == old(Remaining()) && (ok <==> Remaining() != [])
    {
      while !cached && next != end
        invariant Valid() && Remaining() == old(Remaining())
        decreases end - next, !cached
      {
        assert data[next..end][1..] == data[next + 1..end];
        if data[next].ValidAt(ver) {
          cachedNext := (data[next].key, data[next].val);
          cached := true;
        }
        next := next + 1;
      }
      return cached;
    }

    method HasNext() returns (ok: bool)
      requires Valid()
      modifies this
      ensures Valid() && Remaining() == old(Remaining()) && (ok <==> Remaining() != [])
    {
      if cached {
        return true;
      }
      ok := PrefetchNext();
    }

    method Next() returns (p: (Key, Val))
      requires Valid() && Remaining() != []
      modifies this
      ensures Valid() && [p] + Remaining() == old(Remaining())
    {
      if !cached {
        var _ := PrefetchNext();
      }
      cached := false;
      p := cachedNext;
    }

    method Drain() returns (ps: Pairs)
      requires Valid()
      modifies this
      ensures Valid() && ps == old(Remaining())
    {
      ps := [];
      var more := HasNext();
      while more
        invariant Valid() && ps + Remaining() == old(Remaining()) && (more <==> Remaining() != [])
        decreases |Remaining()|
      {
        var p := Next();
        ps := ps + [p];
        more := HasNext();
      }
    }

    /** `count` looks at the whole range again. */
    method Count() returns (n: nat)
      requires Valid()
      ensures n == |View(data[begin..end], ver)|
    {
      n := 0;
      var i := begin;
      while i != end
        invariant begin <= i <= end && n + |View(data[i..end], ver)| == |View(data[begin..end], ver)|
      {
        assert data[i..end][1..] == data[i + 1..end];
        if data[i].ValidAt(ver) {
          n := n + 1;
        }
        i := i + 1;
      }
    }
  }

  /** `snapshot_sortedmap`: a member of a group, with its version. */
  class Member {
    var ver: int
    var group: Shared?
    var prev: Member?
    var next: Member?

    ghost predicate Valid()
      reads this, group, if group == null then [] else group.ring
    {
      group != null && group.Valid() && this in group.ring
    }

    ghost function Ring(): seq<Member>
      reads this, group
    {
      if group == null then [] else group.ring
    }

    /** This member's place in the ring. */
    ghost function Place(): (i: nat)
      requires Valid()
      reads this, group, if group == null then [] else group.ring
      ensures i < |group.ring| && group.ring[i] == this
    {
      var i :| 0 <= i < |group.ring| && group.ring[i] == this;
      i
    }

    /** What this member shows. */
    ghost function Shown(): Pairs
      requires group != null
      reads this, group
    {
      View(group.data, ver)
    }

    /** A new map: a group of its own, writable. */
    constructor ()
      ensures Valid() && fresh(group) && group.ring == [this] && group.writer == this
      ensures group.AsGroup() == NEW_GROUP
    {
      ver := 0;
      prev, next := this, this;
      new;
      group := new Shared(this);
      NewGroupInv();
      assert group.Vers() == [0];
    }

    /** `make_me_snapshot_of`: join the ring to the left of `src`, at its version. */
    constructor SnapshotOf(src: Member)
      requires src.Valid()
      modifies src`prev, src.prev, src.group`ring, src.group`inserts, src.group`erases
      ensures Valid() && group == src.group && group.writer == old(src.group.writer)
      ensures group.ring == old(src.Ring())[..old(src.Place())] + [this] + old(src.Ring())[old(src.Place())..]
      ensures group.AsGroup() == Step(old(src.group.AsGroup()), Snap(old(src.Place())))
      ensures Shown() == old(src.Shown()) && ReadOnly()
    {
      ver := src.ver;
      group := src.group;
      new;
      hide Group.Inv, Shared.Linked, View, Step;
      ghost var i := src.Place();
      LinkedPrev(group, i);
      group.Adopt(this, src, src.prev, i);
    }

    /** `destroy_me`: leave the ring; the writer's departure may trigger a collection. */
    method Destroy()
      requires Valid()
      modifies this, prev, next, group
      ensures group == null && old(group).Valid()
      ensures old(group).ring == Without(old(Ring()), old(Place()))
      ensures old(group).AsGroup() == Step(old(group.AsGroup()), Snapshots.Destroy(old(Place())))
    {
      hide Group.Inv, Swept, Shared.Linked, View;
      ghost var i, g := Place(), group.AsGroup();
      LinkedPrev(group, i);
      WriterIsLast(group, i);
      var counter := group.inserts + group.erases;
      var autoGc := group.writer == this && counter >= 16 && counter >= |group.data| / 2;
      var last := prev == this;
      group.Discard(this, prev, next, i);
      if !last && autoGc {
        next.GcRun();
      }
      group, prev, next, ver := null, null, null, -1;
    }

    predicate ReadOnly()
      requires group != null
      reads this, group
    {
      group.writer != this
    }

    method Insert(k: Key, v: Val)
      requires Valid() && !ReadOnly()
      modifies this`ver, group`data, group`inserts
      ensures Valid() && group == old(group) && group.ring == old(group.ring) && group.writer == old(group.writer)
      ensures group.AsGroup() == Step(old(group.AsGroup()), Snapshots.Insert(k, v))
    {
      hide Group.Inv;
      ghost var g := group.AsGroup();
      StepSimulates(g, Snapshots.Insert(k, v));
      ver := ver + 1;
      var u := UpperBound(group.data, k);
      group.data := group.data[..u] + [Entry(k, v, ver, NEVER)] + group.data[u..];
      group.inserts := group.inserts + 1;
      assert group.Vers() == g.vers[|g.vers| - 1 := ver];
    }

    /** `insert` of a whole range: one version for all its pairs. */
    method InsertAll(ps: Pairs)
      requires Valid() && !ReadOnly()
      modifies this`ver, group`data, group`inserts
      ensures Valid() && group == old(group) && group.ring == old(group.ring) && group.writer == old(group.writer)
      ensures group.AsGroup() == Step(old(group.AsGroup()), Snapshots.InsertAll(ps))
    {
      hide Group.Inv, Inserted, UpperBound;
      ghost var g := group.AsGroup();
      StepSimulates(g, Snapshots.InsertAll(ps));
      ver := ver + 1;
      var i := 0;
      while i < |ps|
        modifies group`data, group`inserts
        invariant 0 <= i <= |ps| && group.inserts == g.inserts + i
        invariant InsertedAll(group.data, ps[i..], ver) == InsertedAll(g.data, ps, ver)
      {
        group.data := Inserted(group.data, Entry(ps[i].0, ps[i].1, ver, NEVER));
        group.inserts := group.inserts + 1;
        assert ps[i..][1..] == ps[i + 1..];
        i := i + 1;
      }
      assert group.Vers() == g.vers[|g.vers| - 1 := ver];
    }

    /** `erase(key)`. */
    method Erase(k: Key)
      requires Valid() && !ReadOnly()
      modifies this`ver, group`data, group`erases
      ensures Valid() && group == old(group) && group.ring == old(group.ring) && group.writer == old(group.writer)
      ensures group.AsGroup() == Step(old(group.AsGroup()), Snapshots.Erase(ByKey(k)))
    {
      hide Group.Inv, Tombstoned, Dropped, Hits;
      ghost var g := group.AsGroup();
      StepSimulates(g, Snapshots.Erase(ByKey(k)));
      EraseBegins(group);
      var orig := ver;
      ver := ver + 1;
      if prev.ReadOnly() {
        group.Bury(ByKey(k), orig, ver);
      } else {
        group.DropKey(k);
      }
      assert group.Vers() == g.vers[|g.vers| - 1 := ver];
    }

    /** `erase(key, value)`. */
    method ErasePair(k: Key, v: Val)
      requires Valid() && !ReadOnly()
      modifies this`ver, group`data, group`erases
      ensures Valid() && group == old(group) && group.ring == old(group.ring) && group.writer == old(group.writer)
      ensures group.AsGroup() == Step(old(group.AsGroup()), Snapshots.Erase(ByPair(k, v)))
    {
      hide Group.Inv, Tombstoned, Dropped, Hits;
      ghost var g := group.AsGroup();
      StepSimulates(g, Snapshots.Erase(ByPair(k, v)));
      EraseBegins(group);
      var orig := ver;
      ver := ver + 1;
      if prev.ReadOnly() {
        group.Bury(ByPair(k, v), orig, ver);
      } else {
        group.DropPairs(k, v);
      }
      assert group.Vers() == g.vers[|g.vers| - 1 := ver];
    }

    /** One walk round the ring for the oldest and the newest version. */
    method Span() returns (low: int, high: int)
      requires Valid()
      ensures low == group.AsGroup().vers[0] && high == group.AsGroup().Top()
    {
      ghost var n, p, c := |group.ring|, Place(), 0;
      ghost var li: nat, hi: nat := p, p;
      low, high := ver, -1;
      var q := this;
      var first := true;
      while first || q != this
        invariant 0 <= c <= n && (first <==> c == 0) && q == group.ring[Nth(p, c, n)]
        invariant li < n && low == group.ring[li].ver
        invariant hi < n && if c == 0 then high == -1 else high == group.ring[hi].ver
        invariant forall d :: 0 <= d < c ==> low <= group.ring[Nth(p, d, n)].ver <= high
        decreases n - c
      {
        ghost var i := Nth(p, c, n);
        assert group.LinkedAt(i);
        assert 0 <= group.AsGroup().vers[i];
        first := false;
        if q.ver < low {
          low := q.ver;
          li := i;
        }
        if q.ver > high {
          high := q.ver;
          hi := i;
        }
        q := q.next;
        c := c + 1;
      }
      assert c == n;
      assert Nth(p, if p == 0 then 0 else n - p, n) == 0;
      assert Nth(p, n - 1 - p, n) == n - 1;
      ghost var vers := group.AsGroup().vers;
      assert vers[0] <= vers[li] && vers[hi] <= vers[n - 1];
    }

    /** `debug_group_sanity_check`: the versions fall at most once round the ring, and the writer is on top. */
    method SanityCheck() returns (ok: bool)
      requires Valid()
      ensures ok
    {
      ghost var n, p, c := |group.ring|, Place(), 0;
      var q, flips, found := this, 0, false;
      var first := true;
      while first || q != this
        invariant 0 <= c <= n && (first <==> c == 0) && q == group.ring[Nth(p, c, n)]
        invariant flips <= if c <= n - 1 - p then 0 else 1
        invariant forall d :: 0 <= d < c ==> group.ring[Nth(p, d, n)] == group.writer ==> found
        decreases n - c
      {
        ghost var i := Nth(p, c, n);
        assert group.LinkedAt(i);
        ghost var vers := group.AsGroup().vers;
        assert i < n - 1 ==> vers[i] <= vers[i + 1];
        first := false;
        if q == group.writer {
          found := true;
        }
        if q.ver > q.next.ver {
          flips := flips + 1;
        }
        q := q.next;
        c := c + 1;
      }
      ok := flips < 2;
      var w := group.writer;
      if w != null {
        assert Nth(p, n - 1 - p, n) == n - 1;
        TopOfRing(group);
        ok := ok && found && w.ver >= w.prev.ver && w.ver >= w.next.ver;
      }
    }

    /** `gc_run`. */
    method GcRun()
      requires Valid()
      modifies group`data, group`inserts, group`erases
      ensures Valid() && group == old(group) && group.ring == old(group.ring) && group.writer == old(group.writer)
      ensures group.AsGroup() == Collected(old(group.AsGroup()))
    {
      hide Group.Inv, Swept;
      CollectSimulates(group.AsGroup());
      var low, high := Span();
      group.Sweep(low, high);
      group.inserts, group.erases := 0, 0;
      assert group.Vers() == old(group.Vers());
    }
  }

  /** Copying a writable map: a group of its own with everything `src` shows. */
  method CopyOf(src: Member) returns (m: Member)
    requires src.Valid()
    ensures fresh(m) && fresh(m.group) && m.Valid() && m.group.ring == [m] && !m.ReadOnly()
    ensures m.Shown() == src.Shown()
  {
    hide View, Shared.Linked, Shared.Vers, Step, Sorted, Proper;
    ghost var shown := src.Shown();
    CopyShows(src.group.data, src.ver);
    m := new Member();
    var r := new Range(src.group.data, src.ver, 0, |src.group.data|);
    var ps := r.Drain();
    assert src.group.data[0..|src.group.data|] == src.group.data;
    m.InsertAll(ps);
    VersAt(m.group, 0);
    assert m.group.AsGroup().Views()[0] == View(m.group.data, m.ver);
  }

  lemma CopyShows(data: seq<Entry>, v: int)
    requires Sorted(data)
    ensures Step(NEW_GROUP, Snapshots.InsertAll(View(data, v))).Views() == [View(data, v)]
  {
    hide Step;
    NewGroupInv();
    StepSimulates(NEW_GROUP, Snapshots.InsertAll(View(data, v)));
    ViewSorted(data, v);
    assert [] + View(data, v) == View(data, v);
    CopyIsExact([], View(data, v));
  }

  lemma TopOfRing(s: Shared)
    requires s.Valid() && s.writer != null
    ensures var w := s.writer; w.prev != null && w.next != null && w.ver >= w.prev.ver && w.ver >= w.next.ver
  {
    var n := |s.ring|;
    assert s.LinkedAt(n - 1);
    var vers := s.AsGroup().vers;
    assert vers[Before(n - 1, n)] <= vers[n - 1] && vers[After(n - 1, n)] <= vers[n - 1];
  }

  /** The writer sits last; its predecessor is another member unless it is alone. */
  lemma EraseBegins(s: Shared)
    requires s.Valid() && s.writer != null
    ensures Sorted(s.data)
    ensures var w := s.writer; w.prev != null && w.prev.group == s && (w.prev != w <==> |s.ring| > 1)
  {
    assert s.ring[|s.ring| - 1] == s.writer && s.LinkedAt(|s.ring| - 1);
    assert s.LinkedAt(Before(|s.ring| - 1, |s.ring|));
  }

  lemma LinkedPrev(s: Shared, i: nat)
    requires s.Linked() && i < |s.ring|
    ensures var m := s.ring[i];
            && m.prev != null && m.next != null && m.prev in s.ring && m.next in s.ring
            && (m.prev == m <==> |s.ring| == 1) && (|s.ring| > 1 ==> m.next != m) && m.next.group == s
  {
    assert s.LinkedAt(i) && s.LinkedAt(After(i, |s.ring|));
  }

  lemma VersAt(s: Shared, i: nat)
    requires i < |s.ring|
    ensures s.Vers()[i] == s.ring[i].ver
  {
  }

  lemma EmptyRing(s: Shared)
    requires s.ring == []
    ensures s.Linked() && s.Vers() == []
  {
  }

  lemma WriterIsLast(s: Shared, i: nat)
    requires s.Valid() && i < |s.ring|
    ensures s.ring[i] == s.writer <==> s.writer != null && i == |s.ring| - 1
  {
  }

  lemma SameIff(ring: seq<Member>, i: nat, j: nat)
    requires Distinct(ring) && i < |ring| && j < |ring|
    ensures ring[i] == ring[j] <==> i == j
  {
  }

  /** The neighbours of an old member in the new ring. */
  lemma JoinNeighbours(was: seq<Member>, i: nat, m: Member, j: nat)
    requires i < |was| && j <= |was| && j != i
    ensures var r, n, k := was[..i] + [m] + was[i..], |was|, if j < i then j else j - 1;
            && r[j] == was[k]
            && r[After(j, n + 1)] == (if k == Before(i, n) then m else was[After(k, n)])
            && r[Before(j, n + 1)] == (if k == i then m else was[Before(k, n)])
  {
  }

  lemma LeaveNeighbours(was: seq<Member>, i: nat, j: nat)
    requires i < |was| && j < |was| - 1
    ensures var r, n, k := Without(was, i), |was|, if j < i then j else j + 1;
            && r[j] == was[k]
            && r[After(j, n - 1)] == was[if k == Before(i, n) then After(i, n) else After(k, n)]
            && r[Before(j, n - 1)] == was[if k == After(i, n) then Before(i, n) else Before(k, n)]
  {
  }

  lemma JoinDistinct(ring: seq<Member>, i: nat, m: Member)
    requires Distinct(ring) && i < |ring| && m !in ring
    ensures Distinct(ring[..i] + [m] + ring[i..])
  {
  }

  lemma WithoutDistinct(ring: seq<Member>, i: nat)
    requires Distinct(ring) && i < |ring|
    ensures Distinct(Without(ring, i)) && ring[i] !in Without(ring, i)
  {
  }

  /** The place `c` steps on from `p`. */
  ghost function Nth(p: nat, c: nat, n: nat): (i: nat)
    requires p < n && c <= n
    ensures i < n
  {
    if p + c < n then p + c else p + c - n
  }

  function After(i: nat, n: nat): (j: nat)
    requires i < n
    ensures j < n
  {
    if i == n - 1 then 0 else i + 1
  }

  function Before(i: nat, n: nat): (j: nat)
    requires i < n
    ensures j < n && After(j, n) == i
  {
    if i == 0 then n - 1 else i - 1
  }

  // ---- loops over the data ----

  lemma {:induction false} HitsConcat(a: seq<Entry>, b: seq<Entry>, sel: Sel, at: int)
    ensures Hits(a + b, sel, at) == Hits(a, sel, at) + Hits(b, sel, at)
  {
    if a == [] {
      assert a + b == b;
    } else {
      assert (a + b)[1..] == a[1..] + b;
      HitsConcat(a[1..], b, sel, at);
    }
  }

  lemma HitsSnoc(data: seq<Entry>, sel: Sel, at: int, i: nat)
    requires i < |data|
    ensures Hits(data[..i + 1], sel, at) ==
            Hits(data[..i], sel, at) + if sel.Hits(data[i].key, data[i].val) && data[i].ValidAt(at) then 1 else 0
  {
    assert data[..i + 1] == data[..i] + [data[i]];
    HitsConcat(data[..i], [data[i]], sel, at);
  }

  lemma {:induction false} NoHits(data: seq<Entry>, sel: Sel, at: int)
    requires forall i :: 0 <= i < |data| ==> data[i].key != sel.k
    ensures Hits(data, sel, at) == 0
  {
    if data != [] {
      NoHits(data[1..], sel, at);
    }
  }

  lemma {:induction false} DropConcat(a: seq<Entry>, b: seq<Entry>, sel: Sel)
    ensures Dropped(a + b, sel) == Dropped(a, sel) + Dropped(b, sel)
  {
    if a == [] {
      assert a + b == b;
    } else {
      assert (a + b)[0] == a[0] && (a + b)[1..] == a[1..] + b;
      DropConcat(a[1..], b, sel);
      var h := if sel.Hits(a[0].key, a[0].val) then [] else [a[0]];
      assert h + (Dropped(a[1..], sel) + Dropped(b, sel)) == h + Dropped(a[1..], sel) + Dropped(b, sel);
    }
  }

  lemma DropSnoc(data: seq<Entry>, sel: Sel, i: nat)
    requires i < |data|
    ensures Dropped(data[..i + 1], sel) ==
            Dropped(data[..i], sel) + if sel.Hits(data[i].key, data[i].val) then [] else [data[i]]
  {
    assert data[..i + 1] == data[..i] + [data[i]];
    DropConcat(data[..i], [data[i]], sel);
  }

  lemma {:induction false} KeptAll(data: seq<Entry>, sel: Sel)
    requires forall i :: 0 <= i < |data| ==> data[i].key != sel.k
    ensures Dropped(data, sel) == data
  {
    if data != [] {
      KeptAll(data[1..], sel);
    }
  }

  lemma {:induction false} KeptNone(data: seq<Entry>, k: Key)
    requires forall i :: 0 <= i < |data| ==> data[i].key == k
    ensures Dropped(data, ByKey(k)) == []
  {
    if data != [] {
      KeptNone(data[1..], k);
    }
  }

  lemma {:induction false} BoundsOrdered(data: seq<Entry>, k: Key)
    ensures LowerBound(data, k) <= UpperBound(data, k)
  {
    if data != [] {
      BoundsOrdered(data[1..], k);
    }
  }

  lemma StretchDropped(data: seq<Entry>, k: Key)
    requires Sorted(data)
    ensures LowerBound(data, k) <= UpperBound(data, k)
    ensures Dropped(data, ByKey(k)) == data[..LowerBound(data, k)] + data[UpperBound(data, k)..]
  {
    hide LowerBound, UpperBound, Dropped;
    var lo, hi := LowerBound(data, k), UpperBound(data, k);
    BoundsOrdered(data, k);
    var a, b, c := data[..lo], data[lo..hi], data[hi..];
    assert data == a + b + c;
    DropConcat(a + b, c, ByKey(k));
    DropConcat(a, b, ByKey(k));
    KeptAll(a, ByKey(k));
    KeptNone(b, k);
    KeptAll(c, ByKey(k));
  }

  lemma {:induction false} SweepConcat(a: seq<Entry>, b: seq<Entry>, low: int, high: int)
    ensures Swept(a + b, low, high) == Swept(a, low, high) + Swept(b, low, high)
  {
    if a == [] {
      assert a + b == b;
    } else {
      assert (a + b)[0] == a[0] && (a + b)[1..] == a[1..] + b;
      SweepConcat(a[1..], b, low, high);
      var h := if Garbage(a[0], low, high) then [] else [a[0]];
      assert h + (Swept(a[1..], low, high) + Swept(b, low, high)) == h + Swept(a[1..], low, high) + Swept(b, low, high);
    }
  }

  lemma NothingSwept(low: int, high: int)
    ensures Swept([], low, high) == []
  {
  }

  lemma SweepSnoc(data: seq<Entry>, low: int, high: int, i: nat)
    requires i < |data|
    ensures Swept(data[..i + 1], low, high) ==
            Swept(data[..i], low, high) + if Garbage(data[i], low, high) then [] else [data[i]]
  {
    assert data[..i + 1] == data[..i] + [data[i]];
    SweepConcat(data[..i], [data[i]], low, high);
  }
}
