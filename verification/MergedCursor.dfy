/**
  Reading a table through a transaction: the rows of a table query that are not staged for
  removal, merged with the staged inserts in range. Rows are named by their addresses, which is
  what the merge compares.
 */
module MergedCursor {

  type Row = nat

  /** The rows that are not removed. */
  function Kept(rows: seq<Row>, removes: set<Row>): seq<Row> {
    if rows == [] then [] else (if rows[0] in removes then [] else [rows[0]]) + Kept(rows[1..], removes)
  }

  /** The lower address first, the staged insert first on a tie. */
  function Merge(a: seq<Row>, b: seq<Row>): seq<Row>
    decreases |a| + |b|
  {
    if a == [] then b
    else if b == [] then a
    else if a[0] < b[0] then [a[0]] + Merge(a[1..], b)
    else [b[0]] + Merge(a, b[1..])
  }

  /** `out` takes the elements of `a` and `b` in their orders. */
  ghost predicate Interleaving(out: seq<Row>, a: seq<Row>, b: seq<Row>)
    decreases |out|
  {
    if out == [] then a == [] && b == []
    else
      || (a != [] && a[0] == out[0] && Interleaving(out[1..], a[1..], b))
      || (b != [] && b[0] == out[0] && Interleaving(out[1..], a, b[1..]))
  }

  class Cursor {
    const table: seq<Row>
    const inserts: seq<Row>
    const removes: set<Row>
    var nextTable: nat
    var nextInsert: nat
    var cached: bool
    var cachedNext: Row
    var hasCandidate: bool
    var candidate: Row

    ghost predicate Valid()
      reads this
    {
      nextTable <= |table| && nextInsert <= |inserts|
    }

    /** Table rows still to come, the fetched candidate first. */
    ghost function TableLeft(): seq<Row>
      requires Valid()
      reads this
    {
      (if hasCandidate then [candidate] else []) + Kept(table[nextTable..], removes)
    }

    ghost function Remaining(): seq<Row>
      requires Valid()
      reads this
    {
      (if cached then [cachedNext] else []) + Merge(TableLeft(), inserts[nextInsert..])
    }

    /** `table` is what the table query enumerates, `inserts` the staged rows in range. */
    constructor (table: seq<Row>, inserts: seq<Row>, removes: set<Row>)
      ensures Valid() && Remaining() == Merge(Kept(table, removes), inserts)
    {
      this.table, this.inserts, this.removes := table, inserts, removes;
      nextTable, nextInsert, cached, cachedNext, hasCandidate, candidate := 0, 0, false, 0, false, 0;
      new;
      assert table[0..] == table && inserts[0..] == inserts;
      assert TableLeft() == Kept(table, removes);
    }

    /** Skip removed rows until there is a candidate. */
    method FetchCandidate()
      requires Valid()
      modifies this`nextTable, this`hasCandidate, this`candidate
      ensures Valid() && TableLeft() == old(TableLeft())
      ensures hasCandidate <==> TableLeft() != []
    {
      while !hasCandidate && nextTable < |table|
        invariant Valid() && TableLeft() == old(TableLeft())
        decreases |table| - nextTable, !hasCandidate
      {
        assert table[nextTable..][1..] == table[nextTable + 1..];
        candidate := table[nextTable];
        nextTable := nextTable + 1;
        hasCandidate := candidate !in removes;
      }
    }

    method PrefetchNext() returns (ok: bool)
      requires Valid() && !cached
      modifies this
      ensures Valid() && Remaining() == old(Remaining()) && ok == cached && (ok <==> Remaining() != [])
    {
      FetchCandidate();
      ghost var a, b := TableLeft(), inserts[nextInsert..];
      assert b != [] ==> b[0] == inserts[nextInsert] && b[1..] == inserts[nextInsert + 1..];
      assert hasCandidate ==> a[0] == candidate && a[1..] == Kept(table[nextTable..], removes);
      if !hasCandidate {
        if nextInsert < |inserts| {
          cached, cachedNext := true, inserts[nextInsert];
          nextInsert := nextInsert + 1;
          assert b == [cachedNext] + inserts[nextInsert..];
        }
      } else {
        cached := true;
        if nextInsert < |inserts| && !(candidate < inserts[nextInsert]) {
          cachedNext := inserts[nextInsert];
          nextInsert := nextInsert + 1;
        } else {
          cachedNext := candidate;
          hasCandidate := false;
          assert a == [cachedNext] + TableLeft();
        }
      }
      return cached;
    }

    method HasNext() returns (ok: bool)
      requires Valid()
      modifies this
      ensures Valid() && Remaining() == old(Remaining()) && (ok <==> Remaining() != [])
    {
      if cached {
        return true;
      }
      ok := PrefetchNext();
    }

    method Next() returns (r: Row)
      requires Valid() && Remaining() != []
      modifies this
      ensures Valid() && [r] + Remaining() == old(Remaining())
    {
      if !cached {
        var _ := PrefetchNext();
      }
      cached := false;
      r := cachedNext;
    }
  }

  /** Draining the cursor. */
  method Drain(table: seq<Row>, inserts: seq<Row>, removes: set<Row>) returns (out: seq<Row>)
    ensures Interleaving(out, Kept(table, removes), inserts)
    ensures multiset(out) == multiset(Kept(table, removes)) + multiset(inserts)
  {
    hide Cursor.Remaining, Kept, Merge, Interleaving;
    var c := new Cursor(table, inserts, removes);
    ghost var all := c.Remaining();
    out := [];
    var more := c.HasNext();
    while more
      invariant fresh(c) && c.Valid() && out + c.Remaining() == all && (more <==> c.Remaining() != [])
      decreases |c.Remaining()|
    {
      var r := c.Next();
      out := out + [r];
      more := c.HasNext();
    }
    assert out + [] == out;
    assert out == Merge(Kept(table, removes), inserts);
    MergeInterleaves(Kept(table, removes), inserts);
    MergeCounts(Kept(table, removes), inserts);
  }

  lemma {:induction false} RightOnly(b: seq<Row>)
    ensures Interleaving(b, [], b) && Interleaving(b, b, [])
  {
    if b != [] {
      RightOnly(b[1..]);
    }
  }

  lemma {:induction false} MergeInterleaves(a: seq<Row>, b: seq<Row>)
    ensures Interleaving(Merge(a, b), a, b)
    decreases |a| + |b|
  {
    if a == [] {
      RightOnly(b);
    } else if b == [] {
      RightOnly(a);
    } else if a[0] < b[0] {
      MergeInterleaves(a[1..], b);
      assert Merge(a, b)[1..] == Merge(a[1..], b);
    } else {
      MergeInterleaves(a, b[1..]);
      assert Merge(a, b)[1..] == Merge(a, b[1..]);
    }
  }

  ghost predicate Ascending(s: seq<Row>) {
    forall i, j :: 0 <= i < j < |s| ==> s[i] <= s[j]
  }

  ghost predicate AtLeast(s: seq<Row>, x: Row) {
    forall i :: 0 <= i < |s| ==> x <= s[i]
  }

  lemma {:induction false} MergeAtLeast(a: seq<Row>, b: seq<Row>, x: Row)
    requires AtLeast(a, x) && AtLeast(b, x)
    ensures AtLeast(Merge(a, b), x)
    decreases |a| + |b|
  {
    if a != [] && b != [] {
      if a[0] < b[0] { MergeAtLeast(a[1..], b, x); } else { MergeAtLeast(a, b[1..], x); }
    }
  }

  /** Inputs in the order of their addresses are merged in the order of their addresses. */
  lemma {:induction false} MergeAscends(a: seq<Row>, b: seq<Row>)
    requires Ascending(a) && Ascending(b)
    ensures Ascending(Merge(a, b))
    decreases |a| + |b|
  {
    if a != [] && b != [] {
      if a[0] < b[0] {
        MergeAscends(a[1..], b);
        MergeAtLeast(a[1..], b, a[0]);
        ConsAscends(a[0], Merge(a[1..], b));
      } else {
        MergeAscends(a, b[1..]);
        MergeAtLeast(a, b[1..], b[0]);
        ConsAscends(b[0], Merge(a, b[1..]));
      }
    }
  }

  lemma ConsAscends(x: Row, s: seq<Row>)
    requires Ascending(s) && AtLeast(s, x)
    ensures Ascending([x] + s)
  {
  }

  lemma {:induction false} MergeCounts(a: seq<Row>, b: seq<Row>)
    ensures multiset(Merge(a, b)) == multiset(a) + multiset(b)
    decreases |a| + |b|
  {
    if a != [] && b != [] {
      if a[0] < b[0] {
        MergeCounts(a[1..], b);
        assert a == [a[0]] + a[1..];
      } else {
        MergeCounts(a, b[1..]);
        assert b == [b[0]] + b[1..];
      }
    }
  }

  lemma {:induction false} KeptCounts(s: seq<Row>, removes: set<Row>, r: Row)
    ensures multiset(Kept(s, removes))[r] == if r in removes then 0 else multiset(s)[r]
  {
    if s != [] {
      KeptCounts(s[1..], removes, r);
      assert s == [s[0]] + s[1..];
    }
  }
}
