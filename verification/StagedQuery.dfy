/**
  A query through a transaction against the same query after its commit, on a sorted table with
  keys and columns: the merged cursor over table rows and staged inserts, then the three commit
  loops (inserts, updates, removes).
 */
module StagedQuery {
  import opened Common
  import opened Multimap
  import MergedCursor

  datatype Cell = Cell(row: Id, col: nat)

  ghost function MembersOf(rows: Entries): set<Id> {
    set i | 0 <= i < |rows| :: rows[i].1
  }

  /** Each row once, in key order, under its current key columns. */
  ghost predicate InOrder(rows: Entries, cols: map<Id, seq<int>>, width: nat, keyCols: seq<nat>) {
    && (forall j :: 0 <= j < |keyCols| ==> keyCols[j] < width)
    && Ok(rows, |keyCols|) && Unique(rows)
    && (forall i :: 0 <= i < |rows| ==>
                      && rows[i].1 in cols && |cols[rows[i].1]| == width
                      && rows[i].0 == Pick(cols[rows[i].1], keyCols))
  }

  // ---- one row in or out ----

  lemma InsertInOrder(rows: Entries, cols: map<Id, seq<int>>, width: nat, keyCols: seq<nat>, r: Id)
    requires InOrder(rows, cols, width, keyCols) && r in cols && |cols[r]| == width && r !in MembersOf(rows)
    ensures var rows' := Inserted(rows, Pick(cols[r], keyCols), r);
            InOrder(rows', cols, width, keyCols) && MembersOf(rows') == MembersOf(rows) + {r}
  {
    hide UpperBound;
    var k := Pick(cols[r], keyCols);
    var u, rows' := UpperBound(rows, k), Inserted(rows, k, r);
    InsertedOk(rows, k, r);
    forall k2 ensures !Has(rows, k2, r) {
    }
    InsertedUnique(rows, k, r);
    forall i | 0 <= i < |rows'| ensures rows'[i] == if i == u then (k, r) else rows[if i < u then i else i - 1] {
    }
    forall i | 0 <= i < |rows| ensures rows[i].1 in MembersOf(rows') {
      assert rows'[if i < u then i else i + 1] == rows[i];
    }
    assert rows'[u].1 == r;
  }

  lemma InsertTwice(rows: Entries, cols: map<Id, seq<int>>, width: nat, keyCols: seq<nat>, r: Id)
    requires InOrder(rows, cols, width, keyCols) && r in cols && |cols[r]| == width && r in MembersOf(rows)
    ensures var rows' := Inserted(rows, Pick(cols[r], keyCols), r);
            !InOrder(rows', cols, width, keyCols) && MembersOf(rows') == MembersOf(rows) + {r}
  {
    hide UpperBound, Inserted;
    InsertedTwice(rows, Pick(cols[r], keyCols), r, |keyCols|);
  }

  lemma InsertedTwice(rows: Entries, k: MultiKey, r: Id, n: nat)
    requires Keyed(rows, n) && |k| == n && r in MembersOf(rows)
    ensures !Unique(Inserted(rows, k, r)) && MembersOf(Inserted(rows, k, r)) == MembersOf(rows)
  {
    hide UpperBound, Keyed;
    var u, rows' := UpperBound(rows, k), Inserted(rows, k, r);
    assert rows'[u].1 == r;
    var i :| 0 <= i < |rows| && rows[i].1 == r;
    assert rows'[if i < u then i else i + 1].1 == r;
    forall j | 0 <= j < |rows'| ensures rows'[j].1 in MembersOf(rows) {
      if j != u { assert rows'[j] == rows[if j < u then j else j - 1]; }
    }
    forall j | 0 <= j < |rows| ensures rows[j].1 in MembersOf(rows') {
      assert rows'[if j < u then j else j + 1] == rows[j];
    }
  }

  lemma EraseInOrder(rows: Entries, cols: map<Id, seq<int>>, width: nat, keyCols: seq<nat>, j: nat)
    requires InOrder(rows, cols, width, keyCols) && j < |rows|
    ensures var rows' := Erased(rows, j);
            InOrder(rows', cols, width, keyCols) && MembersOf(rows') == MembersOf(rows) - {rows[j].1}
  {
    var rows' := Erased(rows, j);
    ErasedOk(rows, j, |keyCols|);
    ErasedHas(rows, j, rows[j].0, rows[j].1);
    forall i | 0 <= i < |rows'| ensures rows'[i] == rows[if i < j then i else i + 1] {
    }
    forall i | 0 <= i < |rows| && i != j ensures rows[i].1 in MembersOf(rows') {
      assert rows'[if i < j then i else i - 1] == rows[i];
    }
  }

  lemma MutateInOrder(rows: Entries, cols: map<Id, seq<int>>, width: nat, keyCols: seq<nat>, r: Id, c: nat, v: int)
    requires InOrder(rows, cols, width, keyCols) && r in cols && c < |cols[r]|
    requires r !in MembersOf(rows) || c !in keyCols || cols[r][c] == v
    ensures InOrder(rows, cols[r := cols[r][c := v]], width, keyCols)
  {
    var cols' := cols[r := cols[r][c := v]];
    forall i | 0 <= i < |rows| ensures rows[i].0 == Pick(cols'[rows[i].1], keyCols) {
      assert rows[i].1 in MembersOf(rows);
    }
  }

  lemma FoundUnderKey(rows: Entries, cols: map<Id, seq<int>>, width: nat, keyCols: seq<nat>, r: Id)
    requires InOrder(rows, cols, width, keyCols) && r in MembersOf(rows)
    ensures r in cols && |cols[r]| == width && Has(rows, Pick(cols[r], keyCols), r)
  {
    var i :| 0 <= i < |rows| && rows[i].1 == r;
    assert rows[i] == (Pick(cols[r], keyCols), r);
  }

  /** A sorted table; `cols` is the memory of its rows and of rows outside it. */
  class SortedTable {
    const width: nat
    const keyCols: seq<nat>
    var rows: Entries
    var cols: map<Id, seq<int>>

    ghost predicate Valid()
      reads this
    {
      InOrder(rows, cols, width, keyCols)
    }

    ghost function Members(): set<Id>
      reads this
    {
      MembersOf(rows)
    }

    constructor (width: nat, keyCols: seq<nat>, cols: map<Id, seq<int>>)
      requires forall j :: 0 <= j < |keyCols| ==> keyCols[j] < width
      ensures Valid() && Members() == {} && this.width == width && this.keyCols == keyCols && this.cols == cols
    {
      this.width, this.keyCols, this.cols, rows := width, keyCols, cols, [];
    }

    /** `SortedTable::insert`. */
    method Insert(r: Id)
      requires Valid() && r in cols && |cols[r]| == width && r !in Members()
      modifies this`rows
      ensures Valid() && Members() == old(Members()) + {r}
    {
      hide InOrder, MembersOf;
      InsertInOrder(rows, cols, width, keyCols, r);
      KeysOk(rows, cols, width, keyCols);
      rows := Inserted(rows, Pick(cols[r], keyCols), r);
    }

    /** `SortedTable::remove(row)`. */
    method Remove(r: Id)
      requires Valid() && r in Members()
      modifies this`rows
      ensures Valid() && Members() == old(Members()) - {r}
    {
      hide InOrder, MembersOf;
      FoundUnderKey(rows, cols, width, keyCols, r);
      KeysOk(rows, cols, width, keyCols);
      var found, j := Find(rows, Pick(cols[r], keyCols), r);
      EraseInOrder(rows, cols, width, keyCols, j);
      rows := Erased(rows, j);
    }

    /** `Row::update` of a row in the table: a key column is changed while the row is out. */
    method Update(r: Id, c: nat, v: int)
      requires Valid() && r in Members() && c < width
      modifies this
      ensures Valid() && Members() == old(Members())
      ensures r in old(cols) && |old(cols)[r]| == width && cols == old(cols)[r := old(cols)[r][c := v]]
    {
      hide InOrder, MembersOf;
      FoundUnderKey(rows, cols, width, keyCols, r);
      if cols[r][c] == v {
        assert cols[r] == cols[r][c := v];
        return;
      }
      if c in keyCols {
        Remove(r);
        MutateInOrder(rows, cols, width, keyCols, r, c, v);
        cols := cols[r := cols[r][c := v]];
        Insert(r);
      } else {
        MutateInOrder(rows, cols, width, keyCols, r, c, v);
        cols := cols[r := cols[r][c := v]];
      }
    }

    /** The rows a query enumerates. */
    method Query(q: Query) returns (out: seq<Id>)
      requires Valid() && q.Width(|keyCols|)
      ensures IsBag(out, Matching(Members(), cols, width, keyCols, q))
    {
      hide InOrder;
      KeysOk(rows, cols, width, keyCols);
      out := Walk(rows, q, |keyCols|);
      WalkIsMatching(rows, cols, width, keyCols, q, out);
    }
  }

  lemma KeysOk(rows: Entries, cols: map<Id, seq<int>>, width: nat, keyCols: seq<nat>)
    requires InOrder(rows, cols, width, keyCols)
    ensures Ok(rows, |keyCols|) && forall j :: 0 <= j < |keyCols| ==> keyCols[j] < width
  {
  }

  // ---- queries ----

  ghost predicate Matches(cols: map<Id, seq<int>>, width: nat, keyCols: seq<nat>, q: Query, r: Id) {
    && (forall j :: 0 <= j < |keyCols| ==> keyCols[j] < width) && q.Width(|keyCols|)
    && r in cols && |cols[r]| == width && q.Matches(Pick(cols[r], keyCols))
  }

  /** The rows of `rs` whose current key the query selects. */
  ghost function Matching(rs: set<Id>, cols: map<Id, seq<int>>, width: nat, keyCols: seq<nat>, q: Query): set<Id> {
    set r | r in rs && Matches(cols, width, keyCols, q, r)
  }

  /** Walk the stretch between the bounds of a query. */
  method Walk(m: Entries, q: Query, n: nat) returns (out: seq<Id>)
    requires Ok(m, n) && q.Width(n)
    ensures var lo, hi := Begin(m, q, n), End(m, q, n);
            |out| == (if lo <= hi then hi - lo else 0) && forall a :: 0 <= a < |out| ==> out[a] == m[lo + a].1
  {
    hide Begin, End;
    var j, hi := Begin(m, q, n), End(m, q, n);
    ghost var lo := j;
    out := [];
    while j < hi
      invariant lo <= j && (j <= hi || j == lo) && |out| == j - lo
      invariant forall a :: 0 <= a < |out| ==> out[a] == m[lo + a].1
    {
      out := out + [m[j].1];
      j := j + 1;
    }
  }

  lemma WalkIsMatching(rows: Entries, cols: map<Id, seq<int>>, width: nat, keyCols: seq<nat>, q: Query, out: seq<Id>)
    requires InOrder(rows, cols, width, keyCols) && q.Width(|keyCols|)
    requires var lo, hi := Begin(rows, q, |keyCols|), End(rows, q, |keyCols|);
             |out| == (if lo <= hi then hi - lo else 0) && forall a :: 0 <= a < |out| ==> out[a] == rows[lo + a].1
    ensures Distinct(out) && forall r :: r in out <==> r in Matching(MembersOf(rows), cols, width, keyCols, q)
    ensures IsBag(out, Matching(MembersOf(rows), cols, width, keyCols, q))
  {
    hide Begin, End, Matching;
    forall r: Id ensures r in out <==> r in Matching(MembersOf(rows), cols, width, keyCols, q) {
      WalkHas(rows, cols, width, keyCols, q, out, r);
    }
    forall r: Id ensures multiset(out)[r] == if r in out then 1 else 0 {
      CountDistinct(out, r);
    }
  }

  lemma WalkHas(rows: Entries, cols: map<Id, seq<int>>, width: nat, keyCols: seq<nat>, q: Query, out: seq<Id>, r: Id)
    requires InOrder(rows, cols, width, keyCols) && q.Width(|keyCols|)
    requires var lo, hi := Begin(rows, q, |keyCols|), End(rows, q, |keyCols|);
             |out| == (if lo <= hi then hi - lo else 0) && forall a :: 0 <= a < |out| ==> out[a] == rows[lo + a].1
    ensures r in out <==> r in Matching(MembersOf(rows), cols, width, keyCols, q)
  {
    hide Begin, End;
    var lo, n := Begin(rows, q, |keyCols|), |keyCols|;
    if r in out {
      var a :| 0 <= a < |out| && out[a] == r;
      QueryIsExact(rows, q, n, lo + a);
    }
    if r in Matching(MembersOf(rows), cols, width, keyCols, q) {
      var i :| 0 <= i < |rows| && rows[i].1 == r;
      QueryIsExact(rows, q, n, i);
      assert out[i - lo] == r;
    }
  }

  lemma {:induction false} CountDistinct(s: seq<Id>, r: Id)
    requires Distinct(s)
    ensures multiset(s)[r] == if r in s then 1 else 0
  {
    if s != [] {
      var n := |s| - 1;
      assert s == s[..n] + [s[n]];
      CountDistinct(s[..n], r);
      assert s[n] !in s[..n];
    }
  }

  // ---- staged updates ----

  /** The columns with the staged values in place. */
  ghost function Updated(cols: map<Id, seq<int>>, u: map<Cell, int>): map<Id, seq<int>> {
    map r | r in cols :: UpdatedRow(cols[r], r, u)
  }

  ghost function UpdatedRow(s: seq<int>, r: Id, u: map<Cell, int>): seq<int> {
    seq(|s|, i requires 0 <= i < |s| => if Cell(r, i) in u then u[Cell(r, i)] else s[i])
  }

  lemma NothingUpdated(cols: map<Id, seq<int>>)
    ensures Updated(cols, map[]) == cols
  {
    forall r | r in cols ensures UpdatedRow(cols[r], r, map[]) == cols[r] {
    }
  }

  lemma UpdateOne(cols: map<Id, seq<int>>, u: map<Cell, int>, r: Id, c: nat, v: int)
    requires r in cols && c < |cols[r]|
    ensures var s := Updated(cols, u);
            r in s && c < |s[r]| && Updated(cols, u[Cell(r, c) := v]) == s[r := s[r][c := v]]
  {
    var s, s' := Updated(cols, u), Updated(cols, u[Cell(r, c) := v]);
    forall x | x in cols ensures s'[x] == s[r := s[r][c := v]][x] {
      if x != r {
        assert UpdatedRow(cols[x], x, u[Cell(r, c) := v]) == UpdatedRow(cols[x], x, u);
      } else {
        assert UpdatedRow(cols[r], r, u[Cell(r, c) := v]) == UpdatedRow(cols[r], r, u)[c := v];
      }
    }
  }

  // ---- the transaction ----

  /** What a transaction has staged for one table; `inserts` is in key order. */
  class StagedTxn {
    const tbl: SortedTable
    var updates: map<Cell, int>
    var inserts: Entries
    var removes: set<Id>

    constructor (tbl: SortedTable)
      requires tbl.Valid()
      ensures Valid() && this.tbl == tbl && updates == map[] && inserts == [] && removes == {}
    {
      this.tbl := tbl;
      updates, inserts, removes := map[], [], {};
    }

    /** Rows are staged for insertion while in no table, for removal and update while in the table. */
    ghost predicate Valid()
      reads this, tbl
    {
      && tbl.Valid() && InOrder(inserts, tbl.cols, tbl.width, tbl.keyCols)
      && MembersOf(inserts) !! tbl.Members() && removes <= tbl.Members()
      && (forall c :: c in updates ==> c.row in tbl.Members() && c.row !in removes && c.col < tbl.width)
    }

    /** The rows there will be after the commit. */
    ghost function Survivors(): set<Id>
      reads this, tbl
    {
      tbl.Members() + MembersOf(inserts) - removes
    }

    method WriteColumn(r: Id, c: nat, v: int)
      requires Valid() && r in tbl.Members() && r !in removes && c < tbl.width
      modifies this`updates
      ensures Valid() && updates == old(updates)[Cell(r, c) := v]
    {
      updates := updates[Cell(r, c) := v];
    }

    /** `insert_row`; a row staged twice makes the commit stop at the check of `set_table`. */
    method InsertRow(r: Id)
      requires Valid() && r in tbl.cols && |tbl.cols[r]| == tbl.width && r !in tbl.Members()
      modifies this`inserts
      ensures MembersOf(inserts) == old(MembersOf(inserts)) + {r} && |inserts| == |old(inserts)| + 1
      ensures Valid() <==> r !in old(MembersOf(inserts))
    {
      hide InOrder, MembersOf;
      KeysOk(inserts, tbl.cols, tbl.width, tbl.keyCols);
      if r in MembersOf(inserts) {
        InsertTwice(inserts, tbl.cols, tbl.width, tbl.keyCols, r);
      } else {
        InsertInOrder(inserts, tbl.cols, tbl.width, tbl.keyCols, r);
      }
      inserts := Inserted(inserts, Pick(tbl.cols[r], tbl.keyCols), r);
    }

    /** `remove_row`: sweep the staged rows with the same key for exactly this one. */
    method RemoveRow(r: Id)
      requires Valid() && r !in removes && (r in tbl.Members() || r in MembersOf(inserts))
      modifies this`inserts, this`removes, this`updates
      ensures Valid() && Survivors() == old(Survivors()) - {r}
    {
      hide InOrder, MembersOf;
      RowOf(this, r);
      KeysOk(inserts, tbl.cols, tbl.width, tbl.keyCols);
      var found, j := Find(inserts, Pick(tbl.cols[r], tbl.keyCols), r);
      SweepFinds(inserts, tbl.cols, tbl.width, tbl.keyCols, r);
      if found {
        EraseInOrder(inserts, tbl.cols, tbl.width, tbl.keyCols, j);
        inserts := Erased(inserts, j);
      } else {
        removes := removes + {r};
      }
      updates := map c | c in updates && c.row != r :: updates[c];
    }

    /** `do_query` and its relatives: the merged cursor. */
    method Query(q: Query) returns (out: seq<Id>)
      requires Valid() && q.Width(|tbl.keyCols|)
      ensures IsBag(out, Matching(Survivors(), tbl.cols, tbl.width, tbl.keyCols, q))
    {
      hide InOrder, MembersOf, Matching;
      var tq := tbl.Query(q);
      KeysOk(inserts, tbl.cols, tbl.width, tbl.keyCols);
      var iq := Walk(inserts, q, |tbl.keyCols|);
      WalkIsMatching(inserts, tbl.cols, tbl.width, tbl.keyCols, q, iq);
      out := MergedCursor.Drain(tq, iq, removes);
      MergedBag(this, q, tq, iq, out);
    }

    /** `Txn2PL::commit`: inserts, then updates, then removes. */
    method Commit()
      requires Valid()
      modifies tbl
      ensures tbl.Valid() && tbl.Members() == old(Survivors()) && tbl.cols == Updated(old(tbl.cols), updates)
    {
      hide InOrder, MembersOf, Updated, Multimap.Unique;
      ghost var members := tbl.Members();
      InsertAll();
      UpdateAll(members);
      RemoveAll();
      assert members + MembersOf(inserts) - removes == old(Survivors());
    }

    method InsertAll()
      requires Valid()
      modifies tbl`rows
      ensures tbl.Valid() && tbl.Members() == old(tbl.Members()) + MembersOf(inserts)
    {
      hide InOrder, MembersOf;
      NoMembers();
      var i := 0;
      while i < |inserts|
        invariant 0 <= i <= |inserts| && tbl.Valid() && tbl.Members() == old(tbl.Members()) + MembersOf(inserts[..i])
      {
        NextInsert(inserts, tbl.cols, tbl.width, tbl.keyCols, i);
        tbl.Insert(inserts[i].1);
        i := i + 1;
      }
      assert inserts[..i] == inserts;
    }

    method UpdateAll(ghost members: set<Id>)
      requires tbl.Valid() && members <= tbl.Members()
      requires forall c :: c in updates ==> c.row in members && c.col < tbl.width
      modifies tbl
      ensures tbl.Valid() && tbl.Members() == old(tbl.Members()) && tbl.cols == Updated(old(tbl.cols), updates)
    {
      hide InOrder, MembersOf, Updated;
      ghost var cols := tbl.cols;
      var todo, done := updates.Keys, map[];
      NothingUpdated(cols);
      while todo != {}
        invariant todo <= updates.Keys && done == map c | c in updates && c !in todo :: updates[c]
        invariant tbl.Valid() && tbl.Members() == old(tbl.Members()) && tbl.cols == Updated(cols, done)
      {
        var c :| c in todo;
        UpdatedShape(cols, done, c.row);
        FoundUnderKey(tbl.rows, tbl.cols, tbl.width, tbl.keyCols, c.row);
        UpdateOne(cols, done, c.row, c.col, updates[c]);
        tbl.Update(c.row, c.col, updates[c]);
        todo := todo - {c};
        done := done[c := updates[c]];
      }
      assert done == updates;
    }

    method RemoveAll()
      requires tbl.Valid() && removes <= tbl.Members()
      modifies tbl`rows
      ensures tbl.Valid() && tbl.Members() == old(tbl.Members()) - removes
    {
      hide InOrder, MembersOf;
      var todo := removes;
      while todo != {}
        invariant todo <= removes && tbl.Valid() && tbl.Members() == old(tbl.Members()) - (removes - todo)
      {
        var r :| r in todo;
        tbl.Remove(r);
        todo := todo - {r};
      }
    }
  }

  lemma NoMembers()
    ensures MembersOf([]) == {}
  {
  }

  lemma UpdatedShape(cols: map<Id, seq<int>>, u: map<Cell, int>, r: Id)
    ensures r in Updated(cols, u) <==> r in cols
    ensures r in cols ==> |Updated(cols, u)[r]| == |cols[r]|
  {
  }

  lemma NextInsert(rows: Entries, cols: map<Id, seq<int>>, width: nat, keyCols: seq<nat>, i: nat)
    requires InOrder(rows, cols, width, keyCols) && i < |rows|
    ensures rows[i].1 in cols && |cols[rows[i].1]| == width && rows[i].1 !in MembersOf(rows[..i])
    ensures MembersOf(rows[..i + 1]) == MembersOf(rows[..i]) + {rows[i].1} && rows[i].1 in MembersOf(rows)
  {
    assert rows[..i + 1] == rows[..i] + [rows[i]];
    forall j | 0 <= j < i ensures rows[j].1 in MembersOf(rows[..i + 1]) {
      assert rows[..i + 1][j] == rows[j];
    }
    assert rows[..i + 1][i] == rows[i];
  }

  lemma RowOf(x: StagedTxn, r: Id)
    requires x.Valid() && (r in x.tbl.Members() || r in MembersOf(x.inserts))
    ensures r in x.tbl.cols && |x.tbl.cols[r]| == x.tbl.width
  {
  }

  lemma SweepFinds(rows: Entries, cols: map<Id, seq<int>>, width: nat, keyCols: seq<nat>, r: Id)
    requires InOrder(rows, cols, width, keyCols) && r in cols && |cols[r]| == width
    ensures Has(rows, Pick(cols[r], keyCols), r) <==> r in MembersOf(rows)
  {
    if r in MembersOf(rows) { FoundUnderKey(rows, cols, width, keyCols, r); }
  }

  /** `out` lists `rs`, each once. */
  ghost predicate IsBag(out: seq<Id>, rs: set<Id>) {
    forall r: Id :: multiset(out)[r] == if r in rs then 1 else 0
  }

  lemma MergedBag(x: StagedTxn, q: Query, tq: seq<Id>, iq: seq<Id>, out: seq<Id>)
    requires x.Valid() && multiset(out) == multiset(MergedCursor.Kept(tq, x.removes)) + multiset(iq)
    requires IsBag(tq, Matching(x.tbl.Members(), x.tbl.cols, x.tbl.width, x.tbl.keyCols, q))
    requires IsBag(iq, Matching(MembersOf(x.inserts), x.tbl.cols, x.tbl.width, x.tbl.keyCols, q))
    ensures IsBag(out, Matching(x.Survivors(), x.tbl.cols, x.tbl.width, x.tbl.keyCols, q))
  {
    hide InOrder, MembersOf, Matches;
    forall r: Id
      ensures multiset(out)[r] ==
              if r in Matching(x.Survivors(), x.tbl.cols, x.tbl.width, x.tbl.keyCols, q) then 1 else 0
    {
      MergedCursor.KeptCounts(tq, x.removes, r);
    }
  }

  // ---- the same query before and after the commit ----

  /** No staged update changes a key column of a row of `rs`. */
  ghost predicate KeysKept(rs: set<Id>, cols: map<Id, seq<int>>, u: map<Cell, int>, keyCols: seq<nat>) {
    forall c :: c in u && c.row in rs && c.col in keyCols && c.row in cols && c.col < |cols[c.row]| ==>
                  u[c] == cols[c.row][c.col]
  }

  lemma KeyKept(rs: set<Id>, cols: map<Id, seq<int>>, u: map<Cell, int>, width: nat, keyCols: seq<nat>, r: Id)
    requires (forall j :: 0 <= j < |keyCols| ==> keyCols[j] < width) && r in rs && r in cols && |cols[r]| == width
    requires KeysKept(rs, cols, u, keyCols)
    ensures Pick(Updated(cols, u)[r], keyCols) == Pick(cols[r], keyCols)
  {
    forall j | 0 <= j < |keyCols| ensures Updated(cols, u)[r][keyCols[j]] == cols[r][keyCols[j]] {
      assert keyCols[j] in keyCols;
      var c := Cell(r, keyCols[j]);
      assert c in u ==> u[c] == cols[c.row][c.col];
    }
  }

  lemma KeyChanged(cols: map<Id, seq<int>>, u: map<Cell, int>, width: nat, keyCols: seq<nat>, c: Cell)
    requires forall j :: 0 <= j < |keyCols| ==> keyCols[j] < width
    requires c in u && c.col in keyCols && c.row in cols && |cols[c.row]| == width && u[c] != cols[c.row][c.col]
    ensures Pick(Updated(cols, u)[c.row], keyCols) != Pick(cols[c.row], keyCols)
  {
    var j :| 0 <= j < |keyCols| && keyCols[j] == c.col;
    assert c == Cell(c.row, c.col);
    assert Pick(Updated(cols, u)[c.row], keyCols)[j] == u[c];
    assert Pick(cols[c.row], keyCols)[j] == cols[c.row][c.col];
  }

  ghost predicate AllRows(rs: set<Id>, cols: map<Id, seq<int>>, width: nat, keyCols: seq<nat>) {
    && (forall j :: 0 <= j < |keyCols| ==> keyCols[j] < width)
    && forall r :: r in rs ==> r in cols && |cols[r]| == width
  }

  lemma KeptQuery(rs: set<Id>, cols: map<Id, seq<int>>, u: map<Cell, int>, width: nat, keyCols: seq<nat>, q: Query)
    requires AllRows(rs, cols, width, keyCols) && KeysKept(rs, cols, u, keyCols)
    ensures Matching(rs, Updated(cols, u), width, keyCols, q) == Matching(rs, cols, width, keyCols, q)
  {
    hide KeysKept, Updated;
    forall r | r in rs
      ensures Matches(Updated(cols, u), width, keyCols, q, r) <==> Matches(cols, width, keyCols, q, r)
    {
      KeyKept(rs, cols, u, width, keyCols, r);
      UpdatedShape(cols, u, r);
    }
  }

  /** Every query selects the same survivors before and after the updates, if and only if no key column changes. */
  lemma QueriesAgreeIff(rs: set<Id>, cols: map<Id, seq<int>>, u: map<Cell, int>, width: nat, keyCols: seq<nat>)
    requires AllRows(rs, cols, width, keyCols)
    ensures (forall q: Query :: q.Width(|keyCols|) ==>
               Matching(rs, Updated(cols, u), width, keyCols, q) == Matching(rs, cols, width, keyCols, q))
            <==> KeysKept(rs, cols, u, keyCols)
  {
    hide Updated;
    if KeysKept(rs, cols, u, keyCols) {
      forall q: Query | q.Width(|keyCols|)
        ensures Matching(rs, Updated(cols, u), width, keyCols, q) == Matching(rs, cols, width, keyCols, q)
      {
        KeptQuery(rs, cols, u, width, keyCols, q);
      }
    } else {
      var c :| c in u && c.row in rs && c.col in keyCols && c.row in cols && c.col < |cols[c.row]| &&
               u[c] != cols[c.row][c.col];
      MovedRow(rs, cols, u, width, keyCols, c);
      var q := Equal(Pick(cols[c.row], keyCols));
      assert q.Width(|keyCols|);
    }
  }

  lemma MovedRow(rs: set<Id>, cols: map<Id, seq<int>>, u: map<Cell, int>, width: nat, keyCols: seq<nat>, c: Cell)
    requires AllRows(rs, cols, width, keyCols)
    requires c in u && c.row in rs && c.col in keyCols && u[c] != cols[c.row][c.col]
    ensures var q := Equal(Pick(cols[c.row], keyCols));
            Matching(rs, Updated(cols, u), width, keyCols, q) != Matching(rs, cols, width, keyCols, q)
  {
    hide Updated;
    KeyChanged(cols, u, width, keyCols, c);
    UpdatedShape(cols, u, c.row);
    var q := Equal(Pick(cols[c.row], keyCols));
    assert c.row in Matching(rs, cols, width, keyCols, q);
    assert c.row !in Matching(rs, Updated(cols, u), width, keyCols, q);
  }

  lemma SurvivorsAreRows(x: StagedTxn)
    requires x.Valid()
    ensures AllRows(x.Survivors(), x.tbl.cols, x.tbl.width, x.tbl.keyCols)
  {
  }

  /**
    The query through the transaction, the commit, and the query again: the same bag of rows exactly
    when the query selects the same survivors under old and new columns, so always when no key changes.
   */
  method BeforeAndAfter(x: StagedTxn, q: Query) returns (before: seq<Id>, after: seq<Id>)
    requires x.Valid() && q.Width(|x.tbl.keyCols|)
    modifies x.tbl
    ensures multiset(before) == multiset(after) <==>
            Matching(old(x.Survivors()), Updated(old(x.tbl.cols), x.updates), x.tbl.width, x.tbl.keyCols, q) ==
            Matching(old(x.Survivors()), old(x.tbl.cols), x.tbl.width, x.tbl.keyCols, q)
    ensures KeysKept(old(x.Survivors()), old(x.tbl.cols), x.updates, x.tbl.keyCols) ==>
              multiset(before) == multiset(after)
  {
    hide InOrder, MembersOf, Updated, KeysKept, Matching, IsBag;
    ghost var rs, cols := x.Survivors(), x.tbl.cols;
    SurvivorsAreRows(x);
    if KeysKept(rs, cols, x.updates, x.tbl.keyCols) {
      KeptQuery(rs, cols, x.updates, x.tbl.width, x.tbl.keyCols, q);
    }
    before := x.Query(q);
    x.Commit();
    after := x.tbl.Query(q);
    SameBags(before, after, Matching(rs, cols, x.tbl.width, x.tbl.keyCols, q),
             Matching(rs, x.tbl.cols, x.tbl.width, x.tbl.keyCols, q));
  }

  lemma SameBags(a: seq<Id>, b: seq<Id>, s: set<Id>, t: set<Id>)
    requires IsBag(a, s) && IsBag(b, t)
    ensures multiset(a) == multiset(b) <==> t == s
  {
    if multiset(a) == multiset(b) {
      forall r: Id ensures r in s <==> r in t {
        assert multiset(a)[r] == multiset(b)[r];
      }
    }
  }

  /** A staged update of a key column: the transaction still finds the row under its old key, the table after
      commit does not. */
  method KeyUpdateFails() returns (before: seq<Id>, after: seq<Id>)
    ensures 5 in before && 5 !in after
  {
    hide InOrder, MembersOf, Matching, Updated, IsBag;
    var tbl := new SortedTable(1, [0], map[5 := [1]]);
    tbl.Insert(5);
    var x := new StagedTxn(tbl);
    x.WriteColumn(5, 0, 2);
    NoMembers();
    ghost var rs := x.Survivors();
    FiveMoves(rs);
    before := x.Query(Equal([1]));
    x.Commit();
    after := tbl.Query(Equal([1]));
    InBag(before, Matching(rs, map[5 := [1]], 1, [0], Equal([1])), 5);
    InBag(after, Matching(rs, map[5 := [2]], 1, [0], Equal([1])), 5);
  }

  lemma FiveMoves(rs: set<Id>)
    requires 5 in rs
    ensures Updated(map[5 := [1]], map[Cell(5, 0) := 2]) == map[5 := [2]]
    ensures 5 in Matching(rs, map[5 := [1]], 1, [0], Equal([1]))
    ensures 5 !in Matching(rs, map[5 := [2]], 1, [0], Equal([1]))
  {
    assert UpdatedRow([1], 5, map[Cell(5, 0) := 2]) == [2];
    assert Pick([1], [0]) == [1];
    assert Pick([2], [0])[0] == 2;
  }

  lemma InBag(s: seq<Id>, rs: set<Id>, r: Id)
    requires IsBag(s, rs)
    ensures r in s <==> r in rs
  {
    assert r in s <==> multiset(s)[r] > 0;
  }
}
