/**
  Queries inside a nested transaction: a merged cursor over the base's merged cursor. Rows are
  selected by the key columns in their memory; what is compared with direct execution is the bag
  of rows a query returns.
 */
module NestedQuery {
  import opened NestedTxn
  import Multimap
  import MergedCursor

  /** A cell never written holds 0. */
  function At(mem: map<Cell, Val>, c: Cell): Val {
    if c in mem then mem[c] else 0
  }

  function KeyOf(mem: map<Cell, Val>, keyCols: seq<nat>, r: Row): (k: seq<Val>)
    ensures |k| == |keyCols|
  {
    seq(|keyCols|, j requires 0 <= j < |keyCols| => At(mem, Cell(r, keyCols[j])))
  }

  predicate Hits(mem: map<Cell, Val>, keyCols: seq<nat>, q: Multimap.Query, r: Row)
    requires q.Width(|keyCols|)
  {
    q.Matches(KeyOf(mem, keyCols, r))
  }

  /** How often a query through the base returns `r`: rows of the table not removed, and staged copies. */
  function Count(b: Base, keyCols: seq<nat>, q: Multimap.Query, r: Row): nat
    requires q.Width(|keyCols|)
  {
    if !Hits(b.mem, keyCols, q, r) then 0
    else (if r in b.tabled && r !in b.st.removes then 1 else 0) + b.st.inserts[r]
  }

  /** How often a query inside returns it: what the base returns, less what was removed, and own copies. */
  function NestedCount(b: Base, n: Nested, keyCols: seq<nat>, q: Multimap.Query, r: Row): nat
    requires q.Width(|keyCols|)
  {
    (if r in n.st.removes then 0 else Count(b, keyCols, q, r)) +
    if Hits(b.mem, keyCols, q, r) then n.st.inserts[r] else 0
  }

  // ---- the cursors ----

  /** The rows of a bag a query selects; the order is not modelled. */
  method Selected(rows: multiset<Row>, mem: map<Cell, Val>, keyCols: seq<nat>, q: Multimap.Query)
    returns (out: seq<Row>)
    requires q.Width(|keyCols|)
    ensures forall r: Row :: multiset(out)[r] == if Hits(mem, keyCols, q, r) then rows[r] else 0
  {
    hide Hits;
    var todo := rows;
    out := [];
    while todo != multiset{}
      invariant todo <= rows
      invariant forall r: Row :: multiset(out)[r] == if Hits(mem, keyCols, q, r) then rows[r] - todo[r] else 0
      decreases |todo|
    {
      var r :| r in todo;
      todo := todo - multiset{r};
      if Hits(mem, keyCols, q, r) {
        out := out + [r];
      }
    }
  }

  /** `Txn2PL::query` and its relatives. */
  method QueryBase(x: Txn2PL, keyCols: seq<nat>, q: Multimap.Query) returns (out: seq<Row>)
    requires q.Width(|keyCols|)
    ensures forall r: Row :: multiset(out)[r] == Count(x.Value(), keyCols, q, r)
  {
    hide Hits;
    var tq := Selected(multiset(x.mem.tabled), x.mem.cells, keyCols, q);
    var iq := Selected(x.inserts, x.mem.cells, keyCols, q);
    out := MergedCursor.Drain(tq, iq, x.removes);
    forall r: Row ensures multiset(out)[r] == Count(x.Value(), keyCols, q, r) {
      MergedCursor.KeptCounts(tq, x.removes, r);
    }
  }

  /** `TxnNested::query` and its relatives. */
  method QueryInside(x: TxnNested, keyCols: seq<nat>, q: Multimap.Query) returns (out: seq<Row>)
    requires q.Width(|keyCols|)
    ensures forall r: Row :: multiset(out)[r] == NestedCount(x.base.Value(), x.Value(), keyCols, q, r)
  {
    hide Hits, Count;
    var bq := QueryBase(x.base, keyCols, q);
    var iq := Selected(x.inserts, x.base.mem.cells, keyCols, q);
    out := MergedCursor.Drain(bq, iq, x.removes);
    forall r: Row ensures multiset(out)[r] == NestedCount(x.base.Value(), x.Value(), keyCols, q, r) {
      MergedCursor.KeptCounts(bq, x.removes, r);
    }
  }

  // ---- against direct execution ----

  /** Every query returns the same bag as after direct execution. */
  ghost predicate SameAnswers(d: Base, b: Base, n: Nested, keyCols: seq<nat>) {
    forall q: Multimap.Query, r: Row :: q.Width(|keyCols|) ==>
      NestedCount(b, n, keyCols, q, r) == Count(d, keyCols, q, r)
  }

  /** The last values written to rows outside tables. */
  function Written(w: map<Cell, Val>, tabled: set<Row>, op: Op): map<Cell, Val> {
    if op.Write? && op.c.row !in tabled then w[op.c := op.v] else w
  }

  /** Direct execution has put them in place; the rest of the memory is the same. */
  ghost predicate Tracks(d: Base, b: Base, w: map<Cell, Val>) {
    && (forall c :: c in w ==> c.row !in b.tabled)
    && forall c: Cell :: At(d.mem, c) == if c in w then w[c] else At(b.mem, c)
  }

  ghost predicate Staged(b: Base, n: Nested, r: Row) {
    r !in n.st.removes && (r in b.st.inserts || r in n.st.inserts)
  }

  /** A row removed inside was staged at most once by the base, and the key last written to a staged row is in
      its memory. */
  ghost predicate Shown(b: Base, n: Nested, w: map<Cell, Val>, keyCols: seq<nat>) {
    && (forall r :: r in n.st.removes ==> b.st.inserts[r] <= 1)
    && forall c :: c in w && c.col in keyCols && Staged(b, n, c.row) ==> At(b.mem, c) == w[c]
  }

  lemma RemovedCount(d: Base, b: Base, n: Nested, keyCols: seq<nat>, q: Multimap.Query, r: Row)
    requires b.Valid() && n.Valid(b) && SameStage(d, b, n) && q.Width(|keyCols|) && r in n.st.removes
    ensures NestedCount(b, n, keyCols, q, r) == 0
    ensures Count(d, keyCols, q, r) ==
            if Hits(d.mem, keyCols, q, r) && b.st.inserts[r] > 1 then b.st.inserts[r] - 1 else 0
  {
    hide Hits, FlushMem, FlushUpdates;
    assert n.st.inserts[r] == 0;
    assert d.st.inserts == b.st.inserts + n.st.inserts - multiset(n.st.removes);
    assert r in b.tabled ==> r in d.st.removes;
  }

  /** What a query that selects the row returns: table row or staged copies. */
  ghost function Copies(b: Base, n: Nested, r: Row): nat {
    (if r in b.tabled && r !in b.st.removes then 1 else 0) + b.st.inserts[r] + n.st.inserts[r]
  }

  lemma KeptCount(d: Base, b: Base, n: Nested, keyCols: seq<nat>, q: Multimap.Query, r: Row)
    requires b.Valid() && n.Valid(b) && SameStage(d, b, n) && q.Width(|keyCols|) && r !in n.st.removes
    ensures NestedCount(b, n, keyCols, q, r) == if Hits(b.mem, keyCols, q, r) then Copies(b, n, r) else 0
    ensures Count(d, keyCols, q, r) == if Hits(d.mem, keyCols, q, r) then Copies(b, n, r) else 0
  {
    hide Hits, FlushMem, FlushUpdates;
    assert d.st.inserts == b.st.inserts + n.st.inserts - multiset(n.st.removes);
    assert r in b.tabled ==> (r in d.st.removes <==> r in b.st.removes);
  }

  lemma SameKey(d: Base, b: Base, n: Nested, w: map<Cell, Val>, keyCols: seq<nat>, r: Row)
    requires Tracks(d, b, w) && (r in b.tabled || (Staged(b, n, r) && Shown(b, n, w, keyCols)))
    ensures KeyOf(d.mem, keyCols, r) == KeyOf(b.mem, keyCols, r)
  {
    forall j | 0 <= j < |keyCols| ensures At(d.mem, Cell(r, keyCols[j])) == At(b.mem, Cell(r, keyCols[j])) {
      assert Cell(r, keyCols[j]).col in keyCols;
    }
  }

  lemma ShownAnswers(d: Base, b: Base, n: Nested, w: map<Cell, Val>, keyCols: seq<nat>)
    requires b.Valid() && n.Valid(b) && SameStage(d, b, n) && Tracks(d, b, w) && Shown(b, n, w, keyCols)
    ensures SameAnswers(d, b, n, keyCols)
  {
    hide SameStage, Tracks, Base.Valid, Nested.Valid;
    forall q: Multimap.Query, r: Row | q.Width(|keyCols|)
      ensures NestedCount(b, n, keyCols, q, r) == Count(d, keyCols, q, r)
    {
      hide NestedCount, Count;
      if r in n.st.removes {
        RemovedCount(d, b, n, keyCols, q, r);
      } else {
        KeptCount(d, b, n, keyCols, q, r);
        if Copies(b, n, r) > 0 { SameKey(d, b, n, w, keyCols, r); }
      }
    }
  }

  lemma HiddenCopy(d: Base, b: Base, n: Nested, keyCols: seq<nat>, r: Row)
    requires b.Valid() && n.Valid(b) && SameStage(d, b, n) && r in n.st.removes && b.st.inserts[r] > 1
    ensures !SameAnswers(d, b, n, keyCols)
  {
    hide SameStage, Base.Valid, Nested.Valid;
    var q := Multimap.Query.All;
    assert q.Width(|keyCols|);
    RemovedCount(d, b, n, keyCols, q, r);
  }

  lemma OldKey(d: Base, b: Base, n: Nested, w: map<Cell, Val>, keyCols: seq<nat>, c: Cell)
    requires b.Valid() && n.Valid(b) && SameStage(d, b, n) && Tracks(d, b, w)
    requires c in w && c.col in keyCols && Staged(b, n, c.row) && At(b.mem, c) != w[c]
    ensures !SameAnswers(d, b, n, keyCols)
  {
    hide SameStage, Base.Valid, Nested.Valid;
    var k := KeyOf(b.mem, keyCols, c.row);
    var q := Multimap.Equal(k);
    var j :| 0 <= j < |keyCols| && keyCols[j] == c.col;
    assert Cell(c.row, keyCols[j]) == c;
    assert k[j] != KeyOf(d.mem, keyCols, c.row)[j];
    assert q.Width(|keyCols|);
    KeptCount(d, b, n, keyCols, q, c.row);
  }

  /** Where the same is staged, every query agrees exactly when ... */
  lemma AnswersIff(d: Base, b: Base, n: Nested, w: map<Cell, Val>, keyCols: seq<nat>)
    requires b.Valid() && n.Valid(b) && SameStage(d, b, n) && Tracks(d, b, w)
    ensures SameAnswers(d, b, n, keyCols) <==> Shown(b, n, w, keyCols)
  {
    hide SameStage, Tracks, Base.Valid, Nested.Valid, SameAnswers, Staged;
    if Shown(b, n, w, keyCols) {
      ShownAnswers(d, b, n, w, keyCols);
    } else if r :| r in n.st.removes && b.st.inserts[r] > 1 {
      HiddenCopy(d, b, n, keyCols, r);
    } else {
      var c :| c in w && c.col in keyCols && Staged(b, n, c.row) && At(b.mem, c) != w[c];
      OldKey(d, b, n, w, keyCols, c);
    }
  }

  /** A row removed and inserted again is shown once too often. */
  lemma ReinsertedShows(d: Base, b: Base, n: Nested, keyCols: seq<nat>, r: Row)
    requires b.Valid() && n.Valid(b) && SameStage(d, b, n) && r in n.st.removes && r !in b.tabled
    ensures !SameAnswers(d.Insert(r), b, Step(b, n, Insert(r)).1, keyCols)
  {
    hide FlushMem, FlushUpdates;
    var q, n' := Multimap.Query.All, Step(b, n, Insert(r)).1;
    assert q.Width(|keyCols|);
    assert n.st.inserts[r] == 0 && b.st.inserts[r] > 0;
    assert d.st.inserts == b.st.inserts + n.st.inserts - multiset(n.st.removes);
    assert NestedCount(b, n', keyCols, q, r) == b.st.inserts[r] + 1;
    assert Count(d.Insert(r), keyCols, q, r) == b.st.inserts[r];
  }

  lemma StepTracks(d: Base, b: Base, n: Nested, w: map<Cell, Val>, op: Op)
    requires n.Valid(b) && d.tabled == b.tabled && Tracks(d, b, w)
    ensures Tracks(Direct(d, op), Step(b, n, op).0, Written(w, b.tabled, op))
  {
  }

  // ---- runs ----

  /** At every point of the run every query inside returns the bag direct execution would. */
  ghost predicate AnswersThroughout(d: Base, b: Base, n: Nested, keyCols: seq<nat>, ops: seq<Op>)
    decreases |ops|
  {
    && SameAnswers(d, b, n, keyCols)
    && (ops == [] ||
        var (b', n') := Step(b, n, ops[0]); AnswersThroughout(Direct(d, ops[0]), b', n', keyCols, ops[1..]))
  }

  ghost predicate AllShown(b: Base, n: Nested, w: map<Cell, Val>, keyCols: seq<nat>, ops: seq<Op>)
    decreases |ops|
  {
    && Shown(b, n, w, keyCols)
    && (ops == [] ||
        (StageCond(n, ops[0]) &&
         var (b', n') := Step(b, n, ops[0]);
         AllShown(b', n', Written(w, b.tabled, ops[0]), keyCols, ops[1..])))
  }

  lemma {:induction false} RunAnswersIff(
    d: Base, b: Base, n: Nested, w: map<Cell, Val>, keyCols: seq<nat>, ops: seq<Op>)
    requires b.Valid() && n.Valid(b) && SameStage(d, b, n) && Tracks(d, b, w) && AllAllowed(b, n, ops)
    ensures AnswersThroughout(d, b, n, keyCols, ops) <==> AllShown(b, n, w, keyCols, ops)
    decreases |ops|
  {
    hide SameStage, Tracks, Base.Valid, Nested.Valid, SameAnswers, Shown, StageCond, Step, Direct, Written, ReadCond;
    hide MemoryCond, SameReads, SameMemory;
    AnswersIff(d, b, n, w, keyCols);
    if ops != [] {
      var op := ops[0];
      var (b1, n1) := Step(b, n, op);
      StepValid(b, n, op);
      StepAgreesIff(Staging, d, b, n, op);
      SameTables(d, b, n);
      StepTracks(d, b, n, w, op);
      if StageCond(n, op) {
        RunAnswersIff(Direct(d, op), b1, n1, Written(w, b.tabled, op), keyCols, ops[1..]);
      } else {
        ReinsertStep(d, b, n, keyCols, op);
      }
    }
  }

  lemma SameTables(d: Base, b: Base, n: Nested)
    requires SameStage(d, b, n)
    ensures d.tabled == b.tabled
  {
  }

  lemma ReinsertStep(d: Base, b: Base, n: Nested, keyCols: seq<nat>, op: Op)
    requires b.Valid() && n.Valid(b) && SameStage(d, b, n) && Allowed(b, n, op) && !StageCond(n, op)
    ensures var (b', n') := Step(b, n, op); !SameAnswers(Direct(d, op), b', n', keyCols)
  {
    hide SameStage, Base.Valid, Nested.Valid, SameAnswers;
    ReinsertedShows(d, b, n, keyCols, op.r);
  }

  /**
    Over any run the code allows: every query inside, at every point, returns the bag of rows direct
    execution would, if and only if no row removed inside is inserted again or was staged more than
    once by the base, and the key last written to a staged row is in its memory, not staged apart.
   */
  lemma QueriesAreDirectIff(b: Base, keyCols: seq<nat>, ops: seq<Op>)
    requires b.Valid() && AllAllowed(b, FRESH, ops)
    ensures AnswersThroughout(b, b, FRESH, keyCols, ops) <==> AllShown(b, FRESH, map[], keyCols, ops)
  {
    hide AllAllowed, AnswersThroughout, AllShown, Flush;
    FreshAgrees(Staging, b);
    RunAnswersIff(b, b, FRESH, map[], keyCols, ops);
  }

  // ---- the failing runs ----

  /** A base that has staged row 7 twice. */
  const TWICE_7 := Base(map[Cell(7, 0) := 0], {}, Stage(map[], multiset{7, 7}, {}))

  /** Removed once inside, the row is hidden altogether; directly and after the commit one copy is left. */
  lemma HiddenCopyFails()
    ensures var q, ops := Multimap.Query.All, [Remove(7)];
            && TWICE_7.Valid() && AllAllowed(TWICE_7, FRESH, ops) && q.Width(1)
            && var (b', n') := Run(TWICE_7, FRESH, ops);
            && NestedCount(b', n', [0], q, 7) == 0
            && Count(RunDirect(TWICE_7, ops), [0], q, 7) == 1 && Count(Flush(b', n'.st), [0], q, 7) == 1
  {
    var ops: seq<Op> := [Remove(7)];
    var n1 := Step(TWICE_7, FRESH, ops[0]).1;
    assert ops[1..] == [];
    assert Run(TWICE_7, n1, []) == (TWICE_7, n1);
    assert n1.st == Stage(map[], multiset{}, {7});
    var d := Direct(TWICE_7, ops[0]);
    assert d.st.inserts[7] == 1 && RunDirect(d, []) == d;
  }

  /** Key written, then inserted: found inside under the old key. */
  lemma OldKeyFails()
    ensures var b := Base(map[Cell(9, 0) := 0], {}, NOTHING);
            var ops := [Write(Cell(9, 0), 1), Insert(9)];
            && b.Valid() && AllAllowed(b, FRESH, ops)
            && var (b', n') := Run(b, FRESH, ops);
            && Multimap.Equal([0]).Width(1) && NestedCount(b', n', [0], Multimap.Equal([0]), 9) == 1
            && Count(RunDirect(b, ops), [0], Multimap.Equal([0]), 9) == 0
  {
    var b := Base(map[Cell(9, 0) := 0], {}, NOTHING);
    var ops: seq<Op> := [Write(Cell(9, 0), 1), Insert(9)];
    var n1 := Step(b, FRESH, ops[0]).1;
    var n2 := Step(b, n1, ops[1]).1;
    assert ops[1..] == [Insert(9)] && ops[1..][1..] == [];
    assert Run(b, n1, ops[1..]) == (b, n2);
    var d1 := Direct(b, ops[0]);
    assert RunDirect(d1, ops[1..]) == Direct(d1, ops[1]);
    assert KeyOf(b.mem, [0], 9) == [0] && KeyOf(d1.mem, [0], 9)[0] == 1;
  }
}
