/**
  Nested transactions over a two-phase-locking base: what they stage, what reads inside them
  return, and what their commit leaves in the base. Locks are not modelled; in the source these
  calls take none.
 */
module NestedTxn {

  type Row = nat
  type Val = int
  datatype Cell = Cell(row: Row, col: nat)

  /** `updates_`, `inserts_`, `removes_`. */
  datatype Stage = Stage(updates: map<Cell, Val>, inserts: multiset<Row>, removes: set<Row>)

  const NOTHING := Stage(map[], multiset{}, {})

  /** Row memory, the rows that are in a table, and what the base transaction has staged. */
  datatype Base = Base(mem: map<Cell, Val>, tabled: set<Row>, st: Stage) {

    /** Updates are staged for rows of tables; other rows are written in place. */
    ghost predicate Valid() {
      && (forall c :: c in st.updates ==> c.row in tabled)
      && st.removes <= tabled
      && (forall r :: r in st.inserts ==> r !in tabled)
    }

    function Read(c: Cell): Val
      requires c in mem
    {
      if c.row in tabled && c in st.updates then st.updates[c] else mem[c]
    }

    function Write(c: Cell, v: Val): Base {
      if c.row !in tabled then this.(mem := mem[c := v]) else this.(st := st.(updates := st.updates[c := v]))
    }

    function Insert(r: Row): Base {
      this.(st := st.(inserts := st.inserts + multiset{r}, removes := st.removes - {r}))
    }

    function Remove(r: Row): Base {
      var u := WithoutRow(st.updates, r);
      if r in st.inserts then this.(st := st.(inserts := st.inserts - multiset{r}, updates := u))
      else this.(st := st.(removes := st.removes + {r}, updates := u))
    }
  }

  function WithoutRow(u: map<Cell, Val>, r: Row): map<Cell, Val> {
    map c | c in u && c.row != r :: u[c]
  }

  function WithoutRows(u: map<Cell, Val>, rs: set<Row>): map<Cell, Val> {
    map c | c in u && c.row !in rs :: u[c]
  }

  /** A nested transaction; `own` is `row_inserts_`. */
  datatype Nested = Nested(st: Stage, own: set<Row>) {
    /** Own rows are inserted rows; nothing removed is inserted or updated; what is removed was there. */
    ghost predicate Valid(b: Base) {
      && (forall r :: r in own ==> r in st.inserts)
      && (forall r :: r in st.inserts ==> r !in b.tabled && r !in st.removes)
      && (forall c :: c in st.updates ==> c.row !in st.removes)
      && (forall r :: r in st.removes ==> r in b.tabled || r in b.st.inserts)
    }

    function Read(b: Base, c: Cell): Val
      requires c in b.mem
    {
      if c.row in own then b.mem[c] else if c in st.updates then st.updates[c] else b.Read(c)
    }

    function Remove(r: Row): Nested {
      var u := WithoutRow(st.updates, r);
      if r in st.inserts then Nested(st.(inserts := st.inserts - multiset{r}, updates := u), own - {r})
      else this.(st := st.(removes := st.removes + {r}, updates := u))
    }
  }

  // ---- what committing leaves ----

  /** Updates of rows outside tables reach their memory ... */
  function FlushMem(mem: map<Cell, Val>, tabled: set<Row>, u: map<Cell, Val>): map<Cell, Val> {
    mem + map c | c in u && c.row !in tabled :: u[c]
  }

  /** ... the others are staged, and go with a removed row. */
  function FlushUpdates(bu: map<Cell, Val>, tabled: set<Row>, u: map<Cell, Val>, removes: set<Row>): map<Cell, Val> {
    WithoutRows(bu + map c | c in u && c.row in tabled :: u[c], removes)
  }

  function FlushRemoves(b: Stage, s: Stage): set<Row> {
    b.removes - (set r | r in s.inserts) + (set r | r in s.removes && r !in b.inserts && r !in s.inserts)
  }

  /** The base after `commit`. */
  function Flush(b: Base, s: Stage): Base {
    Base(FlushMem(b.mem, b.tabled, s.updates), b.tabled,
         Stage(FlushUpdates(b.st.updates, b.tabled, s.updates, s.removes),
               b.st.inserts + s.inserts - multiset(s.removes), FlushRemoves(b.st, s)))
  }

  // ---- operations ----

  datatype Op = Write(c: Cell, v: Val) | Insert(r: Row) | Remove(r: Row)

  /**
    The code's own checks: a removed row is not touched, an inserted row is in no table; and a row to
    remove is in a table or staged.
   */
  ghost predicate Allowed(b: Base, n: Nested, op: Op) {
    match op
    case Write(c, _) => c.row !in n.st.removes
    case Insert(r) => r !in b.tabled
    case Remove(r) => r !in n.st.removes && (r in b.tabled || r in n.st.inserts || r in b.st.inserts)
  }

  function Step(b: Base, n: Nested, op: Op): (Base, Nested) {
    match op
    case Write(c, v) =>
      if c.row in n.own then (b.(mem := b.mem[c := v]), n)
      else (b, n.(st := n.st.(updates := n.st.updates[c := v])))
    case Insert(r) =>
      (b, Nested(n.st.(inserts := n.st.inserts + multiset{r}, removes := n.st.removes - {r}), n.own + {r}))
    case Remove(r) => (b, n.Remove(r))
  }

  function Direct(b: Base, op: Op): Base {
    match op
    case Write(c, v) => b.Write(c, v)
    case Insert(r) => b.Insert(r)
    case Remove(r) => b.Remove(r)
  }

  // ---- what can agree with direct execution ----

  /** `d` is what direct execution reached: the same is staged ... */
  ghost predicate SameStage(d: Base, b: Base, n: Nested) {
    d.tabled == b.tabled && d.st == Flush(b, n.st).st
  }

  /** ... reads of rows not removed return the same ... */
  ghost predicate SameReads(d: Base, b: Base, n: Nested) {
    forall c :: c in b.mem && c.row !in n.st.removes ==> c in d.mem && n.Read(b, c) == d.Read(c)
  }

  /** ... and so would the memory of those rows be after a commit. */
  ghost predicate SameMemory(d: Base, b: Base, n: Nested) {
    var f := FlushMem(b.mem, b.tabled, n.st.updates);
    forall c: Cell :: c.row !in n.st.removes ==> (c in d.mem <==> c in f) && (c in d.mem ==> d.mem[c] == f[c])
  }

  datatype Aspect = Staging | Reads | Memory

  ghost predicate Agrees(a: Aspect, d: Base, b: Base, n: Nested) {
    SameStage(d, b, n) && (a == Reads ==> SameReads(d, b, n)) && (a == Memory ==> SameMemory(d, b, n))
  }

  /** The updates staged for `r` say what its memory says. */
  ghost predicate Settled(b: Base, n: Nested, r: Row) {
    forall c :: c in n.st.updates && c.row == r && c in b.mem ==> b.mem[c] == n.st.updates[c]
  }

  /** A removed row is not inserted again ... */
  ghost predicate StageCond(n: Nested, op: Op) {
    op.Insert? ==> op.r !in n.st.removes
  }

  /** ... a row does not change hands with unsettled updates staged for it ... */
  ghost predicate ReadCond(b: Base, n: Nested, op: Op) {
    match op
    case Write(_, _) => true
    case Insert(r) => r in n.own || Settled(b, n, r)
    case Remove(r) => r in n.st.inserts && r !in n.own ==> Settled(b, n, r)
  }

  /** ... and no update staged before a row became own is overtaken by a write in place or dropped. */
  ghost predicate MemoryCond(b: Base, n: Nested, op: Op) {
    match op
    case Write(c, v) => c.row in n.own && c in n.st.updates ==> n.st.updates[c] == v
    case Insert(_) => true
    case Remove(r) =>
      r in n.st.inserts ==>
        forall c :: c in n.st.updates && c.row == r ==> c in b.mem && b.mem[c] == n.st.updates[c]
  }

  ghost predicate Cond(a: Aspect, b: Base, n: Nested, op: Op) {
    StageCond(n, op) && (a == Reads ==> ReadCond(b, n, op)) && (a == Memory ==> MemoryCond(b, n, op))
  }

  lemma WriteValid(b: Base, n: Nested, c: Cell, v: Val)
    requires b.Valid() && n.Valid(b) && c.row !in n.st.removes
    ensures var (b', n') := Step(b, n, Write(c, v)); b'.Valid() && n'.Valid(b')
  {
  }

  lemma InsertValid(b: Base, n: Nested, r: Row)
    requires b.Valid() && n.Valid(b) && r !in b.tabled
    ensures var (b', n') := Step(b, n, Insert(r)); b'.Valid() && n'.Valid(b')
  {
    hide Base.Valid;
  }

  lemma RemoveValid(b: Base, n: Nested, r: Row)
    requires b.Valid() && n.Valid(b) && Allowed(b, n, Remove(r))
    ensures n.Remove(r).Valid(b)
  {
    hide Base.Valid;
  }

  lemma StepValid(b: Base, n: Nested, op: Op)
    requires b.Valid() && n.Valid(b) && Allowed(b, n, op)
    ensures var (b', n') := Step(b, n, op); b'.Valid() && n'.Valid(b')
  {
    hide Base.Valid, Nested.Valid, Nested.Remove;
    match op
    case Write(c, v) => WriteValid(b, n, c, v);
    case Insert(r) => InsertValid(b, n, r);
    case Remove(r) => RemoveValid(b, n, r);
  }

  // ---- staging ----

  lemma FlushMemAt(mem: map<Cell, Val>, tabled: set<Row>, u: map<Cell, Val>, c: Cell)
    ensures var m := FlushMem(mem, tabled, u);
            && (c in m <==> c in mem || (c in u && c.row !in tabled))
            && (c in m ==> m[c] == if c in u && c.row !in tabled then u[c] else mem[c])
  {
  }

  lemma FlushUpdatesAt(bu: map<Cell, Val>, tabled: set<Row>, u: map<Cell, Val>, rs: set<Row>, c: Cell)
    ensures var m := FlushUpdates(bu, tabled, u, rs);
            && (c in m <==> c.row !in rs && (c in bu || (c in u && c.row in tabled)))
            && (c in m ==> m[c] == if c in u && c.row in tabled then u[c] else bu[c])
  {
  }

  lemma SameMap(m: map<Cell, Val>, n: map<Cell, Val>)
    requires forall c: Cell :: (c in m <==> c in n) && (c in m && c in n ==> m[c] == n[c])
    ensures m == n
  {
  }

  lemma WriteUpdates(b: Base, s: Stage, c: Cell, v: Val)
    requires c.row !in s.removes
    ensures var f := FlushUpdates(b.st.updates, b.tabled, s.updates, s.removes);
            FlushUpdates(b.st.updates, b.tabled, s.updates[c := v], s.removes) ==
            if c.row in b.tabled then f[c := v] else f
  {
    hide FlushUpdates;
    var f := FlushUpdates(b.st.updates, b.tabled, s.updates, s.removes);
    var g := FlushUpdates(b.st.updates, b.tabled, s.updates[c := v], s.removes);
    var h := if c.row in b.tabled then f[c := v] else f;
    forall x: Cell ensures (x in g <==> x in h) && (x in g && x in h ==> g[x] == h[x]) {
      FlushUpdatesAt(b.st.updates, b.tabled, s.updates, s.removes, x);
      FlushUpdatesAt(b.st.updates, b.tabled, s.updates[c := v], s.removes, x);
    }
    SameMap(g, h);
  }

  lemma WriteMem(b: Base, s: Stage, c: Cell, v: Val)
    ensures var f := FlushMem(b.mem, b.tabled, s.updates);
            FlushMem(b.mem, b.tabled, s.updates[c := v]) == if c.row in b.tabled then f else f[c := v]
    ensures c !in s.updates ==>
              FlushMem(b.mem[c := v], b.tabled, s.updates) == FlushMem(b.mem, b.tabled, s.updates)[c := v]
  {
    hide FlushMem;
    var f, g := FlushMem(b.mem, b.tabled, s.updates), FlushMem(b.mem, b.tabled, s.updates[c := v]);
    var k, h := FlushMem(b.mem[c := v], b.tabled, s.updates), if c.row in b.tabled then f else f[c := v];
    forall x: Cell
      ensures (x in g <==> x in h) && (x in g && x in h ==> g[x] == h[x])
      ensures c !in s.updates ==> (x in k <==> x in f[c := v]) && (x in k && x in f[c := v] ==> k[x] == f[c := v][x])
    {
      FlushMemAt(b.mem, b.tabled, s.updates, x);
      FlushMemAt(b.mem, b.tabled, s.updates[c := v], x);
      FlushMemAt(b.mem[c := v], b.tabled, s.updates, x);
    }
    SameMap(g, h);
    if c !in s.updates { SameMap(k, f[c := v]); }
  }

  lemma WriteStages(d: Base, b: Base, n: Nested, c: Cell, v: Val)
    requires b.Valid() && n.Valid(b) && SameStage(d, b, n) && c.row !in n.st.removes
    ensures var (b', n') := Step(b, n, Write(c, v)); SameStage(d.Write(c, v), b', n')
  {
    hide FlushMem, FlushUpdates, FlushRemoves;
    WriteUpdates(b, n.st, c, v);
    FlushRemovesIgnoreUpdates(b.st, n.st, n.st.updates[c := v]);
    assert c.row in n.own ==> c.row !in b.tabled;
  }

  lemma InsertRemoves(b: Stage, s: Stage, r: Row)
    requires r !in s.removes && r !in b.removes
    ensures FlushRemoves(b, s.(inserts := s.inserts + multiset{r})) == FlushRemoves(b, s) - {r}
  {
  }

  lemma InsertCounts(a: multiset<Row>, s: multiset<Row>, rs: set<Row>, r: Row)
    ensures r !in rs ==> a + (s + multiset{r}) - multiset(rs) == a + s - multiset(rs) + multiset{r}
    ensures r in rs && r in a ==>
              (a + (s + multiset{r}) - multiset(rs - {r}))[r] == (a + s - multiset(rs) + multiset{r})[r] + 1
  {
  }

  /** Inserting a row stages the same as inserting it directly, if and only if it was not removed before. */
  lemma InsertStagesIff(d: Base, b: Base, n: Nested, r: Row)
    requires b.Valid() && n.Valid(b) && SameStage(d, b, n) && r !in b.tabled
    ensures var (b', n') := Step(b, n, Insert(r)); SameStage(d.Insert(r), b', n') <==> r !in n.st.removes
  {
    hide FlushMem, FlushUpdates, FlushRemoves;
    InsertCounts(b.st.inserts, n.st.inserts, n.st.removes, r);
    if r !in n.st.removes {
      assert n.st.removes - {r} == n.st.removes;
      InsertRemoves(b.st, n.st, r);
    }
  }

  lemma RemoveUpdates(b: Base, s: Stage, r: Row)
    ensures var f := FlushUpdates(b.st.updates, b.tabled, s.updates, s.removes);
            && FlushUpdates(b.st.updates, b.tabled, WithoutRow(s.updates, r), s.removes + {r}) == WithoutRow(f, r)
            && (r !in b.tabled && b.Valid() ==>
                  FlushUpdates(b.st.updates, b.tabled, WithoutRow(s.updates, r), s.removes) == WithoutRow(f, r))
  {
    hide FlushUpdates;
    var u := WithoutRow(s.updates, r);
    var f := FlushUpdates(b.st.updates, b.tabled, s.updates, s.removes);
    var g := FlushUpdates(b.st.updates, b.tabled, u, s.removes + {r});
    var h, k := WithoutRow(f, r), FlushUpdates(b.st.updates, b.tabled, u, s.removes);
    forall x: Cell
      ensures (x in g <==> x in h) && (x in g && x in h ==> g[x] == h[x])
      ensures r !in b.tabled && b.Valid() ==> (x in k <==> x in h) && (x in k && x in h ==> k[x] == h[x])
    {
      FlushUpdatesAt(b.st.updates, b.tabled, s.updates, s.removes, x);
      FlushUpdatesAt(b.st.updates, b.tabled, u, s.removes + {r}, x);
      FlushUpdatesAt(b.st.updates, b.tabled, u, s.removes, x);
    }
    SameMap(g, h);
    if r !in b.tabled && b.Valid() { SameMap(k, h); }
  }

  lemma RemoveInserts(a: multiset<Row>, s: multiset<Row>, rs: set<Row>, r: Row)
    requires r !in rs
    ensures r in s ==> a + (s - multiset{r}) - multiset(rs) == a + s - multiset(rs) - multiset{r}
    ensures a + s - multiset(rs + {r}) == a + s - multiset(rs) - multiset{r}
    ensures r in a + s - multiset(rs) <==> r in a || r in s
  {
    assert multiset(rs + {r}) == multiset(rs) + multiset{r};
  }

  lemma RemoveRemoves(b: Stage, s: Stage, r: Row)
    requires r !in s.removes
    ensures r in s.inserts && r !in b.removes ==>
              FlushRemoves(b, s.(inserts := s.inserts - multiset{r})) == FlushRemoves(b, s)
    ensures r !in s.inserts ==>
              FlushRemoves(b, s.(removes := s.removes + {r})) == FlushRemoves(b, s) + if r in b.inserts then {} else {r}
  {
    if r in s.inserts {
      assert forall x :: x != r ==> (x in s.inserts - multiset{r} <==> x in s.inserts);
    }
  }

  lemma FlushRemovesIgnoreUpdates(b: Stage, s: Stage, u: map<Cell, Val>)
    ensures FlushRemoves(b, s.(updates := u)) == FlushRemoves(b, s)
  {
  }

  lemma RemoveOwnStaged(b: Base, s: Stage, u: map<Cell, Val>, r: Row)
    requires r in s.inserts && r !in s.removes && r !in b.st.removes
    ensures var f, f' := Flush(b, s), Flush(b, s.(inserts := s.inserts - multiset{r}, updates := u));
            && r in f.st.inserts
            && f'.st.inserts == f.st.inserts - multiset{r} && f'.st.removes == f.st.removes
  {
    hide FlushMem, FlushUpdates, FlushRemoves;
    RemoveInserts(b.st.inserts, s.inserts, s.removes, r);
    RemoveRemoves(b.st, s, r);
    FlushRemovesIgnoreUpdates(b.st, s.(inserts := s.inserts - multiset{r}), u);
  }

  lemma RemoveOtherStaged(b: Base, s: Stage, u: map<Cell, Val>, r: Row)
    requires r !in s.inserts && r !in s.removes
    ensures var f, f' := Flush(b, s), Flush(b, s.(removes := s.removes + {r}, updates := u));
            if r in f.st.inserts then f'.st.inserts == f.st.inserts - multiset{r} && f'.st.removes == f.st.removes
            else f'.st.inserts == f.st.inserts && f'.st.removes == f.st.removes + {r}
  {
    hide FlushMem, FlushUpdates, FlushRemoves;
    RemoveInserts(b.st.inserts, s.inserts, s.removes, r);
    RemoveRemoves(b.st, s, r);
    FlushRemovesIgnoreUpdates(b.st, s.(removes := s.removes + {r}), u);
  }

  lemma RemoveStaged(b: Base, n: Nested, r: Row)
    requires b.Valid() && n.Valid(b) && Allowed(b, n, Remove(r))
    ensures var f, f' := Flush(b, n.st), Flush(b, n.Remove(r).st);
            f'.st.inserts == f.Remove(r).st.inserts && f'.st.removes == f.Remove(r).st.removes
  {
    hide Flush, WithoutRow;
    var u := WithoutRow(n.st.updates, r);
    if r in n.st.inserts {
      RemoveOwnStaged(b, n.st, u, r);
    } else {
      RemoveOtherStaged(b, n.st, u, r);
    }
  }

  lemma RemoveStagedUpdates(b: Base, n: Nested, r: Row)
    requires b.Valid() && n.Valid(b)
    ensures Flush(b, n.Remove(r).st).st.updates == Flush(b, n.st).Remove(r).st.updates
  {
    hide FlushMem, FlushUpdates, WithoutRow, FlushRemoves;
    RemoveUpdates(b, n.st, r);
    assert r in n.st.inserts ==> r !in b.tabled;
  }

  lemma RemoveDepends(d: Base, f: Base, r: Row)
    requires d.st == f.st
    ensures d.Remove(r).st == f.Remove(r).st && d.Remove(r).mem == d.mem && d.Remove(r).tabled == d.tabled
  {
    hide WithoutRow;
  }

  lemma RemoveStages(d: Base, b: Base, n: Nested, r: Row)
    requires b.Valid() && n.Valid(b) && SameStage(d, b, n) && Allowed(b, n, Remove(r))
    ensures SameStage(d.Remove(r), b, n.Remove(r))
  {
    hide Flush, Nested.Valid, Base.Valid, Base.Remove, Nested.Remove, Allowed;
    RemoveStaged(b, n, r);
    RemoveStagedUpdates(b, n, r);
    RemoveDepends(d, Flush(b, n.st), r);
  }

  // ---- reads ----

  lemma OwnUntouched(u: map<Cell, Val>, r: Row)
    requires forall c :: c in u ==> c.row != r
    ensures WithoutRow(u, r) == u
  {
  }

  lemma WriteReads(d: Base, b: Base, n: Nested, c: Cell, v: Val)
    requires b.Valid() && n.Valid(b) && SameReads(d, b, n) && d.tabled == b.tabled && c.row !in n.st.removes
    ensures var (b', n') := Step(b, n, Write(c, v)); SameReads(d.Write(c, v), b', n')
  {
    var (b', n') := Step(b, n, Write(c, v));
    var d' := d.Write(c, v);
    assert c.row in n.own ==> c.row !in b.tabled;
    forall x | x in b'.mem && x.row !in n'.st.removes ensures x in d'.mem && n'.Read(b', x) == d'.Read(x) {
      if x != c {
        assert x in b.mem && n.Read(b, x) == d.Read(x);
        assert n'.Read(b', x) == n.Read(b, x);
      }
    }
  }

  /** An insert keeps reads right if and only if the row was own already or has no unsettled update. */
  lemma InsertReadsIff(d: Base, b: Base, n: Nested, r: Row)
    requires b.Valid() && n.Valid(b) && SameReads(d, b, n) && d.tabled == b.tabled
    requires r !in b.tabled && r !in n.st.removes
    ensures var (b', n') := Step(b, n, Insert(r)); SameReads(d.Insert(r), b', n') <==> ReadCond(b, n, Insert(r))
  {
    var (b', n') := Step(b, n, Insert(r));
    var d' := d.Insert(r);
    assert n'.st.removes == n.st.removes;
    forall x | x in b.mem && x.row !in n.st.removes
      ensures x in d'.mem && d'.Read(x) == n.Read(b, x)
      ensures n'.Read(b, x) == if x.row == r then b.mem[x] else n.Read(b, x)
    {
    }
    if SameReads(d', b', n') && r !in n.own {
      forall c | c in n.st.updates && c.row == r && c in b.mem ensures b.mem[c] == n.st.updates[c] {
        assert n'.Read(b, c) == d'.Read(c);
      }
    }
  }

  lemma RemoveReadsIff(d: Base, b: Base, n: Nested, r: Row)
    requires b.Valid() && n.Valid(b) && SameReads(d, b, n) && d.tabled == b.tabled && Allowed(b, n, Remove(r))
    ensures SameReads(d.Remove(r), b, n.Remove(r)) <==> ReadCond(b, n, Remove(r))
  {
    var n', d' := n.Remove(r), d.Remove(r);
    forall x | x in b.mem && x.row !in n'.st.removes
      ensures x in d'.mem && d'.Read(x) == n.Read(b, x)
      ensures n'.Read(b, x) == if x.row == r then b.mem[x] else n.Read(b, x)
    {
      assert n.Read(b, x) == d.Read(x);
    }
    if SameReads(d', b, n') && r in n.st.inserts && r !in n.own {
      forall c | c in n.st.updates && c.row == r && c in b.mem ensures b.mem[c] == n.st.updates[c] {
        assert n'.Read(b, c) == d'.Read(c);
      }
    }
  }

  // ---- memory ----

  lemma WriteMemoryIff(d: Base, b: Base, n: Nested, c: Cell, v: Val)
    requires n.Valid(b) && SameMemory(d, b, n) && d.tabled == b.tabled && c.row !in n.st.removes
    ensures var (b', n') := Step(b, n, Write(c, v));
            SameMemory(d.Write(c, v), b', n') <==> MemoryCond(b, n, Write(c, v))
  {
    hide FlushMem;
    var (b', n') := Step(b, n, Write(c, v));
    assert c.row in n.own ==> c.row !in b.tabled;
    forall x: Cell
      ensures var f, f' := FlushMem(b.mem, b.tabled, n.st.updates), FlushMem(b'.mem, b'.tabled, n'.st.updates);
              && (x != c ==> (x in f' <==> x in f) && (x in f' ==> f'[x] == f[x]))
              && (x == c && c.row !in b.tabled ==>
                    x in f' && f'[x] == if c.row in n.own && c in n.st.updates then n.st.updates[c] else v)
              && (x == c && c.row in b.tabled ==> (x in f' <==> x in f) && (x in f' ==> f'[x] == f[x]))
    {
      FlushMemAt(b.mem, b.tabled, n.st.updates, x);
      FlushMemAt(b'.mem, b'.tabled, n'.st.updates, x);
    }
  }

  lemma RemoveMemoryIff(d: Base, b: Base, n: Nested, r: Row)
    requires n.Valid(b) && SameMemory(d, b, n) && d.tabled == b.tabled && r !in n.st.removes
    ensures SameMemory(d.Remove(r), b, n.Remove(r)) <==> MemoryCond(b, n, Remove(r))
  {
    hide FlushMem, WithoutRow;
    var n', d' := n.Remove(r), d.Remove(r);
    var f, f' := FlushMem(b.mem, b.tabled, n.st.updates), FlushMem(b.mem, b.tabled, n'.st.updates);
    RemoveKeepsMem(d, r);
    forall x: Cell
      ensures x.row != r ==> (x in f' <==> x in f) && (x in f' ==> f'[x] == f[x])
      ensures x.row == r && r !in b.tabled ==> (x in f' <==> x in b.mem) && (x in f' ==> f'[x] == b.mem[x])
      ensures x.row == r && r !in b.tabled ==>
                (x in f <==> x in b.mem || x in n.st.updates) &&
                (x in f ==> f[x] == if x in n.st.updates then n.st.updates[x] else b.mem[x])
    {
      WithoutRowAt(n.st.updates, r, x);
      FlushMemAt(b.mem, b.tabled, n.st.updates, x);
      FlushMemAt(b.mem, b.tabled, n'.st.updates, x);
    }
  }

  lemma RemoveKeepsMem(d: Base, r: Row)
    ensures d.Remove(r).mem == d.mem
  {
  }

  lemma WithoutRowAt(u: map<Cell, Val>, r: Row, c: Cell)
    ensures var w := WithoutRow(u, r); (c in w <==> c in u && c.row != r) && (c in w ==> w[c] == u[c])
  {
  }

  // ---- one operation ----

  /** After an operation the nested transaction still agrees with direct execution, if and only if the
      condition held. */
  lemma StepAgreesIff(a: Aspect, d: Base, b: Base, n: Nested, op: Op)
    requires b.Valid() && n.Valid(b) && Agrees(a, d, b, n) && Allowed(b, n, op)
    ensures var (b', n') := Step(b, n, op); Agrees(a, Direct(d, op), b', n') <==> Cond(a, b, n, op)
  {
    hide Base.Valid, Nested.Valid, SameStage, SameReads, SameMemory, ReadCond, MemoryCond;
    TabledSame(d, b, n);
    match op
    case Write(c, v) =>
      WriteStages(d, b, n, c, v);
      if a == Reads { WriteReads(d, b, n, c, v); ReadCondOfWrite(b, n, c, v); }
      if a == Memory { WriteMemoryIff(d, b, n, c, v); }
    case Insert(r) =>
      InsertStagesIff(d, b, n, r);
      if a == Reads && r !in n.st.removes { InsertReadsIff(d, b, n, r); }
      if a == Memory && r !in n.st.removes { InsertMemory(d, b, n, r); }
    case Remove(r) =>
      RemoveStages(d, b, n, r);
      if a == Reads { RemoveReadsIff(d, b, n, r); }
      if a == Memory { RemoveMemoryIff(d, b, n, r); }
  }

  lemma TabledSame(d: Base, b: Base, n: Nested)
    requires SameStage(d, b, n)
    ensures d.tabled == b.tabled
  {
  }

  lemma ReadCondOfWrite(b: Base, n: Nested, c: Cell, v: Val)
    ensures ReadCond(b, n, Write(c, v))
  {
  }

  lemma InsertMemory(d: Base, b: Base, n: Nested, r: Row)
    requires SameMemory(d, b, n) && r !in n.st.removes
    ensures var (b', n') := Step(b, n, Insert(r)); SameMemory(d.Insert(r), b', n') && MemoryCond(b, n, Insert(r))
  {
    hide FlushMem;
    assert n.st.removes - {r} == n.st.removes;
  }

  // ---- runs ----

  ghost predicate AllAllowed(b: Base, n: Nested, ops: seq<Op>)
    decreases |ops|
  {
    ops == [] || (Allowed(b, n, ops[0]) && var (b', n') := Step(b, n, ops[0]); AllAllowed(b', n', ops[1..]))
  }

  /** The condition holds at every operation. */
  ghost predicate AllCond(a: Aspect, b: Base, n: Nested, ops: seq<Op>)
    decreases |ops|
  {
    ops == [] || (Cond(a, b, n, ops[0]) && var (b', n') := Step(b, n, ops[0]); AllCond(a, b', n', ops[1..]))
  }

  /** Nested and direct execution agree before and after every operation. */
  ghost predicate Throughout(a: Aspect, d: Base, b: Base, n: Nested, ops: seq<Op>)
    decreases |ops|
  {
    && Agrees(a, d, b, n)
    && (ops == [] ||
        var (b', n') := Step(b, n, ops[0]); Throughout(a, Direct(d, ops[0]), b', n', ops[1..]))
  }

  function Run(b: Base, n: Nested, ops: seq<Op>): (Base, Nested)
    decreases |ops|
  {
    if ops == [] then (b, n) else var (b', n') := Step(b, n, ops[0]); Run(b', n', ops[1..])
  }

  function RunDirect(d: Base, ops: seq<Op>): Base
    decreases |ops|
  {
    if ops == [] then d else RunDirect(Direct(d, ops[0]), ops[1..])
  }

  lemma {:induction false} RunAgreesIff(a: Aspect, d: Base, b: Base, n: Nested, ops: seq<Op>)
    requires b.Valid() && n.Valid(b) && Agrees(a, d, b, n) && AllAllowed(b, n, ops)
    ensures Throughout(a, d, b, n, ops) <==> AllCond(a, b, n, ops)
    decreases |ops|
  {
    hide Agrees, Cond, Step, Direct, Nested.Valid, Base.Valid;
    if ops != [] {
      var (b1, n1) := Step(b, n, ops[0]);
      StepValid(b, n, ops[0]);
      StepAgreesIff(a, d, b, n, ops[0]);
      if Agrees(a, Direct(d, ops[0]), b1, n1) {
        RunAgreesIff(a, Direct(d, ops[0]), b1, n1, ops[1..]);
      } else {
        NotThroughout(a, Direct(d, ops[0]), b1, n1, ops[1..]);
      }
    }
  }

  lemma NotThroughout(a: Aspect, d: Base, b: Base, n: Nested, ops: seq<Op>)
    requires !Agrees(a, d, b, n)
    ensures !Throughout(a, d, b, n, ops)
  {
  }

  lemma {:induction false} AgreesAtEnd(a: Aspect, d: Base, b: Base, n: Nested, ops: seq<Op>)
    requires Throughout(a, d, b, n, ops)
    ensures var (b', n') := Run(b, n, ops); Agrees(a, RunDirect(d, ops), b', n')
    decreases |ops|
  {
    hide Agrees, Step, Direct;
    if ops != [] {
      var (b1, n1) := Step(b, n, ops[0]);
      AgreesAtEnd(a, Direct(d, ops[0]), b1, n1, ops[1..]);
    }
  }

  const FRESH := Nested(NOTHING, {})

  lemma FreshAgrees(a: Aspect, b: Base)
    ensures FRESH.Valid(b) && Agrees(a, b, b, FRESH)
  {
    hide FlushMem, FlushUpdates, FlushRemoves;
    FlushNothing(b);
  }

  /**
    Over any run the code allows: commit would at every point stage in the base exactly what issuing
    the operations there stages, if and only if no row this transaction removed is inserted again ...
   */
  lemma StagingIsDirectIff(b: Base, ops: seq<Op>)
    requires b.Valid() && AllAllowed(b, FRESH, ops)
    ensures Throughout(Staging, b, b, FRESH, ops) <==> AllCond(Staging, b, FRESH, ops)
  {
    hide Agrees, AllCond, AllAllowed, Throughout, Nested.Valid;
    FreshAgrees(Staging, b);
    RunAgreesIff(Staging, b, b, FRESH, ops);
  }

  /** ... so then committing leaves the base's inserts, updates and removes as direct execution would. */
  lemma CommitIsDirect(b: Base, ops: seq<Op>)
    requires b.Valid() && AllAllowed(b, FRESH, ops) && AllCond(Staging, b, FRESH, ops)
    ensures var (b', n') := Run(b, FRESH, ops); Flush(b', n'.st).st == RunDirect(b, ops).st
  {
    hide AllAllowed, AllCond, Throughout, Run, RunDirect, Flush;
    StagingIsDirectIff(b, ops);
    AgreesAtEnd(Staging, b, b, FRESH, ops);
  }

  /** Every read at every point returns what direct execution would, if and only if rows do not change hands
      unsettled ... */
  lemma ReadsAreDirectIff(b: Base, ops: seq<Op>)
    requires b.Valid() && AllAllowed(b, FRESH, ops)
    ensures Throughout(Reads, b, b, FRESH, ops) <==> AllCond(Reads, b, FRESH, ops)
  {
    hide Agrees, AllCond, AllAllowed, Throughout, Nested.Valid;
    FreshAgrees(Reads, b);
    RunAgreesIff(Reads, b, b, FRESH, ops);
  }

  lemma ReadsAreDirect(b: Base, ops: seq<Op>, c: Cell)
    requires b.Valid() && AllAllowed(b, FRESH, ops) && AllCond(Reads, b, FRESH, ops)
    requires var (b', n') := Run(b, FRESH, ops); c in b'.mem && c.row !in n'.st.removes
    ensures var (b', n') := Run(b, FRESH, ops);
            c in RunDirect(b, ops).mem && n'.Read(b', c) == RunDirect(b, ops).Read(c)
  {
    hide AllAllowed, AllCond, Throughout, Run, RunDirect, SameStage;
    ReadsAreDirectIff(b, ops);
    AgreesAtEnd(Reads, b, b, FRESH, ops);
  }

  /** ... and commit leaves the memory of staged rows as direct execution would, if and only if no earlier
      update overtakes. */
  lemma MemoryIsDirectIff(b: Base, ops: seq<Op>)
    requires b.Valid() && AllAllowed(b, FRESH, ops)
    ensures Throughout(Memory, b, b, FRESH, ops) <==> AllCond(Memory, b, FRESH, ops)
  {
    hide Agrees, AllCond, AllAllowed, Throughout, Nested.Valid;
    FreshAgrees(Memory, b);
    RunAgreesIff(Memory, b, b, FRESH, ops);
  }

  // ---- what an abort leaves ----

  /** The base still stages what it staged, and its rows, in tables or staged, read as they did. */
  ghost predicate Untouched(b0: Base, b: Base) {
    && b.st == b0.st && b.tabled == b0.tabled
    && forall c :: c in b0.mem && (c.row in b0.tabled || c.row in b0.st.inserts) ==>
                     c in b.mem && b.Read(c) == b0.Read(c)
  }

  /** An abort before, between or after the operations would leave the base as it was in `b0`. */
  ghost predicate UntouchedThroughout(b0: Base, b: Base, n: Nested, ops: seq<Op>)
    decreases |ops|
  {
    Untouched(b0, b) && (ops == [] || var (b', n') := Step(b, n, ops[0]); UntouchedThroughout(b0, b', n', ops[1..]))
  }

  /** A write in place to a row the base has staged writes what was there. */
  ghost predicate WritesBack(b0: Base, n: Nested, op: Op) {
    op.Write? && op.c.row in n.own && op.c.row in b0.st.inserts && op.c in b0.mem ==> b0.mem[op.c] == op.v
  }

  ghost predicate AllWriteBack(b0: Base, b: Base, n: Nested, ops: seq<Op>)
    decreases |ops|
  {
    ops == [] || (WritesBack(b0, n, ops[0]) && var (b', n') := Step(b, n, ops[0]); AllWriteBack(b0, b', n', ops[1..]))
  }

  lemma StepUntouchedIff(b0: Base, b: Base, n: Nested, op: Op)
    requires b.Valid() && n.Valid(b) && Untouched(b0, b) && Allowed(b, n, op)
    ensures Untouched(b0, Step(b, n, op).0) <==> WritesBack(b0, n, op)
  {
    if op.Write? && op.c.row in n.own {
      assert op.c.row !in b0.tabled;
      var b' := Step(b, n, op).0;
      if WritesBack(b0, n, op) {
        forall c | c in b0.mem && (c.row in b0.tabled || c.row in b0.st.inserts)
          ensures c in b'.mem && b'.Read(c) == b0.Read(c)
        {
          assert b.Read(c) == b0.Read(c);
        }
      } else {
        assert b'.Read(op.c) != b0.Read(op.c);
      }
    }
  }

  lemma {:induction false} RunUntouchedIff(b0: Base, b: Base, n: Nested, ops: seq<Op>)
    requires b.Valid() && n.Valid(b) && Untouched(b0, b) && AllAllowed(b, n, ops)
    ensures UntouchedThroughout(b0, b, n, ops) <==> AllWriteBack(b0, b, n, ops)
    decreases |ops|
  {
    hide Untouched, WritesBack, Step, Nested.Valid, Base.Valid;
    if ops != [] {
      var (b1, n1) := Step(b, n, ops[0]);
      StepValid(b, n, ops[0]);
      StepUntouchedIff(b0, b, n, ops[0]);
      if Untouched(b0, b1) {
        RunUntouchedIff(b0, b1, n1, ops[1..]);
      }
    }
  }

  /** Whatever is called inside, the base has staged nothing more until the commit. */
  lemma {:induction false} AbortStagesNothing(b: Base, n: Nested, ops: seq<Op>)
    ensures Run(b, n, ops).0.st == b.st
    decreases |ops|
  {
    if ops != [] {
      var (b1, n1) := Step(b, n, ops[0]);
      AbortStagesNothing(b1, n1, ops[1..]);
    }
  }

  /**
    Over any run the code allows: an abort at any point leaves the base as it was, if and only if every write
    in place to a row the base has staged writes what was there. `abort` undoes nothing, so what else is
    written in place to such a row stays.
   */
  lemma AbortLeavesNothingIff(b: Base, ops: seq<Op>)
    requires b.Valid() && AllAllowed(b, FRESH, ops)
    ensures Run(b, FRESH, ops).0.st == b.st
    ensures UntouchedThroughout(b, b, FRESH, ops) <==> AllWriteBack(b, b, FRESH, ops)
  {
    AbortStagesNothing(b, FRESH, ops);
    RunUntouchedIff(b, b, FRESH, ops);
  }

  /** Then the base reads as before after the abort. */
  lemma {:induction false} AbortLeavesNothing(b0: Base, b: Base, n: Nested, ops: seq<Op>)
    requires UntouchedThroughout(b0, b, n, ops)
    ensures Untouched(b0, Run(b, n, ops).0)
    decreases |ops|
  {
    hide Untouched, Step;
    if ops != [] {
      var (b1, n1) := Step(b, n, ops[0]);
      AbortLeavesNothing(b0, b1, n1, ops[1..]);
    }
  }

  // ---- the failing runs ----

  /** A base that has staged row 7, whose only column holds 0. */
  const STAGED_7 := Base(map[Cell(7, 0) := 0], {}, Stage(map[], multiset{7}, {}))

  /** A row the base has staged, inserted again inside and written: the write survives an abort. */
  lemma AbortKeepsWrite()
    ensures var ops := [Insert(7), Write(Cell(7, 0), 1)];
            && AllAllowed(STAGED_7, FRESH, ops)
            && (forall a :: AllCond(a, STAGED_7, FRESH, ops))
            && var b' := Run(STAGED_7, FRESH, ops).0;
            && Cell(7, 0) in STAGED_7.mem && STAGED_7.Read(Cell(7, 0)) == 0
            && Cell(7, 0) in b'.mem && b'.Read(Cell(7, 0)) == 1
  {
    var c := Cell(7, 0);
    var ops: seq<Op> := [Insert(7), Write(c, 1)];
    var (b1, n1) := Step(STAGED_7, FRESH, ops[0]);
    var (b2, n2) := Step(b1, n1, ops[1]);
    assert ops[1..] == [Write(c, 1)] && ops[1..][1..] == [];
    assert Run(b1, n1, ops[1..]) == (b2, n2);
    forall a ensures AllCond(a, STAGED_7, FRESH, ops) {
      assert Cond(a, STAGED_7, FRESH, ops[0]) && Cond(a, b1, n1, ops[1]);
    }
  }

  /** Removed and inserted again: staged twice after commit, once directly. */
  lemma ReinsertFails()
    ensures STAGED_7.Valid()
    ensures var ops := [Remove(7), Insert(7)];
            && AllAllowed(STAGED_7, FRESH, ops)
            && var (b', n') := Run(STAGED_7, FRESH, ops);
            && Flush(b', n'.st).st.inserts[7] == 2 && RunDirect(STAGED_7, ops).st.inserts[7] == 1
  {
    var ops: seq<Op> := [Remove(7), Insert(7)];
    var (b1, n1) := Step(STAGED_7, FRESH, ops[0]);
    var (b2, n2) := Step(b1, n1, ops[1]);
    assert ops[1..] == [Insert(7)] && ops[1..][1..] == [];
    assert Run(b1, n1, ops[1..]) == (b2, n2);
    var d1 := Direct(STAGED_7, ops[0]);
    assert RunDirect(d1, ops[1..]) == Direct(d1, ops[1]);
  }

  /** Written, then inserted: the row becomes own and reads go past the staged update. */
  lemma StaleReadFails()
    ensures var ops := [Write(Cell(7, 0), 1), Insert(7)];
            && AllAllowed(STAGED_7, FRESH, ops) && AllCond(Staging, STAGED_7, FRESH, ops)
            && var (b', n') := Run(STAGED_7, FRESH, ops);
            && Cell(7, 0) in b'.mem && n'.Read(b', Cell(7, 0)) == 0
            && Cell(7, 0) in RunDirect(STAGED_7, ops).mem && RunDirect(STAGED_7, ops).Read(Cell(7, 0)) == 1
  {
    var c := Cell(7, 0);
    var ops: seq<Op> := [Write(c, 1), Insert(7)];
    var (b1, n1) := Step(STAGED_7, FRESH, ops[0]);
    var (b2, n2) := Step(b1, n1, ops[1]);
    assert ops[1..] == [Insert(7)] && ops[1..][1..] == [];
    assert Run(b1, n1, ops[1..]) == (b2, n2);
    var d1 := Direct(STAGED_7, ops[0]);
    assert RunDirect(d1, ops[1..]) == Direct(d1, ops[1]);
  }

  /** Written before and after becoming own: commit replays the first value over the second. */
  lemma StaleMemoryFails()
    ensures var ops := [Write(Cell(7, 0), 1), Insert(7), Write(Cell(7, 0), 2)];
            && AllAllowed(STAGED_7, FRESH, ops) && AllCond(Staging, STAGED_7, FRESH, ops)
            && var (b', n') := Run(STAGED_7, FRESH, ops);
            && var f := Flush(b', n'.st);
            && Cell(7, 0) in f.mem && f.mem[Cell(7, 0)] == 1
            && Cell(7, 0) in RunDirect(STAGED_7, ops).mem && RunDirect(STAGED_7, ops).mem[Cell(7, 0)] == 2
  {
    var c := Cell(7, 0);
    var ops: seq<Op> := [Write(c, 1), Insert(7), Write(c, 2)];
    var (b1, n1) := Step(STAGED_7, FRESH, ops[0]);
    var (b2, n2) := Step(b1, n1, ops[1]);
    var (b3, n3) := Step(b2, n2, ops[2]);
    assert ops[1..] == [Insert(7), Write(c, 2)] && ops[1..][1..] == [Write(c, 2)] && ops[1..][1..][1..] == [];
    assert Run(b2, n2, [Write(c, 2)]) == (b3, n3);
    assert Run(b1, n1, ops[1..]) == (b3, n3);
    var d1 := Direct(STAGED_7, ops[0]);
    var d2 := Direct(d1, ops[1]);
    assert RunDirect(d2, [Write(c, 2)]) == Direct(d2, ops[2]);
    assert RunDirect(d1, ops[1..]) == Direct(d2, ops[2]);
  }

  /** Inserted twice and removed once, a row is no longer own: an update staged then is dropped by the next removal. */
  lemma DroppedUpdateFails()
    ensures var ops := [Insert(7), Insert(7), Remove(7), Write(Cell(7, 0), 1), Remove(7)];
            && AllAllowed(STAGED_7, FRESH, ops) && AllCond(Staging, STAGED_7, FRESH, ops)
            && var (b', n') := Run(STAGED_7, FRESH, ops);
            && Cell(7, 0) in b'.mem && 7 !in n'.st.removes && n'.Read(b', Cell(7, 0)) == 0
            && Cell(7, 0) in RunDirect(STAGED_7, ops).mem && RunDirect(STAGED_7, ops).Read(Cell(7, 0)) == 1
  {
    hide Run, RunDirect, AllAllowed, AllCond, Step, Direct, Allowed, StageCond, Nested.Read, Base.Read;
    var i, r, w: Op := Insert(7), Remove(7), Write(Cell(7, 0), 1);
    var n1, n2, n3, n4, n5 := DropInserts();
    var d1 := Direct(STAGED_7, i);
    var d2 := Direct(d1, i);
    var d3 := Direct(d2, r);
    var d4 := Direct(d3, w);
    RunCons(STAGED_7, FRESH, n1, STAGED_7, i, [i, r, w, r]);
    RunCons(STAGED_7, n1, n2, d1, i, [r, w, r]);
    RunCons(STAGED_7, n2, n3, d2, r, [w, r]);
    RunCons(STAGED_7, n3, n4, d3, w, [r]);
    RunCons(STAGED_7, n4, n5, d4, r, []);
    RunNil(STAGED_7, n5, Direct(d4, r));
    assert [i] + [i, r, w, r] == [i, i, r, w, r] && [i] + [r, w, r] == [i, r, w, r];
    assert [r] + [w, r] == [r, w, r] && [w] + [r] == [w, r] && [r] + [] == [r];
    DropDirect();
  }

  lemma DropInserts() returns (n1: Nested, n2: Nested, n3: Nested, n4: Nested, n5: Nested)
    ensures Step(STAGED_7, FRESH, Insert(7)) == (STAGED_7, n1) && Step(STAGED_7, n1, Insert(7)) == (STAGED_7, n2)
    ensures Step(STAGED_7, n2, Remove(7)) == (STAGED_7, n3) &&
            Step(STAGED_7, n3, Write(Cell(7, 0), 1)) == (STAGED_7, n4)
    ensures Step(STAGED_7, n4, Remove(7)) == (STAGED_7, n5) && 7 !in n5.st.removes
    ensures Allowed(STAGED_7, FRESH, Insert(7)) && Allowed(STAGED_7, n1, Insert(7)) && Allowed(STAGED_7, n2, Remove(7))
    ensures Allowed(STAGED_7, n3, Write(Cell(7, 0), 1)) && Allowed(STAGED_7, n4, Remove(7))
    ensures StageCond(FRESH, Insert(7)) && StageCond(n1, Insert(7)) && StageCond(n2, Remove(7))
    ensures StageCond(n3, Write(Cell(7, 0), 1)) && StageCond(n4, Remove(7))
    ensures Cell(7, 0) in STAGED_7.mem && n5.Read(STAGED_7, Cell(7, 0)) == 0
  {
    n1 := Step(STAGED_7, FRESH, Insert(7)).1;
    n2 := Step(STAGED_7, n1, Insert(7)).1;
    n3 := Step(STAGED_7, n2, Remove(7)).1;
    assert n3.st.inserts[7] == 1 && 7 !in n3.own;
    n4 := Step(STAGED_7, n3, Write(Cell(7, 0), 1)).1;
    n5 := Step(STAGED_7, n4, Remove(7)).1;
    assert Cell(7, 0) !in n5.st.updates && 7 !in n5.own;
  }

  lemma DropDirect()
    ensures var d3 := Direct(Direct(Direct(STAGED_7, Insert(7)), Insert(7)), Remove(7));
            var d5 := Direct(Direct(d3, Write(Cell(7, 0), 1)), Remove(7));
            Cell(7, 0) in d5.mem && d5.Read(Cell(7, 0)) == 1
  {
  }

  lemma RunNil(b: Base, n: Nested, d: Base)
    ensures Run(b, n, []) == (b, n) && RunDirect(d, []) == d && AllAllowed(b, n, []) && AllCond(Staging, b, n, [])
  {
  }

  /** The first operation of a run that leaves the base as it is. */
  lemma RunCons(b: Base, n: Nested, n': Nested, d: Base, op: Op, ops: seq<Op>)
    requires Step(b, n, op) == (b, n')
    ensures Run(b, n, [op] + ops) == Run(b, n', ops) && RunDirect(d, [op] + ops) == RunDirect(Direct(d, op), ops)
    ensures Allowed(b, n, op) && AllAllowed(b, n', ops) ==> AllAllowed(b, n, [op] + ops)
    ensures StageCond(n, op) && AllCond(Staging, b, n', ops) ==> AllCond(Staging, b, n, [op] + ops)
  {
    assert ([op] + ops)[1..] == ops;
  }

  // ---- the commit loops, one call on the base at a time ----

  lemma FlushNothing(b: Base)
    ensures Flush(b, NOTHING) == b
  {
    assert FlushUpdates(b.st.updates, b.tabled, map[], {}) == b.st.updates;
    assert FlushMem(b.mem, b.tabled, map[]) == b.mem;
    assert FlushRemoves(b.st, NOTHING) == b.st.removes;
  }

  lemma FlushInsert(b: Base, i: multiset<Row>, r: Row)
    ensures Flush(b, Stage(map[], i, {})).Insert(r) == Flush(b, Stage(map[], i + multiset{r}, {}))
  {
    hide FlushMem, FlushUpdates;
    var s, s' := Stage(map[], i, {}), Stage(map[], i + multiset{r}, {});
    assert b.st.inserts + i - multiset({}) + multiset{r} == b.st.inserts + (i + multiset{r}) - multiset({});
    assert FlushRemoves(b.st, s) - {r} == FlushRemoves(b.st, s');
  }

  lemma FlushWrite(b: Base, u: map<Cell, Val>, i: multiset<Row>, c: Cell, v: Val)
    ensures Flush(b, Stage(u, i, {})).Write(c, v) == Flush(b, Stage(u[c := v], i, {}))
  {
    hide FlushMem, FlushUpdates;
    var s := Stage(u, i, {});
    WriteUpdates(b, s, c, v);
    WriteMem(b, s, c, v);
    FlushRemovesIgnoreUpdates(b.st, s, u[c := v]);
  }

  lemma FlushRemove(b: Base, u: map<Cell, Val>, i: multiset<Row>, rs: set<Row>, r: Row)
    requires r !in rs && r !in i && forall c :: c in u ==> c.row != r
    ensures Flush(b, Stage(u, i, rs)).Remove(r) == Flush(b, Stage(u, i, rs + {r}))
  {
    hide FlushMem, FlushUpdates, FlushRemoves, WithoutRow;
    var s := Stage(u, i, rs);
    RemoveInserts(b.st.inserts, i, rs, r);
    RemoveRemoves(b.st, s, r);
    RemoveUpdates(b, s, r);
    OwnUntouched(u, r);
  }

  /** Row memory, shared by all transactions. */
  class RowMemory {
    var cells: map<Cell, Val>
    const tabled: set<Row>
  }

  /** The base transaction. */
  class Txn2PL {
    const mem: RowMemory
    var updates: map<Cell, Val>
    var inserts: multiset<Row>
    var removes: set<Row>

    constructor (mem: RowMemory)
      ensures this.mem == mem && Value() == Base(mem.cells, mem.tabled, NOTHING)
    {
      this.mem := mem;
      updates, inserts, removes := map[], multiset{}, {};
    }

    ghost function Value(): Base
      reads this, mem
    {
      Base(mem.cells, mem.tabled, Stage(updates, inserts, removes))
    }

    method ReadColumn(c: Cell) returns (v: Val)
      requires c in mem.cells
      ensures v == Value().Read(c)
    {
      if c.row !in mem.tabled {
        v := mem.cells[c];
      } else if c in updates {
        v := updates[c];
      } else {
        v := mem.cells[c];
      }
    }

    method WriteColumn(c: Cell, v: Val)
      modifies this`updates, mem
      ensures Value() == old(Value()).Write(c, v)
    {
      if c.row !in mem.tabled {
        mem.cells := mem.cells[c := v];
      } else {
        updates := updates[c := v];
      }
    }

    method InsertRow(r: Row)
      requires r !in mem.tabled
      modifies this`inserts, this`removes
      ensures Value() == old(Value()).Insert(r)
    {
      inserts := inserts + multiset{r};
      removes := removes - {r};
    }

    method RemoveRow(r: Row)
      modifies this`inserts, this`removes, this`updates
      ensures Value() == old(Value()).Remove(r)
    {
      if r in inserts {
        inserts := inserts - multiset{r};
      } else {
        removes := removes + {r};
      }
      updates := WithoutRow(updates, r);
    }
  }

  /** A nested transaction over `base`. */
  class TxnNested {
    const base: Txn2PL
    var updates: map<Cell, Val>
    var inserts: multiset<Row>
    var removes: set<Row>
    var own: set<Row>

    constructor (base: Txn2PL)
      ensures this.base == base && Value() == FRESH
    {
      this.base := base;
      updates, inserts, removes, own := map[], multiset{}, {}, {};
    }

    ghost function Value(): Nested
      reads this
    {
      Nested(Stage(updates, inserts, removes), own)
    }

    method ReadColumn(c: Cell) returns (v: Val)
      requires c in base.mem.cells
      ensures v == Value().Read(base.Value(), c)
    {
      if c.row in own {
        v := base.mem.cells[c];
      } else if c in updates {
        v := updates[c];
      } else {
        v := base.ReadColumn(c);
      }
    }

    method WriteColumn(c: Cell, v: Val)
      modifies this`updates, base.mem
      ensures (base.Value(), Value()) == Step(old(base.Value()), old(Value()), Write(c, v))
    {
      if c.row in own {
        base.mem.cells := base.mem.cells[c := v];
      } else {
        updates := updates[c := v];
      }
    }

    method InsertRow(r: Row)
      requires r !in base.mem.tabled
      modifies this
      ensures (base.Value(), Value()) == Step(old(base.Value()), old(Value()), Insert(r))
    {
      inserts := inserts + multiset{r};
      own := own + {r};
      removes := removes - {r};
    }

    method RemoveRow(r: Row)
      modifies this
      ensures (base.Value(), Value()) == Step(old(base.Value()), old(Value()), Remove(r))
    {
      if r in inserts {
        inserts := inserts - multiset{r};
        own := own - {r};
      } else {
        removes := removes + {r};
      }
      updates := WithoutRow(updates, r);
    }

    /** `commit`: replay inserts, then updates, then removes on the base. */
    method Commit()
      requires Value().Valid(base.Value())
      modifies base, base.mem
      ensures base.Value() == Flush(old(base.Value()), Value().st)
    {
      hide Flush, Base.Insert, Base.Write, Base.Remove;
      ghost var b := base.Value();
      FlushNothing(b);
      var todo, done := inserts, multiset{};
      while todo != multiset{}
        invariant todo + done == inserts && base.Value() == Flush(b, Stage(map[], done, {}))
        decreases |todo|
      {
        var r :| r in todo;
        FlushInsert(b, done, r);
        base.InsertRow(r);
        todo := todo - multiset{r};
        done := done + multiset{r};
      }
      assert done == inserts;
      ReplayUpdates(b);
      ReplayRemoves(b);
    }

    method ReplayUpdates(ghost b: Base)
      requires base.Value() == Flush(b, Stage(map[], inserts, {}))
      modifies base`updates, base.mem
      ensures base.Value() == Flush(b, Stage(updates, inserts, {}))
    {
      hide Flush, Base.Write;
      var cells, seen := updates.Keys, map[];
      while cells != {}
        invariant cells <= updates.Keys && seen == map c | c in updates && c !in cells :: updates[c]
        invariant base.Value() == Flush(b, Stage(seen, inserts, {}))
      {
        var c :| c in cells;
        FlushWrite(b, seen, inserts, c, updates[c]);
        base.WriteColumn(c, updates[c]);
        cells := cells - {c};
        seen := seen[c := updates[c]];
      }
      assert seen == updates;
    }

    method ReplayRemoves(ghost b: Base)
      requires base.Value() == Flush(b, Stage(updates, inserts, {})) && Value().Valid(b)
      modifies base`updates, base`inserts, base`removes
      ensures base.Value() == Flush(b, Stage(updates, inserts, removes))
    {
      hide Flush, Base.Remove;
      var rows, gone := removes, {};
      while rows != {}
        invariant rows <= removes && gone == removes - rows
        invariant base.Value() == Flush(b, Stage(updates, inserts, gone))
      {
        var r :| r in rows;
        FlushRemove(b, updates, inserts, gone, r);
        base.RemoveRow(r);
        rows := rows - {r};
        gone := gone + {r};
      }
      assert gone == removes;
    }
  }
}
