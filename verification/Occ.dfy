/**
  Optimistic transactions on one server (`TxnOCC` under the OCC_LAZY policy): the
  value of a server and what each call does to it. Rows exist beforehand; only
  column reads and writes are modelled.
 */
module Occ {
  import opened Common

  type Tid = nat
  type Row = nat
  type Value = int

  datatype Cell = Cell(row: Row, col: nat)

  /** The value of an `RWLock`. */
  datatype Lock = Lock(writer: Option<Tid>, readers: set<Tid>) {
    predicate Wf() {
      writer.Some? ==> readers == {}
    }

    predicate CanWrite(o: Tid) {
      if writer.Some? then writer.value == o else readers <= {o}
    }

    predicate CanRead(o: Tid) {
      writer.Some? ==> writer.value == o
    }

    function WLocked(o: Tid): Lock {
      Lock(Some(o), {})
    }

    function RLocked(o: Tid): Lock {
      if writer.Some? then this else Lock(None, readers + {o})
    }

    function Unlocked(o: Tid): Lock {
      Lock(if writer == Some(o) then None else writer, readers - {o})
    }

    predicate HeldBy(o: Tid) {
      writer == Some(o) || o in readers
    }
  }

  /** What a `TxnOCC` stages: versions to check, updates, and whether prepare succeeded. */
  datatype Txn = Txn(verRead: map<Cell, nat>, verWrite: map<Cell, nat>, updates: map<Cell, Value>, verified: bool)
  {
    function ReadRows(): set<Row> {
      set c | c in verRead :: c.row
    }

    function WriteRows(): set<Row> {
      set c | c in verWrite :: c.row
    }

    /** The rows in `locks_` after a successful prepare. */
    function Rows(): set<Row> {
      ReadRows() + WriteRows()
    }
  }

  const EMPTY_TXN := Txn(map[], map[], map[], false)

  datatype Server = Server(store: map<Cell, Value>, ver: map<Cell, nat>, lock: map<Row, Lock>, txns: map<Tid, Txn>) {

    /** `TxnRunner::get_txn`: the running transaction or a new one. */
    function Get(t: Tid): Txn {
      if t in txns then txns[t] else EMPTY_TXN
    }

    /** The value `read_column` returns. */
    function ReadValue(t: Tid, c: Cell): Value
      requires c in store
    {
      if c in Get(t).updates then Get(t).updates[c] else store[c]
    }

    /** `read_column`: a read of table data records the version of the first such read. */
    function Read(t: Tid, c: Cell): Server
      requires c in ver
    {
      var x := Get(t);
      this.(txns := txns[t := if c in x.updates || c in x.verRead then x else x.(verRead := x.verRead[c := ver[c]])])
    }

    /** `write_column`: the first write of a column records its version. */
    function Write(t: Tid, c: Cell, v: Value): Server
      requires c in ver
    {
      var x := Get(t);
      var vw := if c in x.updates || c in x.verWrite then x.verWrite else x.verWrite[c := ver[c]];
      this.(txns := txns[t := x.(updates := x.updates[c := v], verWrite := vw)])
    }

    /** `version_check`: nothing the transaction touched has changed since. */
    predicate VersionsOk(x: Txn)
      requires x.verRead.Keys <= ver.Keys && x.verWrite.Keys <= ver.Keys
    {
      && (forall c :: c in x.verRead ==> ver[c] == x.verRead[c])
      && (forall c :: c in x.verWrite ==> ver[c] == x.verWrite[c])
    }

    predicate LocksFree(t: Tid, x: Txn)
      requires x.ReadRows() <= lock.Keys && x.WriteRows() <= lock.Keys
    {
      && (forall r :: r in x.ReadRows() ==> lock[r].CanRead(t))
      && (forall r :: r in x.WriteRows() ==> lock[r].CanWrite(t))
    }

    predicate CanPrepare(t: Tid)
      requires Wf() && t in txns
    {
      VersionsOk(txns[t]) && LocksFree(t, txns[t])
    }

    /** `commit_prepare`: all locks or none. */
    function Prepare(t: Tid): Server
      requires Wf() && t in txns
    {
      var x := txns[t];
      if CanPrepare(t) then
        this.(lock := map r | r in lock ::
                        if r in x.WriteRows() then lock[r].WLocked(t)
                        else if r in x.ReadRows() then lock[r].RLocked(t)
                        else lock[r],
              txns := txns[t := x.(verified := true)])
      else this
    }

    /** The locks after `release_resource`. */
    function Released(t: Tid, rows: set<Row>): map<Row, Lock> {
      map r | r in lock :: if r in rows then lock[r].Unlocked(t) else lock[r]
    }

    /** `commit_confirm`, after which the transaction is deleted. */
    function Confirm(t: Tid): Server
      requires t in txns
    {
      var x := txns[t];
      Server(map c | c in store :: if c in x.updates then x.updates[c] else store[c],
             map c | c in ver :: if c in x.updates then ver[c] + 1 else ver[c],
             Released(t, x.Rows()),
             txns - {t})
    }

    /** `abort`, after which the transaction is deleted. */
    function Abort(t: Tid): Server
      requires t in txns
    {
      this.(lock := if txns[t].verified then Released(t, txns[t].Rows()) else lock, txns := txns - {t})
    }

    /** Recorded versions are versions that were current at some time; updates are a part of the written columns. */
    ghost predicate TxnWf(x: Txn) {
      && x.verRead.Keys <= store.Keys && x.verWrite.Keys <= store.Keys && x.updates.Keys == x.verWrite.Keys
      && store.Keys <= ver.Keys
      && (forall c :: c in x.verRead ==> x.verRead[c] <= ver[c])
    }

    /** A prepared transaction holds every lock it needs and what it read is still current. */
    ghost predicate Covered(t: Tid, x: Txn) {
      && (forall c :: c in x.verRead ==> c in ver && ver[c] == x.verRead[c])
      && (forall c :: c in x.verRead ==> c.row in lock && lock[c.row].HeldBy(t))
      && (forall c :: c in x.verWrite ==> c.row in lock && lock[c.row].writer == Some(t))
    }

    ghost predicate Shape() {
      && ver.Keys == store.Keys
      && (forall c :: c in store ==> c.row in lock)
      && (forall r :: r in lock ==> lock[r].Wf())
    }

    ghost predicate TxnsWf() {
      forall t :: t in txns ==> TxnWf(txns[t])
    }

    ghost predicate AllCovered() {
      forall t :: t in txns && txns[t].verified ==> Covered(t, txns[t])
    }

    /** Only prepared transactions hold locks, and only on their own rows. */
    ghost predicate NoStrayLocks() {
      forall r, t :: r in lock && lock[r].HeldBy(t) ==> t in txns && txns[t].verified && r in txns[t].Rows()
    }

    ghost predicate Wf() {
      Shape() && TxnsWf() && AllCovered() && NoStrayLocks()
    }
  }

  // ---- every call keeps the server well-formed ----

  lemma SameTables(s: Server, s': Server, u: Tid, y: Txn)
    requires s.store == s'.store && s.ver == s'.ver && s.lock == s'.lock
    ensures s.TxnWf(y) == s'.TxnWf(y) && s.Covered(u, y) == s'.Covered(u, y)
  {
  }

  /** Only the entry of `t` changes and it is not prepared. */
  lemma StagingKeepsWf(s: Server, t: Tid, x: Txn)
    requires s.Wf() && s.TxnWf(x) && !x.verified && (t in s.txns ==> !s.txns[t].verified)
    ensures s.(txns := s.txns[t := x]).Wf()
  {
    hide Txn.Rows, Lock.HeldBy, Server.TxnWf, Server.Covered;
    var s' := s.(txns := s.txns[t := x]);
    assert s'.Shape();
    forall u | u in s'.txns
      ensures s'.TxnWf(s'.txns[u]) && (s'.txns[u].verified ==> s'.Covered(u, s'.txns[u]))
    {
      assert u != t ==> s.TxnWf(s.txns[u]);
      SameTables(s, s', u, s'.txns[u]);
    }
    forall r, u | r in s'.lock && s'.lock[r].HeldBy(u)
      ensures u in s'.txns && s'.txns[u].verified && r in s'.txns[u].Rows()
    {
      assert s.lock[r].HeldBy(u);
    }
  }

  lemma OpenKeepsWf(s: Server, t: Tid)
    requires s.Wf() && (t in s.txns ==> !s.txns[t].verified)
    ensures s.(txns := s.txns[t := s.Get(t)]).Wf()
  {
    hide Txn.Rows, Server.Covered, Server.NoStrayLocks;
    StagingKeepsWf(s, t, s.Get(t));
  }

  lemma ReadKeepsWf(s: Server, t: Tid, c: Cell)
    requires s.Wf() && c in s.store && (t in s.txns ==> !s.txns[t].verified)
    ensures s.Read(t, c).Wf()
  {
    hide Txn.Rows, Server.Covered, Server.NoStrayLocks;
    StagingKeepsWf(s, t, s.Read(t, c).txns[t]);
  }

  lemma WriteKeepsWf(s: Server, t: Tid, c: Cell, v: Value)
    requires s.Wf() && c in s.store && (t in s.txns ==> !s.txns[t].verified)
    ensures s.Write(t, c, v).Wf()
  {
    hide Txn.Rows, Server.Covered, Server.NoStrayLocks;
    StagingKeepsWf(s, t, s.Write(t, c, v).txns[t]);
  }

  lemma RowOfRead(x: Txn, c: Cell)
    requires c in x.verRead
    ensures c.row in x.ReadRows() && c.row in x.Rows()
  {
  }

  lemma RowOfWrite(x: Txn, c: Cell)
    requires c in x.verWrite
    ensures c.row in x.WriteRows() && c.row in x.Rows()
  {
  }

  /** A transaction that was prepared is covered ... */
  lemma PreparedIsCovered(s: Server, t: Tid)
    requires s.Wf() && t in s.txns && s.CanPrepare(t)
    ensures s.Prepare(t).Covered(t, s.txns[t].(verified := true))
  {
    hide Txn.Rows, Txn.ReadRows, Txn.WriteRows, Server.AllCovered, Server.NoStrayLocks;
    var s', x := s.Prepare(t), s.txns[t];
    assert s.TxnWf(x);
    forall c | c in x.verRead ensures s'.lock[c.row].HeldBy(t) {
      RowOfRead(x, c);
    }
    forall c | c in x.verWrite ensures s'.lock[c.row].writer == Some(t) {
      RowOfWrite(x, c);
    }
  }

  /** ... and taking locks for `t` never takes one away from a prepared `u`. */
  lemma OthersKeepLocks(s: Server, t: Tid, u: Tid)
    requires s.Wf() && t in s.txns && !s.txns[t].verified && s.CanPrepare(t)
    requires u in s.txns && u != t && s.txns[u].verified
    ensures s.Prepare(t).Covered(u, s.txns[u])
  {
    hide Txn.Rows, Txn.ReadRows, Txn.WriteRows, Server.TxnsWf, Server.NoStrayLocks;
    var s', x, y := s.Prepare(t), s.txns[t], s.txns[u];
    assert s.Covered(u, y);
    forall c | c in y.verRead ensures s'.lock[c.row].HeldBy(u) {
      assert s.lock[c.row].HeldBy(u);
    }
  }

  lemma PrepareKeepsShape(s: Server, t: Tid)
    requires s.Wf() && t in s.txns
    ensures s.Prepare(t).Shape() && s.Prepare(t).TxnsWf()
  {
    hide Txn.Rows, Txn.ReadRows, Txn.WriteRows, Server.AllCovered, Server.NoStrayLocks, Server.CanPrepare;
    var s' := s.Prepare(t);
    forall u | u in s'.txns ensures s'.TxnWf(s'.txns[u]) {
      assert s.TxnWf(s.txns[u]);
    }
  }

  lemma PrepareNoStray(s: Server, t: Tid)
    requires s.Wf() && t in s.txns
    ensures s.Prepare(t).NoStrayLocks()
  {
    hide Txn.ReadRows, Txn.WriteRows, Server.AllCovered, Server.TxnsWf, Server.CanPrepare, Server.Shape;
    var s', x := s.Prepare(t), s.txns[t];
    assert x.(verified := true).Rows() == x.Rows() by { RowsIgnoreFlag(x); }
    forall r, u | r in s'.lock && s'.lock[r].HeldBy(u)
      ensures u in s'.txns && s'.txns[u].verified && r in s'.txns[u].Rows()
    {
      assert s.lock[r].HeldBy(u) || (u == t && r in x.Rows() && s'.txns[t].verified);
    }
  }

  lemma PrepareKeepsWf(s: Server, t: Tid)
    requires s.Wf() && t in s.txns && !s.txns[t].verified
    ensures s.Prepare(t).Wf()
  {
    hide Server.Covered, Server.Shape, Server.TxnsWf, Server.NoStrayLocks, Server.CanPrepare;
    var s' := s.Prepare(t);
    PrepareKeepsShape(s, t);
    PrepareNoStray(s, t);
    if s.CanPrepare(t) {
      forall u | u in s'.txns && s'.txns[u].verified ensures s'.Covered(u, s'.txns[u]) {
        if u == t {
          PreparedIsCovered(s, t);
        } else {
          OthersKeepLocks(s, t, u);
        }
      }
    }
  }

  lemma RowsIgnoreFlag(x: Txn)
    ensures x.(verified := true).Rows() == x.Rows()
  {
  }

  /** Releasing the rows of `t` leaves no lock of `t` anywhere, and takes none of others. */
  lemma NoLockLeft(s: Server, t: Tid)
    requires s.Wf() && t in s.txns
    ensures forall r, u :: r in s.lock ==>
                             (s.Released(t, s.txns[t].Rows())[r].HeldBy(u) <==> s.lock[r].HeldBy(u) && u != t)
  {
    hide Txn.Rows, Server.AllCovered, Server.TxnsWf, Server.Shape;
    forall r, u | r in s.lock
      ensures s.Released(t, s.txns[t].Rows())[r].HeldBy(u) <==> s.lock[r].HeldBy(u) && u != t
    {
      assert s.lock[r].HeldBy(t) ==> r in s.txns[t].Rows();
    }
  }

  /** Another prepared transaction stays covered when `t` releases its locks. */
  lemma ReleaseKeepsCovered(s: Server, t: Tid, u: Tid)
    requires s.Wf() && t in s.txns && u in s.txns && u != t && s.txns[u].verified
    ensures s.(lock := s.Released(t, s.txns[t].Rows())).Covered(u, s.txns[u])
  {
    hide Txn.Rows, Server.TxnsWf, Server.Shape, Server.NoStrayLocks;
    var y := s.txns[u];
    assert s.Covered(u, y);
    var lock' := s.Released(t, s.txns[t].Rows());
    forall c | c in y.verRead ensures lock'[c.row].HeldBy(u) {
      assert s.lock[c.row].HeldBy(u);
    }
  }

  /** Nothing a prepared transaction read can be confirmed by another one. */
  lemma PreparedReadsAreStable(s: Server, t: Tid, u: Tid, c: Cell)
    requires s.Wf() && t in s.txns && u in s.txns && u != t
    requires s.txns[t].verified && s.txns[u].verified && c in s.txns[u].verRead
    ensures c !in s.txns[t].updates
  {
    hide Txn.Rows, Server.NoStrayLocks;
    assert s.Covered(t, s.txns[t]) && s.Covered(u, s.txns[u]) && s.TxnWf(s.txns[t]);
    assert s.lock[c.row].HeldBy(u) && s.lock[c.row].Wf();
  }

  /** Two prepared transactions never write the same column. */
  lemma PreparedWritesAreExclusive(s: Server, t: Tid, u: Tid, c: Cell)
    requires s.Wf() && t in s.txns && u in s.txns
    requires s.txns[t].verified && s.txns[u].verified && c in s.txns[t].updates && c in s.txns[u].updates
    ensures t == u
  {
    hide Txn.Rows, Server.NoStrayLocks;
    assert s.TxnWf(s.txns[t]) && s.TxnWf(s.txns[u]);
    assert s.Covered(t, s.txns[t]) && s.Covered(u, s.txns[u]);
  }

  lemma ConfirmKeepsShape(s: Server, t: Tid)
    requires s.Wf() && t in s.txns
    ensures s.Confirm(t).Shape() && s.Confirm(t).TxnsWf()
  {
    hide Txn.Rows, Server.AllCovered, Server.NoStrayLocks;
    var s' := s.Confirm(t);
    forall u | u in s'.txns ensures s'.TxnWf(s'.txns[u]) {
      assert s.TxnWf(s.txns[u]);
    }
  }

  lemma ConfirmCovers(s: Server, t: Tid, u: Tid)
    requires s.Wf() && t in s.txns && s.txns[t].verified
    requires u in s.txns && u != t && s.txns[u].verified
    ensures s.Confirm(t).Covered(u, s.txns[u])
  {
    hide Txn.Rows, Server.TxnsWf, Server.NoStrayLocks, Server.AllCovered, Server.Shape, Lock.HeldBy, Server.Released;
    ReleaseKeepsCovered(s, t, u);
    forall c | c in s.txns[u].verRead ensures c !in s.txns[t].updates {
      PreparedReadsAreStable(s, t, u, c);
    }
  }

  /** The part of the invariant about holders, for any server with the locks of `t` released and `t` gone. */
  lemma ReleaseNoStray(s: Server, t: Tid, s': Server)
    requires s.Wf() && t in s.txns
    requires s'.lock == s.Released(t, s.txns[t].Rows()) && s'.txns == s.txns - {t}
    ensures s'.NoStrayLocks()
  {
    hide Txn.Rows, Server.AllCovered, Server.TxnsWf, Server.Shape, Lock.HeldBy, Server.Released;
    NoLockLeft(s, t);
    forall r, u | r in s'.lock && s'.lock[r].HeldBy(u)
      ensures u in s'.txns && s'.txns[u].verified && r in s'.txns[u].Rows()
    {
      ReleasedKeys(s, t);
      assert s.lock[r].HeldBy(u) && u != t;
    }
  }

  lemma ReleasedKeys(s: Server, t: Tid)
    requires t in s.txns
    ensures s.Released(t, s.txns[t].Rows()).Keys == s.lock.Keys
  {
  }

  lemma ConfirmKeepsWf(s: Server, t: Tid)
    requires s.Wf() && t in s.txns && s.txns[t].verified
    ensures s.Confirm(t).Wf()
  {
    hide Txn.Rows, Server.Covered, Server.TxnsWf, Server.NoStrayLocks, Server.Shape, Server.Released;
    var s' := s.Confirm(t);
    ConfirmKeepsShape(s, t);
    ReleaseNoStray(s, t, s');
    forall u | u in s'.txns && s'.txns[u].verified ensures s'.Covered(u, s'.txns[u]) {
      ConfirmCovers(s, t, u);
    }
  }

  /** An unprepared transaction holds no lock, so releasing its rows changes nothing. */
  lemma UnpreparedHoldsNothing(s: Server, t: Tid)
    requires s.Wf() && t in s.txns && !s.txns[t].verified
    ensures s.Released(t, s.txns[t].Rows()) == s.lock
  {
    hide Txn.Rows, Server.AllCovered, Server.TxnsWf, Server.Shape;
    forall r | r in s.lock ensures s.lock[r].Unlocked(t) == s.lock[r] {
      assert !s.lock[r].HeldBy(t);
      assert s.lock[r].readers - {t} == s.lock[r].readers;
    }
  }

  lemma AbortKeepsShape(s: Server, t: Tid)
    requires s.Wf() && t in s.txns
    ensures s.Abort(t).Shape() && s.Abort(t).TxnsWf()
  {
    hide Txn.Rows, Server.AllCovered, Server.NoStrayLocks;
    var s' := s.Abort(t);
    forall u | u in s'.txns ensures s'.TxnWf(s'.txns[u]) {
      assert s.TxnWf(s.txns[u]);
    }
  }

  lemma AbortKeepsWf(s: Server, t: Tid)
    requires s.Wf() && t in s.txns
    ensures s.Abort(t).Wf()
  {
    hide Txn.Rows, Server.TxnsWf, Server.NoStrayLocks, Server.Shape, Server.Released, Lock.HeldBy;
    AbortKeepsShape(s, t);
    if !s.txns[t].verified { UnpreparedHoldsNothing(s, t); }
    var s' := s.Abort(t);
    ReleaseNoStray(s, t, s');
    forall u | u in s'.txns && s'.txns[u].verified ensures s'.Covered(u, s'.txns[u]) {
      ReleaseKeepsCovered(s, t, u);
    }
  }
}
