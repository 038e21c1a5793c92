/**
  The optimistic transaction as the server runs it: row locks, version checks and lock
  acquisition column by column, release on failure. Each call is proved to do to the
  server what `Occ.Server` says.
 */
module OccTxn {
  import opened Common
  import opened Occ

  /** A row lock with owners; a sole reader can upgrade. */
  class RWLock {
    var wlocked: bool
    var w: Tid
    var r: set<Tid>

    ghost predicate Valid()
      reads this
    {
      wlocked ==> r == {}
    }

    ghost function Value(): Lock
      reads this
    {
      Lock(if wlocked then Some(w) else None, r)
    }

    constructor ()
      ensures Valid() && Value() == Lock(None, {})
    {
      wlocked, w, r := false, 0, {};
    }

    method WLockBy(o: Tid) returns (ok: bool)
      requires Valid()
      modifies this
      ensures Valid()
      ensures ok == old(Value()).CanWrite(o)
      ensures Value() == if ok then old(Value()).WLocked(o) else old(Value())
    {
      if wlocked {
        return o == w;
      } else if r == {} {
        wlocked, w := true, o;
        return true;
      } else if o in r && |r| == 1 {
        assert r == {o} by {
          assert |r - {o}| == 0;
        }
        r, wlocked, w := r - {o}, true, o;
        return true;
      } else {
        assert o in r ==> r != {o};
        return false;
      }
    }

    method RLockBy(o: Tid) returns (ok: bool)
      requires Valid()
      modifies this
      ensures Valid()
      ensures ok == old(Value()).CanRead(o)
      ensures Value() == if ok then old(Value()).RLocked(o) else old(Value())
    {
      if wlocked {
        return o == w;
      }
      r := r + {o};
      return true;
    }

    method UnlockBy(o: Tid) returns (held: bool)
      requires Valid()
      modifies this
      ensures Valid()
      ensures held == old(Value()).HeldBy(o)
      ensures Value() == old(Value()).Unlocked(o)
    {
      held := false;
      if wlocked && o == w {
        wlocked := false;
        held := true;
      }
      if o in r {
        r := r - {o};
        held := true;
      }
    }
  }

  /** The versioned rows of a server: column values, column versions, one lock per row. */
  class Rows {
    var store: map<Cell, Value>
    var ver: map<Cell, nat>
    const lock: map<Row, RWLock>

    constructor (store: map<Cell, Value>, ver: map<Cell, nat>, lock: map<Row, RWLock>)
      ensures this.store == store && this.ver == ver && this.lock == lock
    {
      this.store, this.ver, this.lock := store, ver, lock;
    }

    ghost function LockSet(): set<RWLock> {
      set r | r in lock :: lock[r]
    }

    ghost predicate Valid()
      reads LockSet()
    {
      && (forall r :: r in lock ==> lock[r].Valid())
      && (forall r1, r2 :: r1 in lock && r2 in lock && lock[r1] == lock[r2] ==> r1 == r2)
    }

    ghost function Locks(): (m: map<Row, Lock>)
      reads LockSet()
      ensures m.Keys == lock.Keys
    {
      map r | r in lock :: lock[r].Value()
    }

    /** The server these rows belong to, with the given transactions. */
    ghost function AsServer(txns: map<Tid, Txn>): Server
      reads this, LockSet()
    {
      Server(store, ver, Locks(), txns)
    }

    method WLockRow(r: Row, o: Tid) returns (ok: bool)
      requires Valid() && r in lock
      modifies LockSet()
      ensures Valid() && ok == old(Locks())[r].CanWrite(o)
      ensures Locks() == if ok then old(Locks())[r := old(Locks())[r].WLocked(o)] else old(Locks())
    {
      ok := lock[r].WLockBy(o);
    }

    method RLockRow(r: Row, o: Tid) returns (ok: bool)
      requires Valid() && r in lock
      modifies LockSet()
      ensures Valid() && ok == old(Locks())[r].CanRead(o)
      ensures Locks() == if ok then old(Locks())[r := old(Locks())[r].RLocked(o)] else old(Locks())
    {
      ok := lock[r].RLockBy(o);
    }

    method UnlockRow(r: Row, o: Tid)
      requires Valid() && r in lock
      modifies LockSet()
      ensures Valid() && Locks() == old(Locks())[r := old(Locks())[r].Unlocked(o)]
    {
      var _ := lock[r].UnlockBy(o);
    }

    /** Apply the updates one column at a time, bumping its version. */
    method ApplyUpdates(updates: map<Cell, Value>)
      requires updates.Keys <= store.Keys && updates.Keys <= ver.Keys
      modifies this
      ensures store == Updated(old(store), updates, updates.Keys)
      ensures ver == Bumped(old(ver), updates.Keys)
    {
      hide Updated, Bumped;
      var todo := updates.Keys;
      ghost var done := {};
      NothingApplied(store, updates, ver);
      while todo != {}
        invariant todo <= updates.Keys && done == updates.Keys - todo
        invariant store == Updated(old(store), updates, done)
        invariant ver == Bumped(old(ver), done)
      {
        var c :| c in todo;
        ApplyOne(old(store), updates, old(ver), done, c);
        store := store[c := updates[c]];
        ver := ver[c := ver[c] + 1];
        todo := todo - {c};
        done := done + {c};
      }
      assert done == updates.Keys;
    }

    /** `version_check` of one map. */
    method VersionCheck(info: map<Cell, nat>) returns (ok: bool)
      requires info.Keys <= ver.Keys
      ensures ok <==> forall c :: c in info ==> ver[c] == info[c]
    {
      var todo := info.Keys;
      while todo != {}
        invariant todo <= info.Keys
        invariant forall c :: c in info && c !in todo ==> ver[c] == info[c]
      {
        var c :| c in todo;
        if ver[c] != info[c] {
          return false;
        }
        todo := todo - {c};
      }
      return true;
    }
  }

  class TxnOCC {
    const id: Tid
    const rows: Rows
    var verRead: map<Cell, nat>
    var verWrite: map<Cell, nat>
    var updates: map<Cell, Value>
    var locks: seq<Row>
    var verified: bool

    constructor (id: Tid, rows: Rows)
      ensures this.id == id && this.rows == rows && locks == [] && AsTxn() == EMPTY_TXN
    {
      this.id, this.rows := id, rows;
      verRead, verWrite, updates, locks, verified := map[], map[], map[], [], false;
    }

    ghost function AsTxn(): Txn
      reads this
    {
      Txn(verRead, verWrite, updates, verified)
    }

    /** `locks` names the rows locked so far: those of a prepared transaction, else none. */
    ghost predicate Valid()
      reads this, rows, rows.LockSet()
    {
      && rows.Valid()
      && (forall r :: r in locks <==> verified && r in AsTxn().Rows())
    }

    ghost predicate In(txns: map<Tid, Txn>)
      reads this, rows, rows.LockSet()
    {
      Valid() && id in txns && txns[id] == AsTxn() && rows.AsServer(txns).Wf()
    }

    method ReadColumn(c: Cell, ghost txns: map<Tid, Txn>) returns (v: Value)
      requires In(txns) && c in rows.store
      modifies this
      ensures v == rows.AsServer(txns).ReadValue(id, c)
      ensures rows.AsServer(txns[id := AsTxn()]) == rows.AsServer(txns).Read(id, c)
      ensures !verified ==> In(txns[id := AsTxn()])
    {
      hide Server.Wf, Txn.Rows, Lock.Wf, RWLock.Value;
      ghost var sv := rows.AsServer(txns);
      VersionsCover(sv);
      if !verified { ReadKeepsWf(sv, id, c); }
      if c in updates {
        v := updates[c];
      } else {
        if c !in verRead {
          verRead := verRead[c := rows.ver[c]];
        }
        v := rows.store[c];
      }
      assert rows.AsServer(txns[id := AsTxn()]) == sv.Read(id, c);
    }

    method WriteColumn(c: Cell, v: Value, ghost txns: map<Tid, Txn>)
      requires In(txns) && c in rows.store
      modifies this
      ensures rows.AsServer(txns[id := AsTxn()]) == rows.AsServer(txns).Write(id, c, v)
      ensures !verified ==> In(txns[id := AsTxn()])
    {
      hide Server.Wf, Txn.Rows, Lock.Wf, RWLock.Value, Server.Write;
      ghost var sv := rows.AsServer(txns);
      VersionsCover(sv);
      WriteIs(sv, id, c, v);
      if !verified { WriteKeepsWf(sv, id, c, v); }
      if c in updates {
        updates := updates[c := v];
      } else {
        if c !in verWrite {
          verWrite := verWrite[c := rows.ver[c]];
        }
        updates := updates[c := v];
      }
      assert rows.AsServer(txns[id := AsTxn()]) == sv.Write(id, c, v);
    }

    ghost function LockedRows(): set<Row>
      reads this
    {
      Elems(locks)
    }

    /** Unlock every row in `locks`, which may name a row several times. */
    method ReleaseLocks()
      requires rows.Valid() && LockedRows() <= rows.lock.Keys
      modifies this`locks, rows.LockSet()
      ensures rows.Valid() && locks == []
      ensures rows.Locks() == Unlocks(old(rows.Locks()), id, old(LockedRows()))
    {
      hide Rows.Valid, Lock.Unlocked;
      ghost var was := rows.Locks();
      var i := 0;
      while i < |locks|
        modifies rows.LockSet()
        invariant 0 <= i <= |locks| && rows.Valid()
        invariant rows.Locks() == Unlocks(was, id, Elems(locks[..i]))
      {
        assert locks[i] in LockedRows();
        UnlockStep(was, id, locks, i);
        rows.UnlockRow(locks[i], id);
        i := i + 1;
      }
      assert locks[..i] == locks;
      locks := [];
    }

    /** One step of locking: a read lock on `r`, or back to the start. */
    method LockRead(r: Row, ghost was: map<Row, Lock>, ghost rd: set<Row>) returns (ok: bool)
      requires rows.Valid() && NoneHeld(was, id) && rd + {r} <= was.Keys == rows.lock.Keys
      requires rows.Locks() == WithLocks(was, id, rd, {}) && LockedRows() == rd
      requires forall p :: p in rd ==> was[p].CanRead(id)
      modifies this`locks, rows.LockSet()
      ensures rows.Valid() && ok == was[r].CanRead(id)
      ensures rows.Locks() == if ok then WithLocks(was, id, rd + {r}, {}) else was
      ensures if ok then LockedRows() == rd + {r} else locks == []
    {
      hide Rows.Valid, Rows.Locks, WithLocks, Unlocks, NoneHeld, Elems, Lock.CanRead, Lock.RLocked;
      ReadLockStep(was, id, rd, r);
      ok := rows.RLockRow(r, id);
      if ok {
        ElemsAppend(locks, r);
        locks := locks + [r];
      } else {
        GiveBack(was, id, rd, {});
        assert rd + {} == rd;
        ReleaseLocks();
      }
    }

    method LockWrite(r: Row, ghost was: map<Row, Lock>, ghost rd: set<Row>, ghost wr: set<Row>) returns (ok: bool)
      requires rows.Valid() && NoneHeld(was, id) && rd + wr + {r} <= was.Keys == rows.lock.Keys
      requires rows.Locks() == WithLocks(was, id, rd, wr) && LockedRows() == rd + wr
      requires forall p :: p in rd ==> was[p].CanRead(id)
      requires forall p :: p in wr ==> was[p].CanWrite(id)
      modifies this`locks, rows.LockSet()
      ensures rows.Valid() && ok == was[r].CanWrite(id)
      ensures rows.Locks() == if ok then WithLocks(was, id, rd, wr + {r}) else was
      ensures if ok then LockedRows() == rd + (wr + {r}) else locks == []
    {
      hide Rows.Valid, Rows.Locks, WithLocks, Unlocks, NoneHeld, Elems, Lock.CanRead, Lock.CanWrite, Lock.WLocked;
      WriteLockStep(was, id, rd, wr, r);
      ok := rows.WLockRow(r, id);
      if ok {
        ElemsAppend(locks, r);
        locks := locks + [r];
      } else {
        GiveBack(was, id, rd, wr);
        ReleaseLocks();
      }
    }

    /** Read locks for every column read, or none. */
    method LockReads() returns (ok: bool)
      requires rows.Valid() && locks == [] && AsTxn().ReadRows() <= rows.lock.Keys && NoneHeld(rows.Locks(), id)
      modifies this`locks, rows.LockSet()
      ensures rows.Valid()
      ensures ok <==> forall r :: r in AsTxn().ReadRows() ==> old(rows.Locks())[r].CanRead(id)
      ensures rows.Locks() == if ok then WithLocks(old(rows.Locks()), id, AsTxn().ReadRows(), {}) else old(rows.Locks())
      ensures if ok then LockedRows() == AsTxn().ReadRows() else locks == []
    {
      hide Rows.Valid, Rows.Locks, WithLocks, Lock.CanRead, NoneHeld, Elems, Txn.ReadRows;
      var todo := verRead.Keys;
      ghost var was, done, x := rows.Locks(), {}, AsTxn();
      NoLocks(was, id);
      NoElems();
      while todo != {}
        modifies this`locks, rows.LockSet()
        invariant todo <= verRead.Keys && rows.Valid()
        invariant Elems(locks) == done <= x.ReadRows()
        invariant forall c :: c in verRead && c !in todo ==> c.row in done
        invariant forall r :: r in done ==> was[r].CanRead(id)
        invariant rows.Locks() == WithLocks(was, id, done, {})
      {
        var c :| c in todo;
        RowOfRead(x, c);
        ok := LockRead(c.row, was, done);
        if !ok {
          return;
        }
        todo := todo - {c};
        done := done + {c.row};
      }
      AllReadRows(x, done);
      return true;
    }

    /** Write locks for every column written, upgrading read locks; or give back all locks. */
    method LockWrites(ghost was: map<Row, Lock>) returns (ok: bool)
      requires rows.Valid() && AsTxn().Rows() <= rows.lock.Keys == was.Keys && NoneHeld(was, id)
      requires forall r :: r in AsTxn().ReadRows() ==> was[r].CanRead(id)
      requires rows.Locks() == WithLocks(was, id, AsTxn().ReadRows(), {}) && LockedRows() == AsTxn().ReadRows()
      modifies this`locks, rows.LockSet()
      ensures rows.Valid()
      ensures ok <==> forall r :: r in AsTxn().WriteRows() ==> was[r].CanWrite(id)
      ensures rows.Locks() == if ok then WithLocks(was, id, AsTxn().ReadRows(), AsTxn().WriteRows()) else was
      ensures if ok then LockedRows() == AsTxn().Rows() else locks == []
    {
      hide Rows.Valid, Rows.Locks, WithLocks, Lock.CanRead, Lock.CanWrite, NoneHeld, Elems, Txn.ReadRows, Txn.WriteRows;
      var todo := verWrite.Keys;
      ghost var done, x := {}, AsTxn();
      ghost var rd := x.ReadRows();
      while todo != {}
        modifies this`locks, rows.LockSet()
        invariant todo <= verWrite.Keys && rows.Valid()
        invariant Elems(locks) == rd + done && done <= x.WriteRows()
        invariant forall c :: c in verWrite && c !in todo ==> c.row in done
        invariant forall r :: r in done ==> was[r].CanWrite(id)
        invariant rows.Locks() == WithLocks(was, id, rd, done)
      {
        var c :| c in todo;
        RowOfWrite(x, c);
        ok := LockWrite(c.row, was, rd, done);
        if !ok {
          return;
        }
        todo := todo - {c};
        done := done + {c.row};
      }
      AllWriteRows(x, done);
      return true;
    }

    lemma NoneNamed()
      requires Valid() && !verified
      ensures locks == []
    {
      if |locks| > 0 {
        assert locks[0] in locks;
      }
    }

    /** Both halves. */
    method LockAll() returns (ok: bool)
      requires rows.Valid() && locks == [] && AsTxn().Rows() <= rows.lock.Keys && NoneHeld(rows.Locks(), id)
      modifies this`locks, rows.LockSet()
      ensures rows.Valid()
      ensures ok <==> (forall r :: r in AsTxn().ReadRows() ==> old(rows.Locks())[r].CanRead(id)) &&
                      (forall r :: r in AsTxn().WriteRows() ==> old(rows.Locks())[r].CanWrite(id))
      ensures ok ==> rows.Locks() == WithLocks(old(rows.Locks()), id, AsTxn().ReadRows(), AsTxn().WriteRows())
      ensures ok ==> LockedRows() == AsTxn().Rows()
      ensures !ok ==> rows.Locks() == old(rows.Locks()) && locks == []
    {
      hide Rows.Valid, Rows.Locks, WithLocks, NoneHeld, Elems, Txn.ReadRows, Txn.WriteRows, Lock.CanRead, Lock.CanWrite;
      ghost var was := rows.Locks();
      ok := LockReads();
      if ok {
        ok := LockWrites(was);
      }
    }

    /** `commit_prepare`. */
    method CommitPrepare(ghost txns: map<Tid, Txn>) returns (ok: bool)
      requires In(txns) && !verified
      modifies this`locks, this`verified, rows.LockSet()
      ensures ok == verified == old(rows.AsServer(txns)).CanPrepare(id)
      ensures rows.AsServer(txns[id := AsTxn()]) == old(rows.AsServer(txns)).Prepare(id)
      ensures In(txns[id := AsTxn()])
    {
      hide Server.Wf, Rows.Valid, Rows.Locks, NoneHeld, WithLocks, Elems;
      hide Lock.CanRead, Lock.CanWrite, Txn.ReadRows, Txn.WriteRows, Server.Prepare;
      ghost var sv := rows.AsServer(txns);
      PrepareKeepsWf(sv, id);
      BeforePrepare(sv, id);
      NoneNamed();
      ok := rows.VersionCheck(verRead);
      if ok {
        ok := rows.VersionCheck(verWrite);
      }
      if ok {
        ok := LockAll();
      }
      verified := ok;
      PrepareResult(sv, id, ok, rows.Locks(), AsTxn());
      RowsIgnoreFlag(sv.txns[id]);
      NamedRows(locks, ok, AsTxn());
    }

    /** `commit_confirm`: apply the updates, bump their versions, release. */
    method CommitConfirm(ghost txns: map<Tid, Txn>)
      requires In(txns) && verified
      modifies this, rows, rows.LockSet()
      ensures rows.AsServer(txns - {id}) == old(rows.AsServer(txns)).Confirm(id)
      ensures rows.Valid() && rows.AsServer(txns - {id}).Wf() && locks == []
    {
      hide Server.Wf, Rows.Valid, Rows.Locks, Lock.Unlocked, Updated, Bumped, Unlocks, Server.Confirm, Txn.Rows;
      ghost var sv, x := rows.AsServer(txns), AsTxn();
      ConfirmKeepsWf(sv, id);
      UpdatesInStore(sv, id);
      RowsNamed(locks, x);
      ConfirmResult(sv, id);
      rows.ApplyUpdates(updates);
      ReleaseLocks();
      verRead, verWrite, updates := map[], map[], map[];
    }

    /** `abort`: release. */
    method Abort(ghost txns: map<Tid, Txn>)
      requires In(txns)
      modifies this, rows.LockSet()
      ensures rows.AsServer(txns - {id}) == old(rows.AsServer(txns)).Abort(id)
      ensures rows.Valid() && rows.AsServer(txns - {id}).Wf() && locks == []
    {
      hide Server.Wf, Rows.Valid, Rows.Locks, Lock.Unlocked, Unlocks, Server.Abort, Txn.Rows;
      ghost var sv, x := rows.AsServer(txns), AsTxn();
      AbortKeepsWf(sv, id);
      UpdatesInStore(sv, id);
      AbortResult(sv, id, locks);
      ReleaseLocks();
      verRead, verWrite, updates := map[], map[], map[];
    }
  }

  ghost function Elems(rows: seq<Row>): set<Row> {
    set r | r in rows
  }

  lemma NoElems()
    ensures Elems([]) == {}
  {
  }

  lemma ElemsAppend(rows: seq<Row>, r: Row)
    ensures Elems(rows + [r]) == Elems(rows) + {r}
  {
  }

  lemma AllReadRows(x: Txn, done: set<Row>)
    requires done <= x.ReadRows() && forall c :: c in x.verRead ==> c.row in done
    ensures done == x.ReadRows()
  {
  }

  lemma AllWriteRows(x: Txn, done: set<Row>)
    requires done <= x.WriteRows() && forall c :: c in x.verWrite ==> c.row in done
    ensures done == x.WriteRows()
  {
  }

  ghost function Updated(store: map<Cell, Value>, updates: map<Cell, Value>, done: set<Cell>): map<Cell, Value>
    requires done <= updates.Keys
  {
    map c | c in store :: if c in done then updates[c] else store[c]
  }

  ghost function Bumped(ver: map<Cell, nat>, done: set<Cell>): map<Cell, nat> {
    map c | c in ver :: if c in done then ver[c] + 1 else ver[c]
  }

  lemma NothingApplied(store: map<Cell, Value>, updates: map<Cell, Value>, ver: map<Cell, nat>)
    ensures Updated(store, updates, {}) == store && Bumped(ver, {}) == ver
  {
  }

  lemma ApplyOne(store: map<Cell, Value>, updates: map<Cell, Value>, ver: map<Cell, nat>, done: set<Cell>, c: Cell)
    requires done <= updates.Keys && c in updates && c !in done && c in store && c in ver
    ensures Updated(store, updates, done + {c}) == Updated(store, updates, done)[c := updates[c]]
    ensures c in Bumped(ver, done) && Bumped(ver, done + {c}) == Bumped(ver, done)[c := Bumped(ver, done)[c] + 1]
  {
  }

  /** `t` holds read locks on `rd`, write locks on `wr`; the rest is as in `lock`. */
  ghost function WithLocks(lock: map<Row, Lock>, t: Tid, rd: set<Row>, wr: set<Row>): map<Row, Lock> {
    map r | r in lock :: if r in wr then lock[r].WLocked(t) else if r in rd then lock[r].RLocked(t) else lock[r]
  }

  ghost function Unlocks(lock: map<Row, Lock>, t: Tid, rows: set<Row>): map<Row, Lock> {
    map r | r in lock :: if r in rows then lock[r].Unlocked(t) else lock[r]
  }

  ghost predicate NoneHeld(lock: map<Row, Lock>, t: Tid) {
    forall r :: r in lock ==> lock[r].Wf() && !lock[r].HeldBy(t)
  }

  lemma NoLocks(lock: map<Row, Lock>, t: Tid)
    ensures WithLocks(lock, t, {}, {}) == lock
  {
  }

  lemma UnlockStep(lock: map<Row, Lock>, t: Tid, rows: seq<Row>, i: nat)
    requires i < |rows| && rows[i] in lock
    ensures var a := Unlocks(lock, t, Elems(rows[..i]));
            rows[i] in a && Unlocks(lock, t, Elems(rows[..i + 1])) == a[rows[i] := a[rows[i]].Unlocked(t)]
  {
    assert rows[..i + 1] == rows[..i] + [rows[i]];
    assert Elems(rows[..i + 1]) == Elems(rows[..i]) + {rows[i]};
    var a := Unlocks(lock, t, Elems(rows[..i]));
    forall r | r in lock ensures Unlocks(lock, t, Elems(rows[..i + 1]))[r] == a[rows[i] := a[rows[i]].Unlocked(t)][r] {
      assert lock[r].Unlocked(t).Unlocked(t) == lock[r].Unlocked(t);
    }
  }

  lemma ReadLockStep(lock: map<Row, Lock>, t: Tid, rd: set<Row>, r: Row)
    requires NoneHeld(lock, t) && r in lock && forall p :: p in rd ==> p in lock && lock[p].CanRead(t)
    ensures var a := WithLocks(lock, t, rd, {});
            && a.Keys == lock.Keys && (a[r].CanRead(t) <==> lock[r].CanRead(t))
            && (lock[r].CanRead(t) ==> WithLocks(lock, t, rd + {r}, {}) == a[r := a[r].RLocked(t)])
  {
  }

  lemma WriteLockStep(lock: map<Row, Lock>, t: Tid, rd: set<Row>, wr: set<Row>, r: Row)
    requires NoneHeld(lock, t) && r in lock && forall p :: p in rd ==> p in lock && lock[p].CanRead(t)
    ensures var a := WithLocks(lock, t, rd, wr);
            && a.Keys == lock.Keys && (r !in wr ==> (a[r].CanWrite(t) <==> lock[r].CanWrite(t)))
            && (r in wr ==> a[r].CanWrite(t))
            && WithLocks(lock, t, rd, wr + {r}) == a[r := a[r].WLocked(t)]
  {
    assert lock[r].Wf() && !lock[r].HeldBy(t);
  }

  /** Locks taken by a transaction that held none are given back without a trace. */
  lemma GiveBack(lock: map<Row, Lock>, t: Tid, rd: set<Row>, wr: set<Row>)
    requires NoneHeld(lock, t)
    requires forall r :: r in wr && r in lock ==> lock[r].CanWrite(t)
    ensures Unlocks(WithLocks(lock, t, rd, wr), t, rd + wr) == lock
  {
    forall r | r in lock ensures Unlocks(WithLocks(lock, t, rd, wr), t, rd + wr)[r] == lock[r] {
      assert lock[r].Wf() && !lock[r].HeldBy(t);
    }
  }

  lemma WriteIs(s: Server, t: Tid, c: Cell, v: Value)
    requires t in s.txns && c in s.ver
    ensures var x := s.txns[t];
            var vw := if c in x.updates || c in x.verWrite then x.verWrite else x.verWrite[c := s.ver[c]];
            s.Write(t, c, v) == s.(txns := s.txns[t := x.(updates := x.updates[c := v], verWrite := vw)])
  {
  }

  lemma VersionsCover(s: Server)
    requires s.Wf()
    ensures s.ver.Keys == s.store.Keys
  {
  }

  /** Before prepare a transaction holds no lock. */
  lemma BeforePrepare(s: Server, t: Tid)
    requires s.Wf() && t in s.txns && !s.txns[t].verified
    ensures NoneHeld(s.lock, t) && s.txns[t].Rows() <= s.lock.Keys
    ensures s.txns[t].verRead.Keys <= s.ver.Keys && s.txns[t].verWrite.Keys <= s.ver.Keys
  {
    hide Server.AllCovered;
    assert s.TxnWf(s.txns[t]);
  }

  lemma UpdatesInStore(s: Server, t: Tid)
    requires s.Wf() && t in s.txns
    ensures s.txns[t].updates.Keys <= s.store.Keys == s.ver.Keys && s.txns[t].Rows() <= s.lock.Keys
  {
    hide Server.AllCovered, Server.NoStrayLocks;
    assert s.TxnWf(s.txns[t]);
  }

  lemma PrepareResult(s: Server, t: Tid, ok: bool, lock': map<Row, Lock>, x': Txn)
    requires s.Wf() && t in s.txns && !s.txns[t].verified && (ok <==> s.CanPrepare(t))
    requires lock' == if ok then WithLocks(s.lock, t, s.txns[t].ReadRows(), s.txns[t].WriteRows()) else s.lock
    requires x' == s.txns[t].(verified := ok)
    ensures s.Prepare(t) == Server(s.store, s.ver, lock', s.txns[t := x'])
  {
    hide Server.CanPrepare, Server.Wf, Lock.WLocked, Lock.RLocked;
  }

  lemma NamedRows(locks: seq<Row>, ok: bool, x: Txn)
    requires if ok then Elems(locks) == x.Rows() else locks == []
    ensures forall r :: r in locks <==> ok && r in x.Rows()
  {
    assert forall r :: r in locks <==> r in Elems(locks);
  }

  lemma RowsNamed(locks: seq<Row>, x: Txn)
    requires forall r :: r in locks <==> r in x.Rows()
    ensures Elems(locks) == x.Rows()
  {
  }

  lemma ConfirmResult(s: Server, t: Tid)
    requires s.Wf() && t in s.txns
    ensures var x := s.txns[t];
            s.Confirm(t) == Server(Updated(s.store, x.updates, x.updates.Keys), Bumped(s.ver, x.updates.Keys),
                                   Unlocks(s.lock, t, x.Rows()), s.txns - {t})
  {
    hide Server.Wf, Txn.Rows;
  }

  lemma AbortResult(s: Server, t: Tid, locks: seq<Row>)
    requires t in s.txns && forall r :: r in locks <==> s.txns[t].verified && r in s.txns[t].Rows()
    ensures s.Abort(t) == s.(lock := Unlocks(s.lock, t, Elems(locks)), txns := s.txns - {t})
    ensures Elems(locks) <= s.txns[t].Rows()
  {
    hide Txn.Rows;
  }
}
