/**
  When a prepare succeeds, told by what happened before it: the accesses, confirms and aborts of
  the run, without the versions and locks by which the servers find out.
 */
module OccPrepare {
  import opened Common
  import opened Occ
  import opened OccRuns

  // ---- what happened ----

  /** The transaction is gone from the server. */
  predicate Ends(e: Event, t: Tid, s: Sid) {
    (e.Confirm? || e.Abort?) && e.t == t && e.s == s
  }

  predicate WritesCell(e: Event, t: Tid, s: Sid, c: Cell) {
    e.WriteCol? && e.t == t && e.s == s && e.c == c
  }

  predicate Accesses(e: Event, t: Tid, s: Sid, c: Cell) {
    WritesCell(e, t, s, c) || e == ReadCol(t, s, c)
  }

  /** Since it is on the server, the transaction has read or written the cell ... */
  predicate Touched(es: seq<Event>, t: Tid, s: Sid, c: Cell) {
    es != [] &&
    var e := es[|es| - 1];
    !Ends(e, t, s) && (Accesses(e, t, s, c) || Touched(es[..|es| - 1], t, s, c))
  }

  /** ... has written it ... */
  predicate Wrote(es: seq<Event>, t: Tid, s: Sid, c: Cell) {
    es != [] &&
    var e := es[|es| - 1];
    !Ends(e, t, s) && (WritesCell(e, t, s, c) || Wrote(es[..|es| - 1], t, s, c))
  }

  /** ... and after it had read or written it, a confirm of another wrote it. */
  predicate Overwritten(es: seq<Event>, t: Tid, s: Sid, c: Cell) {
    es != [] &&
    var e, before := es[|es| - 1], es[..|es| - 1];
    && !Ends(e, t, s)
    && (Overwritten(before, t, s, c) ||
        (e.Confirm? && e.s == s && Wrote(before, e.t, s, c) && Touched(before, t, s, c)))
  }

  /** One has written a row the other has touched. */
  ghost predicate Conflict(es: seq<Event>, t: Tid, u: Tid, s: Sid) {
    exists c: Cell, c2: Cell ::
      c.row == c2.row &&
      ((Touched(es, t, s, c) && Wrote(es, u, s, c2)) || (Wrote(es, t, s, c) && Touched(es, u, s, c2)))
  }

  // ---- what the servers keep of it ----

  ghost predicate Keeps(es: seq<Event>, sv: Server, t: Tid, s: Sid, c: Cell) {
    if t !in sv.txns then !Touched(es, t, s, c) && !Wrote(es, t, s, c) && !Overwritten(es, t, s, c)
    else
      var x := sv.txns[t];
      && (c in x.verRead || c in x.verWrite <==> Touched(es, t, s, c))
      && (c in x.verWrite <==> Wrote(es, t, s, c))
      && (c in x.verRead ==> c in sv.ver && x.verRead[c] <= sv.ver[c])
      && (c in x.verWrite ==> c in sv.ver && x.verWrite[c] <= sv.ver[c])
      && (Overwritten(es, t, s, c) <==>
            || (c in x.verRead && sv.ver[c] != x.verRead[c])
            || (c in x.verWrite && sv.ver[c] != x.verWrite[c]))
  }

  /** Write locks are on rows that were written. */
  ghost predicate WritersWrote(sv: Server) {
    forall r :: r in sv.lock && sv.lock[r].writer.Some? ==>
                  sv.lock[r].writer.value in sv.txns && r in sv.txns[sv.lock[r].writer.value].WriteRows()
  }

  lemma Last(es: seq<Event>, e: Event)
    ensures (es + [e])[..|es + [e]| - 1] == es && (es + [e])[|es + [e]| - 1] == e
  {
  }

  /** An event on another server, or of no server, changes nothing here. */
  lemma KeepsElsewhere(es: seq<Event>, e: Event, sv: Server, t: Tid, s: Sid, c: Cell)
    requires Keeps(es, sv, t, s, c) && (e.Begin? || e.Decide? || e.Forget? || e.s != s)
    ensures Keeps(es + [e], sv, t, s, c)
  {
    Last(es, e);
  }

  lemma KeepsOpen(es: seq<Event>, sv: Server, u: Tid, t: Tid, s: Sid, c: Cell)
    requires Keeps(es, sv, t, s, c)
    ensures Keeps(es + [Open(u, s)], sv.(txns := sv.txns[u := sv.Get(u)]), t, s, c)
  {
    Last(es, Open(u, s));
  }

  lemma KeepsRead(es: seq<Event>, sv: Server, u: Tid, k: Cell, t: Tid, s: Sid, c: Cell)
    requires Keeps(es, sv, t, s, c) && k in sv.ver && (u in sv.txns ==> sv.TxnWf(sv.txns[u]))
    ensures Keeps(es + [ReadCol(u, s, k)], sv.Read(u, k), t, s, c)
  {
    Last(es, ReadCol(u, s, k));
  }

  lemma KeepsWrite(es: seq<Event>, sv: Server, u: Tid, k: Cell, v: Value, t: Tid, s: Sid, c: Cell)
    requires Keeps(es, sv, t, s, c) && k in sv.ver && (u in sv.txns ==> sv.TxnWf(sv.txns[u]))
    ensures Keeps(es + [WriteCol(u, s, k, v)], sv.Write(u, k, v), t, s, c)
  {
    Last(es, WriteCol(u, s, k, v));
  }

  lemma KeepsPrepare(es: seq<Event>, sv: Server, u: Tid, t: Tid, s: Sid, c: Cell)
    requires Keeps(es, sv, t, s, c) && sv.Wf() && u in sv.txns
    ensures Keeps(es + [Prepare(u, s)], sv.Prepare(u), t, s, c)
  {
    hide Server.Wf, Server.CanPrepare;
    Last(es, Prepare(u, s));
  }

  lemma KeepsConfirm(es: seq<Event>, sv: Server, u: Tid, t: Tid, s: Sid, c: Cell)
    requires Keeps(es, sv, t, s, c) && Keeps(es, sv, u, s, c) && u in sv.txns && sv.TxnWf(sv.txns[u])
    ensures Keeps(es + [Confirm(u, s)], sv.Confirm(u), t, s, c)
  {
    hide Server.Released;
    Last(es, Confirm(u, s));
  }

  lemma KeepsAbort(es: seq<Event>, sv: Server, u: Tid, t: Tid, s: Sid, c: Cell)
    requires Keeps(es, sv, t, s, c) && u in sv.txns
    ensures Keeps(es + [Abort(u, s)], sv.Abort(u), t, s, c)
  {
    hide Server.Released;
    Last(es, Abort(u, s));
  }

  lemma WritersStage(sv: Server, u: Tid, x: Txn)
    requires WritersWrote(sv) && (u in sv.txns ==> sv.txns[u].WriteRows() <= x.WriteRows())
    ensures WritersWrote(sv.(txns := sv.txns[u := x]))
  {
    hide Txn.WriteRows;
  }

  lemma MoreWritten(x: Txn, y: Txn)
    requires x.verWrite.Keys <= y.verWrite.Keys
    ensures x.WriteRows() <= y.WriteRows()
  {
  }

  lemma WritersPrepare(sv: Server, u: Tid)
    requires WritersWrote(sv) && sv.Wf() && u in sv.txns
    ensures WritersWrote(sv.Prepare(u))
  {
    hide Server.Wf, Server.CanPrepare, Txn.WriteRows, Txn.ReadRows;
    SameWriteRows(sv.txns[u]);
  }

  lemma SameWriteRows(x: Txn)
    ensures x.(verified := true).WriteRows() == x.WriteRows()
  {
  }

  /** Releasing frees every row the transaction has a lock on. */
  lemma WritersRelease(sv: Server, u: Tid, sv': Server)
    requires WritersWrote(sv) && u in sv.txns && sv'.txns == sv.txns - {u}
    requires sv'.lock == sv.Released(u, sv.txns[u].Rows()) || (sv'.lock == sv.lock && sv.NoStrayLocks() &&
             !sv.txns[u].verified)
    ensures WritersWrote(sv')
  {
    hide Txn.WriteRows, Txn.ReadRows;
    forall r | r in sv'.lock && sv'.lock[r].writer.Some?
      ensures sv'.lock[r].writer.value in sv'.txns && r in sv'.txns[sv'.lock[r].writer.value].WriteRows()
    {
      assert sv'.lock[r].writer == sv.lock[r].writer;
      assert sv.lock[r].HeldBy(sv.lock[r].writer.value);
    }
  }

  // ---- every event keeps it ----

  ghost predicate KeptAt(es: seq<Event>, sv: Server, s: Sid) {
    (forall t, c :: Keeps(es, sv, t, s, c)) && WritersWrote(sv)
  }

  lemma AccessKept(es: seq<Event>, sv: Server, s: Sid, e: Event, sv': Server)
    requires KeptAt(es, sv, s) && sv.Wf() && (e.Open? || e.ReadCol? || e.WriteCol?) && e.s == s
    requires e.Open? || e.c in sv.ver
    requires sv' == match e
                    case Open(u, _) => sv.(txns := sv.txns[u := sv.Get(u)])
                    case ReadCol(u, _, c) => sv.Read(u, c)
                    case WriteCol(u, _, c, v) => sv.Write(u, c, v)
    ensures KeptAt(es + [e], sv', s)
  {
    hide Server.NoStrayLocks, Server.AllCovered, Server.Shape, Server.TxnWf, Keeps, WritersWrote;
    forall t, c ensures Keeps(es + [e], sv', t, s, c) {
      match e
      case Open(u, _) => KeepsOpen(es, sv, u, t, s, c);
      case ReadCol(u, _, k) => KeepsRead(es, sv, u, k, t, s, c);
      case WriteCol(u, _, k, v) => KeepsWrite(es, sv, u, k, v, t, s, c);
    }
    MoreWritten(sv.Get(e.t), sv'.txns[e.t]);
    WritersStage(sv, e.t, sv'.txns[e.t]);
  }

  lemma EndKept(es: seq<Event>, sv: Server, s: Sid, e: Event, sv': Server)
    requires KeptAt(es, sv, s) && sv.Wf() && (e.Prepare? || e.Confirm? || e.Abort?) && e.s == s && e.t in sv.txns
    requires e.Confirm? ==> sv.txns[e.t].verified
    requires sv' == match e
                    case Prepare(u, _) => sv.Prepare(u)
                    case Confirm(u, _) => sv.Confirm(u)
                    case Abort(u, _) => sv.Abort(u)
    ensures KeptAt(es + [e], sv', s)
  {
    hide Server.AllCovered, Server.Shape, Server.TxnWf, Server.CanPrepare, Server.Released, Keeps, WritersWrote;
    hide Server.NoStrayLocks;
    forall t, c ensures Keeps(es + [e], sv', t, s, c) {
      match e
      case Prepare(u, _) => KeepsPrepare(es, sv, u, t, s, c);
      case Confirm(u, _) => KeepsConfirm(es, sv, u, t, s, c);
      case Abort(u, _) => KeepsAbort(es, sv, u, t, s, c);
    }
    if e.Prepare? { WritersPrepare(sv, e.t); } else { WritersRelease(sv, e.t, sv'); }
  }

  lemma ElsewhereKept(es: seq<Event>, sv: Server, s: Sid, e: Event)
    requires KeptAt(es, sv, s) && (e.Begin? || e.Decide? || e.Forget? || e.s != s)
    ensures KeptAt(es + [e], sv, s)
  {
    hide Keeps, WritersWrote;
    forall t, c ensures Keeps(es + [e], sv, t, s, c) {
      KeepsElsewhere(es, e, sv, t, s, c);
    }
  }

  ghost predicate AllKept(es: seq<Event>, d: Db) {
    forall s :: s in d.servers ==> KeptAt(es, d.servers[s], s)
  }

  lemma StepKept(es: seq<Event>, d: Db, e: Event)
    requires AllKept(es, d) && Inv(d) && Enabled(d, e)
    ensures AllKept(es + [e], Apply(d, e))
  {
    hide KeptAt, Server.Wf, CellsOk, LogOk, StagedAt, TracesHome, CellsHold, DecidedReads, TracesOk, Server.Prepare;
    hide Server.Read, Server.Write, Server.Confirm, Server.Abort, Server.Get;
    var d' := Apply(d, e);
    forall s | s in d'.servers ensures KeptAt(es + [e], d'.servers[s], s) {
      if e.Begin? || e.Decide? || e.Forget? || e.s != s {
        ElsewhereKept(es, d.servers[s], s, e);
      } else {
        ServerWf(d, s);
        if e.Open? || e.ReadCol? || e.WriteCol? {
          AccessKept(es, d.servers[s], s, e, d'.servers[s]);
        } else {
          if e.Confirm? { DecidedIsVerified(d, e.t, s); }
          EndKept(es, d.servers[s], s, e, d'.servers[s]);
        }
      }
    }
  }

  lemma {:induction false} RunKept(pre: seq<Event>, d: Db, es: seq<Event>, d': Db)
    requires AllKept(pre, d) && Inv(d) && Run(d, es, d')
    ensures AllKept(pre + es, d') && Inv(d')
    decreases |es|
  {
    hide AllKept, Inv, Enabled, Apply;
    if es == [] {
      assert pre + es == pre;
    } else {
      StepKept(pre, d, es[0]);
      StepKeepsInv(d, es[0]);
      RunKept(pre + [es[0]], Apply(d, es[0]), es[1..], d');
      assert pre + [es[0]] + es[1..] == pre + es;
    }
  }

  lemma InitialKept(d: Db)
    requires Initial(d)
    ensures AllKept([], d)
  {
  }

  // ---- when a prepare succeeds ----

  lemma CurrentIff(es: seq<Event>, sv: Server, t: Tid, s: Sid)
    requires KeptAt(es, sv, s) && sv.Wf() && t in sv.txns
    ensures sv.VersionsOk(sv.txns[t]) <==> forall c :: !Overwritten(es, t, s, c)
  {
    hide Server.NoStrayLocks, Server.AllCovered, Touched, Wrote, Overwritten, WritersWrote;
    var x := sv.txns[t];
    assert sv.TxnWf(x);
    if sv.VersionsOk(x) {
      forall c ensures !Overwritten(es, t, s, c) {
        assert Keeps(es, sv, t, s, c);
      }
    } else {
      var c :| (c in x.verRead && sv.ver[c] != x.verRead[c]) || (c in x.verWrite && sv.ver[c] != x.verWrite[c]);
      assert Keeps(es, sv, t, s, c) && Overwritten(es, t, s, c);
      assert exists k :: Overwritten(es, t, s, k);
    }
  }

  lemma RowTouched(es: seq<Event>, sv: Server, t: Tid, s: Sid, r: Row)
    requires KeptAt(es, sv, s) && t in sv.txns
    ensures r in sv.txns[t].WriteRows() <==> exists c: Cell :: c.row == r && Wrote(es, t, s, c)
    ensures r in sv.txns[t].Rows() <==> exists c: Cell :: c.row == r && Touched(es, t, s, c)
  {
    hide Overwritten, Touched, Wrote, WritersWrote;
    var x := sv.txns[t];
    forall c
      ensures c in x.verRead || c in x.verWrite <==> Touched(es, t, s, c)
      ensures c in x.verWrite <==> Wrote(es, t, s, c)
    {
      assert Keeps(es, sv, t, s, c);
    }
    if r in x.WriteRows() {
      var c :| c in x.verWrite && c.row == r;
      assert Wrote(es, t, s, c);
    }
    if r in x.Rows() {
      var c :| (c in x.verWrite || c in x.verRead) && c.row == r;
      assert Touched(es, t, s, c);
    }
  }

  /** Two transactions on a server conflict if one has written a row of the other. */
  ghost predicate RowConflict(x: Txn, y: Txn) {
    x.Rows() * y.WriteRows() != {} || x.WriteRows() * y.Rows() != {}
  }

  lemma ConflictIff(es: seq<Event>, sv: Server, t: Tid, u: Tid, s: Sid)
    requires KeptAt(es, sv, s) && t in sv.txns && u in sv.txns
    ensures Conflict(es, t, u, s) <==> RowConflict(sv.txns[t], sv.txns[u])
  {
    hide KeptAt, Touched, Wrote, Txn.Rows, Txn.WriteRows;
    var x, y := sv.txns[t], sv.txns[u];
    forall r
      ensures r in x.WriteRows() <==> exists c: Cell :: c.row == r && Wrote(es, t, s, c)
      ensures r in y.WriteRows() <==> exists c: Cell :: c.row == r && Wrote(es, u, s, c)
      ensures r in x.Rows() <==> exists c: Cell :: c.row == r && Touched(es, t, s, c)
      ensures r in y.Rows() <==> exists c: Cell :: c.row == r && Touched(es, u, s, c)
    {
      RowTouched(es, sv, t, s, r);
      RowTouched(es, sv, u, s, r);
    }
    if Conflict(es, t, u, s) {
      var c: Cell, c2: Cell :| c.row == c2.row &&
        ((Touched(es, t, s, c) && Wrote(es, u, s, c2)) || (Wrote(es, t, s, c) && Touched(es, u, s, c2)));
      assert c.row in x.Rows() * y.WriteRows() || c.row in x.WriteRows() * y.Rows();
    }
    if RowConflict(x, y) {
      var r :| r in x.Rows() * y.WriteRows() || r in x.WriteRows() * y.Rows();
    }
  }

  /** A write lock of another is a row it wrote, any lock of another a row it touched. */
  lemma FreeIff(sv: Server, t: Tid)
    requires sv.Wf() && WritersWrote(sv) && t in sv.txns
    ensures sv.LocksFree(t, sv.txns[t]) <==>
            forall u :: u in sv.txns && u != t && sv.txns[u].verified ==> !RowConflict(sv.txns[t], sv.txns[u])
  {
    var x := sv.txns[t];
    if sv.LocksFree(t, x) {
      forall u | u in sv.txns && u != t && sv.txns[u].verified ensures !RowConflict(x, sv.txns[u]) {
        if RowConflict(x, sv.txns[u]) { ConflictBlocks(sv, t, u); }
      }
    } else {
      var u := BlockedBy(sv, t);
    }
  }

  lemma ConflictBlocks(sv: Server, t: Tid, u: Tid)
    requires sv.Wf() && t in sv.txns && u in sv.txns && u != t && sv.txns[u].verified
    requires RowConflict(sv.txns[t], sv.txns[u])
    ensures !sv.LocksFree(t, sv.txns[t])
  {
    hide Server.NoStrayLocks, Server.TxnsWf;
    var x, y := sv.txns[t], sv.txns[u];
    assert sv.Covered(u, y);
    hide Server.AllCovered;
    if r :| r in x.Rows() * y.WriteRows() {
      var c :| c in y.verWrite && c.row == r;
      assert sv.lock[r].writer == Some(u);
    } else {
      var r :| r in x.WriteRows() * y.Rows();
      var c :| (c in y.verWrite || c in y.verRead) && c.row == r;
      assert sv.lock[r].HeldBy(u) && sv.lock[r].Wf();
    }
  }

  lemma BlockedBy(sv: Server, t: Tid) returns (u: Tid)
    requires sv.Wf() && WritersWrote(sv) && t in sv.txns && !sv.LocksFree(t, sv.txns[t])
    ensures u in sv.txns && u != t && sv.txns[u].verified && RowConflict(sv.txns[t], sv.txns[u])
  {
    hide Server.AllCovered;
    var x := sv.txns[t];
    if r :| r in x.ReadRows() && !sv.lock[r].CanRead(t) {
      u := sv.lock[r].writer.value;
      assert sv.lock[r].HeldBy(u) && r in x.Rows() * sv.txns[u].WriteRows();
    } else {
      var r :| r in x.WriteRows() && !sv.lock[r].CanWrite(t);
      if sv.lock[r].writer.Some? {
        u := sv.lock[r].writer.value;
      } else {
        u :| u in sv.lock[r].readers && u != t;
      }
      assert sv.lock[r].HeldBy(u);
      assert r in x.WriteRows() * sv.txns[u].Rows();
    }
  }

  /**
    Over any run: a prepare succeeds if and only if no confirm has written a cell of the transaction
    since it first read or wrote it, and no other prepared transaction on the server has written a
    row it touched or touched a row it wrote.
   */
  lemma PrepareSucceedsIff(d0: Db, es: seq<Event>, d: Db, t: Tid, s: Sid)
    requires Initial(d0) && Run(d0, es, d) && Enabled(d, Prepare(t, s))
    ensures Inv(d)
    ensures Verified(Apply(d, Prepare(t, s)), t, s) <==>
            && (forall c :: !Overwritten(es, t, s, c))
            && (forall u :: u != t && Verified(d, u, s) ==> !Conflict(es, t, u, s))
  {
    hide Run, Initial, Inv, KeptAt, Conflict, RowConflict, Server.Wf, Overwritten, Server.VersionsOk, Server.LocksFree;
    InitialInv(d0);
    InitialKept(d0);
    RunKept([], d0, es, d);
    assert [] + es == es;
    var sv := d.servers[s];
    InvServer(d, s);
    KeptWriters(es, sv, s);
    CurrentIff(es, sv, t, s);
    FreeIff(sv, t);
    PrepareMeans(d, t, s);
    forall u ensures Verified(d, u, s) && Conflict(es, t, u, s) <==>
                     u in sv.txns && sv.txns[u].verified && RowConflict(sv.txns[t], sv.txns[u])
    {
      if u in sv.txns { ConflictIff(es, sv, t, u, s); }
    }
  }

  lemma PrepareMeans(d: Db, t: Tid, s: Sid)
    requires Inv(d) && Enabled(d, Prepare(t, s)) && d.servers[s].Wf()
    ensures Verified(Apply(d, Prepare(t, s)), t, s) <==>
            d.servers[s].VersionsOk(d.servers[s].txns[t]) && d.servers[s].LocksFree(t, d.servers[s].txns[t])
  {
    hide Inv, Server.VersionsOk, Server.LocksFree, Server.Wf;
  }

  lemma InvServer(d: Db, s: Sid)
    requires Inv(d) && s in d.servers
    ensures d.servers[s].Wf()
  {
    hide Server.Wf, CellsHold, DecidedReads, Staged, TracesHome, TracesOk;
  }

  lemma KeptWriters(es: seq<Event>, sv: Server, s: Sid)
    requires KeptAt(es, sv, s)
    ensures WritersWrote(sv)
  {
  }
}
