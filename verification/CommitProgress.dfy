/**
  Why transactions abort and that they can commit: the converse of agreement. An attempt is aborted
  only for a refused prepare or a counted error, and a transaction alone on its servers commits.
 */
module CommitProgress {
  import opened Occ
  import opened OccRuns
  import opened TwoPhaseCommit

  // ---- why an attempt was aborted ----

  /** In attempt `n` the prepare on `s` was refused, or its call failed. */
  predicate Refused(facts: set<Fact>, n: nat, s: Sid) {
    PrepareReturned(n, s, false) in facts || ErrorCounted(n, s) in facts
  }

  ghost predicate SomeRefused(facts: set<Fact>, n: nat) {
    exists s :: Refused(facts, n, s)
  }

  /** The reply, then the vote, is what the prepare returned; a prepare returns once. */
  ghost predicate RepliesOk(x: Session) {
    && (forall s: Sid, ok: bool :: PrepareRep(s, ok) in x.net ==> PrepareReturned(x.attempt, s, ok) in x.facts)
    && (forall s: Sid, ok: bool :: PrepareReq(s) in x.net ==> PrepareReturned(x.attempt, s, ok) !in x.facts)
    && (forall n: nat, s: Sid :: !(PrepareReturned(n, s, true) in x.facts && PrepareReturned(n, s, false) in x.facts))
  }

  ghost predicate ReasonsOk(x: Session) {
    && (forall s :: s in x.votes && !x.votes[s] ==> s in x.parts && Refused(x.facts, x.attempt, s))
    && (x.phase == Aborted ==> exists s :: s in x.parts && Refused(x.facts, x.attempt, s))
    && (forall n: nat :: n < x.attempt ==> SomeRefused(x.facts, n))
    && (x.phase == Starting ==> forall f :: f in x.facts ==> f.attempt < x.attempt)
  }

  ghost predicate ToldOk(x: Session) {
    RepliesOk(x) && ReasonsOk(x)
  }

  lemma MoreRefused(x: Session, x': Session)
    requires x.facts <= x'.facts
    ensures forall n: nat :: SomeRefused(x.facts, n) ==> SomeRefused(x'.facts, n)
  {
    forall n: nat | SomeRefused(x.facts, n) ensures SomeRefused(x'.facts, n) {
      var s :| Refused(x.facts, n, s);
      assert Refused(x'.facts, n, s);
    }
  }

  lemma StartTold(x: Session, st: Status, sids: set<Sid>, a: Action)
    requires SessionOk(x, st, sids) && ToldOk(x)
    requires match a
             case SendStart(s, pid) => x.phase == Starting
             case ExecStart(s, pid, _) => StartReq(s, pid) in x.net
             case RecvStart(s, pid) => StartRep(s, pid) in x.net
             case SendPrepare => x.phase == Starting
             case _ => false
    ensures ToldOk(After(x, a, false))
  {
    hide FactsOk, PartOk, VoteOk, FinishOk;
    MoreRefused(x, After(x, a, false));
  }

  lemma PrepareTold(x: Session, st: Status, sids: set<Sid>, s: Sid, ok: bool)
    requires SessionOk(x, st, sids) && ToldOk(x) && PrepareReq(s) in x.net
    ensures ToldOk(After(x, ExecPrepare(s), ok))
  {
    hide SessionOk;
    InPreparing(x, st, sids, PrepareReq(s));
    var x' := After(x, ExecPrepare(s), ok);
    MoreRefused(x, x');
    assert VoteOk(x, st, s);
  }

  lemma CountedTold(x: Session, st: Status, sids: set<Sid>, s: Sid, ok: bool)
    requires SessionOk(x, st, sids) && ToldOk(x) && x.phase == Preparing && s in x.parts
    requires !ok ==> Refused(x.facts, x.attempt, s)
    ensures ToldOk(Counted(x, s, ok))
  {
    hide FactsOk, VotesOk;
    var x' := Counted(x, s, ok);
    if x'.phase == Aborted {
      if ok {
        var p :| p in x.votes && !x.votes[p];
        assert p in x.parts && Refused(x.facts, x.attempt, p);
      }
      assert exists p :: p in x'.parts && Refused(x'.facts, x'.attempt, p);
    }
  }

  lemma ErrorTold(x: Session, s: Sid)
    requires ToldOk(x) && x.phase == Preparing
    ensures ToldOk(x.(facts := x.facts + {ErrorCounted(x.attempt, s)}))
  {
    MoreRefused(x, x.(facts := x.facts + {ErrorCounted(x.attempt, s)}));
  }

  lemma FinishTold(x: Session, st: Status, sids: set<Sid>, a: Action)
    requires SessionOk(x, st, sids) && ToldOk(x)
    requires (a.ExecCommit? && CommitReq(a.s) in x.net) || (a.ExecAbort? && AbortReq(a.s) in x.net) ||
             (a.RecvFinish? && FinishRep(a.s) in x.net)
    ensures ToldOk(After(x, a, false))
  {
    hide SessionOk;
    InEnded(x, st, sids,
            if a.ExecCommit? then CommitReq(a.s) else if a.ExecAbort? then AbortReq(a.s) else FinishRep(a.s));
    var x' := After(x, a, false);
    MoreRefused(x, x');
    if x.phase == Aborted {
      var p :| p in x.parts && Refused(x.facts, x.attempt, p);
      assert p in x'.parts && Refused(x'.facts, x'.attempt, p);
    }
  }

  lemma FreshTold()
    ensures ToldOk(FRESH)
  {
  }

  lemma RestartTold(x: Session)
    requires ToldOk(x) && FactsOk(x) && x.phase == Aborted
    ensures ToldOk(After(x, Restart, false))
  {
    var x' := After(x, Restart, false);
    var p :| p in x.parts && Refused(x.facts, x.attempt, p);
    assert SomeRefused(x.facts, x.attempt);
    MoreRefused(x, x');
  }

  lemma OwnTold(y: Sys, t: Tid, a: Action, y': Sys)
    requires SysInv(y) && Next(y, t, a, y') && (t in y.txn ==> ToldOk(y.txn[t]))
    ensures ToldOk(y'.txn[t])
  {
    hide Inv, StatusOf, SessionOk, Run, Counted, ToldOk, FactsOk;
    var x, st, sids := SessionOf(y, t), StatusOf(y.db, t), y.db.servers.Keys;
    assert TidOk(y, t);
    match a
    case Submit => FreshTold();
    case Restart => SessionFacts(x, st, sids); RestartTold(x);
    case ExecPrepare(s) => PrepareTold(x, st, sids, s, Verified(y'.db, t, s));
    case RecvVote(s, ok) =>
      InPreparing(x, st, sids, PrepareRep(s, ok));
      ReplyTold(x, s, ok);
      CountedTold(x, st, sids, s, ok);
    case VoteError(s) =>
      var m :| m in x.net && m.s == s && (m.PrepareReq? || m.PrepareRep?);
      InPreparing(x, st, sids, m);
      ErrorTold(x, s);
      ErrorNoted(x, st, sids, s);
      CountedTold(x.(facts := x.facts + {ErrorCounted(x.attempt, s)}), st, sids, s, false);
    case ExecCommit(s) => FinishTold(x, st, sids, a);
    case ExecAbort(s) => FinishTold(x, st, sids, a);
    case RecvFinish(s) => FinishTold(x, st, sids, a);
    case _ => StartTold(x, st, sids, a);
  }

  lemma SessionFacts(x: Session, st: Status, sids: set<Sid>)
    requires SessionOk(x, st, sids)
    ensures FactsOk(x)
  {
  }

  lemma ReplyTold(x: Session, s: Sid, ok: bool)
    requires ToldOk(x) && PrepareRep(s, ok) in x.net
    ensures !ok ==> Refused(x.facts, x.attempt, s)
  {
  }

  ghost predicate AllTold(y: Sys) {
    forall t :: t in y.txn ==> ToldOk(y.txn[t])
  }

  lemma {:induction false} HistoryTold(ys: seq<Sys>, y: Sys)
    requires History(ys, y)
    ensures AllTold(y) && SysInv(y)
    decreases |ys|
  {
    hide SysInv, Next, ToldOk;
    HistoryInv(ys, y);
    if |ys| > 1 {
      var ys0, y0 := ys[..|ys| - 1], ys[|ys| - 2];
      HistoryTold(ys0, y0);
      assert Step(y0, y);
      var t: Tid, a :| Next(y0, t, a, y);
      OwnTold(y0, t, a, y);
      OthersSame(y0, t, a, y);
    }
  }

  lemma OthersSame(y: Sys, t: Tid, a: Action, y': Sys)
    requires Next(y, t, a, y')
    ensures t in y'.txn && forall u :: u in y'.txn && u != t ==> u in y.txn && y'.txn[u] == y.txn[u]
  {
    hide Run;
  }

  lemma ReachableTold(y: Sys)
    requires Reachable(y)
    ensures AllTold(y) && SysInv(y)
  {
    hide History, SysInv, AllTold;
    var ys :| History(ys, y);
    HistoryTold(ys, y);
  }

  /** In every reachable state: an aborted attempt, past or present, had a refused prepare or a counted error. */
  lemma AbortHasReason(y: Sys, t: Tid)
    requires Reachable(y) && t in y.txn
    ensures var x := y.txn[t];
            && (x.phase == Aborted ==> exists s :: s in x.parts && Refused(x.facts, x.attempt, s))
            && (forall n: nat :: n < x.attempt ==> SomeRefused(x.facts, n))
  {
    hide Reachable, SysInv, RepliesOk;
    ReachableTold(y);
  }

  /** An ended attempt without errors was committed if and only if every participant's prepare returned success. */
  lemma CommittedIffAllPrepared(y: Sys, t: Tid)
    requires Reachable(y) && t in y.txn && (y.txn[t].phase == Committed || y.txn[t].phase == Aborted)
    requires forall s: Sid :: ErrorCounted(y.txn[t].attempt, s) !in y.txn[t].facts
    ensures var x := y.txn[t];
            x.phase == Committed <==> forall s :: s in x.parts ==> PrepareReturned(x.attempt, s, true) in x.facts
  {
    hide Reachable, Inv, StartingOk, PreparingOk;
    ReachableTold(y);
    assert TidOk(y, t);
    var x := y.txn[t];
    if x.phase == Committed {
      forall s | s in x.parts ensures PrepareReturned(x.attempt, s, true) in x.facts {
        assert FinishOk(x, StatusOf(y.db, t), s);
      }
    } else {
      assert ToldOk(x);
    }
  }

  // ---- a transaction alone on its servers ----

  /** Nobody else is on the server, and nothing `t` touched there has changed. */
  ghost predicate AloneAt(sv: Server, t: Tid) {
    && (forall u :: u in sv.txns ==> u == t)
    && (t in sv.txns ==>
          && !sv.txns[t].verified
          && (forall c :: c in sv.txns[t].verRead ==> c in sv.ver && sv.ver[c] == sv.txns[t].verRead[c])
          && (forall c :: c in sv.txns[t].verWrite ==> c in sv.ver && sv.ver[c] == sv.txns[t].verWrite[c]))
  }

  ghost predicate Alone(d: Db, t: Tid, s: Sid) {
    s in d.servers && AloneAt(d.servers[s], t)
  }

  lemma AloneAccess(sv: Server, t: Tid, c: Cell, v: Value)
    requires AloneAt(sv, t)
    ensures AloneAt(sv.(txns := sv.txns[t := sv.Get(t)]), t)
    ensures c in sv.ver ==> AloneAt(sv.Read(t, c), t) && AloneAt(sv.Write(t, c, v), t)
  {
  }

  lemma AloneEvent(d: Db, e: Event, t: Tid, s: Sid)
    requires Inv(d) && Enabled(d, e) && e.t == t && Alone(d, t, s)
    requires e.Begin? || e.Open? || e.ReadCol? || e.WriteCol? || e.Decide? || (e.Prepare? && e.s != s)
    ensures Alone(Apply(d, e), t, s)
  {
    hide CellsHold, DecidedReads, Staged, TracesHome, TracesOk, Server.Prepare, Server.Read, Server.Write;
    hide Server.Get, AloneAt, Server.Wf;
    if e.ReadCol? || e.WriteCol? {
      ServerWf(d, e.s);
      AloneAccess(d.servers[s], t, e.c, if e.WriteCol? then e.v else 0);
    } else {
      AloneAccess(d.servers[s], t, Cell(0, 0), 0);
    }
  }

  lemma HolderIsPrepared(sv: Server, r: Row, u: Tid)
    requires sv.NoStrayLocks() && r in sv.lock && sv.lock[r].HeldBy(u)
    ensures u in sv.txns && sv.txns[u].verified
  {
  }

  lemma NotHeld(sv: Server, t: Tid, r: Row, u: Tid)
    requires sv.NoStrayLocks() && AloneAt(sv, t) && r in sv.lock
    ensures !sv.lock[r].HeldBy(u)
  {
    if sv.lock[r].HeldBy(u) { HolderIsPrepared(sv, r, u); }
  }

  lemma AllFree(sv: Server, t: Tid, r: Row)
    requires sv.NoStrayLocks() && AloneAt(sv, t) && r in sv.lock
    ensures sv.lock[r].CanRead(t) && sv.lock[r].CanWrite(t)
  {
    hide Server.NoStrayLocks;
    if sv.lock[r].writer.Some? { NotHeld(sv, t, r, sv.lock[r].writer.value); }
    if u :| u in sv.lock[r].readers { NotHeld(sv, t, r, u); }
  }

  lemma AloneFree(sv: Server, t: Tid)
    requires sv.Wf() && AloneAt(sv, t) && t in sv.txns
    ensures sv.CanPrepare(t)
  {
    hide Server.AllCovered;
    assert sv.TxnWf(sv.txns[t]);
    forall r | r in sv.lock ensures sv.lock[r].CanRead(t) && sv.lock[r].CanWrite(t) {
      AllFree(sv, t, r);
    }
  }

  lemma AlonePrepares(d: Db, t: Tid, s: Sid)
    requires Inv(d) && Enabled(d, Prepare(t, s)) && Alone(d, t, s)
    ensures Verified(Apply(d, Prepare(t, s)), t, s)
  {
    hide CellsHold, DecidedReads, Staged, TracesHome, TracesOk, AloneAt, Server.Wf, Server.CanPrepare;
    ServerWf(d, s);
    AloneFree(d.servers[s], t);
  }

  lemma {:induction false} AlonePiece(d: Db, es: seq<Event>, t: Tid, p: Sid, d': Db, s: Sid)
    requires Inv(d) && IsPiece(d, es, t, p) && Run(d, es, d') && Alone(d, t, s)
    ensures Alone(d', t, s)
    decreases |es|
  {
    hide Inv, Apply, Enabled, Alone;
    if es != [] {
      PieceEvent(d, es, t, p);
      AloneEvent(d, es[0], t, s);
      PieceStep(d, es, t, p);
      AlonePiece(Apply(d, es[0]), es[1..], t, p, d', s);
    }
  }

  lemma PieceEvent(d: Db, es: seq<Event>, t: Tid, p: Sid)
    requires IsPiece(d, es, t, p) && es != []
    ensures es[0].t == t && (es[0].Open? || es[0].ReadCol? || es[0].WriteCol?)
  {
  }

  // ---- histories that go on ----

  ghost predicate Path(ys: seq<Sys>) {
    forall i, j :: 0 <= i < j < |ys| && j == i + 1 ==> Step(ys[i], ys[j])
  }

  lemma Extend(ys: seq<Sys>, t: Tid, a: Action, y': Sys)
    requires ys != [] && Path(ys) && Next(ys[|ys| - 1], t, a, y')
    ensures Path(ys + [y']) && (ys + [y'])[0] == ys[0] && (ys + [y'])[|ys|] == y'
  {
    hide Next;
    var zs := ys + [y'];
    forall i, j | 0 <= i < j < |zs| && j == i + 1 ensures Step(zs[i], zs[j]) {
      if j == |ys| { assert Next(zs[i], t, a, zs[j]); }
    }
  }

  lemma CanStep(y: Sys, t: Tid, a: Action) returns (y': Sys)
    requires SysInv(y) && Guard(y, t, a)
    ensures Next(y, t, a, y') && SysInv(y')
  {
    hide SysInv, Guard, Run, Events, After;
    var x := SessionOf(y, t);
    var d' := DbCanMove(y, t, a);
    y' := Sys(d', y.txn[t := After(x, a, a.ExecPrepare? && Verified(d', t, a.s))]);
    NextKeepsInv(y, t, a, y');
  }

  datatype Piece = Piece(s: Sid, ops: seq<ColOp>)

  ghost predicate PiecesOk(d: Db, pieces: seq<Piece>) {
    forall i :: 0 <= i < |pieces| ==>
                  && pieces[i].s in d.servers
                  && forall j :: 0 <= j < |pieces[i].ops| ==> pieces[i].ops[j].c in d.servers[pieces[i].s].store
  }

  ghost predicate AllAlone(d: Db, t: Tid, ss: set<Sid>) {
    forall s :: s in ss ==> Alone(d, t, s)
  }

  /** Between two pieces. */
  ghost predicate Idle(y: Sys, t: Tid, ss: set<Sid>) {
    && SysInv(y) && t in y.txn && y.txn[t].phase == Starting && y.txn[t].attempt == 0 && y.txn[t].pending == {}
    && y.txn[t].parts <= ss && AllAlone(y.db, t, ss)
  }

  lemma SubmitIdle(y: Sys, t: Tid, ss: set<Sid>) returns (y': Sys)
    requires SysInv(y) && t !in y.txn && AllAlone(y.db, t, ss)
    ensures Next(y, t, Submit, y') && Idle(y', t, ss) && SameShape(y.db, y'.db)
  {
    hide SysInv, Run, Alone;
    y' := CanStep(y, t, Submit);
    InvDb(y);
    RunOne(y.db, Begin(t), y'.db);
    LogAndTraces(y.db, Begin(t), t);
    forall s | s in ss ensures Alone(y'.db, t, s) {
      AloneEvent(y.db, Begin(t), t, s);
    }
  }

  lemma InvDb(y: Sys)
    requires SysInv(y)
    ensures Inv(y.db)
  {
    hide Inv, TidOk;
  }

  lemma SendPiece(y: Sys, t: Tid, ss: set<Sid>, pid: nat, p: Sid) returns (y': Sys)
    requires Idle(y, t, ss) && p in ss && p in y.db.servers
    ensures Next(y, t, SendStart(p, pid), y') && SysInv(y') && y'.db == y.db
    ensures y'.txn == y.txn[t := After(y.txn[t], SendStart(p, pid), false)]
  {
    hide SysInv, AllAlone, After;
    y' := CanStep(y, t, SendStart(p, pid));
    RunNone(y.db, y'.db);
  }

  lemma RunPiece(y: Sys, t: Tid, ss: set<Sid>, pid: nat, pc: Piece) returns (y': Sys)
    requires SysInv(y) && t in y.txn && StartReq(pc.s, pid) in y.txn[t].net && AllAlone(y.db, t, ss)
    requires pc.s in y.db.servers && forall j :: 0 <= j < |pc.ops| ==> pc.ops[j].c in y.db.servers[pc.s].store
    ensures Next(y, t, ExecStart(pc.s, pid, pc.ops), y') && SysInv(y') && SameShape(y.db, y'.db)
    ensures AllAlone(y'.db, t, ss)
    ensures y'.txn == y.txn[t := After(y.txn[t], ExecStart(pc.s, pid, pc.ops), false)]
  {
    hide SysInv, Alone, After, Run;
    var a := ExecStart(pc.s, pid, pc.ops);
    y' := CanStep(y, t, a);
    InvDb(y);
    EventsOfOne(y, t, a);
    RunFrame(y.db, Events(y.txn[t], t, a), y'.db, t);
    forall s | s in ss ensures Alone(y'.db, t, s) {
      AlonePiece(y.db, Events(y.txn[t], t, a), t, pc.s, y'.db, s);
    }
  }

  lemma OnePiece(ys: seq<Sys>, t: Tid, ss: set<Sid>, pid: nat, pc: Piece) returns (zs: seq<Sys>)
    requires ys != [] && Path(ys) && Idle(ys[|ys| - 1], t, ss) && pc.s in ss && PiecesOk(ys[|ys| - 1].db, [pc])
    ensures zs != [] && Path(zs) && zs[0] == ys[0] && Idle(zs[|zs| - 1], t, ss)
    ensures SameShape(ys[|ys| - 1].db, zs[|zs| - 1].db)
    ensures zs[|zs| - 1].txn[t].parts == ys[|ys| - 1].txn[t].parts + {pc.s}
  {
    hide SysInv, AllAlone, Path, Next;
    var y := ys[|ys| - 1];
    assert [pc][0] == pc;
    var y1 := SendPiece(y, t, ss, pid, pc.s);
    Extend(ys, t, SendStart(pc.s, pid), y1);
    var y2 := RunPiece(y1, t, ss, pid, pc);
    Extend(ys + [y1], t, ExecStart(pc.s, pid, pc.ops), y2);
    var y3 := CanStep(y2, t, RecvStart(pc.s, pid));
    Extend(ys + [y1] + [y2], t, RecvStart(pc.s, pid), y3);
    Received(y2, t, pc.s, pid, y3);
    zs := ys + [y1] + [y2] + [y3];
  }

  lemma Received(y: Sys, t: Tid, s: Sid, pid: nat, y': Sys)
    requires Next(y, t, RecvStart(s, pid), y')
    ensures y'.db == y.db && t in y.txn && y'.txn == y.txn[t := After(y.txn[t], RecvStart(s, pid), false)]
  {
  }

  function ServersOf(pieces: seq<Piece>): set<Sid> {
    set i | 0 <= i < |pieces| :: pieces[i].s
  }

  lemma {:induction false} AllPieces(ys: seq<Sys>, t: Tid, ss: set<Sid>, pieces: seq<Piece>) returns (zs: seq<Sys>)
    requires ys != [] && Path(ys) && Idle(ys[|ys| - 1], t, ss) && ServersOf(pieces) <= ss
    requires PiecesOk(ys[|ys| - 1].db, pieces)
    ensures zs != [] && Path(zs) && zs[0] == ys[0] && Idle(zs[|zs| - 1], t, ss)
    ensures zs[|zs| - 1].txn[t].parts == ys[|ys| - 1].txn[t].parts + ServersOf(pieces)
    decreases |pieces|
  {
    hide Idle, Path;
    zs := ys;
    if pieces != [] {
      assert pieces[0].s in ServersOf(pieces);
      SplitPieces(ys[|ys| - 1].db, pieces);
      zs := OnePiece(ys, t, ss, |pieces|, pieces[0]);
      SameShapePieces(ys[|ys| - 1].db, zs[|zs| - 1].db, pieces[1..]);
      zs := AllPieces(zs, t, ss, pieces[1..]);
    }
  }

  lemma SplitPieces(d: Db, pieces: seq<Piece>)
    requires pieces != []
    ensures ServersOf(pieces) == {pieces[0].s} + ServersOf(pieces[1..])
    ensures PiecesOk(d, pieces) ==> PiecesOk(d, [pieces[0]]) && PiecesOk(d, pieces[1..])
  {
    forall i | 0 < i < |pieces| ensures pieces[i].s in ServersOf(pieces[1..]) {
      assert pieces[1..][i - 1] == pieces[i];
    }
    forall i | 0 <= i < |pieces[1..]| ensures pieces[1..][i].s in ServersOf(pieces) {
      assert pieces[1..][i] == pieces[i + 1];
    }
    assert pieces[0].s in ServersOf(pieces);
  }

  lemma SameShapePieces(d: Db, d': Db, pieces: seq<Piece>)
    requires PiecesOk(d, pieces) && SameShape(d, d')
    ensures PiecesOk(d', pieces)
  {
  }

  // ---- votes ----

  /** Every participant's vote is still asked for, or is a yes. */
  ghost predicate Voting(y: Sys, t: Tid) {
    && SysInv(y) && t in y.txn && y.txn[t].phase == Preparing && y.txn[t].attempt == 0 && y.txn[t].commit
    && (forall s :: s in y.txn[t].parts && s !in y.txn[t].votes ==> PrepareReq(s) in y.txn[t].net && Alone(y.db, t, s))
  }

  lemma AskVotes(ys: seq<Sys>, t: Tid, ss: set<Sid>) returns (zs: seq<Sys>)
    requires ys != [] && Path(ys) && Idle(ys[|ys| - 1], t, ss) && ys[|ys| - 1].txn[t].parts != {}
    ensures zs != [] && Path(zs) && zs[0] == ys[0] && Voting(zs[|zs| - 1], t)
    ensures zs[|zs| - 1].txn[t].parts == ys[|ys| - 1].txn[t].parts
  {
    hide SysInv, Path, Alone, Run;
    var y := ys[|ys| - 1];
    var y' := CanStep(y, t, SendPrepare);
    RunNone(y.db, y'.db);
    Extend(ys, t, SendPrepare, y');
    StartingCommit(y, t);
    zs := ys + [y'];
  }

  lemma StartingCommit(y: Sys, t: Tid)
    requires SysInv(y) && t in y.txn && y.txn[t].phase == Starting
    ensures y.txn[t].commit && y.txn[t].votes == map[]
  {
    hide Inv, PartOk;
    assert TidOk(y, t);
  }

  lemma PreparedYes(y: Sys, t: Tid, p: Sid) returns (y': Sys)
    requires Voting(y, t) && p in y.txn[t].parts && p !in y.txn[t].votes
    ensures Next(y, t, ExecPrepare(p), y') && SysInv(y')
    ensures y'.txn == y.txn[t := After(y.txn[t], ExecPrepare(p), true)]
    ensures forall s :: s != p && Alone(y.db, t, s) ==> Alone(y'.db, t, s)
  {
    hide SysInv, Run, Alone, After, Apply;
    y' := CanStep(y, t, ExecPrepare(p));
    InvDb(y);
    RunOne(y.db, Prepare(t, p), y'.db);
    AlonePrepares(y.db, t, p);
    forall s | s != p && Alone(y.db, t, s) ensures Alone(y'.db, t, s) {
      AloneEvent(y.db, Prepare(t, p), t, s);
    }
  }

  /** The vote of `p` and, if it is the last one, the decision. */
  lemma OneVote(ys: seq<Sys>, t: Tid, p: Sid) returns (zs: seq<Sys>)
    requires ys != [] && Path(ys) && Voting(ys[|ys| - 1], t)
    requires p in ys[|ys| - 1].txn[t].parts && p !in ys[|ys| - 1].txn[t].votes
    ensures zs != [] && Path(zs) && zs[0] == ys[0]
    ensures var x, y' := ys[|ys| - 1].txn[t], zs[|zs| - 1];
            && SysInv(y') && t in y'.txn && y'.txn[t].parts == x.parts && y'.txn[t].attempt == 0
            && if LastVote(x) then y'.txn[t].phase == Committed
               else Voting(y', t) && y'.txn[t].votes == x.votes[p := true]
  {
    hide SysInv, Path, Alone, Run, Next;
    var y := ys[|ys| - 1];
    var y1 := PreparedYes(y, t, p);
    Extend(ys, t, ExecPrepare(p), y1);
    var y2 := CanStep(y1, t, RecvVote(p, true));
    Extend(ys + [y1], t, RecvVote(p, true), y2);
    VoteCounted(y1, t, p, y2);
    zs := ys + [y1] + [y2];
  }

  lemma VoteCounted(y: Sys, t: Tid, p: Sid, y': Sys)
    requires SysInv(y) && Next(y, t, RecvVote(p, true), y') && t in y.txn
    ensures y'.txn == y.txn[t := Counted(y.txn[t], p, true)]
    ensures !LastVote(y.txn[t]) ==> y'.db == y.db
  {
    hide SysInv;
  }

  lemma {:induction false} AllVotes(ys: seq<Sys>, t: Tid) returns (zs: seq<Sys>)
    requires ys != [] && Path(ys) && Voting(ys[|ys| - 1], t)
    ensures zs != [] && Path(zs) && zs[0] == ys[0]
    ensures var y' := zs[|zs| - 1];
            SysInv(y') && t in y'.txn && y'.txn[t].phase == Committed && y'.txn[t].attempt == 0 &&
            y'.txn[t].parts == ys[|ys| - 1].txn[t].parts
    decreases |ys[|ys| - 1].txn[t].parts - ys[|ys| - 1].txn[t].votes.Keys|
  {
    hide SysInv, Path;
    var x := ys[|ys| - 1].txn[t];
    VotesMissing(ys[|ys| - 1], t);
    var p :| p in x.parts - x.votes.Keys;
    zs := OneVote(ys, t, p);
    if !LastVote(x) {
      assert x.parts - x.votes[p := true].Keys == x.parts - x.votes.Keys - {p};
      zs := AllVotes(zs, t);
    }
  }

  lemma VotesMissing(y: Sys, t: Tid)
    requires SysInv(y) && t in y.txn && y.txn[t].phase == Preparing
    ensures y.txn[t].parts - y.txn[t].votes.Keys != {}
  {
    hide Inv, VotesOk;
    assert TidOk(y, t);
    var x := y.txn[t];
    if x.parts - x.votes.Keys == {} {
      forall s | s in x.parts ensures s in x.votes.Keys {
        assert s !in x.parts - x.votes.Keys;
      }
      SubsetSize(x.parts, x.votes.Keys);
    }
  }

  // ---- finishing ----

  ghost function Unfinished(x: Session): set<Sid> {
    set s | s in x.parts && CommitReq(s) in x.net
  }

  lemma {:induction false} AllFinish(ys: seq<Sys>, t: Tid) returns (zs: seq<Sys>)
    requires ys != [] && Path(ys) && SysInv(ys[|ys| - 1]) && t in ys[|ys| - 1].txn
    requires ys[|ys| - 1].txn[t].phase == Committed
    ensures zs != [] && Path(zs) && zs[0] == ys[0] && t in zs[|zs| - 1].txn
    ensures var x, x' := ys[|ys| - 1].txn[t], zs[|zs| - 1].txn[t];
            && x'.phase == Committed && x'.parts == x.parts && x'.attempt == x.attempt
            && forall s :: s in x'.parts ==> CommittedOn(x'.attempt, s) in x'.facts
    decreases |Unfinished(ys[|ys| - 1].txn[t])|
  {
    hide SysInv, Path, Run;
    var y := ys[|ys| - 1];
    zs := ys;
    if Unfinished(y.txn[t]) == {} {
      forall s | s in y.txn[t].parts ensures CommittedOn(y.txn[t].attempt, s) in y.txn[t].facts {
        assert s !in Unfinished(y.txn[t]);
        FinishedHere(y, t, s);
      }
    } else {
      var s :| s in Unfinished(y.txn[t]);
      var y' := CanStep(y, t, ExecCommit(s));
      Extend(ys, t, ExecCommit(s), y');
      assert Unfinished(y'.txn[t]) == Unfinished(y.txn[t]) - {s};
      zs := AllFinish(ys + [y'], t);
    }
  }

  lemma FinishedHere(y: Sys, t: Tid, s: Sid)
    requires SysInv(y) && t in y.txn && y.txn[t].phase == Committed && s in y.txn[t].parts
    requires CommitReq(s) !in y.txn[t].net
    ensures CommittedOn(y.txn[t].attempt, s) in y.txn[t].facts
  {
    hide Inv, StartingOk, PreparingOk;
    assert TidOk(y, t);
    assert FinishOk(y.txn[t], StatusOf(y.db, t), s);
  }

  /**
    From any reachable state, a new transaction whose servers nobody uses, whatever its pieces, can be
    committed on all of them at the first attempt.
   */
  lemma AloneCommits(y: Sys, t: Tid, pieces: seq<Piece>) returns (ys: seq<Sys>)
    requires Reachable(y) && t !in y.txn && pieces != [] && PiecesOk(y.db, pieces)
    requires forall s, u :: s in ServersOf(pieces) ==> !Live(y.db, u, s)
    ensures ys != [] && Path(ys) && ys[0] == y && t in ys[|ys| - 1].txn
    ensures var x := ys[|ys| - 1].txn[t];
            && x.phase == Committed && x.attempt == 0 && x.parts == ServersOf(pieces)
            && forall s :: s in x.parts ==> CommittedOn(0, s) in x.facts
  {
    hide Reachable, SysInv, Path, Next;
    ReachableInv(y);
    var ss := ServersOf(pieces);
    forall s | s in ss ensures Alone(y.db, t, s) {
      Unused(y.db, t, s, pieces);
    }
    var y1 := SubmitIdle(y, t, ss);
    OnePath(y);
    Extend([y], t, Submit, y1);
    SameShapePieces(y.db, y1.db, pieces);
    NoParts(y, t, y1);
    ys := AllPieces([y] + [y1], t, ss, pieces);
    assert pieces[0].s in ss;
    ys := AskVotes(ys, t, ss);
    ys := AllVotes(ys, t);
    ys := AllFinish(ys, t);
  }

  lemma Unused(d: Db, t: Tid, s: Sid, pieces: seq<Piece>)
    requires s in ServersOf(pieces) && PiecesOk(d, pieces) && forall u :: !Live(d, u, s)
    ensures Alone(d, t, s)
  {
    var i :| 0 <= i < |pieces| && pieces[i].s == s;
    assert d.servers[s].txns == map[] by {
      forall u ensures u !in d.servers[s].txns {
        assert !Live(d, u, s);
      }
    }
  }

  lemma OnePath(y: Sys)
    ensures Path([y])
  {
  }

  lemma NoParts(y: Sys, t: Tid, y': Sys)
    requires Next(y, t, Submit, y')
    ensures t in y'.txn && y'.txn[t].parts == {}
  {
  }
}
