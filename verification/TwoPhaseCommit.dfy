/**
  The coordinator's two-phase commit over the optimistic servers: requests and replies
  in flight, vote counting, decisions, finishes and retries, in any interleaving.
 */
module TwoPhaseCommit {
  import opened Occ
  import opened OccRuns

  datatype Phase = Starting | Preparing | Committed | Aborted

  datatype Msg =
    | StartReq(s: Sid, pid: nat)
    | StartRep(s: Sid, pid: nat)
    | PrepareReq(s: Sid)
    | PrepareRep(s: Sid, ok: bool)
    | CommitReq(s: Sid)
    | AbortReq(s: Sid)
    | FinishRep(s: Sid)

  /** What happened on a server, for the statement of agreement. */
  datatype Fact =
    | PrepareReturned(attempt: nat, s: Sid, ok: bool)
    | CommittedOn(attempt: nat, s: Sid)
    | AbortedOn(attempt: nat, s: Sid)
    | ErrorCounted(attempt: nat, s: Sid)

  /**
    One transaction at its coordinator, with its requests and replies in flight. `parts` is
    `proxies_`; `votes` and `finished` record which replies the counters have counted;
    `attempt` counts retries, which reuse the transaction id.
   */
  datatype Session = Session(
    phase: Phase, attempt: nat, parts: set<Sid>, pending: set<(Sid, nat)>,
    nPrepared: nat, nFinished: nat, commit: bool,
    votes: map<Sid, bool>, finished: set<Sid>, net: set<Msg>, facts: set<Fact>)

  datatype Sys = Sys(db: Db, txn: map<Tid, Session>)

  datatype ColOp = RdCol(c: Cell) | WrCol(c: Cell, v: Value)

  datatype Action =
    | Submit
    | SendStart(s: Sid, pid: nat)
    | ExecStart(s: Sid, pid: nat, ops: seq<ColOp>)
    | RecvStart(s: Sid, pid: nat)
    | SendPrepare
    | ExecPrepare(s: Sid)
    | RecvVote(s: Sid, ok: bool)
    | VoteError(s: Sid)
    | ExecCommit(s: Sid)
    | ExecAbort(s: Sid)
    | RecvFinish(s: Sid)
    | Restart

  // ---- steps ----

  const FRESH := Session(Starting, 0, {}, {}, 0, 0, true, map[], {}, {}, {})

  /** What the protocol itself checks before a step: a message is there, or the coordinator has come to that point. */
  ghost predicate Guard(y: Sys, t: Tid, a: Action) {
    if a.Submit? then t !in y.txn
    else
      t in y.txn &&
      var x := y.txn[t];
      match a
      case SendStart(s, pid) => x.phase == Starting && s in y.db.servers && (s, pid) !in x.pending
      case ExecStart(s, pid, ops) =>
        StartReq(s, pid) in x.net && s in y.db.servers &&
        forall i :: 0 <= i < |ops| ==> ops[i].c in y.db.servers[s].store
      case RecvStart(s, pid) => StartRep(s, pid) in x.net
      case SendPrepare => x.phase == Starting && x.pending == {} && x.parts != {}
      case ExecPrepare(s) => PrepareReq(s) in x.net
      case RecvVote(s, ok) => PrepareRep(s, ok) in x.net
      case VoteError(s) => PrepareReq(s) in x.net || PrepareRep(s, true) in x.net || PrepareRep(s, false) in x.net
      case ExecCommit(s) => CommitReq(s) in x.net
      case ExecAbort(s) => AbortReq(s) in x.net
      case RecvFinish(s) => FinishRep(s) in x.net
      case Restart => x.phase == Aborted && x.nFinished == |x.parts|
      case Submit => true
  }

  function OpEvent(t: Tid, s: Sid, op: ColOp): Event {
    match op
    case RdCol(c) => ReadCol(t, s, c)
    case WrCol(c, v) => WriteCol(t, s, c, v)
  }

  predicate LastVote(x: Session) {
    x.nPrepared + 1 == |x.parts|
  }

  function VoteEvents(x: Session, t: Tid, ok: bool): seq<Event> {
    if LastVote(x) then [if x.commit && ok then Decide(t) else Forget(t)] else []
  }

  /** What a step does to the servers and the decision log. */
  function Events(x: Session, t: Tid, a: Action): seq<Event> {
    match a
    case Submit => [Begin(t)]
    case Restart => [Begin(t)]
    case ExecStart(s, pid, ops) => [Open(t, s)] + seq(|ops|, i requires 0 <= i < |ops| => OpEvent(t, s, ops[i]))
    case ExecPrepare(s) => [Prepare(t, s)]
    case RecvVote(s, ok) => VoteEvents(x, t, ok)
    case VoteError(s) => VoteEvents(x, t, false)
    case ExecCommit(s) => [Confirm(t, s)]
    case ExecAbort(s) => [Abort(t, s)]
    case SendStart(_, _) => []
    case RecvStart(_, _) => []
    case SendPrepare => []
    case RecvFinish(_) => []
  }

  /** The prepare callback: count the reply; on the last one decide and send the finish requests. */
  function Counted(x: Session, s: Sid, ok: bool): Session {
    var x1 := x.(nPrepared := x.nPrepared + 1, commit := x.commit && ok, votes := x.votes[s := ok],
                 net := x.net - {PrepareReq(s), PrepareRep(s, true), PrepareRep(s, false)});
    if !LastVote(x) then x1
    else if x1.commit then x1.(phase := Committed, net := x1.net + set p | p in x.parts :: CommitReq(p))
    else x1.(phase := Aborted, net := x1.net + set p | p in x.parts :: AbortReq(p))
  }

  /** The session after a step; `ok` is the result of a prepare on a server. */
  function After(x: Session, a: Action, ok: bool): Session {
    match a
    case Submit => FRESH
    case Restart => FRESH.(attempt := x.attempt + 1, facts := x.facts)
    case SendStart(s, pid) =>
      x.(parts := x.parts + {s}, pending := x.pending + {(s, pid)}, net := x.net + {StartReq(s, pid)})
    case ExecStart(s, pid, ops) => x.(net := x.net - {StartReq(s, pid)} + {StartRep(s, pid)})
    case RecvStart(s, pid) => x.(pending := x.pending - {(s, pid)}, net := x.net - {StartRep(s, pid)})
    case SendPrepare => x.(phase := Preparing, net := x.net + set p | p in x.parts :: PrepareReq(p))
    case ExecPrepare(s) =>
      x.(net := x.net - {PrepareReq(s)} + {PrepareRep(s, ok)}, facts := x.facts + {PrepareReturned(x.attempt, s, ok)})
    case RecvVote(s, vote) => Counted(x, s, vote)
    case VoteError(s) => Counted(x.(facts := x.facts + {ErrorCounted(x.attempt, s)}), s, false)
    case ExecCommit(s) =>
      x.(net := x.net - {CommitReq(s)} + {FinishRep(s)}, facts := x.facts + {CommittedOn(x.attempt, s)})
    case ExecAbort(s) =>
      x.(net := x.net - {AbortReq(s)} + {FinishRep(s)}, facts := x.facts + {AbortedOn(x.attempt, s)})
    case RecvFinish(s) =>
      x.(nFinished := x.nFinished + 1, finished := x.finished + {s}, net := x.net - {FinishRep(s)})
  }

  ghost function SessionOf(y: Sys, t: Tid): Session {
    if t in y.txn then y.txn[t] else FRESH
  }

  ghost predicate Next(y: Sys, t: Tid, a: Action, y': Sys) {
    var x := SessionOf(y, t);
    && Guard(y, t, a)
    && Run(y.db, Events(x, t, a), y'.db)
    && y'.txn == y.txn[t := After(x, a, a.ExecPrepare? && Verified(y'.db, t, a.s))]
  }

  // ---- what one transaction looks like on the servers ----

  datatype Status = Status(traced: bool, logged: bool, live: set<Sid>, verified: set<Sid>)

  ghost function StatusOf(d: Db, t: Tid): Status {
    Status(t in d.traces, t in d.log,
           set s | s in d.servers && t in d.servers[s].txns,
           set s | s in d.servers && t in d.servers[s].txns && d.servers[s].txns[t].verified)
  }

  ghost predicate Effect(st: Status, e: Event, st': Status) {
    match e
    case Begin(_) => st' == st.(traced := true)
    case Open(_, s) => st' == st.(live := st.live + {s})
    case ReadCol(_, s, _) => st' == st.(live := st.live + {s})
    case WriteCol(_, s, _, _) => st' == st.(live := st.live + {s})
    case Prepare(_, s) => st' == st || st' == st.(verified := st.verified + {s})
    case Decide(_) => st' == st.(logged := true)
    case Forget(_) => st' == st.(traced := false)
    case Confirm(_, s) => st' == st.(live := st.live - {s}, verified := st.verified - {s})
    case Abort(_, s) => st' == st.(live := st.live - {s}, verified := st.verified - {s})
  }

  /** The shape of the servers never changes. */
  ghost predicate SameShape(d: Db, d': Db) {
    && d'.servers.Keys == d.servers.Keys
    && forall s :: s in d.servers ==> d'.servers[s].store.Keys == d.servers[s].store.Keys
  }

  ghost predicate OnServer(e: Event, s: Sid) {
    !e.Begin? && !e.Decide? && !e.Forget? && e.s == s
  }

  lemma OthersAt(d: Db, e: Event, u: Tid, s: Sid)
    requires Inv(d) && Enabled(d, e) && u != e.t
    ensures var d' := Apply(d, e);
            (Live(d', u, s) <==> Live(d, u, s)) && (Verified(d', u, s) <==> Verified(d, u, s))
  {
    hide ServersWf, CellsHold, DecidedReads, Staged, TracesHome, TracesOk, Server.Released, Server.CanPrepare;
  }

  lemma OwnAt(d: Db, e: Event, s: Sid)
    requires Inv(d) && Enabled(d, e)
    ensures var d' := Apply(d, e);
            if !OnServer(e, s) then
              (Live(d', e.t, s) <==> Live(d, e.t, s)) && (Verified(d', e.t, s) <==> Verified(d, e.t, s))
            else if e.Confirm? || e.Abort? then !Live(d', e.t, s)
            else Live(d', e.t, s) && !Verified(d, e.t, s) && (Verified(d', e.t, s) ==> e.Prepare?)
  {
    hide ServersWf, CellsHold, DecidedReads, TracesHome, TracesOk, Server.Released, Server.CanPrepare;
  }

  lemma LogAndTraces(d: Db, e: Event, u: Tid)
    requires Inv(d) && Enabled(d, e)
    ensures var d' := Apply(d, e);
            && (u in d'.log <==> u in d.log || e == Decide(u))
            && (u in d'.traces <==> e == Begin(u) || (u in d.traces && e != Forget(u)))
            && SameShape(d, d')
  {
    hide ServersWf, CellsHold, DecidedReads, Staged, TracesHome, TracesOk, Server.Released, Server.CanPrepare;
  }

  lemma OthersUntouched(d: Db, e: Event, u: Tid)
    requires Inv(d) && Enabled(d, e) && u != e.t
    ensures StatusOf(Apply(d, e), u) == StatusOf(d, u)
  {
    hide Inv, Apply, Enabled;
    var d' := Apply(d, e);
    forall s ensures (Live(d', u, s) <==> Live(d, u, s)) && (Verified(d', u, s) <==> Verified(d, u, s)) {
      OthersAt(d, e, u, s);
    }
    LogAndTraces(d, e, u);
    assert StatusOf(d', u).live == StatusOf(d, u).live by {
      assert forall s :: s in StatusOf(d', u).live <==> Live(d', u, s);
      assert forall s :: s in StatusOf(d, u).live <==> Live(d, u, s);
    }
    assert StatusOf(d', u).verified == StatusOf(d, u).verified by {
      assert forall s :: s in StatusOf(d', u).verified <==> Verified(d', u, s);
      assert forall s :: s in StatusOf(d, u).verified <==> Verified(d, u, s);
    }
  }

  lemma OwnEffect(d: Db, e: Event)
    requires Inv(d) && Enabled(d, e)
    ensures Effect(StatusOf(d, e.t), e, StatusOf(Apply(d, e), e.t))
  {
    hide Inv, Apply, Enabled;
    var st, st' := StatusOf(d, e.t), StatusOf(Apply(d, e), e.t);
    LogAndTraces(d, e, e.t);
    hide SameShape;
    OwnSets(d, e, st, st');
    if e.Prepare? {
      PrepareIsLive(d, e);
      assert st.live + {e.s} == st.live;
    }
  }

  lemma PrepareIsLive(d: Db, e: Event)
    requires Enabled(d, e) && e.Prepare?
    ensures e.s in StatusOf(d, e.t).live
  {
  }

  lemma OwnSets(d: Db, e: Event, st: Status, st': Status)
    requires Inv(d) && Enabled(d, e)
    requires st == StatusOf(d, e.t) && st' == StatusOf(Apply(d, e), e.t)
    ensures st'.live == if e.Begin? || e.Decide? || e.Forget? then st.live
                        else if e.Confirm? || e.Abort? then st.live - {e.s} else st.live + {e.s}
    ensures if e.Prepare? then st'.verified == st.verified || st'.verified == st.verified + {e.s}
            else if e.Confirm? || e.Abort? then st'.verified == st.verified - {e.s}
            else st'.verified == st.verified
  {
    hide Inv, Apply, Enabled;
    var d', t := Apply(d, e), e.t;
    forall s
      ensures if !OnServer(e, s) then (s in st'.live <==> s in st.live) && (s in st'.verified <==> s in st.verified)
              else if e.Confirm? || e.Abort? then s !in st'.live && s !in st'.verified
              else s in st'.live && s !in st.verified && (s in st'.verified ==> e.Prepare?)
    {
      OwnAt(d, e, s);
      assert (s in st.live <==> Live(d, t, s)) && (s in st.verified <==> Verified(d, t, s));
      assert (s in st'.live <==> Live(d', t, s)) && (s in st'.verified <==> Verified(d', t, s));
    }
  }

  // ---- the invariant of one session ----

  ghost predicate AllYes(votes: map<Sid, bool>) {
    forall s :: s in votes ==> votes[s]
  }

  ghost predicate FactsOk(x: Session) {
    && (forall f :: f in x.facts ==> f.attempt <= x.attempt)
    && (forall n: nat, s: Sid :: CommittedOn(n, s) in x.facts ==>
                                   n == x.attempt && x.phase == Committed && s in x.parts)
    && (forall n: nat, s: Sid :: AbortedOn(n, s) in x.facts ==> n < x.attempt || x.phase == Aborted)
  }

  ghost predicate PartOk(x: Session, st: Status, s: Sid) {
    s in st.live || exists pid: nat :: StartReq(s, pid) in x.net
  }

  /** Every participant has executed a piece or is about to; each outstanding piece is one request or one reply. */
  ghost predicate StartingOk(x: Session, st: Status, sids: set<Sid>) {
    && st.traced && !st.logged && st.verified == {} && st.live <= x.parts <= sids
    && x.nPrepared == 0 && x.nFinished == 0 && x.commit && x.votes == map[] && x.finished == {}
    && (forall m :: m in x.net ==> (m.StartReq? || m.StartRep?) && (m.s, m.pid) in x.pending && m.s in x.parts)
    && (forall s: Sid, pid: nat :: !(StartReq(s, pid) in x.net && StartRep(s, pid) in x.net))
    && (forall s :: s in x.parts ==> PartOk(x, st, s))
  }

  ghost predicate Yes(x: Session, st: Status, s: Sid) {
    s in st.verified && PrepareReturned(x.attempt, s, true) in x.facts
  }

  /** The vote of `s` is asked for, on its way, or counted; a yes stays backed by a prepared transaction. */
  ghost predicate VoteOk(x: Session, st: Status, s: Sid) {
    && (PrepareReq(s) in x.net ==> s !in x.votes && s !in st.verified)
    && (PrepareRep(s, true) in x.net ==> s !in x.votes && PrepareReq(s) !in x.net && Yes(x, st, s))
    && (PrepareRep(s, false) in x.net ==> s !in x.votes && PrepareReq(s) !in x.net && PrepareRep(s, true) !in x.net)
    && (s in x.votes && x.votes[s] ==> Yes(x, st, s))
  }

  ghost predicate VotesOk(x: Session, st: Status) {
    && (forall m :: m in x.net ==> (m.PrepareReq? || m.PrepareRep?) && m.s in x.parts)
    && (forall s :: s in x.parts ==> VoteOk(x, st, s))
  }

  ghost predicate PreparingOk(x: Session, st: Status) {
    && st.traced && !st.logged && st.live == x.parts
    && x.nPrepared == |x.votes| < |x.parts| && x.votes.Keys <= x.parts && (x.commit <==> AllYes(x.votes))
    && x.nFinished == 0 && x.finished == {}
    && VotesOk(x, st)
  }

  ghost function FinishReq(x: Session, s: Sid): Msg {
    if x.phase == Committed then CommitReq(s) else AbortReq(s)
  }

  ghost function Outcome(x: Session, s: Sid): Fact {
    if x.phase == Committed then CommittedOn(x.attempt, s) else AbortedOn(x.attempt, s)
  }

  /** A participant holds the transaction until its finish request is executed, once. */
  ghost predicate FinishOk(x: Session, st: Status, s: Sid) {
    && (s in st.live <==> FinishReq(x, s) in x.net)
    && (s in st.live ==> FinishRep(s) !in x.net && s !in x.finished)
    && (FinishRep(s) in x.net ==> s !in x.finished)
    && (s !in st.live ==> Outcome(x, s) in x.facts)
    && (x.phase == Committed ==> PrepareReturned(x.attempt, s, true) in x.facts)
  }

  ghost predicate FinishesOk(x: Session, st: Status) {
    && (forall m :: m in x.net ==> (m.FinishRep? || m == FinishReq(x, m.s)) && m.s in x.parts)
    && (forall s :: s in x.parts ==> FinishOk(x, st, s))
  }

  ghost predicate EndedOk(x: Session, st: Status) {
    && st.traced == st.logged == (x.phase == Committed)
    && x.nFinished == |x.finished| && x.finished <= x.parts && st.live <= x.parts
    && FinishesOk(x, st)
  }

  ghost predicate SessionOk(x: Session, st: Status, sids: set<Sid>) {
    && FactsOk(x) && st.verified <= st.live
    && match x.phase
       case Starting => StartingOk(x, st, sids)
       case Preparing => PreparingOk(x, st)
       case Committed => EndedOk(x, st)
       case Aborted => EndedOk(x, st)
  }

  // ---- every step keeps it ----

  lemma SubsetSize<T>(a: set<T>, b: set<T>)
    requires a <= b
    ensures |a| <= |b| && (|a| == |b| ==> a == b)
  {
    assert b == a + (b - a);
  }

  lemma FreshOk(x: Session, st: Status, sids: set<Sid>)
    requires x == FRESH.(attempt := x.attempt, facts := x.facts) && FactsOk(x)
    requires st == Status(true, false, {}, {})
    ensures SessionOk(x, st, sids)
  {
  }

  lemma SendStartOk(x: Session, st: Status, sids: set<Sid>, s: Sid, pid: nat)
    requires SessionOk(x, st, sids) && x.phase == Starting && s in sids && (s, pid) !in x.pending
    ensures SessionOk(After(x, SendStart(s, pid), false), st, sids)
  {
    var x' := After(x, SendStart(s, pid), false);
    forall p | p in x'.parts ensures PartOk(x', st, p) {
      assert StartReq(s, pid) in x'.net;
      if p != s {
        assert PartOk(x, st, p);
      }
    }
  }

  lemma ExecStartOk(x: Session, st: Status, sids: set<Sid>, s: Sid, pid: nat, ops: seq<ColOp>)
    requires SessionOk(x, st, sids) && StartReq(s, pid) in x.net
    ensures SessionOk(After(x, ExecStart(s, pid, ops), false), st.(live := st.live + {s}), sids)
  {
    var x', st' := After(x, ExecStart(s, pid, ops), false), st.(live := st.live + {s});
    forall p | p in x'.parts ensures PartOk(x', st', p) {
      assert PartOk(x, st, p);
      if p != s && p !in st.live {
        var q: nat :| StartReq(p, q) in x.net;
        assert StartReq(p, q) in x'.net;
      }
    }
  }

  lemma RecvStartOk(x: Session, st: Status, sids: set<Sid>, s: Sid, pid: nat)
    requires SessionOk(x, st, sids) && StartRep(s, pid) in x.net
    ensures SessionOk(After(x, RecvStart(s, pid), false), st, sids)
  {
    var x' := After(x, RecvStart(s, pid), false);
    forall p | p in x'.parts ensures PartOk(x', st, p) {
      assert PartOk(x, st, p);
      if p !in st.live {
        var q: nat :| StartReq(p, q) in x.net;
        assert StartReq(p, q) in x'.net;
      }
    }
  }

  lemma SendPrepareOk(x: Session, st: Status, sids: set<Sid>)
    requires SessionOk(x, st, sids) && x.phase == Starting && x.pending == {} && x.parts != {}
    ensures SessionOk(After(x, SendPrepare, false), st, sids)
  {
    assert x.net == {};
    assert forall p :: p in x.parts ==> PartOk(x, st, p);
  }

  lemma InPreparing(x: Session, st: Status, sids: set<Sid>, m: Msg)
    requires SessionOk(x, st, sids) && m in x.net && (m.PrepareReq? || m.PrepareRep?)
    ensures x.phase == Preparing && m.s in x.parts && m.s !in x.votes && m.s in st.live && VoteOk(x, st, m.s)
  {
    hide FactsOk, PartOk;
  }

  lemma InEnded(x: Session, st: Status, sids: set<Sid>, m: Msg)
    requires SessionOk(x, st, sids) && m in x.net && (m.CommitReq? || m.AbortReq? || m.FinishRep?)
    ensures (x.phase == Committed && !m.AbortReq?) || (x.phase == Aborted && !m.CommitReq?)
    ensures m.s in x.parts && FinishOk(x, st, m.s) && (m.FinishRep? || m.s in st.live)
  {
    hide FactsOk, PartOk;
  }

  lemma ExecPrepareOk(x: Session, st: Status, sids: set<Sid>, s: Sid, st': Status)
    requires SessionOk(x, st, sids) && PrepareReq(s) in x.net && Effect(st, Prepare(0, s), st')
    ensures SessionOk(After(x, ExecPrepare(s), s in st'.verified), st', sids)
  {
    hide StartingOk, EndedOk, AllYes, VoteOk;
    InPreparing(x, st, sids, PrepareReq(s));
    var x' := After(x, ExecPrepare(s), s in st'.verified);
    forall p | p in x'.parts ensures VoteOk(x', st', p) {
      PreparedVoteOk(x, st, s, st', p);
    }
  }

  lemma PreparedVoteOk(x: Session, st: Status, s: Sid, st': Status, p: Sid)
    requires PrepareReq(s) in x.net && Effect(st, Prepare(0, s), st') && VoteOk(x, st, s) && VoteOk(x, st, p)
    ensures VoteOk(After(x, ExecPrepare(s), s in st'.verified), st', p)
  {
  }

  /** Counting the last vote decides; only then are finish requests sent, to every participant. */
  lemma CountedOk(x: Session, st: Status, sids: set<Sid>, s: Sid, ok: bool, st': Status)
    requires SessionOk(x, st, sids) && x.phase == Preparing && s in x.parts && s !in x.votes && (ok ==> Yes(x, st, s))
    requires st' == if !LastVote(x) then st else if x.commit && ok then st.(logged := true) else st.(traced := false)
    ensures SessionOk(Counted(x, s, ok), st', sids)
  {
    hide StartingOk, VotesOk, FinishesOk, FactsOk, AllYes;
    var x' := Counted(x, s, ok);
    SubsetSize(x'.votes.Keys, x.parts);
    AllYesStep(x.votes, s, ok);
    FactsFrame(x, x');
    if LastVote(x) {
      DecidedFinishesOk(x, st, s, ok, st');
    } else {
      CountedVotesOk(x, st, s, ok);
    }
  }

  lemma AllYesStep(votes: map<Sid, bool>, s: Sid, ok: bool)
    requires s !in votes
    ensures AllYes(votes[s := ok]) <==> AllYes(votes) && ok
    ensures votes[s := ok].Keys == votes.Keys + {s} && |votes[s := ok]| == |votes| + 1
  {
    assert votes[s := ok].Keys == votes.Keys + {s};
    assert votes[s := ok][s] == ok;
    assert forall p :: p in votes ==> votes[s := ok][p] == votes[p];
  }

  lemma FactsFrame(x: Session, x': Session)
    requires FactsOk(x) && x'.facts == x.facts && x'.attempt == x.attempt && x.phase == Preparing
    ensures FactsOk(x')
  {
  }

  lemma CountedVotesOk(x: Session, st: Status, s: Sid, ok: bool)
    requires VotesOk(x, st) && !LastVote(x) && (ok ==> Yes(x, st, s))
    ensures VotesOk(Counted(x, s, ok), st)
  {
    var x' := Counted(x, s, ok);
    forall p | p in x'.parts ensures VoteOk(x', st, p) {
      assert VoteOk(x, st, p);
    }
  }

  lemma DecidedFinishesOk(x: Session, st: Status, s: Sid, ok: bool, st': Status)
    requires VotesOk(x, st) && LastVote(x) && (ok ==> Yes(x, st, s)) && st.live == x.parts == st'.live
    requires x.votes.Keys + {s} == x.parts && x.finished == {} && (x.commit ==> AllYes(x.votes))
    ensures FinishesOk(Counted(x, s, ok), st')
  {
    hide FinishOk, VoteOk, VotesOk, AllYes, Yes;
    var x' := Counted(x, s, ok);
    forall m | m in x'.net ensures m == FinishReq(x', m.s) && m.s in x.parts {
      if m in x.net { CountedIsGone(x, st, s, m); }
    }
    forall p | p in x'.parts ensures FinishOk(x', st', p) {
      DecidedFinishOk(x, st, s, ok, st', p);
    }
  }

  lemma CountedIsGone(x: Session, st: Status, s: Sid, m: Msg)
    requires VotesOk(x, st) && m in x.net && x.votes.Keys + {s} == x.parts
    ensures m in {PrepareReq(s), PrepareRep(s, true), PrepareRep(s, false)}
  {
    assert VoteOk(x, st, m.s);
  }

  lemma DecidedFinishOk(x: Session, st: Status, s: Sid, ok: bool, st': Status, p: Sid)
    requires VotesOk(x, st) && p in x.parts && LastVote(x) && (ok ==> Yes(x, st, s)) && st.live == x.parts == st'.live
    requires x.votes.Keys + {s} == x.parts && x.finished == {} && (x.commit ==> AllYes(x.votes))
    ensures FinishOk(Counted(x, s, ok), st', p)
  {
    assert VoteOk(x, st, p);
  }

  lemma FinishedOk(x: Session, st: Status, sids: set<Sid>, s: Sid, a: Action, st': Status)
    requires SessionOk(x, st, sids)
    requires (a == ExecCommit(s) && CommitReq(s) in x.net) || (a == ExecAbort(s) && AbortReq(s) in x.net)
    requires st' == st.(live := st.live - {s}, verified := st.verified - {s})
    ensures SessionOk(After(x, a, false), st', sids)
  {
    hide StartingOk, PreparingOk, FinishOk;
    InEnded(x, st, sids, if a.ExecCommit? then CommitReq(s) else AbortReq(s));
    var x' := After(x, a, false);
    forall p | p in x'.parts ensures FinishOk(x', st', p) {
      assert FinishOk(x, st, p);
      FinishedPart(x, st, s, a, st', p);
    }
  }

  lemma FinishedPart(x: Session, st: Status, s: Sid, a: Action, st': Status, p: Sid)
    requires a == if x.phase == Committed then ExecCommit(s) else ExecAbort(s)
    requires FinishOk(x, st, p) && FinishOk(x, st, s) && FinishReq(x, s) in x.net
    requires st' == st.(live := st.live - {s}, verified := st.verified - {s})
    ensures FinishOk(After(x, a, false), st', p)
  {
  }

  lemma RecvFinishOk(x: Session, st: Status, sids: set<Sid>, s: Sid)
    requires SessionOk(x, st, sids) && FinishRep(s) in x.net
    ensures SessionOk(After(x, RecvFinish(s), false), st, sids)
  {
    hide StartingOk, PreparingOk, FinishOk;
    InEnded(x, st, sids, FinishRep(s));
    var x' := After(x, RecvFinish(s), false);
    ReceivedPart(x, st, s, s);
    forall p | p in x'.parts ensures FinishOk(x', st, p) {
      assert FinishOk(x, st, p);
      ReceivedPart(x, st, s, p);
    }
  }

  lemma ReceivedPart(x: Session, st: Status, s: Sid, p: Sid)
    requires FinishOk(x, st, p) && FinishOk(x, st, s) && FinishRep(s) in x.net
    ensures FinishOk(After(x, RecvFinish(s), false), st, p) && s !in x.finished
  {
  }

  lemma AllFinished(x: Session, st: Status, sids: set<Sid>)
    requires SessionOk(x, st, sids) && x.phase == Aborted && x.nFinished == |x.parts|
    ensures st == Status(false, false, {}, {}) && x.net == {}
  {
    SubsetSize(x.finished, x.parts);
    assert forall s :: s in x.parts ==> FinishOk(x, st, s);
  }

  // ---- the whole system ----

  const NOWHERE := Status(false, false, {}, {})

  ghost predicate TidOk(y: Sys, t: Tid) {
    if t in y.txn then SessionOk(y.txn[t], StatusOf(y.db, t), y.db.servers.Keys) else StatusOf(y.db, t) == NOWHERE
  }

  ghost predicate SysInv(y: Sys) {
    Inv(y.db) && forall t: Tid :: TidOk(y, t)
  }

  ghost predicate AllOf(es: seq<Event>, t: Tid) {
    forall i :: 0 <= i < |es| ==> es[i].t == t
  }

  lemma {:induction false} RunFrame(d: Db, es: seq<Event>, d': Db, t: Tid)
    requires Inv(d) && Run(d, es, d') && AllOf(es, t)
    ensures Inv(d') && SameShape(d, d')
    ensures forall u: Tid :: u != t ==> StatusOf(d', u) == StatusOf(d, u)
    decreases |es|
  {
    hide Inv, Enabled, Apply, StatusOf;
    if es != [] {
      var d1 := Apply(d, es[0]);
      StepKeepsInv(d, es[0]);
      LogAndTraces(d, es[0], t);
      assert es[0].t == t;
      forall u: Tid | u != t ensures StatusOf(d1, u) == StatusOf(d, u) {
        OthersUntouched(d, es[0], u);
      }
      RunFrame(d1, es[1..], d', t);
    }
  }

  lemma RunOne(d: Db, e: Event, d': Db)
    requires Inv(d) && Run(d, [e], d')
    ensures Enabled(d, e) && d' == Apply(d, e) && Effect(StatusOf(d, e.t), e, StatusOf(d', e.t))
  {
    hide Inv, Enabled, Apply, StatusOf, Effect;
    assert [e][1..] == [];
    assert d' == Apply(d, e);
    OwnEffect(d, e);
  }

  lemma OneRun(d: Db, e: Event)
    requires Inv(d) && Enabled(d, e)
    ensures Run(d, [e], Apply(d, e))
  {
    hide Inv, Enabled, Apply;
    assert [e][1..] == [];
  }

  /** The steps of one piece. */
  ghost predicate IsPiece(d: Db, es: seq<Event>, t: Tid, s: Sid) {
    s in d.servers &&
    forall i :: 0 <= i < |es| ==>
                  && es[i].t == t
                  && match es[i]
                     case Open(_, p) => p == s
                     case ReadCol(_, p, c) => p == s && c in d.servers[s].store
                     case WriteCol(_, p, c, _) => p == s && c in d.servers[s].store
                     case _ => false
  }

  lemma PieceTail(d: Db, es: seq<Event>, t: Tid, s: Sid, d1: Db)
    requires IsPiece(d, es, t, s) && es != [] && SameShape(d, d1)
    ensures IsPiece(d1, es[1..], t, s) && AllOf(es, t)
  {
    assert forall i :: 0 <= i < |es[1..]| ==> es[1..][i] == es[i + 1];
  }

  lemma PieceHead(d: Db, es: seq<Event>, t: Tid, s: Sid)
    requires Inv(d) && IsPiece(d, es, t, s) && es != []
    ensures Effect(StatusOf(d, t), es[0], StatusOf(d, t).(live := StatusOf(d, t).live + {s}))
    ensures var st := StatusOf(d, t); st.traced && !st.logged && s !in st.verified ==> Enabled(d, es[0])
  {
    hide Inv;
  }

  lemma PieceStep(d: Db, es: seq<Event>, t: Tid, s: Sid)
    requires Inv(d) && IsPiece(d, es, t, s) && es != [] && Enabled(d, es[0])
    ensures StatusOf(Apply(d, es[0]), t) == StatusOf(d, t).(live := StatusOf(d, t).live + {s})
    ensures Inv(Apply(d, es[0])) && IsPiece(Apply(d, es[0]), es[1..], t, s)
  {
    hide Inv, Apply, Enabled, StatusOf;
    StepKeepsInv(d, es[0]);
    LogAndTraces(d, es[0], t);
    PieceTail(d, es, t, s, Apply(d, es[0]));
    OwnEffect(d, es[0]);
  }

  lemma {:induction false} PieceEffect(d: Db, es: seq<Event>, t: Tid, s: Sid, d': Db)
    requires Inv(d) && IsPiece(d, es, t, s) && Run(d, es, d')
    ensures var st := StatusOf(d, t); StatusOf(d', t) == if es == [] then st else st.(live := st.live + {s})
    decreases |es|
  {
    hide Inv, Apply, Enabled, StatusOf, IsPiece;
    if es != [] {
      PieceStep(d, es, t, s);
      PieceEffect(Apply(d, es[0]), es[1..], t, s, d');
    }
  }

  lemma {:induction false} PieceRuns(d: Db, es: seq<Event>, t: Tid, s: Sid) returns (d': Db)
    requires Inv(d) && IsPiece(d, es, t, s)
    requires var st := StatusOf(d, t); st.traced && !st.logged && s !in st.verified
    ensures Run(d, es, d')
    decreases |es|
  {
    hide Inv, Apply, Enabled, StatusOf, IsPiece;
    d' := d;
    if es != [] {
      PieceHead(d, es, t, s);
      PieceStep(d, es, t, s);
      d' := PieceRuns(Apply(d, es[0]), es[1..], t, s);
    }
  }

  lemma EventsOfOne(y: Sys, t: Tid, a: Action)
    requires Guard(y, t, a)
    ensures AllOf(Events(SessionOf(y, t), t, a), t)
    ensures a.ExecStart? ==> IsPiece(y.db, Events(SessionOf(y, t), t, a), t, a.s)
  {
  }

  lemma OwnSessionOk(y: Sys, t: Tid, a: Action, y': Sys)
    requires SysInv(y) && Next(y, t, a, y') && y'.db.servers.Keys == y.db.servers.Keys
    ensures SessionOk(y'.txn[t], StatusOf(y'.db, t), y'.db.servers.Keys)
  {
    hide Inv, StatusOf, SessionOk, Run, Counted, FactsOk;
    var x, st, st', sids := SessionOf(y, t), StatusOf(y.db, t), StatusOf(y'.db, t), y.db.servers.Keys;
    assert TidOk(y, t);
    match a
    case Submit => RunOne(y.db, Begin(t), y'.db); SubmitOk(sids);
    case Restart => RunOne(y.db, Begin(t), y'.db); RestartOk(x, st, sids);
    case ExecStart(s, pid, ops) =>
      EventsOfOne(y, t, a);
      PieceEffect(y.db, Events(x, t, a), t, s, y'.db);
      ExecStartOk(x, st, sids, s, pid, ops);
    case ExecPrepare(s) =>
      RunOne(y.db, Prepare(t, s), y'.db);
      VerifiedStatus(y'.db, t, s);
      ExecPrepareOk(x, st, sids, s, st');
    case RecvVote(s, ok) => VoteStep(y.db, x, sids, t, s, ok, y'.db);
    case VoteError(s) => VoteErrorStep(y.db, x, sids, t, s, y'.db);
    case ExecCommit(s) => RunOne(y.db, Confirm(t, s), y'.db); FinishedOk(x, st, sids, s, a, st');
    case ExecAbort(s) => RunOne(y.db, Abort(t, s), y'.db); FinishedOk(x, st, sids, s, a, st');
    case SendStart(s, pid) => RunNone(y.db, y'.db); SendStartOk(x, st, sids, s, pid);
    case RecvStart(s, pid) => RunNone(y.db, y'.db); RecvStartOk(x, st, sids, s, pid);
    case SendPrepare => RunNone(y.db, y'.db); SendPrepareOk(x, st, sids);
    case RecvFinish(s) => RunNone(y.db, y'.db); RecvFinishOk(x, st, sids, s);
  }

  lemma RunNone(d: Db, d': Db)
    requires Run(d, [], d')
    ensures d' == d
  {
  }

  lemma VerifiedStatus(d: Db, t: Tid, s: Sid)
    ensures Verified(d, t, s) <==> s in StatusOf(d, t).verified
  {
  }

  lemma SubmitOk(sids: set<Sid>)
    ensures SessionOk(FRESH, NOWHERE.(traced := true), sids)
  {
    FreshOk(FRESH, NOWHERE.(traced := true), sids);
  }

  lemma RestartOk(x: Session, st: Status, sids: set<Sid>)
    requires SessionOk(x, st, sids) && x.phase == Aborted && x.nFinished == |x.parts|
    ensures st == NOWHERE && SessionOk(After(x, Restart, false), st.(traced := true), sids)
  {
    hide EndedOk;
    AllFinished(x, st, sids);
    FreshOk(After(x, Restart, false), st.(traced := true), sids);
  }

  lemma VoteStep(d: Db, x: Session, sids: set<Sid>, t: Tid, s: Sid, ok: bool, d': Db)
    requires Inv(d) && SessionOk(x, StatusOf(d, t), sids) && PrepareRep(s, ok) in x.net &&
             Run(d, VoteEvents(x, t, ok), d')
    ensures SessionOk(Counted(x, s, ok), StatusOf(d', t), sids)
  {
    hide Inv, StatusOf, SessionOk, Run, Counted;
    InPreparing(x, StatusOf(d, t), sids, PrepareRep(s, ok));
    VoteEffect(d, x, t, ok, d');
    CountedOk(x, StatusOf(d, t), sids, s, ok, StatusOf(d', t));
  }

  lemma VoteErrorStep(d: Db, x: Session, sids: set<Sid>, t: Tid, s: Sid, d': Db)
    requires Inv(d) && SessionOk(x, StatusOf(d, t), sids) && Run(d, VoteEvents(x, t, false), d')
    requires PrepareReq(s) in x.net || PrepareRep(s, true) in x.net || PrepareRep(s, false) in x.net
    ensures SessionOk(After(x, VoteError(s), false), StatusOf(d', t), sids)
  {
    hide Inv, StatusOf, SessionOk, Run, Counted;
    var m :| m in x.net && m.s == s && (m.PrepareReq? || m.PrepareRep?);
    InPreparing(x, StatusOf(d, t), sids, m);
    VoteEffect(d, x, t, false, d');
    ErrorNoted(x, StatusOf(d, t), sids, s);
    CountedOk(x.(facts := x.facts + {ErrorCounted(x.attempt, s)}), StatusOf(d, t), sids, s, false, StatusOf(d', t));
  }

  lemma ErrorNoted(x: Session, st: Status, sids: set<Sid>, s: Sid)
    requires SessionOk(x, st, sids) && x.phase == Preparing
    ensures SessionOk(x.(facts := x.facts + {ErrorCounted(x.attempt, s)}), st, sids)
  {
    hide AllYes;
    var x' := x.(facts := x.facts + {ErrorCounted(x.attempt, s)});
    forall p | p in x'.parts ensures VoteOk(x', st, p) {
      assert VoteOk(x, st, p);
    }
  }

  lemma VoteEffect(d: Db, x: Session, t: Tid, ok: bool, d': Db)
    requires Inv(d) && Run(d, VoteEvents(x, t, ok), d')
    ensures var st := StatusOf(d, t);
            StatusOf(d', t) ==
            if !LastVote(x) then st else if x.commit && ok then st.(logged := true) else st.(traced := false)
  {
    hide Inv, StatusOf, Run;
    if LastVote(x) {
      RunOne(d, if x.commit && ok then Decide(t) else Forget(t), d');
    } else {
      RunNone(d, d');
    }
  }

  lemma NextKeepsInv(y: Sys, t: Tid, a: Action, y': Sys)
    requires SysInv(y) && Next(y, t, a, y')
    ensures SysInv(y')
  {
    hide Inv, StatusOf, SessionOk, Run, After, Events;
    EventsOfOne(y, t, a);
    RunFrame(y.db, Events(SessionOf(y, t), t, a), y'.db, t);
    OwnSessionOk(y, t, a, y');
    forall u: Tid ensures TidOk(y', u) {
      assert TidOk(y, u);
    }
  }

  // ---- runs ----

  ghost predicate Start(y: Sys) {
    Initial(y.db) && y.txn == map[]
  }

  ghost predicate Step(y: Sys, y': Sys) {
    exists t: Tid, a :: Next(y, t, a, y')
  }

  /** `ys` is a history that ends in `y`. */
  ghost predicate History(ys: seq<Sys>, y: Sys) {
    && ys != [] && Start(ys[0]) && ys[|ys| - 1] == y
    && forall i, j :: 0 <= i < j < |ys| && j == i + 1 ==> Step(ys[i], ys[j])
  }

  ghost predicate Reachable(y: Sys) {
    exists ys :: History(ys, y)
  }

  lemma StartInv(y: Sys)
    requires Start(y)
    ensures SysInv(y)
  {
    InitialInv(y.db);
  }

  lemma {:induction false} HistoryInv(ys: seq<Sys>, y: Sys)
    requires History(ys, y)
    ensures SysInv(y)
    decreases |ys|
  {
    hide SysInv, Next, Start;
    if |ys| == 1 {
      StartInv(ys[0]);
    } else {
      var ys0, y0 := ys[..|ys| - 1], ys[|ys| - 2];
      HistoryInv(ys0, y0);
      assert Step(y0, y);
      var t: Tid, a :| Next(y0, t, a, y);
      NextKeepsInv(y0, t, a, y);
    }
  }

  lemma ReachableInv(y: Sys)
    requires Reachable(y)
    ensures SysInv(y)
  {
    hide History, SysInv;
    var ys :| History(ys, y);
    HistoryInv(ys, y);
  }

  /**
    Agreement: whatever the interleaving, an attempt that committed anywhere is the last one,
    every participant's prepare of that attempt returned success, and nobody aborted it.
   */
  lemma Agreement(y: Sys, t: Tid, n: nat, s: Sid)
    requires Reachable(y) && t in y.txn && CommittedOn(n, s) in y.txn[t].facts
    ensures var x := y.txn[t];
            && n == x.attempt && s in x.parts
            && (forall p :: p in x.parts ==> PrepareReturned(n, p, true) in x.facts)
            && (forall p: Sid :: AbortedOn(n, p) !in x.facts)
  {
    hide Reachable, Inv, StartingOk, PreparingOk;
    ReachableInv(y);
    assert TidOk(y, t);
    assert forall p :: p in y.txn[t].parts ==> FinishOk(y.txn[t], StatusOf(y.db, t), p);
  }

  /** The decision log holds exactly the transactions whose coordinator decided to commit. */
  lemma DecidedIffCommitted(y: Sys, t: Tid)
    requires Reachable(y)
    ensures t in y.db.log <==> t in y.txn && y.txn[t].phase == Committed
  {
    hide Reachable, Inv, FinishesOk;
    ReachableInv(y);
    assert TidOk(y, t);
  }

  /** Committed transactions are serializable in decision order. */
  lemma CommittedAreSerializable(y: Sys)
    requires Reachable(y)
    ensures Serializable(y.db)
  {
    hide Reachable, Inv, TidOk, Serializable;
    ReachableInv(y);
    InvSerializable(y.db);
  }

  /** Once no commit request is in flight, every table holds what that serial execution leaves. */
  lemma QuietTablesAreSerial(y: Sys, g: GCell)
    requires Reachable(y) && g in y.db.init
    requires forall t :: t in y.txn ==> CommitReq(g.sid) !in y.txn[t].net
    ensures var d := y.db;
            && LogIn(d.traces, d.log) && g.sid in d.servers && g.cell in d.servers[g.sid].store
            && g in Serial(d.init, d.traces, d.log)
            && d.servers[g.sid].store[g.cell] == Serial(d.init, d.traces, d.log)[g]
  {
    hide Reachable, Inv, TidOk, Serial;
    ReachableInv(y);
    forall t: Tid ensures !PendingBy(y.db, g, t) {
      assert TidOk(y, t);
      NotPending(y, t, g);
    }
    TablesAreSerial(y.db, g);
  }

  lemma NotPending(y: Sys, t: Tid, g: GCell)
    requires TidOk(y, t) && (t in y.txn ==> CommitReq(g.sid) !in y.txn[t].net)
    ensures !PendingBy(y.db, g, t)
  {
    if t in y.txn && y.txn[t].phase == Committed && g.sid in y.txn[t].parts {
      assert FinishOk(y.txn[t], StatusOf(y.db, t), g.sid);
    }
    assert g.sid in StatusOf(y.db, t).live <==> Live(y.db, t, g.sid);
  }

  // ---- no step ever meets a failing check in the servers ----

  lemma StatusMeaning(d: Db, t: Tid)
    ensures var st := StatusOf(d, t);
            && (st.traced <==> t in d.traces) && (st.logged <==> t in d.log)
            && forall s :: (s in st.live <==> Live(d, t, s)) && (s in st.verified <==> Verified(d, t, s))
  {
  }

  lemma VoteEnabled(y: Sys, t: Tid, m: Msg, ok: bool) returns (d': Db)
    requires SysInv(y) && t in y.txn && m in y.txn[t].net && (m.PrepareReq? || m.PrepareRep?)
    requires ok ==> m == PrepareRep(m.s, true)
    ensures Run(y.db, VoteEvents(y.txn[t], t, ok), d')
  {
    hide Inv, StatusOf, FactsOk, StartingOk, EndedOk, Apply, VoteOk, Run;
    var x, st := y.txn[t], StatusOf(y.db, t);
    assert TidOk(y, t);
    InPreparing(x, st, y.db.servers.Keys, m);
    StatusMeaning(y.db, t);
    d' := y.db;
    if LastVote(x) {
      var e := if x.commit && ok then Decide(t) else Forget(t);
      if x.commit && ok {
        AllVerified(x, st, m.s);
      }
      assert Enabled(y.db, e);
      OneRun(y.db, e);
      d' := Apply(y.db, e);
    } else {
      NoRun(y.db);
    }
  }

  lemma NoRun(d: Db)
    ensures Run(d, [], d)
  {
  }

  lemma AllVerified(x: Session, st: Status, s: Sid)
    requires PreparingOk(x, st) && LastVote(x) && x.commit && s in x.parts && s !in x.votes &&
             PrepareRep(s, true) in x.net
    ensures forall p :: p in st.live ==> p in st.verified
  {
    SubsetSize(x.votes.Keys + {s}, x.parts);
    forall p | p in st.live ensures p in st.verified {
      assert VoteOk(x, st, p);
      assert p != s ==> p in x.votes;
    }
  }

  lemma BeginEnabled(y: Sys, t: Tid)
    requires SysInv(y)
    requires t !in y.txn || (y.txn[t].phase == Aborted && y.txn[t].nFinished == |y.txn[t].parts|)
    ensures Enabled(y.db, Begin(t))
  {
    hide Inv, StatusOf, SessionOk;
    assert TidOk(y, t);
    StatusMeaning(y.db, t);
    if t in y.txn {
      AllFinished(y.txn[t], StatusOf(y.db, t), y.db.servers.Keys);
    }
  }

  lemma ServerStepEnabled(y: Sys, t: Tid, a: Action)
    requires SysInv(y) && Guard(y, t, a)
    ensures a.ExecPrepare? ==> Enabled(y.db, Prepare(t, a.s))
    ensures a.ExecCommit? ==> Enabled(y.db, Confirm(t, a.s))
    ensures a.ExecAbort? ==> Enabled(y.db, Abort(t, a.s))
  {
    hide Inv, StatusOf, StartingOk, FactsOk, VotesOk, FinishesOk;
    assert TidOk(y, t);
    StatusMeaning(y.db, t);
    if a.ExecPrepare? {
      InPreparing(y.txn[t], StatusOf(y.db, t), y.db.servers.Keys, PrepareReq(a.s));
    }
    if a.ExecCommit? || a.ExecAbort? {
      InEnded(y.txn[t], StatusOf(y.db, t), y.db.servers.Keys, if a.ExecCommit? then CommitReq(a.s) else AbortReq(a.s));
    }
  }

  lemma PieceEnabled(y: Sys, t: Tid, a: Action) returns (d': Db)
    requires SysInv(y) && Guard(y, t, a) && a.ExecStart?
    ensures Run(y.db, Events(y.txn[t], t, a), d')
  {
    hide Inv, StatusOf, Run, PartOk, FactsOk, VoteOk, FinishOk;
    assert TidOk(y, t);
    assert StartReq(a.s, a.pid) in y.txn[t].net;
    EventsOfOne(y, t, a);
    d' := PieceRuns(y.db, Events(y.txn[t], t, a), t, a.s);
  }

  lemma DbCanMove(y: Sys, t: Tid, a: Action) returns (d': Db)
    requires SysInv(y) && Guard(y, t, a)
    ensures Run(y.db, Events(SessionOf(y, t), t, a), d')
  {
    hide Inv, Run, TidOk, Enabled, Apply;
    match a
    case Submit => BeginEnabled(y, t); OneRun(y.db, Begin(t)); d' := Apply(y.db, Begin(t));
    case Restart => BeginEnabled(y, t); OneRun(y.db, Begin(t)); d' := Apply(y.db, Begin(t));
    case ExecStart(s, pid, ops) => d' := PieceEnabled(y, t, a);
    case ExecPrepare(s) =>
      ServerStepEnabled(y, t, a); OneRun(y.db, Prepare(t, s)); d' := Apply(y.db, Prepare(t, s));
    case RecvVote(s, ok) => d' := VoteEnabled(y, t, PrepareRep(s, ok), ok);
    case VoteError(s) =>
      var m :| m in y.txn[t].net && m.s == s && (m.PrepareReq? || m.PrepareRep?);
      d' := VoteEnabled(y, t, m, false);
    case ExecCommit(s) =>
      ServerStepEnabled(y, t, a); OneRun(y.db, Confirm(t, s)); d' := Apply(y.db, Confirm(t, s));
    case ExecAbort(s) =>
      ServerStepEnabled(y, t, a); OneRun(y.db, Abort(t, s)); d' := Apply(y.db, Abort(t, s));
    case SendStart(_, _) => NoRun(y.db); d' := y.db;
    case RecvStart(_, _) => NoRun(y.db); d' := y.db;
    case SendPrepare => NoRun(y.db); d' := y.db;
    case RecvFinish(_) => NoRun(y.db); d' := y.db;
  }

  /**
    In every reachable state, any step whose message has arrived can be taken: the checks the
    servers make of their callers (a transaction to prepare, commit or abort exists) never fail.
   */
  lemma NeverStuck(y: Sys, t: Tid, a: Action)
    requires Reachable(y) && Guard(y, t, a)
    ensures exists y' :: Next(y, t, a, y')
  {
    hide Reachable, SysInv, Guard, Run, Events, After;
    ReachableInv(y);
    var x := SessionOf(y, t);
    var d' := DbCanMove(y, t, a);
    var y' := Sys(d', y.txn[t := After(x, a, a.ExecPrepare? && Verified(d', t, a.s))]);
    assert Next(y, t, a, y');
  }
}
