/**
  One optimistic server on its own: a transaction is decided by its confirm, so decision
  order is confirm order, and after every call the tables hold the serial result.
 */
module OccOneServer {
  import opened Occ
  import opened OccRuns
  import opened TwoPhaseCommit

  /** The calls of one server's clients. */
  datatype Call =
    | Start(t: Tid)
    | ReadColumn(t: Tid, c: Cell)
    | WriteColumn(t: Tid, c: Cell, v: Value)
    | CommitPrepare(t: Tid)
    | CommitConfirm(t: Tid)
    | AbortCall(t: Tid)

  function EventsOf(s: Sid, call: Call): seq<Event> {
    match call
    case Start(t) => [Begin(t)]
    case ReadColumn(t, c) => [ReadCol(t, s, c)]
    case WriteColumn(t, c, v) => [WriteCol(t, s, c, v)]
    case CommitPrepare(t) => [Prepare(t, s)]
    case CommitConfirm(t) => [Decide(t), Confirm(t, s)]
    case AbortCall(t) => [Forget(t), Abort(t, s)]
  }

  /** Any interleaving of calls. */
  ghost predicate Calls(d: Db, s: Sid, calls: seq<Call>, d': Db)
    decreases |calls|
  {
    if calls == [] then d' == d
    else exists d1 :: Run(d, EventsOf(s, calls[0]), d1) && Calls(d1, s, calls[1..], d')
  }

  /** Confirmed transactions are gone from the server. */
  ghost predicate NoneOutstanding(d: Db) {
    forall t: Tid :: StatusOf(d, t).logged ==> StatusOf(d, t).live == {}
  }

  ghost predicate Alone(d: Db, s: Sid) {
    Inv(d) && d.servers.Keys == {s} && NoneOutstanding(d)
  }

  lemma LiveHere(d: Db, s: Sid, t: Tid)
    requires d.servers.Keys == {s}
    ensures StatusOf(d, t).live <= {s}
  {
  }

  lemma OneEvent(d: Db, s: Sid, e: Event, d': Db)
    requires Alone(d, s) && Run(d, [e], d') && !e.Decide?
    ensures var st' := StatusOf(d', e.t); st'.logged ==> st'.live == {}
  {
    hide Inv, Run, Apply, StatusOf;
    RunOne(d, e, d');
    StatusMeaning(d, e.t);
    LogMeaning(d, e.t);
  }

  lemma LogMeaning(d: Db, t: Tid)
    requires Inv(d)
    ensures StatusOf(d, t).logged ==> StatusOf(d, t).traced
  {
    hide ServersWf, CellsHold, DecidedReads, Staged, TracesHome, TracesOk;
  }

  lemma TwoEvents(d: Db, e: Event, f: Event, d': Db)
    requires Inv(d) && Run(d, [e, f], d')
    ensures Enabled(d, e) && Run(d, [e], Apply(d, e)) && Inv(Apply(d, e)) && Run(Apply(d, e), [f], d')
  {
    hide Inv, Enabled, Apply;
    assert [e, f][1..] == [f];
    StepKeepsInv(d, e);
    OneRun(d, e);
  }

  lemma OwnOutcome(d: Db, s: Sid, call: Call, d': Db)
    requires Alone(d, s) && Run(d, EventsOf(s, call), d')
    ensures var st' := StatusOf(d', call.t); st'.logged ==> st'.live == {}
  {
    hide Inv, Run, Apply, StatusOf, Enabled;
    if call.CommitConfirm? || call.AbortCall? {
      var t := call.t;
      var e := if call.CommitConfirm? then Decide(t) else Forget(t);
      var f := if call.CommitConfirm? then Confirm(t, s) else Abort(t, s);
      TwoEvents(d, e, f, d');
      RunOne(d, e, Apply(d, e));
      RunOne(Apply(d, e), f, d');
      LiveHere(d, s, t);
    } else {
      OneEvent(d, s, EventsOf(s, call)[0], d');
    }
  }

  lemma CallKeepsAlone(d: Db, s: Sid, call: Call, d': Db)
    requires Alone(d, s) && Run(d, EventsOf(s, call), d')
    ensures Alone(d', s)
  {
    hide Inv, Run, StatusOf;
    RunFrame(d, EventsOf(s, call), d', call.t);
    OwnOutcome(d, s, call, d');
  }

  lemma {:induction false} CallsKeepAlone(d: Db, s: Sid, calls: seq<Call>, d': Db)
    requires Alone(d, s) && Calls(d, s, calls, d')
    ensures Alone(d', s)
    decreases |calls|
  {
    hide Alone, Run;
    if calls != [] {
      var d1 :| Run(d, EventsOf(s, calls[0]), d1) && Calls(d1, s, calls[1..], d');
      CallKeepsAlone(d, s, calls[0], d1);
      CallsKeepAlone(d1, s, calls[1..], d');
    }
  }

  lemma InitialAlone(d: Db, s: Sid)
    requires Initial(d) && d.servers.Keys == {s}
    ensures Alone(d, s)
  {
    InitialInv(d);
  }

  /** `log` lists the transactions in confirm order: only a confirm appends to it. */
  lemma ConfirmAppends(d: Db, s: Sid, call: Call, d': Db)
    requires Inv(d) && Run(d, EventsOf(s, call), d')
    ensures d'.log == if call.CommitConfirm? then d.log + [call.t] else d.log
  {
    hide Inv, Enabled;
    if call.CommitConfirm? {
      TwoEvents(d, Decide(call.t), Confirm(call.t, s), d');
      RunOne(Apply(d, Decide(call.t)), Confirm(call.t, s), d');
    } else if call.AbortCall? {
      TwoEvents(d, Forget(call.t), Abort(call.t, s), d');
      RunOne(Apply(d, Forget(call.t)), Abort(call.t, s), d');
    } else {
      RunOne(d, EventsOf(s, call)[0], d');
    }
  }

  /**
    For every interleaving of calls on one server: every value a committed transaction read is
    the one the serial execution in confirm order gives, and the store is the result of it.
   */
  lemma StoreIsSerialInConfirmOrder(d: Db, s: Sid, calls: seq<Call>, d': Db, g: GCell)
    requires Initial(d) && d.servers.Keys == {s} && Calls(d, s, calls, d') && g in d'.init
    ensures Serializable(d')
    ensures LogIn(d'.traces, d'.log) && g.sid in d'.servers && g.cell in d'.servers[g.sid].store
    ensures g in Serial(d'.init, d'.traces, d'.log)
    ensures d'.servers[g.sid].store[g.cell] == Serial(d'.init, d'.traces, d'.log)[g]
  {
    hide Inv, Initial, Calls, Serializable, Serial, StatusOf;
    InitialAlone(d, s);
    CallsKeepAlone(d, s, calls, d');
    InvSerializable(d');
    forall t: Tid ensures !PendingBy(d', g, t) {
      StatusMeaning(d', t);
      assert StatusOf(d', t).logged ==> g.sid !in StatusOf(d', t).live;
    }
    TablesAreSerial(d', g);
  }
}
