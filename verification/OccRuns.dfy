/**
  Optimistic transactions over several servers: for every interleaving of reads,
  writes, prepares, decisions, confirms and aborts, the decided transactions are
  serializable in decision order.
 */
module OccRuns {
  import opened Common
  import opened Occ

  type Sid = nat

  datatype GCell = GCell(sid: Sid, cell: Cell)

  /** One column access as the transaction saw it. `Rd` is a read of table data and notes
      the version it found; `Own` is a read of its own staged write. */
  datatype Op =
    | Rd(g: GCell, ver: nat, val: Value)
    | Own(g: GCell, val: Value)
    | Wr(g: GCell, val: Value)

  type Trace = seq<Op>

  /** The servers, what each running or decided transaction did, and the order of commit decisions. */
  datatype Db = Db(servers: map<Sid, Server>, traces: map<Tid, Trace>, log: seq<Tid>, init: map<GCell, Value>)

  // ---- serial execution ----

  /** The last value written to each cell. */
  function Writes(tr: Trace): map<GCell, Value> {
    if tr == [] then map[]
    else
      var w, op := Writes(tr[..|tr| - 1]), tr[|tr| - 1];
      if op.Wr? then w[op.g := op.val] else w
  }

  /** Executing `tr` alone on `store` gives every read the value it saw. */
  ghost predicate Runs(tr: Trace, store: map<GCell, Value>) {
    forall i :: 0 <= i < |tr| && !tr[i].Wr? ==>
                  tr[i].g in store && tr[i].val == (store + Writes(tr[..i]))[tr[i].g]
  }

  ghost predicate LogIn(traces: map<Tid, Trace>, log: seq<Tid>) {
    forall t :: t in log ==> t in traces
  }

  /** The store after executing the transactions of `log` one after the other. */
  ghost function Serial(init: map<GCell, Value>, traces: map<Tid, Trace>, log: seq<Tid>): map<GCell, Value>
    requires LogIn(traces, log)
  {
    if log == [] then init
    else
      assert log[|log| - 1] in log;
      Serial(init, traces, log[..|log| - 1]) + Writes(traces[log[|log| - 1]])
  }

  /** All values of cell `g` in that execution: version 0, 1, 2, ... */
  ghost function Chain(v0: Value, traces: map<Tid, Trace>, log: seq<Tid>, g: GCell): (vs: seq<Value>)
    requires LogIn(traces, log)
    ensures |vs| > 0
  {
    if log == [] then [v0]
    else
      assert log[|log| - 1] in log;
      var c, w := Chain(v0, traces, log[..|log| - 1], g), Writes(traces[log[|log| - 1]]);
      if g in w then c + [w[g]] else c
  }

  // ---- steps ----

  datatype Event =
    | Begin(t: Tid)
    | Open(t: Tid, s: Sid)
    | ReadCol(t: Tid, s: Sid, c: Cell)
    | WriteCol(t: Tid, s: Sid, c: Cell, v: Value)
    | Prepare(t: Tid, s: Sid)
    | Decide(t: Tid)
    | Forget(t: Tid)
    | Confirm(t: Tid, s: Sid)
    | Abort(t: Tid, s: Sid)

  ghost predicate Live(d: Db, t: Tid, s: Sid) {
    s in d.servers && t in d.servers[s].txns
  }

  ghost predicate Verified(d: Db, t: Tid, s: Sid) {
    Live(d, t, s) && d.servers[s].txns[t].verified
  }

  /** What the callers of each operation guarantee. */
  ghost predicate Enabled(d: Db, e: Event) {
    match e
    case Begin(t) => t !in d.traces && forall s :: !Live(d, t, s)
    case Open(t, s) => t in d.traces && t !in d.log && s in d.servers && !Verified(d, t, s)
    case ReadCol(t, s, c) =>
      t in d.traces && t !in d.log && s in d.servers && c in d.servers[s].store && !Verified(d, t, s)
    case WriteCol(t, s, c, v) =>
      t in d.traces && t !in d.log && s in d.servers && c in d.servers[s].store && !Verified(d, t, s)
    case Prepare(t, s) => Live(d, t, s) && !Verified(d, t, s)
    case Decide(t) => t in d.traces && t !in d.log && forall s :: Live(d, t, s) ==> Verified(d, t, s)
    case Forget(t) => t !in d.log
    case Confirm(t, s) => t in d.log && Live(d, t, s)
    case Abort(t, s) => t !in d.traces && Live(d, t, s)
  }

  ghost function ReadOp(d: Db, t: Tid, s: Sid, c: Cell): Op
    requires s in d.servers && c in d.servers[s].store && c in d.servers[s].ver
  {
    var sv := d.servers[s];
    if c in sv.Get(t).updates then Own(GCell(s, c), sv.ReadValue(t, c))
    else Rd(GCell(s, c), sv.ver[c], sv.ReadValue(t, c))
  }

  ghost function Apply(d: Db, e: Event): Db
    requires Inv(d) && Enabled(d, e)
  {
    match e
    case Begin(t) => d.(traces := d.traces[t := []])
    case Open(t, s) =>
      d.(servers := d.servers[s := d.servers[s].(txns := d.servers[s].txns[t := d.servers[s].Get(t)])])
    case ReadCol(t, s, c) =>
      ServerWf(d, s);
      d.(servers := d.servers[s := d.servers[s].Read(t, c)],
         traces := d.traces[t := d.traces[t] + [ReadOp(d, t, s, c)]])
    case WriteCol(t, s, c, v) =>
      ServerWf(d, s);
      d.(servers := d.servers[s := d.servers[s].Write(t, c, v)],
         traces := d.traces[t := d.traces[t] + [Wr(GCell(s, c), v)]])
    case Prepare(t, s) =>
      ServerWf(d, s);
      d.(servers := d.servers[s := d.servers[s].Prepare(t)])
    case Decide(t) => d.(log := d.log + [t])
    case Forget(t) => d.(traces := d.traces - {t})
    case Confirm(t, s) => d.(servers := d.servers[s := d.servers[s].Confirm(t)])
    case Abort(t, s) => d.(servers := d.servers[s := d.servers[s].Abort(t)])
  }

  // ---- invariant ----

  ghost function ChainOf(d: Db, g: GCell): seq<Value>
    requires LogIn(d.traces, d.log) && g in d.init
  {
    Chain(d.init[g], d.traces, d.log, g)
  }

  ghost predicate ServersWf(d: Db) {
    forall s :: s in d.servers ==> d.servers[s].Wf()
  }

  ghost predicate CellsOk(d: Db) {
    forall g :: g in d.init <==> g.sid in d.servers && g.cell in d.servers[g.sid].store
  }

  ghost predicate LogOk(d: Db) {
    LogIn(d.traces, d.log) && forall i, j :: 0 <= i < j < |d.log| ==> d.log[i] != d.log[j]
  }

  /** The staged updates of a live transaction are the writes of its trace on that server. */
  ghost predicate StagedAt(d: Db, t: Tid, s: Sid)
    requires Live(d, t, s)
  {
    && (t in d.log ==> d.servers[s].txns[t].verified)
    && (t in d.traces ==>
          forall c :: (c in d.servers[s].txns[t].updates <==> GCell(s, c) in Writes(d.traces[t])) &&
                      (c in d.servers[s].txns[t].updates ==>
                         d.servers[s].txns[t].updates[c] == Writes(d.traces[t])[GCell(s, c)]))
  }

  ghost predicate Staged(d: Db) {
    forall s, t :: Live(d, t, s) ==> StagedAt(d, t, s)
  }

  /** A read of an undecided transaction: it found a version of the chain, no older than the one it will check. */
  ghost predicate ReadHome(d: Db, t: Tid, op: Op)
    requires LogIn(d.traces, d.log)
  {
    && op.g in d.init && Live(d, t, op.g.sid)
    && (op.Rd? ==>
          && var x := d.servers[op.g.sid].txns[t];
          && op.g.cell in x.verRead && op.g.cell in d.servers[op.g.sid].ver
          && x.verRead[op.g.cell] <= op.ver <= d.servers[op.g.sid].ver[op.g.cell]
          && op.ver < |ChainOf(d, op.g)| && op.val == ChainOf(d, op.g)[op.ver])
  }

  ghost predicate TracesHome(d: Db)
    requires LogIn(d.traces, d.log)
  {
    forall t, op :: t in d.traces && t !in d.log && op in d.traces[t] ==> ReadHome(d, t, op)
  }

  /** A decided transaction that has yet to confirm its write of `g`. */
  ghost predicate PendingBy(d: Db, g: GCell, t: Tid) {
    t in d.log && Live(d, t, g.sid) && g.cell in d.servers[g.sid].txns[t].updates
  }

  /** The table holds the last version of the chain, or the last but one while a confirm is outstanding. */
  ghost predicate CellOk(d: Db, g: GCell)
    requires LogIn(d.traces, d.log) && CellsOk(d) && g in d.init
  {
    var sv, ch := d.servers[g.sid], ChainOf(d, g);
    && g.cell in sv.ver && sv.ver[g.cell] < |ch| && sv.store[g.cell] == ch[sv.ver[g.cell]]
    && (forall t :: PendingBy(d, g, t) ==>
                      sv.ver[g.cell] == |ch| - 2 && sv.txns[t].updates[g.cell] == ch[|ch| - 1])
    && ((forall t :: !PendingBy(d, g, t)) ==> sv.ver[g.cell] == |ch| - 1)
  }

  ghost predicate CellsHold(d: Db)
    requires LogIn(d.traces, d.log) && CellsOk(d)
  {
    forall g :: g in d.init ==> CellOk(d, g)
  }

  /** Every read of the k-th decided transaction found the value left by the first k. */
  ghost predicate DecidedAt(d: Db, k: nat)
    requires LogIn(d.traces, d.log) && k < |d.log|
  {
    LogInPrefix(d.traces, d.log, k);
    assert d.log[k] in d.log;
    forall op :: op in d.traces[d.log[k]] ==>
                   && op.g in d.init
                   && (op.Rd? ==>
                         var ch := Chain(d.init[op.g], d.traces, d.log[..k], op.g);
                         op.ver == |ch| - 1 && op.val == ch[op.ver])
  }

  ghost predicate DecidedReads(d: Db)
    requires LogIn(d.traces, d.log)
  {
    forall k :: 0 <= k < |d.log| ==> DecidedAt(d, k)
  }

  /** Reads of own writes return the latest of them; other reads are of cells not yet written. */
  ghost predicate TraceOk(tr: Trace) {
    forall i :: 0 <= i < |tr| ==>
                  && (tr[i].Rd? ==> tr[i].g !in Writes(tr[..i]))
                  && (tr[i].Own? ==> tr[i].g in Writes(tr[..i]) && tr[i].val == Writes(tr[..i])[tr[i].g])
  }

  ghost predicate TracesOk(d: Db) {
    forall t :: t in d.traces ==> TraceOk(d.traces[t])
  }

  ghost predicate Inv(d: Db) {
    && ServersWf(d) && CellsOk(d) && LogOk(d) && Staged(d) && TracesHome(d) && CellsHold(d) && DecidedReads(d)
    && TracesOk(d)
  }

  lemma ServerWf(d: Db, s: Sid)
    requires ServersWf(d) && s in d.servers
    ensures d.servers[s].Wf() && d.servers[s].ver.Keys == d.servers[s].store.Keys
  {
    hide Server.TxnsWf, Server.AllCovered, Server.NoStrayLocks;
  }

  lemma LogInPrefix(traces: map<Tid, Trace>, log: seq<Tid>, k: nat)
    requires LogIn(traces, log) && k <= |log|
    ensures LogIn(traces, log[..k])
  {
  }

  // ---- chains ----

  lemma {:induction false} ChainFrame(v0: Value, tr: map<Tid, Trace>, tr': map<Tid, Trace>, log: seq<Tid>, g: GCell)
    requires LogIn(tr, log) && LogIn(tr', log) && forall t :: t in log ==> tr[t] == tr'[t]
    ensures Chain(v0, tr, log, g) == Chain(v0, tr', log, g)
    decreases |log|
  {
    if log != [] {
      assert log[|log| - 1] in log;
      ChainFrame(v0, tr, tr', log[..|log| - 1], g);
    }
  }

  /** Deciding one more transaction extends the chain by its write, if any. */
  lemma ChainStep(v0: Value, tr: map<Tid, Trace>, log: seq<Tid>, t: Tid, g: GCell)
    requires LogIn(tr, log) && t in tr
    ensures LogIn(tr, log + [t])
    ensures Chain(v0, tr, log + [t], g) ==
            Chain(v0, tr, log, g) + if g in Writes(tr[t]) then [Writes(tr[t])[g]] else []
  {
    assert (log + [t])[..|log|] == log;
    assert LogIn(tr, log + [t]);
  }

  /** The serial store holds the last version of every chain. */
  lemma {:induction false} SerialIsLast(init: map<GCell, Value>, tr: map<Tid, Trace>, log: seq<Tid>, g: GCell)
    requires LogIn(tr, log) && g in init
    ensures g in Serial(init, tr, log)
    ensures var ch := Chain(init[g], tr, log, g); Serial(init, tr, log)[g] == ch[|ch| - 1]
    decreases |log|
  {
    if log != [] {
      assert log[|log| - 1] in log;
      SerialIsLast(init, tr, log[..|log| - 1], g);
    }
  }

  lemma WritesStep(tr: Trace, op: Op)
    ensures Writes(tr + [op]) == if op.Wr? then Writes(tr)[op.g := op.val] else Writes(tr)
  {
    assert (tr + [op])[..|tr|] == tr;
  }

  lemma {:induction false} WrittenByOp(tr: Trace, g: GCell)
    requires g in Writes(tr)
    ensures exists op :: op in tr && op.Wr? && op.g == g
  {
    var op := tr[|tr| - 1];
    if op.Wr? && op.g == g {
      assert op in tr;
    } else {
      WrittenByOp(tr[..|tr| - 1], g);
      var q :| q in tr[..|tr| - 1] && q.Wr? && q.g == g;
      assert q in tr;
    }
  }

  lemma TraceOkStep(tr: Trace, op: Op)
    requires TraceOk(tr)
    requires op.Rd? ==> op.g !in Writes(tr)
    requires op.Own? ==> op.g in Writes(tr) && op.val == Writes(tr)[op.g]
    ensures TraceOk(tr + [op])
  {
    var tr' := tr + [op];
    forall i | 0 <= i < |tr'|
      ensures tr'[i].Rd? ==> tr'[i].g !in Writes(tr'[..i])
      ensures tr'[i].Own? ==> tr'[i].g in Writes(tr'[..i]) && tr'[i].val == Writes(tr'[..i])[tr'[i].g]
    {
      assert tr'[..i] == if i < |tr| then tr[..i] else tr;
      assert i < |tr| ==> tr'[i] == tr[i];
    }
  }

  // ---- frames ----

  /** Decided traces and the log unchanged: so are all chains. */
  lemma SameChains(d: Db, d': Db)
    requires LogIn(d.traces, d.log) && LogIn(d'.traces, d'.log)
    requires d.log == d'.log && d.init == d'.init
    requires forall t :: t in d.log ==> d.traces[t] == d'.traces[t]
    ensures forall g :: g in d.init ==> ChainOf(d', g) == ChainOf(d, g)
    ensures DecidedReads(d) ==> DecidedReads(d')
  {
    hide Chain;
    forall g | g in d.init ensures ChainOf(d', g) == ChainOf(d, g) {
      ChainFrame(d.init[g], d.traces, d'.traces, d.log, g);
    }
    forall k | 0 <= k < |d.log| && DecidedAt(d, k) ensures DecidedAt(d', k) {
      LogInPrefix(d.traces, d.log, k);
      LogInPrefix(d'.traces, d'.log, k);
      assert d.log[k] in d.log;
      forall op | op in d.traces[d.log[k]] && op.g in d.init
        ensures Chain(d.init[op.g], d.traces, d.log[..k], op.g) == Chain(d.init[op.g], d'.traces, d.log[..k], op.g)
      {
        ChainFrame(d.init[op.g], d.traces, d'.traces, d.log[..k], op.g);
      }
    }
  }

  /** Same tables and same decided entries: every cell still agrees with its chain. */
  lemma SameCells(d: Db, d': Db)
    requires LogIn(d.traces, d.log) && LogIn(d'.traces, d'.log) && CellsOk(d) && CellsOk(d') && CellsHold(d)
    requires d.log == d'.log && d.init == d'.init && d'.servers.Keys == d.servers.Keys
    requires forall g :: g in d.init ==> ChainOf(d', g) == ChainOf(d, g)
    requires forall s :: s in d.servers ==>
                           d'.servers[s].store == d.servers[s].store && d'.servers[s].ver == d.servers[s].ver
    requires forall s, t :: t in d.log && s in d.servers ==>
                              (Live(d', t, s) <==> Live(d, t, s)) &&
                              (Live(d, t, s) ==> d'.servers[s].txns[t].updates == d.servers[s].txns[t].updates)
    ensures CellsHold(d')
  {
    hide Chain, ChainOf;
    forall g | g in d.init ensures CellOk(d', g) {
      assert CellOk(d, g);
      assert forall t :: PendingBy(d', g, t) <==> PendingBy(d, g, t);
    }
  }

  /** A read keeps its home while versions only grow and chains only get longer. */
  lemma HomeFrame(d: Db, d': Db, t: Tid, op: Op)
    requires LogIn(d.traces, d.log) && LogIn(d'.traces, d'.log) && d.init == d'.init
    requires ReadHome(d, t, op) && Live(d', t, op.g.sid)
    requires ChainOf(d, op.g) <= ChainOf(d', op.g)
    requires var sv, sv' := d.servers[op.g.sid], d'.servers[op.g.sid];
             && sv.ver.Keys == sv'.ver.Keys && (forall c :: c in sv.ver ==> sv.ver[c] <= sv'.ver[c])
             && forall c :: c in sv.txns[t].verRead ==>
                              c in sv'.txns[t].verRead && sv'.txns[t].verRead[c] == sv.txns[t].verRead[c]
    ensures ReadHome(d', t, op)
  {
    hide ChainOf;
  }

  // ---- each step keeps the invariant ----

  /** Reads and writes: one new operation of an undecided, unprepared transaction. */
  lemma StageStep(d: Db, d': Db, t: Tid, s: Sid, x': Txn, op: Op)
    requires Inv(d) && t in d.traces && t !in d.log && s in d.servers
    requires d' == d.(servers := d.servers[s := d.servers[s].(txns := d.servers[s].txns[t := x'])],
                      traces := d.traces[t := d.traces[t] + [op]])
    requires d'.servers[s].Wf() && !x'.verified
    requires op.g.sid == s && op.g in d.init
    requires forall c :: c in d.servers[s].Get(t).verRead ==>
                           c in x'.verRead && x'.verRead[c] == d.servers[s].Get(t).verRead[c]
    requires op.Rd? ==>
               var c := op.g.cell;
               && c in x'.verRead && c in d.servers[s].ver && x'.verRead[c] <= op.ver == d.servers[s].ver[c]
               && op.val == d.servers[s].store[c]
    requires TraceOk(d.traces[t] + [op])
    requires x'.updates ==
               if op.Wr? then d.servers[s].Get(t).updates[op.g.cell := op.val] else d.servers[s].Get(t).updates
    ensures Inv(d')
  {
    hide Server.Wf, Chain, ChainOf, Writes, TraceOk, CellsHold, DecidedReads, Staged, TracesHome;
    SameChains(d, d');
    assert CellsOk(d');
    SameCells(d, d');
    StageKeepsStaged(d, d', t, s, x', op);
    StageKeepsHomes(d, d', t, s, x', op);
  }

  lemma StageKeepsStaged(d: Db, d': Db, t: Tid, s: Sid, x': Txn, op: Op)
    requires LogIn(d.traces, d.log) && TracesHome(d) && Staged(d) && t in d.traces && t !in d.log && s in d.servers
    requires d' == d.(servers := d.servers[s := d.servers[s].(txns := d.servers[s].txns[t := x'])],
                      traces := d.traces[t := d.traces[t] + [op]])
    requires op.g.sid == s
    requires x'.updates ==
               if op.Wr? then d.servers[s].Get(t).updates[op.g.cell := op.val] else d.servers[s].Get(t).updates
    ensures Staged(d')
  {
    hide Writes, TracesHome;
    WritesStep(d.traces[t], op);
    forall u, s2 | Live(d', u, s2) ensures StagedAt(d', u, s2) {
      if u == t && s2 == s && !Live(d, t, s) {
        NothingWritten(d, t, s);
      } else {
        assert StagedAt(d, u, s2);
      }
    }
  }

  lemma StageKeepsHomes(d: Db, d': Db, t: Tid, s: Sid, x': Txn, op: Op)
    requires LogIn(d.traces, d.log) && LogIn(d'.traces, d'.log) && TracesHome(d) && CellsOk(d) && CellsHold(d)
    requires t in d.traces && t !in d.log && s in d.servers
    requires d' == d.(servers := d.servers[s := d.servers[s].(txns := d.servers[s].txns[t := x'])],
                      traces := d.traces[t := d.traces[t] + [op]])
    requires forall g :: g in d.init ==> ChainOf(d', g) == ChainOf(d, g)
    requires op.g.sid == s && op.g in d.init
    requires forall c :: c in d.servers[s].Get(t).verRead ==>
                           c in x'.verRead && x'.verRead[c] == d.servers[s].Get(t).verRead[c]
    requires op.Rd? ==>
               var c := op.g.cell;
               && c in x'.verRead && c in d.servers[s].ver && x'.verRead[c] <= op.ver == d.servers[s].ver[c]
               && op.val == d.servers[s].store[c]
    ensures TracesHome(d')
  {
    hide ChainOf, CellsHold, ReadHome;
    forall u, q | u in d'.traces && u !in d'.log && q in d'.traces[u] ensures ReadHome(d', u, q) {
      if u == t && q == op {
        NewReadHome(d, d', t, op);
      } else {
        assert ReadHome(d, u, q);
        HomeInInit(d, u, q);
        StageHome(d, d', t, s, x', u, q);
      }
    }
  }

  lemma HomeInInit(d: Db, t: Tid, op: Op)
    requires LogIn(d.traces, d.log) && ReadHome(d, t, op)
    ensures op.g in d.init && Live(d, t, op.g.sid)
  {
  }

  /** What an undecided transaction wrote, it wrote on a server where it is live. */
  lemma WrittenIsLive(d: Db, t: Tid, g: GCell)
    requires LogIn(d.traces, d.log) && TracesHome(d) && t in d.traces && t !in d.log && g in Writes(d.traces[t])
    ensures Live(d, t, g.sid) && g in d.init
  {
    hide Writes;
    WrittenByOp(d.traces[t], g);
    var q :| q in d.traces[t] && q.Wr? && q.g == g;
    assert ReadHome(d, t, q);
  }

  lemma NothingWritten(d: Db, t: Tid, s: Sid)
    requires LogIn(d.traces, d.log) && TracesHome(d) && t in d.traces && t !in d.log && !Live(d, t, s)
    ensures forall c :: GCell(s, c) !in Writes(d.traces[t])
  {
    hide Writes, TracesHome;
    forall c ensures GCell(s, c) !in Writes(d.traces[t]) {
      if GCell(s, c) in Writes(d.traces[t]) {
        WrittenIsLive(d, t, GCell(s, c));
      }
    }
  }

  lemma NewReadHome(d: Db, d': Db, t: Tid, op: Op)
    requires LogIn(d.traces, d.log) && LogIn(d'.traces, d'.log) && CellsOk(d) && CellsHold(d) && d.init == d'.init
    requires op.g in d.init && ChainOf(d', op.g) == ChainOf(d, op.g)
    requires op.g.sid in d.servers && Live(d', t, op.g.sid) && d'.servers[op.g.sid].ver == d.servers[op.g.sid].ver
    requires op.Rd? ==>
               var x', c := d'.servers[op.g.sid].txns[t], op.g.cell;
               && c in x'.verRead && c in d.servers[op.g.sid].ver
               && x'.verRead[c] <= op.ver == d.servers[op.g.sid].ver[c]
               && op.val == d.servers[op.g.sid].store[c]
    ensures ReadHome(d', t, op)
  {
    hide ChainOf;
    assert CellOk(d, op.g);
  }

  lemma StageHome(d: Db, d': Db, t: Tid, s: Sid, x': Txn, u: Tid, q: Op)
    requires LogIn(d.traces, d.log) && LogIn(d'.traces, d'.log) && s in d.servers
    requires d'.servers == d.servers[s := d.servers[s].(txns := d.servers[s].txns[t := x'])]
    requires d.init == d'.init && ReadHome(d, u, q) && ChainOf(d', q.g) == ChainOf(d, q.g)
    requires forall c :: c in d.servers[s].Get(t).verRead ==>
                           c in x'.verRead && x'.verRead[c] == d.servers[s].Get(t).verRead[c]
    ensures ReadHome(d', u, q)
  {
    hide ChainOf;
    HomeFrame(d, d', u, q);
  }

  lemma ReadStep(d: Db, t: Tid, s: Sid, c: Cell)
    requires Inv(d) && Enabled(d, ReadCol(t, s, c))
    ensures Inv(Apply(d, ReadCol(t, s, c)))
  {
    hide Server.Wf, TraceOk, Writes, CellsHold, DecidedReads, Staged, TracesHome, Apply;
    var d' := Apply(d, ReadCol(t, s, c));
    var sv := d.servers[s];
    ServerWf(d, s);
    ReadKeepsWf(sv, t, c);
    ReadOpFits(d, t, s, c);
    var op, x' := ReadOp(d, t, s, c), sv.Read(t, c).txns[t];
    ReadApplies(d, t, s, c);
    assert GCell(s, c) in d.init;
    TraceOkStep(d.traces[t], op);
    hide Inv;
    StageStep(d, d', t, s, x', op);
  }

  lemma ReadApplies(d: Db, t: Tid, s: Sid, c: Cell)
    requires Inv(d) && Enabled(d, ReadCol(t, s, c)) && c in d.servers[s].ver
    ensures var x' := d.servers[s].Read(t, c).txns[t];
            && Apply(d, ReadCol(t, s, c)) ==
               d.(servers := d.servers[s := d.servers[s].(txns := d.servers[s].txns[t := x'])],
                  traces := d.traces[t := d.traces[t] + [ReadOp(d, t, s, c)]])
            && x'.updates == d.servers[s].Get(t).updates && x'.verified == d.servers[s].Get(t).verified
            && (forall a :: a in d.servers[s].Get(t).verRead ==>
                              a in x'.verRead && x'.verRead[a] == d.servers[s].Get(t).verRead[a])
            && (ReadOp(d, t, s, c).Rd? ==>
                  c in x'.verRead && (c !in d.servers[s].Get(t).verRead ==> x'.verRead[c] == d.servers[s].ver[c]))
  {
    hide Server.Wf, TraceOk, Writes, CellsHold, DecidedReads, Staged, TracesHome;
  }

  /** The trace entry of a read says the truth about own writes. */
  lemma ReadOpFits(d: Db, t: Tid, s: Sid, c: Cell)
    requires Inv(d) && Enabled(d, ReadCol(t, s, c))
    ensures ServersWf(d) && c in d.servers[s].ver && TraceOk(d.traces[t])
    ensures var op, w := ReadOp(d, t, s, c), Writes(d.traces[t]);
            && op.g == GCell(s, c)
            && (op.Rd? ==> op.g !in w) && (op.Own? ==> op.g in w && op.val == w[op.g])
    ensures var op, x := ReadOp(d, t, s, c), d.servers[s].Get(t);
            op.Rd? ==> c in x.verRead ==> x.verRead[c] <= op.ver
  {
    ServerWf(d, s);
    assert Live(d, t, s) ==> d.servers[s].TxnWf(d.servers[s].txns[t]);
    hide Server.Wf, Writes, CellsHold, DecidedReads, TraceOk, ReadHome;
    if Live(d, t, s) {
      assert StagedAt(d, t, s);
    } else {
      NothingWritten(d, t, s);
    }
  }

  lemma WriteStep(d: Db, t: Tid, s: Sid, c: Cell, v: Value)
    requires Inv(d) && Enabled(d, WriteCol(t, s, c, v))
    ensures Inv(Apply(d, WriteCol(t, s, c, v)))
  {
    var d' := Apply(d, WriteCol(t, s, c, v));
    var sv := d.servers[s];
    ServerWf(d, s);
    WriteKeepsWf(sv, t, c, v);
    assert GCell(s, c) in d.init;
    TraceOkStep(d.traces[t], Wr(GCell(s, c), v));
    hide Server.Wf, Inv, TraceOk, Writes;
    StageStep(d, d', t, s, sv.Write(t, c, v).txns[t], Wr(GCell(s, c), v));
  }

  lemma BeginStep(d: Db, t: Tid)
    requires Inv(d) && Enabled(d, Begin(t))
    ensures Inv(Apply(d, Begin(t)))
  {
    hide Server.Wf, Chain, ChainOf, CellsHold, DecidedReads, StagedAt, ReadHome;
    var d' := Apply(d, Begin(t));
    SameChains(d, d');
    SameCells(d, d');
    forall u, s | Live(d', u, s) ensures StagedAt(d', u, s) {
      assert Live(d, u, s) && StagedAt(d, u, s);
      StagedFrame(d, d', u, s);
    }
    forall u, q | u in d'.traces && u !in d'.log && q in d'.traces[u] ensures ReadHome(d', u, q) {
      SameHome(d, d', u, q);
    }
  }

  /** The first piece on a server creates the transaction there. */
  lemma OpenStep(d: Db, t: Tid, s: Sid)
    requires Inv(d) && Enabled(d, Open(t, s))
    ensures Inv(Apply(d, Open(t, s)))
  {
    hide Server.Wf, Chain, ChainOf, CellsHold, DecidedReads, StagedAt, ReadHome;
    var d' := Apply(d, Open(t, s));
    ServerWf(d, s);
    OpenKeepsWf(d.servers[s], t);
    SameChains(d, d');
    SameCells(d, d');
    forall u, s2 | Live(d', u, s2) ensures StagedAt(d', u, s2) {
      if u == t && s2 == s && !Live(d, t, s) {
        NothingWritten(d, t, s);
        NewlyStaged(d', t, s);
      } else {
        assert Live(d, u, s2) && StagedAt(d, u, s2);
        StagedFrame(d, d', u, s2);
      }
    }
    forall u, q | u in d'.traces && u !in d'.log && q in d'.traces[u] ensures ReadHome(d', u, q) {
      SameHome(d, d', u, q);
    }
  }

  lemma NewlyStaged(d: Db, t: Tid, s: Sid)
    requires Live(d, t, s) && t !in d.log && d.servers[s].txns[t] == EMPTY_TXN && t in d.traces
    requires forall c :: GCell(s, c) !in Writes(d.traces[t])
    ensures StagedAt(d, t, s)
  {
  }

  lemma StagedFrame(d: Db, d': Db, u: Tid, s: Sid)
    requires Live(d, u, s) && Live(d', u, s) && StagedAt(d, u, s) && d.log == d'.log
    requires d.servers[s].txns[u].updates == d'.servers[s].txns[u].updates
    requires d.servers[s].txns[u].verified ==> d'.servers[s].txns[u].verified
    requires u in d'.traces ==> u in d.traces && d.traces[u] == d'.traces[u]
    ensures StagedAt(d', u, s)
  {
    hide Writes;
  }

  /** A read keeps its home when servers only drop other transactions, change locks or raise versions. */
  lemma SameHome(d: Db, d': Db, u: Tid, q: Op)
    requires LogIn(d.traces, d.log) && LogIn(d'.traces, d'.log) && d.init == d'.init && TracesHome(d)
    requires u in d.traces && u !in d.log && q in d.traces[u]
    requires q.g in d.init ==> ChainOf(d', q.g) == ChainOf(d, q.g)
    requires forall s :: Live(d, u, s) ==>
                           && Live(d', u, s) && d'.servers[s].txns[u].verRead == d.servers[s].txns[u].verRead
                           && d'.servers[s].ver.Keys == d.servers[s].ver.Keys
                           && forall c :: c in d.servers[s].ver ==> d.servers[s].ver[c] <= d'.servers[s].ver[c]
    ensures ReadHome(d', u, q)
  {
    hide ChainOf;
    assert ReadHome(d, u, q);
    HomeFrame(d, d', u, q);
  }

  lemma ForgetStep(d: Db, t: Tid)
    requires Inv(d) && Enabled(d, Forget(t))
    ensures Inv(Apply(d, Forget(t)))
  {
    hide Server.Wf, Chain, ChainOf, CellsHold, DecidedReads, StagedAt, ReadHome;
    var d' := Apply(d, Forget(t));
    SameChains(d, d');
    SameCells(d, d');
    forall u, s | Live(d', u, s) ensures StagedAt(d', u, s) {
      assert Live(d, u, s) && StagedAt(d, u, s);
      StagedFrame(d, d', u, s);
    }
    forall u, q | u in d'.traces && u !in d'.log && q in d'.traces[u] ensures ReadHome(d', u, q) {
      SameHome(d, d', u, q);
    }
  }

  /** Steps that change one server but neither traces nor log. */
  ghost predicate ServerStep(d: Db, d': Db, s: Sid, sv': Server) {
    s in d.servers && d' == d.(servers := d.servers[s := sv'])
  }

  /** What remains live keeps its staged data; versions only grow. */
  ghost predicate KeepsStaging(sv: Server, sv': Server) {
    && sv'.ver.Keys == sv.ver.Keys && sv'.store.Keys == sv.store.Keys
    && (forall c :: c in sv.ver ==> sv.ver[c] <= sv'.ver[c])
    && (forall u :: u in sv'.txns ==>
                      && u in sv.txns && sv'.txns[u].updates == sv.txns[u].updates
                      && sv'.txns[u].verRead == sv.txns[u].verRead
                      && (sv.txns[u].verified ==> sv'.txns[u].verified))
  }

  /** Of the invariant, everything but the cells follows from that. */
  lemma ServerStepKeeps(d: Db, d': Db, s: Sid, sv': Server)
    requires Inv(d) && ServerStep(d, d', s, sv') && sv'.Wf() && KeepsStaging(d.servers[s], sv')
    requires forall u :: u in d.servers[s].txns && u in d.traces && u !in d.log ==> u in sv'.txns
    requires CellsOk(d') ==> CellsHold(d')
    ensures Inv(d')
  {
    hide Server.Wf, Chain, ChainOf, CellsHold, DecidedReads, StagedAt, ReadHome;
    SameChains(d, d');
    assert CellsOk(d');
    forall u, s2 | Live(d', u, s2) ensures StagedAt(d', u, s2) {
      assert Live(d, u, s2) && StagedAt(d, u, s2);
      StagedFrame(d, d', u, s2);
    }
    forall u, q | u in d'.traces && u !in d'.log && q in d'.traces[u] ensures ReadHome(d', u, q) {
      SameHome(d, d', u, q);
    }
  }

  lemma PrepareStep(d: Db, t: Tid, s: Sid)
    requires Inv(d) && Enabled(d, Prepare(t, s))
    ensures Inv(Apply(d, Prepare(t, s)))
  {
    hide Server.Wf, Chain, ChainOf, CellsHold, DecidedReads, Staged, TracesHome, Server.CanPrepare;
    var d' := Apply(d, Prepare(t, s));
    ServerWf(d, s);
    PrepareKeepsWf(d.servers[s], t);
    SameChains(d, d');
    SameCells(d, d');
    ServerStepKeeps(d, d', s, d.servers[s].Prepare(t));
  }

  lemma AbortStep(d: Db, t: Tid, s: Sid)
    requires Inv(d) && Enabled(d, Abort(t, s))
    ensures Inv(Apply(d, Abort(t, s)))
  {
    hide Server.Wf, Chain, ChainOf, CellsHold, DecidedReads, Staged, TracesHome, Server.Released;
    var d' := Apply(d, Abort(t, s));
    ServerWf(d, s);
    AbortKeepsWf(d.servers[s], t);
    SameChains(d, d');
    SameCells(d, d');
    ServerStepKeeps(d, d', s, d.servers[s].Abort(t));
  }

  // ---- confirm ----

  /** The confirmed cells move to the last version; the others stay as they are. */
  lemma ConfirmCell(d: Db, d': Db, t: Tid, s: Sid, g: GCell)
    requires Inv(d) && t in d.log && Live(d, t, s) && g in d.init
    requires d' == d.(servers := d.servers[s := d.servers[s].Confirm(t)]) && LogIn(d'.traces, d'.log) && CellsOk(d')
    ensures CellOk(d', g)
  {
    hide ServersWf, CellsHold, Chain, ChainOf, DecidedReads, TracesHome, Staged, Server.Released, TracesOk;
    SameChains(d, d');
    CellOf(d, g);
    if g.sid == s && g.cell in d.servers[s].txns[t].updates {
      assert PendingBy(d, g, t);
      forall u ensures !PendingBy(d', g, u) {
        if PendingBy(d', g, u) {
          ConfirmPendingAlone(d, t, s, u, g.cell);
        }
      }
    } else {
      assert forall u :: PendingBy(d', g, u) <==> PendingBy(d, g, u);
    }
  }

  lemma ConfirmPendingAlone(d: Db, t: Tid, s: Sid, u: Tid, c: Cell)
    requires ServersWf(d) && Staged(d) && t in d.log && u in d.log && Live(d, t, s) && Live(d, u, s)
    requires c in d.servers[s].txns[t].updates && c in d.servers[s].txns[u].updates
    ensures t == u
  {
    hide Server.Wf, Staged;
    DecidedIsVerified(d, u, s);
    DecidedIsVerified(d, t, s);
    PreparedWritesAreExclusive(d.servers[s], t, u, c);
  }

  lemma DecidedIsVerified(d: Db, t: Tid, s: Sid)
    requires Staged(d) && t in d.log && Live(d, t, s)
    ensures d.servers[s].txns[t].verified
  {
    assert StagedAt(d, t, s);
  }

  lemma ConfirmStep(d: Db, t: Tid, s: Sid)
    requires Inv(d) && Enabled(d, Confirm(t, s))
    ensures Inv(Apply(d, Confirm(t, s)))
  {
    hide Server.Wf, Chain, ChainOf, CellOk, DecidedReads, StagedAt, TracesHome, Server.Released;
    var d' := Apply(d, Confirm(t, s));
    ServerWf(d, s);
    DecidedIsVerified(d, t, s);
    ConfirmKeepsWf(d.servers[s], t);
    if CellsOk(d') {
      forall g | g in d'.init ensures CellOk(d', g) {
        ConfirmCell(d, d', t, s, g);
      }
    }
    ServerStepKeeps(d, d', s, d.servers[s].Confirm(t));
  }

  // ---- decision ----

  /** A prepared transaction's read is of the newest version, and no confirm of that cell is outstanding. */
  lemma PreparedReadIsNewest(d: Db, t: Tid, op: Op)
    requires Inv(d) && t in d.traces && t !in d.log && op in d.traces[t] && op.Rd?
    requires Verified(d, t, op.g.sid)
    ensures op.g in d.init && op.ver == |ChainOf(d, op.g)| - 1 && op.val == ChainOf(d, op.g)[op.ver]
  {
    hide Chain, ChainOf, DecidedReads, StagedAt, Server.NoStrayLocks, Server.TxnsWf, Server.Shape;
    assert ReadHome(d, t, op);
    var s, c := op.g.sid, op.g.cell;
    var sv := d.servers[s];
    ServerWf(d, s);
    assert sv.Covered(t, sv.txns[t]);
    hide Server.Wf;
    assert CellOk(d, op.g);
    forall u ensures !PendingBy(d, op.g, u) {
      if PendingBy(d, op.g, u) {
        DecidedIsVerified(d, u, s);
        PreparedReadsAreStable(sv, u, t, c);
      }
    }
  }

  /** A prepared transaction is the only one with an outstanding write of the cell. */
  lemma PreparedWriteIsAlone(d: Db, t: Tid, g: GCell, u: Tid)
    requires Inv(d) && Verified(d, t, g.sid) && t !in d.log && g.cell in d.servers[g.sid].txns[t].updates
    ensures !PendingBy(d, g, u)
  {
    hide Server.Wf, Chain, ChainOf, DecidedReads, StagedAt, CellsHold, TracesHome;
    if PendingBy(d, g, u) {
      ServerWf(d, g.sid);
      DecidedIsVerified(d, u, g.sid);
      PreparedWritesAreExclusive(d.servers[g.sid], t, u, g.cell);
    }
  }

  lemma CellOf(d: Db, g: GCell)
    requires LogIn(d.traces, d.log) && CellsOk(d) && CellsHold(d) && g in d.init
    ensures CellOk(d, g)
  {
  }

  lemma StagedOf(d: Db, t: Tid, s: Sid)
    requires Staged(d) && Live(d, t, s)
    ensures StagedAt(d, t, s)
  {
  }

  /** A cell the decided transaction writes: its confirm becomes the one that is outstanding. */
  lemma DecideWrittenCell(d: Db, d': Db, t: Tid, g: GCell)
    requires Inv(d) && t in d.traces && t !in d.log && (forall s :: Live(d, t, s) ==> Verified(d, t, s))
    requires d' == d.(log := d.log + [t]) && LogIn(d'.traces, d'.log) && CellsOk(d')
    requires g in d.init && g in Writes(d.traces[t])
    ensures CellOk(d', g)
  {
    hide ServersWf, Chain, DecidedReads, TracesHome, Writes, Staged, CellsHold, TracesOk;
    CellOf(d, g);
    ChainStep(d.init[g], d.traces, d.log, t, g);
    WrittenIsLive(d, t, g);
    StagedOf(d, t, g.sid);
    forall u ensures !PendingBy(d, g, u) {
      PreparedWriteIsAlone(d, t, g, u);
    }
    assert PendingBy(d', g, t);
    assert forall u :: PendingBy(d', g, u) ==> u == t;
  }

  lemma DecideOtherCell(d: Db, d': Db, t: Tid, g: GCell)
    requires Inv(d) && t in d.traces && t !in d.log
    requires d' == d.(log := d.log + [t]) && LogIn(d'.traces, d'.log) && CellsOk(d')
    requires g in d.init && g !in Writes(d.traces[t])
    ensures CellOk(d', g)
  {
    hide ServersWf, Chain, DecidedReads, TracesHome, Writes, Staged, CellsHold, TracesOk;
    CellOf(d, g);
    ChainStep(d.init[g], d.traces, d.log, t, g);
    if Live(d, t, g.sid) { StagedOf(d, t, g.sid); }
    assert forall u :: PendingBy(d', g, u) <==> PendingBy(d, g, u);
  }

  lemma DecideCell(d: Db, t: Tid, g: GCell)
    requires Inv(d) && Enabled(d, Decide(t)) && g in d.init
    requires LogIn(d.traces, d.log + [t])
    ensures CellOk(d.(log := d.log + [t]), g)
  {
    hide ServersWf, ChainOf, DecidedReads, TracesHome, Writes, Staged, CellsHold, TracesOk, CellOk;
    if g in Writes(d.traces[t]) {
      DecideWrittenCell(d, d.(log := d.log + [t]), t, g);
    } else {
      DecideOtherCell(d, d.(log := d.log + [t]), t, g);
    }
  }

  lemma DecideReads(d: Db, t: Tid)
    requires Inv(d) && Enabled(d, Decide(t)) && LogIn(d.traces, d.log + [t])
    ensures DecidedReads(d.(log := d.log + [t]))
  {
    hide Server.Wf, Chain, CellsHold, Staged, Writes, TraceOk;
    var d' := d.(log := d.log + [t]);
    forall k | 0 <= k < |d'.log| ensures DecidedAt(d', k) {
      LogInPrefix(d'.traces, d'.log, k);
      if k < |d.log| {
        assert DecidedAt(d, k);
        assert d'.log[..k] == d.log[..k] && d'.log[k] == d.log[k];
      } else {
        assert d'.log[..k] == d.log && d'.log[k] == t;
        forall op | op in d.traces[t]
          ensures op.g in d.init
          ensures op.Rd? ==> op.ver == |ChainOf(d, op.g)| - 1 && op.val == ChainOf(d, op.g)[op.ver]
        {
          assert ReadHome(d, t, op);
          if op.Rd? { PreparedReadIsNewest(d, t, op); }
        }
      }
    }
  }

  lemma DecideStep(d: Db, t: Tid)
    requires Inv(d) && Enabled(d, Decide(t))
    ensures Inv(Apply(d, Decide(t)))
  {
    hide Server.Wf, Chain, CellOk, DecidedAt, Writes, TraceOk, ReadHome;
    var d' := Apply(d, Decide(t));
    assert LogIn(d'.traces, d'.log);
    DecideReads(d, t);
    forall g | g in d'.init ensures CellOk(d', g) {
      DecideCell(d, t, g);
    }
    forall u, s | Live(d', u, s) ensures StagedAt(d', u, s) {
      assert Live(d, u, s) && StagedAt(d, u, s);
    }
    forall u, q | u in d'.traces && u !in d'.log && q in d'.traces[u] ensures ReadHome(d', u, q) {
      assert ReadHome(d, u, q);
      DecideHome(d, t, u, q);
    }
  }

  lemma DecideHome(d: Db, t: Tid, u: Tid, q: Op)
    requires LogIn(d.traces, d.log) && LogIn(d.traces, d.log + [t]) && t in d.traces && ReadHome(d, u, q)
    ensures ReadHome(d.(log := d.log + [t]), u, q)
  {
    hide Chain, Writes;
    ChainStep(d.init[q.g], d.traces, d.log, t, q.g);
    HomeFrame(d, d.(log := d.log + [t]), u, q);
  }

  // ---- runs ----

  lemma StepKeepsInv(d: Db, e: Event)
    requires Inv(d) && Enabled(d, e)
    ensures Inv(Apply(d, e))
  {
    hide Inv, Enabled, Apply;
    match e
    case Begin(t) => BeginStep(d, t);
    case Open(t, s) => OpenStep(d, t, s);
    case ReadCol(t, s, c) => ReadStep(d, t, s, c);
    case WriteCol(t, s, c, v) => WriteStep(d, t, s, c, v);
    case Prepare(t, s) => PrepareStep(d, t, s);
    case Decide(t) => DecideStep(d, t);
    case Forget(t) => ForgetStep(d, t);
    case Confirm(t, s) => ConfirmStep(d, t, s);
    case Abort(t, s) => AbortStep(d, t, s);
  }

  /** Before the first transaction: loaded tables, version 0 everywhere, no locks. */
  ghost predicate Initial(d: Db) {
    && d.traces == map[] && d.log == [] && CellsOk(d)
    && (forall s :: s in d.servers ==>
                      && d.servers[s].txns == map[] && d.servers[s].Shape()
                      && (forall c :: c in d.servers[s].ver ==> d.servers[s].ver[c] == 0)
                      && (forall r :: r in d.servers[s].lock ==> d.servers[s].lock[r] == Lock(None, {})))
    && (forall g :: g in d.init ==> d.init[g] == d.servers[g.sid].store[g.cell])
  }

  lemma InitialInv(d: Db)
    requires Initial(d)
    ensures Inv(d)
  {
    forall s | s in d.servers ensures d.servers[s].Wf() {
    }
    forall g | g in d.init ensures CellOk(d, g) {
      assert ChainOf(d, g) == [d.init[g]];
    }
  }

  /** `d'` is reached from `d` by the events of `es`, each enabled when it happens. */
  ghost predicate Run(d: Db, es: seq<Event>, d': Db)
    decreases |es|
  {
    if es == [] then d' == d
    else Inv(d) && Enabled(d, es[0]) && Run(Apply(d, es[0]), es[1..], d')
  }

  lemma {:induction false} RunKeepsInv(d: Db, es: seq<Event>, d': Db)
    requires Inv(d) && Run(d, es, d')
    ensures Inv(d')
    decreases |es|
  {
    hide Inv, Enabled, Apply;
    if es != [] {
      StepKeepsInv(d, es[0]);
      RunKeepsInv(Apply(d, es[0]), es[1..], d');
    }
  }

  /** Each decided transaction behaves as if it ran alone after those decided before it. */
  ghost predicate Serializable(d: Db) {
    LogIn(d.traces, d.log) &&
    forall k :: 0 <= k < |d.log| ==>
                  LogIn(d.traces, d.log[..k]) && d.log[k] in d.traces &&
                  Runs(d.traces[d.log[k]], Serial(d.init, d.traces, d.log[..k]))
  }

  lemma RunsAlone(d: Db, k: nat)
    requires Inv(d) && k < |d.log|
    ensures LogIn(d.traces, d.log[..k]) && d.log[k] in d.traces
    ensures Runs(d.traces[d.log[k]], Serial(d.init, d.traces, d.log[..k]))
  {
    hide Server.Wf, CellsHold, Staged, TracesHome, Writes, Chain, Serial;
    LogInPrefix(d.traces, d.log, k);
    var t := d.log[k];
    assert t in d.log && DecidedAt(d, k) && TraceOk(d.traces[t]);
    var tr, store := d.traces[t], Serial(d.init, d.traces, d.log[..k]);
    forall i | 0 <= i < |tr| && !tr[i].Wr?
      ensures tr[i].g in store && tr[i].val == (store + Writes(tr[..i]))[tr[i].g]
    {
      assert tr[i] in tr;
      SerialIsLast(d.init, d.traces, d.log[..k], tr[i].g);
    }
  }

  lemma InvSerializable(d: Db)
    requires Inv(d)
    ensures Serializable(d)
  {
    hide Serial, Runs, Inv;
    InvLogIn(d);
    forall k | 0 <= k < |d.log|
      ensures LogIn(d.traces, d.log[..k]) && d.log[k] in d.traces &&
              Runs(d.traces[d.log[k]], Serial(d.init, d.traces, d.log[..k]))
    {
      RunsAlone(d, k);
    }
  }

  /**
    Serializability: in every state reached from an initial one, the decided transactions
    read exactly what a serial execution in decision order gives them ...
   */
  lemma RunsAreSerializable(d: Db, es: seq<Event>, d': Db)
    requires Initial(d) && Run(d, es, d')
    ensures Serializable(d')
  {
    hide Serializable, Inv, Initial, Run;
    InitialInv(d);
    RunKeepsInv(d, es, d');
    InvSerializable(d');
  }

  lemma InvLogIn(d: Db)
    requires Inv(d)
    ensures LogIn(d.traces, d.log)
  {
  }

  /** ... and a table holds the result of that execution wherever no confirm is outstanding. */
  lemma TablesAreSerial(d: Db, g: GCell)
    requires Inv(d) && g in d.init
    requires forall t :: !PendingBy(d, g, t)
    ensures LogIn(d.traces, d.log) && g.sid in d.servers && g.cell in d.servers[g.sid].store
    ensures g in Serial(d.init, d.traces, d.log)
    ensures d.servers[g.sid].store[g.cell] == Serial(d.init, d.traces, d.log)[g]
  {
    hide Server.Wf, Serial, Chain, Staged, TracesHome, DecidedReads;
    assert CellOk(d, g);
    SerialIsLast(d.init, d.traces, d.log, g);
  }

  lemma RunTablesAreSerial(d: Db, es: seq<Event>, d': Db, g: GCell)
    requires Initial(d) && Run(d, es, d') && g in d'.init
    requires forall t :: !PendingBy(d', g, t)
    ensures LogIn(d'.traces, d'.log) && g.sid in d'.servers && g.cell in d'.servers[g.sid].store
    ensures g in Serial(d'.init, d'.traces, d'.log)
    ensures d'.servers[g.sid].store[g.cell] == Serial(d'.init, d'.traces, d'.log)[g]
  {
    hide Serial, Initial, Run, Inv;
    InitialInv(d);
    RunKeepsInv(d, es, d');
    TablesAreSerial(d', g);
  }
}
