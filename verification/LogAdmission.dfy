/** Admission to the log: begin_op, log_write and end_op under log.lock, as a user of sleep/wakeup. */
module LogAdmission {
  import opened Basics
  import opened Params
  import opened SleepWakeup

  /** The log's counters, the block numbers listed in its header, and a ledger giving for each
      operation in progress the number of list entries it has added. */
  datatype Log = Log(blocks: seq<nat>, outstanding: nat, committing: bool, ledger: map<nat, nat>)

  datatype LogOp =
    | BeginOp(id: nat)
    | LogWrite(id: nat, b: nat)
    | EndOp(id: nat)
    | CommitDone          // commit() has returned: lh.n is 0 and end_op clears `committing`

  const LOG_CHANNEL: nat := 1

  predicate Blocked(l: Log, op: LogOp) {
    op.BeginOp? && (l.committing || |l.blocks| + (l.outstanding + 1) * MAXOPBLOCKS > LOGBLOCKS)
  }

  function Next(l: Log, op: LogOp): (l': Log) {
    match op
    case BeginOp(id) =>
      l.(outstanding := l.outstanding + 1, ledger := l.ledger[id := 0])
    case LogWrite(id, b) =>
      if b in l.blocks || id !in l.ledger then l
      else l.(blocks := l.blocks + [b], ledger := l.ledger[id := l.ledger[id] + 1])
    case EndOp(id) =>
      if l.outstanding == 0 then l
      else l.(outstanding := l.outstanding - 1, committing := l.outstanding == 1, ledger := l.ledger - {id})
    case CommitDone =>
      l.(blocks := [], committing := false)
  }

  function Wakes(l: Log, op: LogOp): seq<nat> {
    match op
    case BeginOp(_) => []
    case LogWrite(_, _) => []
    case EndOp(_) => if l.outstanding == 1 then [] else [LOG_CHANNEL]
    case CommitDone => [LOG_CHANNEL]
  }

  /** The two panics of log_write and the one of end_op. */
  predicate Panics(l: Log, op: LogOp) {
    match op
    case BeginOp(_) => false
    case LogWrite(_, _) => |l.blocks| >= LOGBLOCKS || l.outstanding < 1
    case EndOp(_) => l.committing
    case CommitDone => false
  }

  /** Callers bracket their work in begin_op/end_op, and an operation writes to the log only
      while it has added fewer than MAXOPBLOCKS blocks; only a commit in progress can finish. */
  predicate Allowed(l: Log, op: LogOp) {
    match op
    case BeginOp(id) => id !in l.ledger
    case LogWrite(id, _) => id in l.ledger && l.ledger[id] < MAXOPBLOCKS
    case EndOp(id) => id in l.ledger
    case CommitDone => l.committing
  }

  function LogProtocol(): (p: Protocol<Log, LogOp>) {
    Protocol((l, op) => Blocked(l, op), (l, op) => Allowed(l, op), (l, op) => Next(l, op),
             (l, op) => Wakes(l, op), (op: LogOp) => LOG_CHANNEL)
  }

  /** Unused reservations of the operations in progress. */
  ghost function Unused(ledger: map<nat, nat>): (u: int) {
    if ledger == map[] then 0
    else
      var id :| id in ledger;
      MAXOPBLOCKS - ledger[id] + Unused(ledger - {id})
  }

  lemma {:induction false} UnusedRemove(ledger: map<nat, nat>, id: nat)
    requires id in ledger
    ensures Unused(ledger) == MAXOPBLOCKS - ledger[id] + Unused(ledger - {id})
    decreases |ledger|
  {
    var k :| k in ledger && Unused(ledger) == MAXOPBLOCKS - ledger[k] + Unused(ledger - {k});
    if k != id {
      UnusedRemove(ledger - {k}, id);
      UnusedRemove(ledger - {id}, k);
      assert ledger - {k} - {id} == ledger - {id} - {k};
    }
  }

  lemma UnusedUpdate(ledger: map<nat, nat>, id: nat, n: nat)
    ensures Unused(ledger[id := n]) == MAXOPBLOCKS - n + Unused(ledger - {id})
  {
    UnusedRemove(ledger[id := n], id);
    assert ledger[id := n] - {id} == ledger - {id};
  }

  lemma {:induction false} UnusedBounds(ledger: map<nat, nat>)
    requires forall id :: id in ledger ==> ledger[id] <= MAXOPBLOCKS
    ensures 0 <= Unused(ledger) <= MAXOPBLOCKS * |ledger|
    decreases |ledger|
  {
    if ledger != map[] {
      var id :| id in ledger;
      UnusedRemove(ledger, id);
      assert |ledger - {id}| == |ledger| - 1;
      UnusedBounds(ledger - {id});
    }
  }

  ghost predicate Admitted(l: Log) {
    && l.outstanding == |l.ledger|
    && (forall id :: id in l.ledger ==> l.ledger[id] <= MAXOPBLOCKS)
    && |l.blocks| + Unused(l.ledger) <= LOGBLOCKS
    && (l.committing ==> l.outstanding == 0)
    && (forall i, j :: 0 <= i < j < |l.blocks| ==> l.blocks[i] != l.blocks[j])
  }

  lemma BeginKeeps(l: Log, id: nat)
    requires Admitted(l) && !Blocked(l, BeginOp(id)) && Allowed(l, BeginOp(id))
    ensures Admitted(Next(l, BeginOp(id)))
  {
    UnusedUpdate(l.ledger, id, 0);
    assert l.ledger - {id} == l.ledger;
    UnusedBounds(l.ledger);
    assert |l.ledger[id := 0]| == |l.ledger| + 1;
  }

  lemma WriteKeeps(l: Log, id: nat, b: nat)
    requires Admitted(l) && Allowed(l, LogWrite(id, b))
    ensures Admitted(Next(l, LogWrite(id, b)))
  {
    UnusedRemove(l.ledger, id);
    UnusedUpdate(l.ledger, id, l.ledger[id] + 1);
    assert l.ledger[id := l.ledger[id] + 1].Keys == l.ledger.Keys;
    assert |l.ledger[id := l.ledger[id] + 1]| == |l.ledger[id := l.ledger[id] + 1].Keys|;
  }

  lemma EndKeeps(l: Log, id: nat)
    requires Admitted(l) && Allowed(l, EndOp(id))
    ensures Admitted(Next(l, EndOp(id)))
  {
    UnusedRemove(l.ledger, id);
    assert |l.ledger - {id}| == |l.ledger| - 1;
  }

  lemma NextKeepsAdmitted(l: Log, op: LogOp)
    requires Admitted(l) && !Blocked(l, op) && Allowed(l, op)
    ensures Admitted(Next(l, op))
  {
    match op {
      case BeginOp(id) => BeginKeeps(l, id);
      case LogWrite(id, b) => WriteKeeps(l, id, b);
      case EndOp(id) => EndKeeps(l, id);
      case CommitDone => assert l.ledger == map[];
    }
  }

  lemma NoPanic(l: Log, op: LogOp)
    requires Admitted(l) && Allowed(l, op)
    ensures !Panics(l, op)
  {
    if op.LogWrite? {
      UnusedRemove(l.ledger, op.id);
      UnusedBounds(l.ledger - {op.id});
    }
  }

  ghost predicate FreshLog(l: Log) {
    l == Log([], 0, false, map[])
  }

  // --- the log as a function of what took effect ---

  function Begins(h: seq<LogOp>): nat {
    if h == [] then 0 else Begins(h[..|h| - 1]) + if h[|h| - 1].BeginOp? then 1 else 0
  }

  function Ends(h: seq<LogOp>): nat {
    if h == [] then 0 else Ends(h[..|h| - 1]) + if h[|h| - 1].EndOp? then 1 else 0
  }

  /** The blocks written since the last commit, each at its first write. */
  function Logged(h: seq<LogOp>): seq<nat> {
    if h == [] || h[|h| - 1].CommitDone? then []
    else
      var before := Logged(h[..|h| - 1]);
      if h[|h| - 1].LogWrite? && h[|h| - 1].b !in before then before + [h[|h| - 1].b] else before
  }

  ghost predicate LogIs(h: seq<LogOp>, l: Log) {
    && l.outstanding == Begins(h) - Ends(h) && l.blocks == Logged(h)
    && (l.committing <==> h != [] && h[|h| - 1].EndOp? && Begins(h) == Ends(h))
    && (l.outstanding == 0 && !l.committing ==> l.blocks == [])
  }

  lemma NextIs(h: seq<LogOp>, l: Log, op: LogOp)
    requires Admitted(l) && LogIs(h, l) && !Blocked(l, op) && Allowed(l, op)
    ensures LogIs(h + [op], Next(l, op))
  {
    assert (h + [op])[..|h|] == h;
    if op.LogWrite? || op.EndOp? {
      assert |l.ledger| > 0;
    }
  }

  lemma {:induction false} LogAfter(s: Log, h: seq<LogOp>)
    requires FreshLog(s) && Proper(LogProtocol(), s, h)
    ensures var l := After(LogProtocol(), s, h); Admitted(l) && LogIs(h, l)
    decreases |h|
  {
    if h != [] {
      var h0, op := h[..|h| - 1], h[|h| - 1];
      var l := After(LogProtocol(), s, h0);
      LogAfter(s, h0);
      NextKeepsAdmitted(l, op);
      NextIs(h0, l, op);
      assert h0 + [op] == h;
    }
  }

  /** In every run: the counters and the list are what the operations that took effect say, in
      whatever order the processes ran; a commit is in progress exactly from the last end_op of a
      group until it is done; and a log that is quiet is empty, so that begin_op gets in. */
  lemma RunKeepsAdmitted(s: State<Log, LogOp>, es: seq<Event<LogOp>>, r: State<Log, LogOp>)
    requires FreshLog(s.data) && Reaches(LogProtocol(), s, es, r)
    ensures Admitted(r.data) && LogIs(History(LogProtocol(), s, es, r), r.data)
    ensures r.data.outstanding == 0 && !r.data.committing ==> forall id :: !LogProtocol().blocked(r.data, BeginOp(id))
  {
    RunsAreSerial(LogProtocol(), s, es, r);
    LogAfter(s.data, History(LogProtocol(), s, es, r));
  }

  /** In every run: the listed blocks plus all unused reservations fit in the log; commit runs
      only while no operation is active; and no disciplined call of log_write or end_op panics. */
  lemma LogNeverOverflows(s: State<Log, LogOp>, es: seq<Event<LogOp>>, r: State<Log, LogOp>, op: LogOp)
    requires FreshLog(s.data) && Reaches(LogProtocol(), s, es, r)
    ensures |r.data.blocks| + Unused(r.data.ledger) <= LOGBLOCKS
    ensures r.data.committing ==> r.data.outstanding == 0 && r.data.ledger == map[]
    ensures Allowed(r.data, op) ==> !Panics(r.data, op)
  {
    RunKeepsAdmitted(s, es, r);
    if Allowed(r.data, op) {
      NoPanic(r.data, op);
    }
  }

  /** Whenever log.lock is free, nobody sleeps in begin_op who could be admitted. */
  lemma NoLostAdmission(s: State<Log, LogOp>, es: seq<Event<LogOp>>, r: State<Log, LogOp>)
    requires Initial(s) && Reaches(LogProtocol(), s, es, r) && r.lk.None?
    ensures forall t :: 0 <= t < |r.pc| && r.pc[t].Sleepy() ==>
              && r.pc[t].op.BeginOp?
              && (r.data.committing || |r.data.blocks| + (r.data.outstanding + 1) * MAXOPBLOCKS > LOGBLOCKS)
  {
    var p := LogProtocol();
    assert WakesWhatItUnblocks(p) by {
      forall l, o, o' | !p.blocked(l, o) && p.allowed(l, o) && p.blocked(l, o') && !p.blocked(p.next(l, o), o')
        ensures p.chan(o') in p.wakes(l, o)
      {
        assert Blocked(l, o') && !Blocked(Next(l, o), o');
      }
    }
    NoLostWakeup(p, s, es, r);
    forall t | 0 <= t < |r.pc| && r.pc[t].Sleepy()
      ensures Blocked(r.data, r.pc[t].op)
    {
      assert p.blocked(r.data, r.pc[t].op);
    }
  }

  // --- a run that fills the log ---

  lemma {:induction false} RunsOn(s: State<Log, LogOp>, es: seq<Event<LogOp>>, r: State<Log, LogOp>,
                                  fs: seq<Event<LogOp>>, q: State<Log, LogOp>)
    requires Reaches(LogProtocol(), s, es, r) && Reaches(LogProtocol(), r, fs, q)
    ensures Reaches(LogProtocol(), s, es + fs, q)
    decreases |es|
  {
    if es == [] {
      assert es + fs == fs;
    } else {
      RunsOn(Do(LogProtocol(), s, es[0]), es[1..], r, fs, q);
      assert (es + fs)[0] == es[0] && (es + fs)[1..] == es[1..] + fs;
    }
  }

  ghost predicate Quiet(s: State<Log, LogOp>) {
    s.lk.None? && |s.pc| > 0 && s.pc[0].Out?
  }

  lemma RunsOne(s: State<Log, LogOp>, e: Event<LogOp>)
    requires Enabled(LogProtocol(), s, e)
    ensures Reaches(LogProtocol(), s, [e], Do(LogProtocol(), s, e))
  {
    assert [e][1..] == [];
  }

  /** A call that neither sleeps nor wakes anyone, from start to return. */
  lemma OneCall(s: State<Log, LogOp>, op: LogOp) returns (es: seq<Event<LogOp>>)
    requires Quiet(s) && !Blocked(s.data, op) && Allowed(s.data, op) && Wakes(s.data, op) == []
    ensures Reaches(LogProtocol(), s, es, s.(data := Next(s.data, op)))
  {
    hide Reaches, Blocked, Allowed, Next, Wakes;
    var p := LogProtocol();
    var a := Do(p, s, Start(0, op));
    var b := Do(p, a, Acquire(0));
    var c := Do(p, b, Test(0));
    RunsOne(s, Start(0, op));
    RunsOne(a, Acquire(0));
    RunsOne(b, Test(0));
    RunsOne(c, Release(0));
    RunsOn(s, [Start(0, op)], a, [Acquire(0)], b);
    RunsOn(s, [Start(0, op)] + [Acquire(0)], b, [Test(0)], c);
    es := [Start(0, op)] + [Acquire(0)] + [Test(0)] + [Release(0)];
    RunsOn(s, [Start(0, op)] + [Acquire(0)] + [Test(0)], c, [Release(0)], Do(p, c, Release(0)));
    assert Do(p, c, Release(0)) == s.(data := Next(s.data, op));
  }

  lemma Continue(s: State<Log, LogOp>, es: seq<Event<LogOp>>, r: State<Log, LogOp>, op: LogOp)
      returns (es': seq<Event<LogOp>>)
    requires Reaches(LogProtocol(), s, es, r) && Quiet(r)
    requires !Blocked(r.data, op) && Allowed(r.data, op) && Wakes(r.data, op) == []
    ensures Reaches(LogProtocol(), s, es', r.(data := Next(r.data, op)))
  {
    hide Reaches, Blocked, Allowed, Next, Wakes;
    var fs := OneCall(r, op);
    es' := es + fs;
    RunsOn(s, es, r, fs, r.(data := Next(r.data, op)));
  }

  function Share(k: nat, id: nat): nat {
    if k <= MAXOPBLOCKS * (id - 1) then 0 else Min(k - MAXOPBLOCKS * (id - 1), MAXOPBLOCKS)
  }

  /** Operations 1, 2 and 3 are in progress and have logged blocks 0 to k - 1, in this order. */
  function Filled(k: nat): (l: Log) {
    Log(seq(k, i => i), 3, false, map[1 := Share(k, 1), 2 := Share(k, 2), 3 := Share(k, 3)])
  }

  lemma FillOne(k: nat)
    requires k < LOGBLOCKS
    ensures var op := LogWrite(1 + k / MAXOPBLOCKS, k);
            && Allowed(Filled(k), op) && Next(Filled(k), op) == Filled(k + 1)
  {
    assert Filled(k).blocks + [k] == Filled(k + 1).blocks;
  }

  lemma {:induction false} Fill(s: State<Log, LogOp>, k: nat) returns (es: seq<Event<LogOp>>)
    requires Quiet(s) && FreshLog(s.data) && k <= LOGBLOCKS
    ensures Reaches(LogProtocol(), s, es, s.(data := Filled(k)))
    decreases k
  {
    if k == 0 {
      var s1 := s.(data := Next(s.data, BeginOp(1)));
      var s2 := s1.(data := Next(s1.data, BeginOp(2)));
      es := OneCall(s, BeginOp(1));
      es := Continue(s, es, s1, BeginOp(2));
      es := Continue(s, es, s2, BeginOp(3));
      assert Next(s2.data, BeginOp(3)) == Filled(0);
    } else {
      hide Reaches;
      es := Fill(s, k - 1);
      FillOne(k - 1);
      es := Continue(s, es, s.(data := Filled(k - 1)), LogWrite(1 + (k - 1) / MAXOPBLOCKS, k - 1));
    }
  }

  /** The size check precedes absorption: a run of three operations that each log their full share
      leads to a log in which rewriting a listed block panics without needing any space. */
  lemma AbsorptionRefused(s: State<Log, LogOp>) returns (es: seq<Event<LogOp>>)
    requires Initial(s) && FreshLog(s.data)
    ensures var l := Filled(LOGBLOCKS);
            && Reaches(LogProtocol(), s, es, s.(data := l)) && Admitted(l)
            && 0 in l.blocks && Next(l, LogWrite(1, 0)) == l && Panics(l, LogWrite(1, 0))
  {
    es := Fill(s, LOGBLOCKS);
    assert Admitted(s.data);
    RunKeepsAdmitted(s, es, s.(data := Filled(LOGBLOCKS)));
    assert Filled(LOGBLOCKS).blocks[0] == 0;
  }

  /** Exactly when a log_write that needs no space is accepted. */
  lemma AbsorptionExact(l: Log, id: nat, b: nat)
    requires Admitted(l) && id in l.ledger && b in l.blocks
    ensures !Panics(l, LogWrite(id, b)) <==> |l.blocks| < LOGBLOCKS
    ensures (l.ledger[id] < MAXOPBLOCKS) ==> !Panics(l, LogWrite(id, b))
  {
    if l.ledger[id] < MAXOPBLOCKS {
      NoPanic(l, LogWrite(id, b));
    }
    assert |l.ledger| >= 1;
  }
}
