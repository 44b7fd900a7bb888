/** Long-term locks: acquiresleep and releasesleep, as a user of sleep/wakeup. */
module SleepLock {
  import opened Basics
  import opened SleepWakeup

  /** The lock's fields, and the processes that have acquired it and not released it since. */
  datatype Lock = Lock(locked: bool, pid: nat, holders: set<nat>)

  datatype LockOp = AcquireSleep(pid: nat) | ReleaseSleep(pid: nat)

  predicate Blocked(l: Lock, op: LockOp) {
    op.AcquireSleep? && l.locked
  }

  function Next(l: Lock, op: LockOp): (l': Lock) {
    match op
    case AcquireSleep(pid) => Lock(true, pid, l.holders + {pid})
    case ReleaseSleep(pid) => Lock(false, 0, l.holders - {pid})
  }

  /** Callers release only what they hold (bwrite, brelse and iunlock check holdingsleep). */
  predicate Allowed(l: Lock, op: LockOp) {
    op.ReleaseSleep? ==> op.pid in l.holders
  }

  function LockProtocol(chan: nat): (p: Protocol<Lock, LockOp>) {
    Protocol((l, op) => Blocked(l, op), (l, op) => Allowed(l, op), (l, op) => Next(l, op),
             (l: Lock, op: LockOp) => if op.ReleaseSleep? then [chan] else [], (op: LockOp) => chan)
  }

  /** Acquisitions and releases alternate, and each release is by the latest acquirer. */
  predicate Alternates(h: seq<LockOp>) {
    forall i: nat | i < |h| :: Turn(h, i)
  }

  predicate Turn(h: seq<LockOp>, i: nat)
    requires i < |h|
  {
    if i % 2 == 0 then h[i].AcquireSleep? else h[i].ReleaseSleep? && h[i].pid == h[i - 1].pid
  }

  predicate LockIs(h: seq<LockOp>, l: Lock) {
    && (l.locked <==> |h| % 2 == 1)
    && (l.locked ==> l.pid == h[|h| - 1].pid)
    && l.holders == if l.locked then {l.pid} else {}
  }

  lemma NextIs(h: seq<LockOp>, l: Lock, op: LockOp)
    requires Alternates(h) && LockIs(h, l) && !Blocked(l, op) && Allowed(l, op)
    ensures Alternates(h + [op]) && LockIs(h + [op], Next(l, op))
  {
    assert op.AcquireSleep? <==> |h| % 2 == 0;
    forall i: nat | i < |h + [op]|
      ensures Turn(h + [op], i)
    {
      assert i < |h| ==> Turn(h, i);
    }
  }

  lemma {:induction false} LockAfter(chan: nat, h: seq<LockOp>)
    requires Proper(LockProtocol(chan), Lock(false, 0, {}), h)
    ensures Alternates(h) && LockIs(h, After(LockProtocol(chan), Lock(false, 0, {}), h))
    decreases |h|
  {
    if h != [] {
      var h0, op := h[..|h| - 1], h[|h| - 1];
      LockAfter(chan, h0);
      NextIs(h0, After(LockProtocol(chan), Lock(false, 0, {}), h0), op);
      assert h0 + [op] == h;
    }
  }

  /** In every run the lock is acquired and released in turn, each time released by the process that
      acquired it; its fields say whether it is held and by whom; and whenever the inner spinlock is
      free nobody sleeps waiting for a lock that is not held. */
  lemma SleepLockCorrect(chan: nat, s: State<Lock, LockOp>, es: seq<Event<LockOp>>, r: State<Lock, LockOp>)
    requires Initial(s) && s.data == Lock(false, 0, {}) && Reaches(LockProtocol(chan), s, es, r)
    ensures var h := History(LockProtocol(chan), s, es, r);
            && Alternates(h)
            && (r.data.locked <==> |h| % 2 == 1) && (r.data.locked ==> r.data.pid == h[|h| - 1].pid)
    ensures r.data.holders == if r.data.locked then {r.data.pid} else {}
    ensures r.lk.None? ==>
              forall t :: 0 <= t < |r.pc| && r.pc[t].Sleepy() ==> r.pc[t].op.AcquireSleep? && r.data.locked
  {
    var p := LockProtocol(chan);
    RunsAreSerial(p, s, es, r);
    LockAfter(chan, History(p, s, es, r));
    assert WakesWhatItUnblocks(p) by {
      forall l, o, o' | !p.blocked(l, o) && p.allowed(l, o) && p.blocked(l, o') && !p.blocked(p.next(l, o), o')
        ensures p.chan(o') in p.wakes(l, o)
      {
        assert Blocked(l, o') && !Blocked(Next(l, o), o');
      }
    }
    if r.lk.None? {
      NoLostWakeup(p, s, es, r);
      forall t | 0 <= t < |r.pc| && r.pc[t].Sleepy()
        ensures r.pc[t].op.AcquireSleep? && r.data.locked
      {
        assert p.blocked(r.data, r.pc[t].op);
        assert Blocked(r.data, r.pc[t].op);
      }
    }
  }
}
