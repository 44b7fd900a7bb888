/** The kernel's sleep/wakeup protocol as an interleaving of atomic steps, for any data guarded
    by one condition lock. A critical section that takes no second lock is a single step; the
    condition lock and the per-process locks held across a context switch have explicit owners.
 */
module SleepWakeup {
  import opened Basics
  import opened Params

  /** What a user of sleep/wakeup supplies: when an operation must sleep, what it does once it
      need not, which channels it then wakes, and the channel it sleeps on. `allowed` is the
      discipline the operation's caller keeps. */
  datatype Protocol<!D, !Op> = Protocol(
    blocked: (D, Op) -> bool,
    allowed: (D, Op) -> bool,
    next: (D, Op) -> D,
    wakes: (D, Op) -> seq<nat>,
    chan: Op -> nat)

  /** Where a process is in `acquire(lk); while(blocked) sleep(chan, lk); ...; wakeup; release(lk)`. */
  datatype Pc<Op> =
    | Out
    | Want(op: Op)                                 // spinning in acquire(lk)
    | In(op: Op)                                   // holds lk, about to test the condition
    | Going(op: Op)                                // holds lk and its own p->lock
    | Dropped(op: Op)                              // released lk, still holds p->lock
    | Parked(op: Op)                               // SLEEPING on chan, p->lock held across swtch
    | Asleep(op: Op)                               // SLEEPING, p->lock released by the scheduler
    | Woken(op: Op)                                // RUNNABLE again
    | Waking(op: Op, channels: seq<nat>, j: nat)   // holds lk, about to look at process j
  {
    predicate HoldsCondition() { In? || Going? || Waking? }
    predicate HoldsOwn() { Going? || Dropped? || Parked? }
    /** Committed to sleep: will not look at the condition again unless woken. */
    predicate Sleepy() { Going? || Dropped? || Parked? || Asleep? }
  }

  datatype State<D, Op> = State(lk: Option<nat>, data: D, pc: seq<Pc<Op>>)

  datatype Event<Op> =
    | Start(t: nat, op: Op) | Acquire(t: nat) | Test(t: nat) | Abort(t: nat)
    | Drop(t: nat) | Park(t: nat) | Switch(t: nat) | Resume(t: nat)
    | Scan(t: nat) | NextChannel(t: nat) | Release(t: nat) | Kill(t: nat)

  predicate Enabled<D, Op>(p: Protocol<D, Op>, s: State<D, Op>, e: Event<Op>) {
    && e.t < |s.pc|
    && var pc := s.pc[e.t];
    match e
    case Start(_, _) => pc.Out?
    case Acquire(_) => pc.Want? && s.lk.None?
    case Test(_) => pc.In? && (p.blocked(s.data, pc.op) || p.allowed(s.data, pc.op))
    case Abort(_) => pc.In?
    case Drop(_) => pc.Going?
    case Park(_) => pc.Dropped?
    case Switch(_) => pc.Parked?
    case Resume(_) => pc.Woken?
    case Scan(_) => pc.Waking? && pc.channels != [] && pc.j < |s.pc| && !s.pc[pc.j].HoldsOwn()
    case NextChannel(_) => pc.Waking? && pc.channels != [] && pc.j >= |s.pc|
    case Release(_) => pc.Waking? && pc.channels == []
    case Kill(_) => pc.Asleep?
  }

  function Do<D, Op>(p: Protocol<D, Op>, s: State<D, Op>, e: Event<Op>): (s': State<D, Op>)
    requires Enabled(p, s, e)
  {
    var t := e.t;
    var pc := s.pc[t];
    match e
    case Start(_, op) => s.(pc := s.pc[t := Want(op)])
    case Acquire(_) => s.(lk := Some(t), pc := s.pc[t := In(pc.op)])
    case Test(_) =>
      if p.blocked(s.data, pc.op) then s.(pc := s.pc[t := Going(pc.op)])
      else s.(data := p.next(s.data, pc.op),
              pc := s.pc[t := Waking(pc.op, p.wakes(s.data, pc.op), 0)])
    case Abort(_) => s.(lk := None, pc := s.pc[t := Out])
    case Drop(_) => s.(lk := None, pc := s.pc[t := Dropped(pc.op)])
    case Park(_) => s.(pc := s.pc[t := Parked(pc.op)])
    case Switch(_) => s.(pc := s.pc[t := Asleep(pc.op)])
    case Resume(_) => s.(pc := s.pc[t := Want(pc.op)])
    case Scan(_) =>
      var target := s.pc[pc.j];
      var pcs := if pc.j != t && target.Asleep? && p.chan(target.op) == pc.channels[0]
                 then s.pc[pc.j := Woken(target.op)] else s.pc;
      s.(pc := pcs[t := pc.(j := pc.j + 1)])
    case NextChannel(_) => s.(pc := s.pc[t := Waking(pc.op, pc.channels[1..], 0)])
    case Release(_) => s.(lk := None, pc := s.pc[t := Out])
    case Kill(_) => s.(pc := s.pc[t := Woken(pc.op)])
  }

  ghost predicate Initial<D, Op>(s: State<D, Op>) {
    |s.pc| == NPROC && s.lk.None? && forall t :: 0 <= t < NPROC ==> s.pc[t].Out?
  }

  ghost predicate Reaches<D, Op>(p: Protocol<D, Op>, s: State<D, Op>, es: seq<Event<Op>>, r: State<D, Op>)
    decreases |es|
  {
    if es == [] then r == s
    else Enabled(p, s, es[0]) && Reaches(p, Do(p, s, es[0]), es[1..], r)
  }

  /** The one obligation on a user: an operation that may unblock another wakes its channel. */
  ghost predicate WakesWhatItUnblocks<D(!new), Op(!new)>(p: Protocol<D, Op>) {
    forall d, o, o' :: !p.blocked(d, o) && p.allowed(d, o) && p.blocked(d, o') && !p.blocked(p.next(d, o), o')
      ==> p.chan(o') in p.wakes(d, o)
  }

  /** The scan in progress has yet to look at process `t` for channel `c`. */
  predicate StillToScan<Op>(w: Pc<Op>, c: nat, t: nat) {
    && w.Waking? && w.channels != []
    && ((w.channels[0] == c && w.j <= t) || c in w.channels[1..])
  }

  ghost predicate LockOwner<D, Op>(s: State<D, Op>) {
    && |s.pc| == NPROC
    && (s.lk.Some? ==> s.lk.value < NPROC)
    && forall t :: 0 <= t < NPROC ==> (s.pc[t].HoldsCondition() <==> s.lk == Some(t))
  }

  ghost predicate SleeperJustified<D, Op>(p: Protocol<D, Op>, s: State<D, Op>, t: nat)
    requires t < |s.pc| && (s.lk.Some? ==> s.lk.value < |s.pc|)
  {
    s.pc[t].Sleepy() ==>
      || p.blocked(s.data, s.pc[t].op)
      || (s.lk.Some? && StillToScan(s.pc[s.lk.value], p.chan(s.pc[t].op), t))
  }

  ghost predicate Inv<D, Op>(p: Protocol<D, Op>, s: State<D, Op>) {
    LockOwner(s) && forall t :: 0 <= t < NPROC ==> SleeperJustified(p, s, t)
  }

  /** Every step keeps the invariant. The step that matters is Scan: it waits for a process that
      holds its own lock, so a process that has dropped lk but is not yet SLEEPING is never passed over. */
  lemma StepKeepsInv<D(!new), Op(!new)>(p: Protocol<D, Op>, s: State<D, Op>, e: Event<Op>)
    requires WakesWhatItUnblocks(p) && Inv(p, s) && Enabled(p, s, e)
    ensures Inv(p, Do(p, s, e))
  {
    var s' := Do(p, s, e);
    var t := e.t;
    forall u | 0 <= u < NPROC
      ensures SleeperJustified(p, s', u)
    {
      assert SleeperJustified(p, s, u);
      if e.Test? && !p.blocked(s.data, s.pc[t].op) && s'.pc[u].Sleepy() && !p.blocked(s'.data, s'.pc[u].op) {
        assert p.chan(s'.pc[u].op) in s'.pc[t].channels;
        assert s'.pc[t].channels == [s'.pc[t].channels[0]] + s'.pc[t].channels[1..];
      }
      if e.NextChannel? {
        var cs := s.pc[t].channels[1..];
        assert cs != [] ==> cs == [cs[0]] + cs[1..];
      }
    }
  }

  lemma {:induction false} RunKeepsInv<D(!new), Op(!new)>(
      p: Protocol<D, Op>, s: State<D, Op>, es: seq<Event<Op>>, r: State<D, Op>)
    requires WakesWhatItUnblocks(p) && Inv(p, s) && Reaches(p, s, es, r)
    ensures Inv(p, r)
    decreases |es|
  {
    if es != [] {
      StepKeepsInv(p, s, es[0]);
      RunKeepsInv(p, Do(p, s, es[0]), es[1..], r);
    }
  }

  /** No lost wakeup: in every state of every run in which the condition lock is free, each
      process that is asleep, or has let go of the lock in order to sleep, still has to. */
  lemma NoLostWakeup<D(!new), Op(!new)>(
      p: Protocol<D, Op>, s: State<D, Op>, es: seq<Event<Op>>, r: State<D, Op>)
    requires WakesWhatItUnblocks(p) && Initial(s) && Reaches(p, s, es, r)
    requires r.lk.None?
    ensures forall t :: 0 <= t < |r.pc| && r.pc[t].Sleepy() ==> p.blocked(r.data, r.pc[t].op)
  {
    RunKeepsInv(p, s, es, r);
    forall t | 0 <= t < |r.pc| && r.pc[t].Sleepy()
      ensures p.blocked(r.data, r.pc[t].op)
    {
      assert SleeperJustified(p, r, t);
    }
  }

  // --- what took effect, in order ---

  /** The operations that took effect in a run, in the order in which they did. */
  ghost function History<D, Op>(p: Protocol<D, Op>, s: State<D, Op>, es: seq<Event<Op>>, r: State<D, Op>): (h: seq<Op>)
    requires Reaches(p, s, es, r)
    decreases |es|
  {
    if es == [] then []
    else
      var rest := History(p, Do(p, s, es[0]), es[1..], r);
      if es[0].Test? && !p.blocked(s.data, s.pc[es[0].t].op) then [s.pc[es[0].t].op] + rest else rest
  }

  ghost function After<D, Op>(p: Protocol<D, Op>, d: D, h: seq<Op>): (d': D) {
    if h == [] then d else p.next(After(p, d, h[..|h| - 1]), h[|h| - 1])
  }

  /** Each operation found its condition true and kept the discipline when its turn came. */
  ghost predicate Proper<D, Op>(p: Protocol<D, Op>, d: D, h: seq<Op>) {
    h == [] ||
    (var d' := After(p, d, h[..|h| - 1]);
     Proper(p, d, h[..|h| - 1]) && !p.blocked(d', h[|h| - 1]) && p.allowed(d', h[|h| - 1]))
  }

  lemma {:induction false} AfterFirst<D, Op>(p: Protocol<D, Op>, d: D, op: Op, h: seq<Op>)
    requires !p.blocked(d, op) && p.allowed(d, op) && Proper(p, p.next(d, op), h)
    ensures Proper(p, d, [op] + h) && After(p, d, [op] + h) == After(p, p.next(d, op), h)
  {
    if h == [] {
      assert ([op] + h)[..0] == [] && ([op] + h)[0] == op;
    } else {
      AfterFirst(p, d, op, h[..|h| - 1]);
      assert ([op] + h)[..|h|] == [op] + h[..|h| - 1] && ([op] + h)[|h|] == h[|h| - 1];
    }
  }

  /** Whatever the interleaving, the guarded data is what the history makes of its start: the
      operations are serial. */
  lemma {:induction false} RunsAreSerial<D, Op>(
      p: Protocol<D, Op>, s: State<D, Op>, es: seq<Event<Op>>, r: State<D, Op>)
    requires Reaches(p, s, es, r)
    ensures var h := History(p, s, es, r);
            Proper(p, s.data, h) && r.data == After(p, s.data, h)
    decreases |es|
  {
    if es != [] {
      var s' := Do(p, s, es[0]);
      RunsAreSerial(p, s', es[1..], r);
      if es[0].Test? && !p.blocked(s.data, s.pc[es[0].t].op) {
        AfterFirst(p, s.data, s.pc[es[0].t].op, History(p, s', es[1..], r));
      }
    }
  }
}
