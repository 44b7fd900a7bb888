/** Process lifetimes: fork, exit, wait/waitpid, yield, kill and the per-CPU scheduler, as an
    interleaving of atomic steps. wait_lock has an explicit owner; a process's own lock is held
    exactly at the program points that `HoldsOwn` names, and a step that would take a held lock
    is not enabled. A short critical section that takes no second lock is one step.
 */
module Procs {
  import opened Basics
  import opened Params

  datatype ProcState = UNUSED | USED | SLEEPING | RUNNABLE | RUNNING | ZOMBIE

  /** Sleep channels: a process slot (used by wait), or anything else. */
  datatype Chan = NoChan | OfProc(slot: nat) | Elsewhere

  datatype Proc = Proc(state: ProcState, chan: Chan, killed: bool, pid: nat, parent: Option<nat>)

  const FREE_SLOT := Proc(UNUSED, NoChan, false, 0, None)

  /** Where a slot's kernel thread is. `target` is waitpid's pid, 0 for any child. */
  datatype Pc =
    | Free                                         // unused slot
    | Embryo(forker: nat)                          // being set up by the fork of slot `forker`
    | Ready                                        // off CPU; returns to user space when run
    | Starting                                     // just switched to, still holding p->lock
    | User                                         // running, in none of the calls below
    | Forked(child: nat)                           // fork: child allocated, no parent set yet
    | Parented(child: nat)                         // fork: parent set, child not yet runnable
    | ExitWant                                     // exit: acquiring wait_lock
    | Reparent(j: nat)                             // exit: looking at slot j's parent
    | WakeInit(j: nat, m: nat)                     // exit: gave slot j to init; wakeup(init) at slot m
    | WakeParent(m: nat)                           // exit: wakeup(parent) at slot m
    | ExitLocked                                   // exit: holds wait_lock and its own lock
    | ExitZombie                                   // exit: now a zombie, still holds both
    | ExitSched                                    // exit: released wait_lock, in sched()
    | Dead                                         // switched away for good
    | WaitWant(target: nat)                        // wait: acquiring wait_lock
    | Scan(target: nat, j: nat, kids: bool)        // wait: looking at slot j
    | Decided(target: nat)                         // wait: has a live child and was not killed; about to sleep
    | SleepLocked(target: nat)                     // sleep: holds wait_lock and its own lock
    | SleepDropped(target: nat)                    // sleep: released wait_lock
    | SleepParked(target: nat)                     // sleep: SLEEPING, own lock held across swtch
    | Asleep(target: nat)                          // off CPU inside sleep
    | Resumed(target: nat)                         // switched to again, holding its own lock
    | YieldSched                                   // yield: RUNNABLE, in sched()
    | OtherParked | OtherAsleep                    // sleeping on some other channel
  {
    predicate HoldsWait() {
      Reparent? || WakeInit? || WakeParent? || ExitLocked? || ExitZombie? || Scan? || Decided? || SleepLocked?
    }
    predicate HoldsOwn() {
      || ExitLocked? || ExitZombie? || ExitSched? || SleepLocked? || SleepDropped? || SleepParked?
      || Resumed? || Starting? || YieldSched? || OtherParked?
    }
    predicate OnCpu() {
      !(Free? || Embryo? || Ready? || Dead? || Asleep? || OtherAsleep?)
    }
    /** The states of struct proc that this program point allows. */
    predicate Allows(st: ProcState) {
      match this
      case Free => st == UNUSED
      case Embryo(_) => st == USED
      case Ready => st == RUNNABLE
      case YieldSched => st == RUNNABLE
      case Asleep(_) => st == SLEEPING || st == RUNNABLE
      case OtherAsleep => st == SLEEPING || st == RUNNABLE
      case SleepParked(_) => st == SLEEPING
      case OtherParked => st == SLEEPING
      case ExitZombie => st == ZOMBIE
      case ExitSched => st == ZOMBIE
      case Dead => st == ZOMBIE
      case _ => st == RUNNING
    }
    predicate Exiting() {
      || ExitWant? || Reparent? || WakeInit? || WakeParent? || ExitLocked? || ExitZombie?
      || ExitSched? || Dead?
    }
    /** Past the point in exit where it can no longer have a child in slot j. */
    predicate GaveAway(j: nat) {
      match this
      case Reparent(k) => j < k
      case WakeInit(k, _) => j <= k
      case WakeParent(_) => true
      case ExitLocked => true
      case ExitZombie => true
      case ExitSched => true
      case Dead => true
      case Free => true
      case Embryo(_) => true
      case _ => false
    }
  }

  datatype State = State(
    proc: seq<Proc>, pc: seq<Pc>, cpu: seq<Option<nat>>, waitLock: Option<nat>,
    nextpid: nat, init: nat,
    reaped: seq<nat>)          // pids returned by wait so far

  datatype Event =
    | ExitStep(c: nat)                             // the process on CPU c takes its next step of exit
    | WaitStep(c: nat, give: GiveUp)               // ... of wait, waitpid or the sleep inside them
    | Fork(c: nat, k: nat) | ForkFails(c: nat) | SetParent(c: nat) | MakeRunnable(c: nat)
    | Exit(c: nat) | Wait(c: nat, target: nat) | Begin(c: nat)
    | Yield(c: nat) | SleepElsewhere(c: nat)
    | WakeElsewhere(c: nat, k: nat) | Kill(c: nat, k: nat)
    | Switch(c: nat)                               // sched() has switched to the scheduler
    | Schedule(c: nat, k: nat)                     // scheduler() picks process k

  /** Whether this step of wait ends the call early: copyout failed, or WNOHANG was given. */
  datatype GiveUp = Stay | CopyoutFails | NoHang

  /** Slot j is a child that a waiter at slot i with this target looks at. */
  predicate Matches(s: State, i: nat, target: nat, j: nat)
    requires j < |s.proc|
  {
    s.proc[j].parent == Some(i) && (target == 0 || s.proc[j].pid == target)
  }

  predicate Shape(s: State) {
    && |s.proc| == |s.pc| == NPROC && |s.cpu| == NCPU
    && s.init < NPROC
    && (forall c :: 0 <= c < NCPU && s.cpu[c].Some? ==> s.cpu[c].value < NPROC)
    && (s.waitLock.Some? ==> s.waitLock.value < NPROC)
  }

  /** One iteration of wakeup(chan) by process i, at slot m. */
  function WakeAt(s: State, i: nat, m: nat, chan: Chan): seq<Proc>
    requires m < |s.proc|
  {
    if m != i && s.proc[m].state == SLEEPING && s.proc[m].chan == chan
    then s.proc[m := s.proc[m].(state := RUNNABLE)] else s.proc
  }

  function At(s: State, i: nat, pc: Pc): State
    requires i < |s.pc|
  {
    s.(pc := s.pc[i := pc])
  }

  // ----- exit -----

  predicate ExitEnabled(s: State, i: nat)
    requires Shape(s) && i < NPROC
  {
    match s.pc[i]
    case ExitWant => s.waitLock.None?
    case Reparent(_) => true
    case WakeInit(_, m) => m < NPROC && m != i ==> !s.pc[m].HoldsOwn()
    case WakeParent(m) => m < NPROC && m != i ==> !s.pc[m].HoldsOwn()
    case ExitLocked => true
    case ExitZombie => true
    case _ => false
  }

  function DoExit(s: State, i: nat): (s': State)
    requires Shape(s) && i < NPROC && ExitEnabled(s, i)
  {
    var p := s.proc[i];
    match s.pc[i]
    case ExitWant => At(s, i, Reparent(0)).(waitLock := Some(i))
    case Reparent(j) =>
      if j >= NPROC then At(s, i, WakeParent(0))
      else if s.proc[j].parent == Some(i) then
        At(s, i, WakeInit(j, 0)).(proc := s.proc[j := s.proc[j].(parent := Some(s.init))])
      else At(s, i, Reparent(j + 1))
    case WakeInit(j, m) =>
      if m >= NPROC then At(s, i, Reparent(j + 1))
      else At(s, i, WakeInit(j, m + 1)).(proc := WakeAt(s, i, m, OfProc(s.init)))
    case WakeParent(m) =>
      if m >= NPROC then At(s, i, ExitLocked)
      else At(s, i, WakeParent(m + 1)).(proc :=
             if p.parent.Some? then WakeAt(s, i, m, OfProc(p.parent.value)) else s.proc)
    case ExitLocked => At(s, i, ExitZombie).(proc := s.proc[i := p.(state := ZOMBIE)])
    case ExitZombie => At(s, i, ExitSched).(waitLock := None)
  }

  // ----- wait, waitpid and sleep -----

  predicate WaitEnabled(s: State, i: nat, give: GiveUp)
    requires Shape(s) && i < NPROC
  {
    match s.pc[i]
    case WaitWant(_) => give.Stay? && s.waitLock.None?
    case Scan(t, j, _) =>
      if j < NPROC && Matches(s, i, t, j) then
        && !s.pc[j].HoldsOwn() && !give.NoHang?
        && (give.CopyoutFails? ==> s.proc[j].state == ZOMBIE)
      else give.Stay? || (give.NoHang? && j >= NPROC)
    case Decided(_) => give.Stay?
    case SleepLocked(_) => give.Stay?
    case SleepDropped(_) => give.Stay?
    case Resumed(_) => give.Stay?
    case _ => false
  }

  function DoWait(s: State, i: nat, give: GiveUp): (s': State)
    requires Shape(s) && i < NPROC && WaitEnabled(s, i, give)
  {
    var p := s.proc[i];
    match s.pc[i]
    case WaitWant(t) => At(s, i, Scan(t, 0, false)).(waitLock := Some(i))
    case Scan(t, j, kids) =>
      if !give.Stay? then At(s, i, User).(waitLock := None)
      else if j < NPROC then
        if !Matches(s, i, t, j) then At(s, i, Scan(t, j + 1, kids))
        else if s.proc[j].state == ZOMBIE then
          // freeproc, release both locks, return the pid
          s.(pc := s.pc[j := Free][i := User], proc := s.proc[j := FREE_SLOT], waitLock := None,
             reaped := s.reaped + [s.proc[j].pid])
        else At(s, i, Scan(t, j + 1, true))
      else if !kids || p.killed then At(s, i, User).(waitLock := None)
      else At(s, i, Decided(t))
    case Decided(t) => At(s, i, SleepLocked(t))
    case SleepLocked(t) => At(s, i, SleepDropped(t)).(waitLock := None)
    case SleepDropped(t) =>
      At(s, i, SleepParked(t)).(proc := s.proc[i := p.(chan := OfProc(i), state := SLEEPING)])
    case Resumed(t) => At(s, i, WaitWant(t)).(proc := s.proc[i := p.(chan := NoChan)])
  }

  // ----- everything else a running process does -----

  predicate CallEnabled(s: State, i: nat, e: Event)
    requires Shape(s) && i < NPROC
  {
    var pc := s.pc[i];
    match e
    case Fork(_, k) => pc.User? && k < NPROC && s.proc[k].state == UNUSED && !s.pc[k].HoldsOwn()
    case ForkFails(_) => pc.User?
    case SetParent(_) => pc.Forked? && pc.child < NPROC && s.waitLock.None?
    case MakeRunnable(_) => pc.Parented? && pc.child < NPROC && !s.pc[pc.child].HoldsOwn()
    case Exit(_) => pc.User? && i != s.init
    case Wait(_, _) => pc.User?
    case Begin(_) => pc.Starting?
    case Yield(_) => pc.User?
    case SleepElsewhere(_) => pc.User?
    case WakeElsewhere(_, k) => k < NPROC && k != i && !s.pc[k].HoldsOwn()
    case Kill(_, k) => k < NPROC && !s.pc[k].HoldsOwn()
    case _ => false
  }

  function DoCall(s: State, i: nat, e: Event): (s': State)
    requires Shape(s) && i < NPROC && CallEnabled(s, i, e)
  {
    var pc := s.pc[i];
    match e
    case Fork(_, k) =>
      s.(pc := s.pc[k := Embryo(i)][i := Forked(k)], nextpid := s.nextpid + 1,
         proc := s.proc[k := s.proc[k].(pid := s.nextpid, state := USED)])
    case ForkFails(_) => s.(nextpid := s.nextpid + 1)
    case SetParent(_) =>
      At(s, i, Parented(pc.child)).(proc := s.proc[pc.child := s.proc[pc.child].(parent := Some(i))])
    case MakeRunnable(_) =>
      s.(pc := s.pc[pc.child := Ready][i := User],
         proc := s.proc[pc.child := s.proc[pc.child].(state := RUNNABLE)])
    case Exit(_) => At(s, i, ExitWant)
    case Wait(_, t) => At(s, i, WaitWant(t))
    case Begin(_) => At(s, i, User)
    case Yield(_) => At(s, i, YieldSched).(proc := s.proc[i := s.proc[i].(state := RUNNABLE)])
    case SleepElsewhere(_) =>
      At(s, i, OtherParked).(proc := s.proc[i := s.proc[i].(chan := Elsewhere, state := SLEEPING)])
    case WakeElsewhere(_, k) => s.(proc := WakeAt(s, i, k, Elsewhere))
    case Kill(_, k) =>
      s.(proc := s.proc[k := s.proc[k].(killed := true,
           state := if s.proc[k].state == SLEEPING then RUNNABLE else s.proc[k].state)])
  }

  // ----- the scheduler -----

  predicate SchedEnabled(s: State, e: Event)
    requires Shape(s) && e.c < NCPU && (e.Switch? || e.Schedule?)
  {
    match e
    case Switch(c) =>
      && s.cpu[c].Some?
      && var pc := s.pc[s.cpu[c].value];
      pc.ExitSched? || pc.SleepParked? || pc.YieldSched? || pc.OtherParked?
    case Schedule(c, k) =>
      s.cpu[c].None? && k < NPROC && s.proc[k].state == RUNNABLE && !s.pc[k].HoldsOwn()
  }

  function DoSched(s: State, e: Event): (s': State)
    requires Shape(s) && e.c < NCPU && (e.Switch? || e.Schedule?) && SchedEnabled(s, e)
  {
    match e
    case Switch(c) =>
      var i := s.cpu[c].value;
      var away := match s.pc[i]
                  case ExitSched => Dead
                  case SleepParked(t) => Asleep(t)
                  case OtherParked => OtherAsleep
                  case _ => Ready;
      At(s, i, away).(cpu := s.cpu[c := None])
    case Schedule(c, k) =>
      var pc := s.pc[k];
      At(s, k, if pc.Asleep? then Resumed(pc.target) else Starting)
        .(cpu := s.cpu[c := Some(k)], proc := s.proc[k := s.proc[k].(state := RUNNING)])
  }

  // ----- runs -----

  predicate Enabled(s: State, e: Event) {
    && Shape(s) && e.c < NCPU
    && if e.Switch? || e.Schedule? then SchedEnabled(s, e)
       else
         && s.cpu[e.c].Some?
         && var i := s.cpu[e.c].value;
         if e.ExitStep? then ExitEnabled(s, i)
         else if e.WaitStep? then WaitEnabled(s, i, e.give)
         else CallEnabled(s, i, e)
  }

  function Do(s: State, e: Event): (s': State)
    requires Enabled(s, e)
  {
    if e.Switch? || e.Schedule? then DoSched(s, e)
    else
      var i := s.cpu[e.c].value;
      if e.ExitStep? then DoExit(s, i)
      else if e.WaitStep? then DoWait(s, i, e.give)
      else DoCall(s, i, e)
  }

  /** After userinit: one process, init, with pid 1. */
  ghost predicate Initial(s: State) {
    && Shape(s)
    && (forall c :: 0 <= c < NCPU ==> s.cpu[c].None?) && s.waitLock.None?
    && s.proc[s.init] == Proc(RUNNABLE, NoChan, false, 1, None) && s.pc[s.init] == Ready
    && (forall i :: 0 <= i < NPROC && i != s.init ==> s.proc[i] == FREE_SLOT && s.pc[i] == Free)
    && s.nextpid == 2 && s.reaped == []
  }

  ghost predicate Reaches(s: State, es: seq<Event>, r: State)
    decreases |es|
  {
    if es == [] then r == s
    else Enabled(s, es[0]) && Reaches(Do(s, es[0]), es[1..], r)
  }

  // ----- Invariants, each a property of one slot, one CPU or one pair -----

  ghost predicate SlotOk(s: State, i: nat)
    requires Shape(s) && i < NPROC
  {
    var p, pc := s.proc[i], s.pc[i];
    && (pc.HoldsWait() <==> s.waitLock == Some(i))
    && pc.Allows(p.state)
    && (pc.SleepParked? || pc.Asleep? ==> p.chan == OfProc(i))
    && (pc.OtherParked? || pc.OtherAsleep? ==> p.chan == Elsewhere)
  }

  ghost predicate BirthOk(s: State, i: nat)
    requires Shape(s) && i < NPROC
  {
    var p, pc := s.proc[i], s.pc[i];
    && (if pc.Free? then p.parent.None? else 1 <= p.pid < s.nextpid)
    && (i == s.init ==> p.pid == 1 && p.parent.None? && !pc.Free? && !pc.Embryo? && !pc.Exiting())
    && (p.parent.Some? ==> p.parent.value < NPROC)
    && (i != s.init && !pc.Free? && p.parent.None? ==>
          pc.Embryo? && pc.forker < NPROC && s.pc[pc.forker] == Forked(i))
  }

  ghost predicate CpuOk(s: State, c: nat, i: nat)
    requires Shape(s) && c < NCPU && i < NPROC
  {
    s.cpu[c] == Some(i) ==> s.pc[i].OnCpu()
  }

  ghost predicate CpusDiffer(s: State, c: nat, d: nat)
    requires Shape(s) && c < NCPU && d < NCPU
  {
    c != d && s.cpu[c].Some? ==> s.cpu[c] != s.cpu[d]
  }

  ghost predicate PidsDiffer(s: State, i: nat, j: nat)
    requires Shape(s) && i < NPROC && j < NPROC
  {
    i != j && !s.pc[i].Free? && !s.pc[j].Free? ==> s.proc[i].pid != s.proc[j].pid
  }

  /** A reaped pid is gone for good. */
  ghost predicate ReapedOk(s: State, k: nat, i: nat)
    requires Shape(s) && k < |s.reaped| && i < NPROC
  {
    s.reaped[k] < s.nextpid && (!s.pc[i].Free? ==> s.proc[i].pid != s.reaped[k])
  }

  /** A child is younger than its parent, and the parent has not yet given it away. */
  ghost predicate ChildOk(s: State, j: nat, q: nat)
    requires Shape(s) && j < NPROC && q < NPROC
  {
    s.proc[j].parent == Some(q) ==> s.proc[q].pid < s.proc[j].pid && !s.pc[q].GaveAway(j)
  }

  ghost predicate ForkOk(s: State, i: nat, k: nat)
    requires Shape(s) && i < NPROC && k < NPROC
  {
    && (s.pc[i] == Forked(k) ==>
          s.pc[k] == Embryo(i) && s.proc[k].parent.None? && s.proc[i].pid < s.proc[k].pid)
    && (s.pc[i] == Parented(k) ==> s.pc[k] == Embryo(i) && s.proc[k].parent == Some(i))
  }

  /** A waiter can only be missing a zombie that an exiting process has just given to init, and
      then the exiting process has yet to look at init in its wakeup. */
  ghost predicate MissedOk(s: State, i: nat, j: nat)
    requires Shape(s) && i < NPROC && j < NPROC
  {
    Missed(s, i, j) ==>
      && i == s.init && s.waitLock.Some?
      && s.pc[s.waitLock.value].WakeInit? && s.pc[s.waitLock.value].m <= i
  }

  /** A scan has passed no zombie child. */
  ghost predicate ScanOk(s: State, i: nat, j: nat)
    requires Shape(s) && i < NPROC && j < NPROC
  {
    s.pc[i].Scan? && j < s.pc[i].j ==> !(Matches(s, i, s.pc[i].target, j) && s.proc[j].state == ZOMBIE)
  }

  /** An exiting process whose wakeup has passed its parent has a parent that is not asleep. */
  ghost predicate AwakeOk(s: State, h: nat, q: nat)
    requires Shape(s) && h < NPROC && q < NPROC
  {
    s.proc[h].parent == Some(q) && (s.pc[h].ExitLocked? || (s.pc[h].WakeParent? && q < s.pc[h].m)) ==>
      !Sleepy(s, q)
  }

  /** Process i has decided to sleep in wait and nothing has woken it since. */
  predicate Sleepy(s: State, i: nat)
    requires i < |s.pc| == |s.proc|
  {
    || s.pc[i].Decided? || s.pc[i].SleepLocked? || s.pc[i].SleepDropped? || s.pc[i].SleepParked?
    || (s.pc[i].Asleep? && s.proc[i].state == SLEEPING)
  }

  /** Slot j is a zombie child that the sleeping waiter i is waiting for. */
  predicate Missed(s: State, i: nat, j: nat)
    requires i < |s.pc| == |s.proc| && j < |s.proc|
  {
    Sleepy(s, i) && s.proc[j].state == ZOMBIE && Matches(s, i, s.pc[i].target, j)
  }

  ghost predicate Inv(s: State) {
    && Shape(s)
    && (forall i :: 0 <= i < NPROC ==> SlotOk(s, i))
    && (forall i :: 0 <= i < NPROC ==> BirthOk(s, i))
    && (forall c, i :: 0 <= c < NCPU && 0 <= i < NPROC ==> CpuOk(s, c, i))
    && (forall c, d :: 0 <= c < NCPU && 0 <= d < NCPU ==> CpusDiffer(s, c, d))
    && (forall i, j :: 0 <= i < NPROC && 0 <= j < NPROC ==> PidsDiffer(s, i, j))
    && (forall k, i :: 0 <= k < |s.reaped| && 0 <= i < NPROC ==> ReapedOk(s, k, i))
    && (forall k, l :: 0 <= k < l < |s.reaped| ==> s.reaped[k] != s.reaped[l])
    && (forall j, q :: 0 <= j < NPROC && 0 <= q < NPROC ==> ChildOk(s, j, q))
    && (forall i, k :: 0 <= i < NPROC && 0 <= k < NPROC ==> ForkOk(s, i, k))
    && (forall i, j :: 0 <= i < NPROC && 0 <= j < NPROC ==> MissedOk(s, i, j))
    && (forall i, j :: 0 <= i < NPROC && 0 <= j < NPROC ==> ScanOk(s, i, j))
    && (forall h, q :: 0 <= h < NPROC && 0 <= q < NPROC ==> AwakeOk(s, h, q))
  }

}
