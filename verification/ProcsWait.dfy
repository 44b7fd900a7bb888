/** When wait returns, when it sleeps, and what kill does to a sleeper. */
module ProcsWait {
  import opened Basics
  import opened Params
  import opened Procs
  import opened ProcsInvariant

  /** Among the slots below n is a child that i waits for. */
  ghost predicate Kid(s: State, i: nat, t: nat, n: nat)
    requires Shape(s)
  {
    exists j: nat :: j < n && j < NPROC && Matches(s, i, t, j)
  }

  /** A scan's flag says whether it has passed a child it waits for. */
  ghost predicate KidsOk(s: State, i: nat)
    requires Shape(s) && i < NPROC
  {
    s.pc[i].Scan? ==> (s.pc[i].kids <==> Kid(s, i, s.pc[i].target, s.pc[i].j))
  }

  /** Process i is between deciding to sleep in wait and taking wait_lock again. */
  predicate Waiting(pc: Pc) {
    pc.Decided? || pc.SleepLocked? || pc.SleepDropped? || pc.SleepParked? || pc.Asleep? || pc.Resumed?
  }

  /** Whoever sleeps in wait has a child to wait for. */
  ghost predicate WaiterOk(s: State, i: nat)
    requires Shape(s) && i < NPROC
  {
    Waiting(s.pc[i]) ==> Kid(s, i, s.pc[i].target, NPROC)
  }

  ghost predicate WaitInv(s: State) {
    Inv(s) && forall i: nat | i < NPROC :: KidsOk(s, i) && WaiterOk(s, i)
  }

  /** The process that takes the step, if any. */
  function Actor(s: State, e: Event): (a: Option<nat>)
    requires Enabled(s, e)
  {
    if e.Switch? || e.Schedule? then None else s.cpu[e.c]
  }

  // --- a child stays one ---

  /** Only i itself takes a child away from i. */
  lemma ChildStays(s: State, e: Event, i: nat, t: nat, j: nat)
    requires Inv(s) && Enabled(s, e) && Actor(s, e) != Some(i) && i < NPROC && j < NPROC && Matches(s, i, t, j)
    ensures Shape(Do(s, e)) && Matches(Do(s, e), i, t, j)
  {
    StepKeepsInv(s, e);
    if Actor(s, e).Some? {
      var a := Actor(s, e).value;
      assert SlotOk(s, j) && BirthOk(s, j) && ForkOk(s, a, j);
    }
  }

  /** While i holds wait_lock no one becomes a child of i either. */
  lemma ChildrenFixed(s: State, e: Event, i: nat, t: nat, j: nat)
    requires Inv(s) && Enabled(s, e) && Actor(s, e) != Some(i) && i < NPROC && j < NPROC && s.pc[i].HoldsWait()
    ensures Shape(Do(s, e)) && (Matches(Do(s, e), i, t, j) ==> Matches(s, i, t, j))
  {
    StepKeepsInv(s, e);
    assert SlotOk(s, i);
    if Actor(s, e).Some? {
      var a := Actor(s, e).value;
      assert SlotOk(s, a) && SlotOk(s, j) && BirthOk(s, j) && ForkOk(s, a, j);
    }
  }

  /** A step of someone else leaves i where it is, apart from being switched. */
  lemma OthersPc(s: State, e: Event, i: nat)
    requires Inv(s) && Enabled(s, e) && Actor(s, e) != Some(i) && i < NPROC
    ensures Shape(Do(s, e))
    ensures Do(s, e).pc[i].Scan? ==> Do(s, e).pc[i] == s.pc[i]
    ensures Waiting(Do(s, e).pc[i]) ==> Waiting(s.pc[i]) && Do(s, e).pc[i].target == s.pc[i].target
  {
    StepKeepsInv(s, e);
    assert SlotOk(s, i);
  }

  lemma KidStays(s: State, e: Event, i: nat, t: nat, n: nat)
    requires Inv(s) && Enabled(s, e) && Actor(s, e) != Some(i) && i < NPROC && Kid(s, i, t, n)
    ensures Shape(Do(s, e)) && Kid(Do(s, e), i, t, n)
  {
    var j: nat :| j < n && j < NPROC && Matches(s, i, t, j);
    ChildStays(s, e, i, t, j);
  }

  lemma OtherStep(s: State, e: Event, i: nat)
    requires WaitInv(s) && Enabled(s, e) && Actor(s, e) != Some(i) && i < NPROC
    ensures Shape(Do(s, e)) && KidsOk(Do(s, e), i) && WaiterOk(Do(s, e), i)
  {
    var s' := Do(s, e);
    assert KidsOk(s, i) && WaiterOk(s, i);
    hide Inv, Do, Enabled;
    OthersPc(s, e, i);
    if s'.pc[i].Scan? {
      var t, n := s.pc[i].target, s.pc[i].j;
      if s.pc[i].kids {
        KidStays(s, e, i, t, n);
      }
      forall j: nat | j < n && j < NPROC && Matches(s', i, t, j)
        ensures Matches(s, i, t, j)
      {
        ChildrenFixed(s, e, i, t, j);
      }
    }
    if Waiting(s'.pc[i]) {
      KidStays(s, e, i, s.pc[i].target, NPROC);
    }
  }

  /** A step of i itself. */
  lemma OwnWaitStep(s: State, i: nat, g: GiveUp)
    requires WaitInv(s) && i < NPROC && WaitEnabled(s, i, g)
    ensures Shape(DoWait(s, i, g)) && KidsOk(DoWait(s, i, g), i) && WaiterOk(DoWait(s, i, g), i)
  {
    var s' := DoWait(s, i, g);
    WaitKeepsInv(s, i, g);
    assert SlotOk(s, i) && KidsOk(s, i) && WaiterOk(s, i);
    hide Inv;
    if s.pc[i].Scan? && s'.pc[i].Scan? {
      ScanOne(s, s', i);
    } else if Waiting(s'.pc[i]) {
      var j: nat :| j < NPROC && Matches(s, i, s.pc[i].target, j);
      assert Matches(s', i, s.pc[i].target, j);
    }
  }

  lemma ScanOne(s: State, s': State, i: nat)
    requires Shape(s) && Shape(s') && i < NPROC && s.pc[i].Scan? && s'.pc[i].Scan? && s'.proc == s.proc && s.pc[i].j < NPROC
    requires s'.pc[i] == Scan(s.pc[i].target, s.pc[i].j + 1, s.pc[i].kids || Matches(s, i, s.pc[i].target, s.pc[i].j))
    requires KidsOk(s, i)
    ensures KidsOk(s', i)
  {
    var t, j := s.pc[i].target, s.pc[i].j;
    if Kid(s, i, t, j) {
      var k: nat :| k < j && k < NPROC && Matches(s, i, t, k);
      assert Matches(s', i, t, k);
    }
    if Matches(s, i, t, j) {
      assert Matches(s', i, t, j);
    }
    if Kid(s', i, t, j + 1) {
      var k: nat :| k < j + 1 && k < NPROC && Matches(s', i, t, k);
      assert Matches(s, i, t, k);
      assert k < j ==> Kid(s, i, t, j);
    }
  }

  lemma OwnStep(s: State, e: Event, i: nat)
    requires WaitInv(s) && Enabled(s, e) && Actor(s, e) == Some(i) && i < NPROC
    ensures Shape(Do(s, e)) && KidsOk(Do(s, e), i) && WaiterOk(Do(s, e), i)
  {
    StepKeepsInv(s, e);
    if e.WaitStep? {
      OwnWaitStep(s, i, e.give);
    } else {
      OwnOther(s, e, i);
      assert KidsOk(s, i) && WaiterOk(s, i);
      if Do(s, e).pc[i] == s.pc[i] {
        SameKids(s, Do(s, e), i);
      }
    }
  }

  /** Waking and killing leave parents, pids and program points alone; no other call leads into wait. */
  lemma OwnOther(s: State, e: Event, i: nat)
    requires Inv(s) && Enabled(s, e) && Actor(s, e) == Some(i) && i < NPROC && !e.WaitStep?
    ensures Shape(Do(s, e))
    ensures (!Do(s, e).pc[i].Scan? && !Waiting(Do(s, e).pc[i]))
         || (Do(s, e).pc[i] == s.pc[i] && forall j: nat | j < NPROC ::
               Do(s, e).proc[j].parent == s.proc[j].parent && Do(s, e).proc[j].pid == s.proc[j].pid)
  {
    if e.ExitStep? {
      OwnExit(s, i);
    } else {
      OwnCall(s, e, i);
    }
  }

  lemma OwnExit(s: State, i: nat)
    requires Shape(s) && i < NPROC && ExitEnabled(s, i)
    ensures Shape(DoExit(s, i)) && !DoExit(s, i).pc[i].Scan? && !Waiting(DoExit(s, i).pc[i])
  {
  }

  lemma OwnCall(s: State, e: Event, i: nat)
    requires Inv(s) && i < NPROC && CallEnabled(s, i, e)
    ensures Shape(DoCall(s, i, e))
    ensures (!DoCall(s, i, e).pc[i].Scan? && !Waiting(DoCall(s, i, e).pc[i]))
         || (DoCall(s, i, e).pc[i] == s.pc[i] && forall j: nat | j < NPROC ::
               DoCall(s, i, e).proc[j].parent == s.proc[j].parent && DoCall(s, i, e).proc[j].pid == s.proc[j].pid)
  {
    CallKeepsInv(s, i, e);
  }

  lemma SameKids(s: State, s': State, i: nat)
    requires Shape(s) && Shape(s') && i < NPROC && s'.pc[i] == s.pc[i] && KidsOk(s, i) && WaiterOk(s, i)
    requires forall j: nat | j < NPROC :: s'.proc[j].parent == s.proc[j].parent && s'.proc[j].pid == s.proc[j].pid
    ensures KidsOk(s', i) && WaiterOk(s', i)
  {
    assert forall t: nat, j: nat | j < NPROC :: Matches(s', i, t, j) == Matches(s, i, t, j);
  }

  lemma StepKeepsWaitInv(s: State, e: Event)
    requires WaitInv(s) && Enabled(s, e)
    ensures WaitInv(Do(s, e))
  {
    hide Inv, KidsOk, WaiterOk, Do, Enabled;
    StepKeepsInv(s, e);
    forall i: nat | i < NPROC
      ensures Shape(Do(s, e)) && KidsOk(Do(s, e), i) && WaiterOk(Do(s, e), i)
    {
      if Actor(s, e) == Some(i) {
        OwnStep(s, e, i);
      } else {
        OtherStep(s, e, i);
      }
    }
  }

  lemma {:induction false} RunKeepsWaitInv(s: State, es: seq<Event>, r: State)
    requires WaitInv(s) && Reaches(s, es, r)
    ensures WaitInv(r)
    decreases |es|
  {
    if es != [] {
      StepKeepsWaitInv(s, es[0]);
      RunKeepsWaitInv(Do(s, es[0]), es[1..], r);
    }
  }

  lemma WaitInvInRuns(s: State, es: seq<Event>, r: State)
    requires Initial(s) && Reaches(s, es, r)
    ensures WaitInv(r)
  {
    InitialInv(s);
    RunKeepsWaitInv(s, es, r);
  }

  // --- what every run guarantees ---

  /** The end of a scan in any run, without WNOHANG: wait returns without a child exactly if the process
      was killed or has no child it waits for, and otherwise goes on to sleep; either way no child it
      waits for is a zombie. Before the end it returns only by reaping such a child, or when the exit
      status cannot be copied out. */
  lemma WaitReturnsExactly(s: State, es: seq<Event>, r: State, e: Event)
    requires Initial(s) && Reaches(s, es, r) && Enabled(r, e) && e.WaitStep? && r.pc[r.cpu[e.c].value].Scan?
    ensures var i := r.cpu[e.c].value;
            var t, j, q := r.pc[i].target, r.pc[i].j, Do(r, e);
            && (j < NPROC && e.give.Stay? ==>
                  (q.pc[i] == User <==> Matches(r, i, t, j) && r.proc[j].state == ZOMBIE))
            && (j < NPROC && q.pc[i] == User ==>
                  && Matches(r, i, t, j) && r.proc[j].state == ZOMBIE
                  && q.reaped == if e.give.Stay? then r.reaped + [r.proc[j].pid] else r.reaped)
            && (j < NPROC && q.pc[i] != User ==> q.pc[i].Scan? && q.pc[i].target == t && q.pc[i].j == j + 1)
            && (j >= NPROC && e.give.Stay? ==>
                  q.pc[i] == if r.proc[i].killed || !Kid(r, i, t, NPROC) then User else Decided(t))
            && (j >= NPROC ==> q.reaped == r.reaped && forall k: nat | k < NPROC && Matches(r, i, t, k) :: r.proc[k].state != ZOMBIE)
  {
    WaitInvInRuns(s, es, r);
    var i := r.cpu[e.c].value;
    assert KidsOk(r, i) && SlotOk(r, i);
    if r.pc[i].j >= NPROC {
      forall k: nat | k < NPROC && Matches(r, i, r.pc[i].target, k)
        ensures r.proc[k].state != ZOMBIE
      {
        assert ScanOk(r, i, k);
      }
      AllKids(r, i);
    }
  }

  lemma AllKids(s: State, i: nat)
    requires Shape(s) && i < NPROC && s.pc[i].Scan? && s.pc[i].j >= NPROC
    ensures Kid(s, i, s.pc[i].target, s.pc[i].j) <==> Kid(s, i, s.pc[i].target, NPROC)
  {
    if Kid(s, i, s.pc[i].target, s.pc[i].j) {
      var k: nat :| k < s.pc[i].j && k < NPROC && Matches(s, i, s.pc[i].target, k);
      assert k < NPROC;
    }
  }

  /** In every run whoever sleeps in wait, or is on the way into or out of that sleep, has a child it
      waits for, and that child is no zombie while wait_lock is free and nothing has woken the sleeper. */
  lemma SleeperHasChild(s: State, es: seq<Event>, r: State, i: nat)
    requires Initial(s) && Reaches(s, es, r) && i < NPROC
    ensures Shape(r)
    ensures Waiting(r.pc[i]) ==>
              exists j: nat :: && j < NPROC && Matches(r, i, r.pc[i].target, j)
                               && (Sleepy(r, i) && r.waitLock.None? ==> r.proc[j].state != ZOMBIE)
  {
    WaitInvInRuns(s, es, r);
    if Waiting(r.pc[i]) {
      assert WaiterOk(r, i);
      var j: nat :| j < NPROC && Matches(r, i, r.pc[i].target, j);
      if r.waitLock.None? {
        NoLostExit(s, es, r);
      }
    }
  }

  // --- kill ---

  /** After kill the victim is marked and on no channel's queue; of a process in wait it is lost exactly
      if it comes between the test of the mark and the sleep. */
  lemma KillExactly(s: State, es: seq<Event>, r: State, e: Event)
    requires Initial(s) && Reaches(s, es, r) && Enabled(r, e) && e.Kill?
    ensures Shape(r) && e.k < NPROC && Shape(Do(r, e))
    ensures var q := Do(r, e);
            && q.proc[e.k].killed && q.proc[e.k].state != SLEEPING
            && (Sleepy(q, e.k) <==> r.pc[e.k].Decided?)
            && q.pc == r.pc && (forall j: nat | j < NPROC && j != e.k :: q.proc[j] == r.proc[j])
            && q.proc[e.k].parent == r.proc[e.k].parent && q.proc[e.k].pid == r.proc[e.k].pid
  {
    WaitInvInRuns(s, es, r);
    assert SlotOk(r, e.k);
  }

  /** A marked process never decides to sleep in wait. */
  lemma KilledStaysAwake(s: State, es: seq<Event>, r: State, e: Event, i: nat)
    requires Initial(s) && Reaches(s, es, r) && Enabled(r, e) && i < NPROC
    ensures Shape(r) && Shape(Do(r, e))
    ensures r.proc[i].killed && !r.pc[i].Free? && !Sleepy(r, i) ==> !Sleepy(Do(r, e), i)
    ensures r.proc[i].killed && !r.pc[i].Free? && !Do(r, e).pc[i].Free? ==> Do(r, e).proc[i].killed
  {
    WaitInvInRuns(s, es, r);
    StepKeepsInv(r, e);
    hide WaitInv;
    if r.proc[i].killed && !r.pc[i].Free? {
      if Actor(r, e) == Some(i) {
        KilledOwn(r, e, i);
      } else {
        KilledOther(r, e, i);
      }
    }
  }

  lemma KilledOwn(s: State, e: Event, i: nat)
    requires Inv(s) && Enabled(s, e) && Actor(s, e) == Some(i) && i < NPROC && s.proc[i].killed
    ensures Shape(Do(s, e)) && Do(s, e).proc[i].killed && (!Sleepy(s, i) ==> !Sleepy(Do(s, e), i))
  {
    if e.ExitStep? {
      KilledExit(s, i, i);
    } else if e.WaitStep? {
      KilledWait(s, i, e.give, i);
    } else {
      KilledCall(s, i, e, i);
    }
  }

  lemma KilledOther(s: State, e: Event, i: nat)
    requires Inv(s) && Enabled(s, e) && Actor(s, e) != Some(i) && i < NPROC && s.proc[i].killed && !s.pc[i].Free?
    ensures Shape(Do(s, e)) && (!Do(s, e).pc[i].Free? ==> Do(s, e).proc[i].killed) && (!Sleepy(s, i) ==> !Sleepy(Do(s, e), i))
  {
    if Actor(s, e).None? {
      KilledSched(s, e, i);
    } else {
      var a := Actor(s, e).value;
      if e.ExitStep? {
        KilledExit(s, a, i);
      } else if e.WaitStep? {
        KilledWait(s, a, e.give, i);
      } else {
        KilledCall(s, a, e, i);
      }
    }
  }

  lemma KilledExit(s: State, a: nat, i: nat)
    requires Inv(s) && a < NPROC && i < NPROC && ExitEnabled(s, a) && s.proc[i].killed
    ensures Shape(DoExit(s, a)) && DoExit(s, a).proc[i].killed && (!Sleepy(s, i) ==> !Sleepy(DoExit(s, a), i))
  {
    assert SlotOk(s, i);
  }

  lemma KilledWait(s: State, a: nat, g: GiveUp, i: nat)
    requires Inv(s) && a < NPROC && i < NPROC && WaitEnabled(s, a, g) && s.proc[i].killed
    ensures Shape(DoWait(s, a, g)) && (!Sleepy(s, i) ==> !Sleepy(DoWait(s, a, g), i))
    ensures a == i || !DoWait(s, a, g).pc[i].Free? ==> DoWait(s, a, g).proc[i].killed
  {
    assert SlotOk(s, i) && SlotOk(s, a);
  }

  lemma KilledCall(s: State, a: nat, e: Event, i: nat)
    requires Inv(s) && a < NPROC && i < NPROC && CallEnabled(s, a, e) && s.proc[i].killed
    ensures Shape(DoCall(s, a, e)) && DoCall(s, a, e).proc[i].killed && (!Sleepy(s, i) ==> !Sleepy(DoCall(s, a, e), i))
  {
    assert SlotOk(s, i) && ForkOk(s, a, i);
  }

  lemma KilledSched(s: State, e: Event, i: nat)
    requires Scheduling(s, e) && i < NPROC && s.proc[i].killed
    ensures Shape(DoSched(s, e)) && DoSched(s, e).proc[i].killed && (!Sleepy(s, i) ==> !Sleepy(DoSched(s, e), i))
  {
    assert SlotOk(s, i);
  }

  // --- a run in which a kill is lost ---

  lemma {:induction false} RunsOn(s: State, es: seq<Event>, r: State, e: Event)
    requires Reaches(s, es, r) && Enabled(r, e)
    ensures Reaches(s, es + [e], Do(r, e))
    decreases |es|
  {
    if es == [] {
      assert ([] + [e])[0] == e && ([] + [e])[1..] == [];
    } else {
      RunsOn(Do(s, es[0]), es[1..], r, e);
      assert (es + [e])[0] == es[0] && (es + [e])[1..] == es[1..] + [e];
    }
  }

  /** init runs on CPU 0 at a, its child in slot k at b, and there is no one else. */
  ghost predicate Pair(r: State, k: nat, a: Pc, b: Pc, child: Proc, second: Option<nat>, lock: Option<nat>) {
    && Shape(r) && k < NPROC && k != r.init && r.cpu[0] == Some(r.init) && r.cpu[1] == second && r.waitLock == lock
    && r.pc[r.init] == a && r.pc[k] == b && r.proc[k] == child
    && r.proc[r.init].state == RUNNING && !r.proc[r.init].killed && r.proc[r.init].parent.None?
    && forall j: nat | j < NPROC && j != r.init && j != k :: r.proc[j] == FREE_SLOT
  }

  /** init runs on CPU 0 and there is no one else. */
  ghost predicate Alone(r: State) {
    && Shape(r) && r.cpu[0] == Some(r.init) && r.cpu[1].None? && r.waitLock.None? && r.nextpid == 2
    && r.pc[r.init] == User && r.proc[r.init] == Proc(RUNNING, NoChan, false, 1, None)
    && forall j: nat | j < NPROC && j != r.init :: r.proc[j] == FREE_SLOT && r.pc[j] == Free
  }

  lemma TwoSteps(s: State, es: seq<Event>, r: State, e: Event, f: Event)
    requires Reaches(s, es, r) && Enabled(r, e) && Enabled(Do(r, e), f)
    ensures Reaches(s, es + [e] + [f], Do(Do(r, e), f))
  {
    hide Do, Enabled, Reaches;
    RunsOn(s, es, r, e);
    RunsOn(s, es + [e], Do(r, e), f);
  }

  lemma Boots(s: State)
    requires Initial(s)
    ensures Enabled(s, Schedule(0, s.init)) && Enabled(Do(s, Schedule(0, s.init)), Begin(0))
    ensures var r := Do(Do(s, Schedule(0, s.init)), Begin(0)); Alone(r) && r.init == s.init
  {
  }

  lemma Forking(r: State, k: nat)
    requires Alone(r) && k < NPROC && k != r.init
    ensures Enabled(r, Fork(0, k)) && Enabled(Do(r, Fork(0, k)), SetParent(0))
    ensures var r' := Do(Do(r, Fork(0, k)), SetParent(0));
            && r'.init == r.init && Pair(r', k, Parented(k), Embryo(r.init), Proc(USED, NoChan, false, 2, Some(r.init)), None, None)
  {
  }

  lemma ChildStarts(r: State, k: nat)
    requires Pair(r, k, Parented(k), Embryo(r.init), Proc(USED, NoChan, false, 2, Some(r.init)), None, None)
    ensures Enabled(r, MakeRunnable(0)) && Enabled(Do(r, MakeRunnable(0)), Schedule(1, k))
    ensures var r' := Do(Do(r, MakeRunnable(0)), Schedule(1, k));
            && r'.init == r.init && Pair(r', k, User, Starting, Proc(RUNNING, NoChan, false, 2, Some(r.init)), Some(k), None)
  {
  }

  lemma ChildRuns(r: State, k: nat)
    requires Pair(r, k, User, Starting, Proc(RUNNING, NoChan, false, 2, Some(r.init)), Some(k), None)
    ensures Enabled(r, Begin(1)) && Enabled(Do(r, Begin(1)), Wait(0, 0))
    ensures var r' := Do(Do(r, Begin(1)), Wait(0, 0));
            && r'.init == r.init && Pair(r', k, WaitWant(0), User, Proc(RUNNING, NoChan, false, 2, Some(r.init)), Some(k), None)
  {
  }

  lemma ScanStarts(r: State, k: nat)
    requires Pair(r, k, WaitWant(0), User, Proc(RUNNING, NoChan, false, 2, Some(r.init)), Some(k), None)
    ensures Enabled(r, WaitStep(0, Stay))
    ensures var r' := Do(r, WaitStep(0, Stay));
            && r'.init == r.init
            && Pair(r', k, Scan(0, 0, false), User, Proc(RUNNING, NoChan, false, 2, Some(r.init)), Some(k), Some(r.init))
  {
  }

  /** init forks, the child runs on CPU 1, and init begins to scan. */
  lemma Waits(s: State, k: nat) returns (es: seq<Event>, r: State)
    requires Initial(s) && k < NPROC && k != s.init
    ensures Reaches(s, es, r) && r.init == s.init
    ensures Pair(r, k, Scan(0, 0, false), User, Proc(RUNNING, NoChan, false, 2, Some(s.init)), Some(k), Some(s.init))
  {
    assert Reaches(s, [], s);
    hide Do, Enabled, Reaches, Pair, Alone;
    Boots(s);
    TwoSteps(s, [], s, Schedule(0, s.init), Begin(0));
    es, r := [] + [Schedule(0, s.init)] + [Begin(0)], Do(Do(s, Schedule(0, s.init)), Begin(0));
    Forking(r, k);
    TwoSteps(s, es, r, Fork(0, k), SetParent(0));
    es, r := es + [Fork(0, k)] + [SetParent(0)], Do(Do(r, Fork(0, k)), SetParent(0));
    ChildStarts(r, k);
    TwoSteps(s, es, r, MakeRunnable(0), Schedule(1, k));
    es, r := es + [MakeRunnable(0)] + [Schedule(1, k)], Do(Do(r, MakeRunnable(0)), Schedule(1, k));
    ChildRuns(r, k);
    TwoSteps(s, es, r, Begin(1), Wait(0, 0));
    es, r := es + [Begin(1)] + [Wait(0, 0)], Do(Do(r, Begin(1)), Wait(0, 0));
    ScanStarts(r, k);
    RunsOn(s, es, r, WaitStep(0, Stay));
    es, r := es + [WaitStep(0, Stay)], Do(r, WaitStep(0, Stay));
  }

  lemma ScanStep(r: State, k: nat, j: nat)
    requires j < NPROC && Pair(r, k, Scan(0, j, k < j), User, Proc(RUNNING, NoChan, false, 2, Some(r.init)), Some(k), Some(r.init))
    ensures Enabled(r, WaitStep(0, Stay))
    ensures var r' := Do(r, WaitStep(0, Stay));
            && r'.init == r.init
            && Pair(r', k, Scan(0, j + 1, k < j + 1), User, Proc(RUNNING, NoChan, false, 2, Some(r.init)), Some(k), Some(r.init))
  {
  }

  lemma ChildBelow(r: State, k: nat, j: nat)
    requires Pair(r, k, Scan(0, j, k < j), User, Proc(RUNNING, NoChan, false, 2, Some(r.init)), Some(k), Some(r.init))
    ensures k < NPROC
  {
  }

  lemma {:induction false} Scans(s: State, k: nat, es: seq<Event>, r: State, j: nat) returns (es': seq<Event>, r': State)
    requires j <= NPROC && Reaches(s, es, r)
    requires Pair(r, k, Scan(0, j, k < j), User, Proc(RUNNING, NoChan, false, 2, Some(r.init)), Some(k), Some(r.init))
    ensures Reaches(s, es', r') && r'.init == r.init
    ensures Pair(r', k, Scan(0, NPROC, true), User, Proc(RUNNING, NoChan, false, 2, Some(r.init)), Some(k), Some(r.init))
    decreases NPROC - j
  {
    hide Do, Enabled, Reaches, Pair;
    if j == NPROC {
      es', r' := es, r;
      ChildBelow(r, k, j);
    } else {
      ScanStep(r, k, j);
      RunsOn(s, es, r, WaitStep(0, Stay));
      es', r' := Scans(s, k, es + [WaitStep(0, Stay)], Do(r, WaitStep(0, Stay)), j + 1);
    }
  }

  lemma LastSteps(r: State, k: nat)
    requires Pair(r, k, Scan(0, NPROC, true), User, Proc(RUNNING, NoChan, false, 2, Some(r.init)), Some(k), Some(r.init))
    ensures Enabled(r, WaitStep(0, Stay))
    ensures var r1 := Do(r, WaitStep(0, Stay));
            && r1.init == r.init && Enabled(r1, Kill(1, r.init))
            && var r2 := Do(r1, Kill(1, r.init));
            && Shape(r2) && r2.init == r.init && r2.proc[r.init].killed && Sleepy(r2, r.init)
            && Matches(r2, r.init, 0, k) && r2.proc[k].state == RUNNING
  {
  }

  /** So a run leads to a process that is marked as killed and sleeps in wait beside a running child. */
  lemma LostKill(s: State) returns (es: seq<Event>, r: State, k: nat)
    requires Initial(s)
    ensures Reaches(s, es, r) && Shape(r) && k < NPROC
    ensures r.proc[r.init].killed && Sleepy(r, r.init) && Matches(r, r.init, 0, k) && r.proc[k].state == RUNNING
  {
    hide Do, Enabled, Reaches;
    k := if s.init == 0 then 1 else 0;
    es, r := Waits(s, k);
    es, r := Scans(s, k, es, r, 0);
    LastSteps(r, k);
    var r1 := Do(r, WaitStep(0, Stay));
    RunsOn(s, es, r, WaitStep(0, Stay));
    es := es + [WaitStep(0, Stay)];
    RunsOn(s, es, r1, Kill(1, r.init));
    es := es + [Kill(1, r.init)];
    r := Do(r1, Kill(1, r.init));
  }
}
