/** Every step of the process machine keeps its invariants. */
module ProcsInvariant {
  import opened Basics
  import opened Params
  import opened Procs

  // ----- single facts of the invariant -----

  lemma SlotFact(s: State, i: nat)
    requires Inv(s) && i < NPROC
    ensures Shape(s) && SlotOk(s, i) && BirthOk(s, i)
  {
  }

  lemma PairFact(s: State, i: nat, j: nat)
    requires Inv(s) && i < NPROC && j < NPROC
    ensures Shape(s) && PidsDiffer(s, i, j) && ChildOk(s, i, j) && ForkOk(s, i, j)
  {
  }

  // ----- exit -----

  lemma ExitSlot(s: State, i: nat, x: nat)
    requires Inv(s) && i < NPROC && x < NPROC && ExitEnabled(s, i)
    ensures Shape(DoExit(s, i)) && SlotOk(DoExit(s, i), x)
  {
    assert SlotOk(s, x) && SlotOk(s, i);
  }

  lemma ExitBirth(s: State, i: nat, x: nat)
    requires Inv(s) && i < NPROC && x < NPROC && ExitEnabled(s, i)
    ensures Shape(DoExit(s, i)) && BirthOk(DoExit(s, i), x)
  {
    assert BirthOk(s, x) && BirthOk(s, i);
  }

  lemma ExitChild(s: State, i: nat, x: nat, y: nat)
    requires Inv(s) && i < NPROC && x < NPROC && y < NPROC && ExitEnabled(s, i)
    ensures Shape(DoExit(s, i)) && ChildOk(DoExit(s, i), x, y)
  {
    assert ChildOk(s, x, y) && ChildOk(s, x, i);
    assert BirthOk(s, x) && BirthOk(s, s.init) && PidsDiffer(s, x, s.init);
  }

  lemma ExitFork(s: State, i: nat, x: nat, y: nat)
    requires Inv(s) && i < NPROC && x < NPROC && y < NPROC && ExitEnabled(s, i)
    ensures Shape(DoExit(s, i)) && ForkOk(DoExit(s, i), x, y)
  {
    assert ForkOk(s, x, y);
  }

  lemma ExitMissedChild(s: State, i: nat, x: nat, y: nat)
    requires Inv(s) && i < NPROC && x < NPROC && y < NPROC && ExitEnabled(s, i) && (s.pc[i].Reparent? || s.pc[i].WakeInit?)
    ensures Shape(DoExit(s, i)) && MissedOk(DoExit(s, i), x, y)
  {
    assert MissedOk(s, x, y) && SlotOk(s, x) && SlotOk(s, i) && BirthOk(s, s.init);
  }

  lemma ExitMissed(s: State, i: nat, x: nat, y: nat)
    requires Inv(s) && i < NPROC && x < NPROC && y < NPROC && ExitEnabled(s, i)
    ensures Shape(DoExit(s, i)) && MissedOk(DoExit(s, i), x, y)
  {
    if s.pc[i].Reparent? || s.pc[i].WakeInit? {
      ExitMissedChild(s, i, x, y);
    } else {
      assert MissedOk(s, x, y) && SlotOk(s, x) && SlotOk(s, i) && AwakeOk(s, i, x);
    }
  }

  lemma ExitAwake(s: State, i: nat, x: nat, y: nat)
    requires Inv(s) && i < NPROC && x < NPROC && y < NPROC && ExitEnabled(s, i)
    ensures Shape(DoExit(s, i)) && AwakeOk(DoExit(s, i), x, y) && ScanOk(DoExit(s, i), x, y)
  {
    assert AwakeOk(s, x, y) && ScanOk(s, x, y) && SlotOk(s, x) && SlotOk(s, y) && SlotOk(s, i) && ChildOk(s, x, y);
  }

  lemma ExitPids(s: State, i: nat, x: nat, y: nat)
    requires Inv(s) && i < NPROC && x < NPROC && y < NPROC && ExitEnabled(s, i)
    ensures Shape(DoExit(s, i)) && PidsDiffer(DoExit(s, i), x, y)
    ensures DoExit(s, i).reaped == s.reaped && DoExit(s, i).nextpid == s.nextpid
    ensures DoExit(s, i).pc[x].Free? == s.pc[x].Free? && DoExit(s, i).proc[x].pid == s.proc[x].pid
    ensures DoExit(s, i).cpu == s.cpu && DoExit(s, i).pc[x].OnCpu() == s.pc[x].OnCpu()
    ensures DoExit(s, i).init == s.init
  {
    assert PidsDiffer(s, x, y);
  }

  // ----- wait -----

  lemma WaitSlot(s: State, i: nat, g: GiveUp, x: nat)
    requires Inv(s) && i < NPROC && x < NPROC && WaitEnabled(s, i, g)
    ensures Shape(DoWait(s, i, g)) && SlotOk(DoWait(s, i, g), x)
  {
    assert SlotOk(s, x) && SlotOk(s, i);
  }

  lemma WaitBirth(s: State, i: nat, g: GiveUp, x: nat)
    requires Inv(s) && i < NPROC && x < NPROC && WaitEnabled(s, i, g)
    ensures Shape(DoWait(s, i, g)) && BirthOk(DoWait(s, i, g), x)
  {
    if s.pc[i].Scan? && s.pc[i].j < NPROC {
      WaitBirthScan(s, i, g, x);
    } else {
      assert BirthOk(s, x);
    }
  }

  lemma WaitBirthScan(s: State, i: nat, g: GiveUp, x: nat)
    requires Inv(s) && i < NPROC && x < NPROC && WaitEnabled(s, i, g) && s.pc[i].Scan? && s.pc[i].j < NPROC
    ensures Shape(DoWait(s, i, g)) && BirthOk(DoWait(s, i, g), x)
  {
    assert BirthOk(s, x) && BirthOk(s, i) && SlotOk(s, s.pc[i].j) && BirthOk(s, s.pc[i].j);
  }

  lemma WaitChild(s: State, i: nat, g: GiveUp, x: nat, y: nat)
    requires Inv(s) && i < NPROC && x < NPROC && y < NPROC && WaitEnabled(s, i, g)
    ensures Shape(DoWait(s, i, g)) && ChildOk(DoWait(s, i, g), x, y)
  {
    assert ChildOk(s, x, y) && SlotOk(s, y);
  }

  lemma WaitFork(s: State, i: nat, g: GiveUp, x: nat, y: nat)
    requires Inv(s) && i < NPROC && x < NPROC && y < NPROC && WaitEnabled(s, i, g)
    ensures Shape(DoWait(s, i, g)) && ForkOk(DoWait(s, i, g), x, y)
  {
    assert ForkOk(s, x, y) && SlotOk(s, x) && SlotOk(s, y);
  }

  lemma WaitMissed(s: State, i: nat, g: GiveUp, x: nat, y: nat)
    requires Inv(s) && i < NPROC && x < NPROC && y < NPROC && WaitEnabled(s, i, g)
    ensures Shape(DoWait(s, i, g)) && MissedOk(DoWait(s, i, g), x, y)
  {
    assert MissedOk(s, x, y) && SlotOk(s, x) && SlotOk(s, i) && ScanOk(s, i, y);
  }

  lemma WaitAwake(s: State, i: nat, g: GiveUp, x: nat, y: nat)
    requires Inv(s) && i < NPROC && x < NPROC && y < NPROC && WaitEnabled(s, i, g)
    ensures Shape(DoWait(s, i, g)) && AwakeOk(DoWait(s, i, g), x, y) && ScanOk(DoWait(s, i, g), x, y)
  {
    assert AwakeOk(s, x, y) && ScanOk(s, x, y) && SlotOk(s, x) && SlotOk(s, y) && SlotOk(s, i);
  }

  lemma WaitPids(s: State, i: nat, g: GiveUp, x: nat, y: nat)
    requires Inv(s) && i < NPROC && x < NPROC && y < NPROC && WaitEnabled(s, i, g)
    ensures Shape(DoWait(s, i, g)) && PidsDiffer(DoWait(s, i, g), x, y)
  {
    assert PidsDiffer(s, x, y) && SlotOk(s, i);
  }

  lemma WaitReaped(s: State, i: nat, g: GiveUp, k: nat, x: nat)
    requires Inv(s) && i < NPROC && x < NPROC && WaitEnabled(s, i, g) && k < |DoWait(s, i, g).reaped|
    ensures Shape(DoWait(s, i, g)) && ReapedOk(DoWait(s, i, g), k, x)
  {
    if k < |s.reaped| {
      assert ReapedOk(s, k, x) && SlotOk(s, i);
      assert DoWait(s, i, g).reaped[k] == s.reaped[k];
      assert DoWait(s, i, g).proc[x].pid == s.proc[x].pid || DoWait(s, i, g).pc[x].Free?;
    } else {
      var j := s.pc[i].j;
      assert SlotOk(s, j) && BirthOk(s, j) && PidsDiffer(s, j, x) && SlotOk(s, i);
    }
  }

  lemma WaitReapedOnce(s: State, i: nat, g: GiveUp)
    requires Inv(s) && i < NPROC && WaitEnabled(s, i, g)
    ensures var r := DoWait(s, i, g).reaped; forall k, l :: 0 <= k < l < |r| ==> r[k] != r[l]
  {
    var r := DoWait(s, i, g).reaped;
    if r != s.reaped {
      var j := s.pc[i].j;
      assert SlotOk(s, j);
      forall k | 0 <= k < |s.reaped|
        ensures r[k] != s.proc[j].pid
      {
        assert ReapedOk(s, k, j);
      }
    }
  }

  lemma WaitCpu(s: State, i: nat, g: GiveUp, c: nat, x: nat)
    requires Inv(s) && i < NPROC && x < NPROC && c < NCPU && WaitEnabled(s, i, g)
    ensures Shape(DoWait(s, i, g)) && CpuOk(DoWait(s, i, g), c, x)
  {
    assert CpuOk(s, c, x) && SlotOk(s, x) && SlotOk(s, i);
  }

  // ----- the other calls -----

  lemma CallSlotFork(s: State, i: nat, e: Event, x: nat)
    requires Inv(s) && i < NPROC && x < NPROC && CallEnabled(s, i, e) && (e.Fork? || e.SetParent? || e.MakeRunnable?)
    ensures Shape(DoCall(s, i, e)) && SlotOk(DoCall(s, i, e), x)
  {
    assert SlotOk(s, x) && SlotOk(s, i) && ForkOk(s, i, x);
  }

  lemma CallSlot(s: State, i: nat, e: Event, x: nat)
    requires Inv(s) && i < NPROC && x < NPROC && CallEnabled(s, i, e)
    ensures Shape(DoCall(s, i, e)) && SlotOk(DoCall(s, i, e), x)
  {
    if e.Fork? || e.SetParent? || e.MakeRunnable? {
      CallSlotFork(s, i, e, x);
    } else {
      assert SlotOk(s, x) && SlotOk(s, i);
    }
  }

  lemma CallBirthFork(s: State, i: nat, e: Event, x: nat)
    requires Inv(s) && i < NPROC && x < NPROC && CallEnabled(s, i, e) && (e.Fork? || e.SetParent? || e.MakeRunnable?)
    ensures Shape(DoCall(s, i, e)) && BirthOk(DoCall(s, i, e), x)
  {
    assert SlotOk(s, x) && BirthOk(s, x) && BirthOk(s, i) && ForkOk(s, i, x);
    if s.pc[x].Embryo? && s.pc[x].forker < NPROC {
      assert SlotOk(s, s.pc[x].forker) && ForkOk(s, i, s.pc[x].forker);
    }
  }

  lemma CallBirth(s: State, i: nat, e: Event, x: nat)
    requires Inv(s) && i < NPROC && x < NPROC && CallEnabled(s, i, e)
    ensures Shape(DoCall(s, i, e)) && BirthOk(DoCall(s, i, e), x)
  {
    if e.Fork? || e.SetParent? || e.MakeRunnable? {
      CallBirthFork(s, i, e, x);
    } else {
      assert BirthOk(s, x);
    }
  }

  lemma CallChild(s: State, i: nat, e: Event, x: nat, y: nat)
    requires Inv(s) && i < NPROC && x < NPROC && y < NPROC && CallEnabled(s, i, e)
    ensures Shape(DoCall(s, i, e)) && ChildOk(DoCall(s, i, e), x, y)
  {
    assert ChildOk(s, x, y) && SlotOk(s, x) && SlotOk(s, y) && BirthOk(s, x) && ForkOk(s, i, x);
  }

  lemma CallForkFork(s: State, i: nat, e: Event, x: nat, y: nat)
    requires Inv(s) && i < NPROC && x < NPROC && y < NPROC && CallEnabled(s, i, e)
    requires e.Fork? || e.SetParent? || e.MakeRunnable?
    ensures Shape(DoCall(s, i, e)) && ForkOk(DoCall(s, i, e), x, y)
  {
    hide Inv;
    PairFact(s, x, y);
    PairFact(s, i, y);
    SlotFact(s, x);
    SlotFact(s, y);
    SlotFact(s, i);
  }

  lemma CallFork(s: State, i: nat, e: Event, x: nat, y: nat)
    requires Inv(s) && i < NPROC && x < NPROC && y < NPROC && CallEnabled(s, i, e)
    ensures Shape(DoCall(s, i, e)) && ForkOk(DoCall(s, i, e), x, y)
  {
    if e.Fork? || e.SetParent? || e.MakeRunnable? {
      CallForkFork(s, i, e, x, y);
    } else {
      assert ForkOk(s, x, y);
    }
  }

  lemma CallMissedFork(s: State, i: nat, e: Event, x: nat, y: nat)
    requires Inv(s) && i < NPROC && x < NPROC && y < NPROC && CallEnabled(s, i, e)
    requires e.Fork? || e.SetParent? || e.MakeRunnable?
    ensures Shape(DoCall(s, i, e)) && MissedOk(DoCall(s, i, e), x, y)
  {
    assert MissedOk(s, x, y) && SlotOk(s, x) && SlotOk(s, y) && SlotOk(s, i) && ForkOk(s, i, y);
    if s.waitLock.Some? {
      assert SlotOk(s, s.waitLock.value) && ForkOk(s, i, s.waitLock.value);
    }
  }

  lemma CallMissed(s: State, i: nat, e: Event, x: nat, y: nat)
    requires Inv(s) && i < NPROC && x < NPROC && y < NPROC && CallEnabled(s, i, e)
    ensures Shape(DoCall(s, i, e)) && MissedOk(DoCall(s, i, e), x, y)
  {
    if e.Fork? || e.SetParent? || e.MakeRunnable? {
      CallMissedFork(s, i, e, x, y);
    } else {
      assert MissedOk(s, x, y) && SlotOk(s, x) && SlotOk(s, y) && SlotOk(s, i);
      if s.waitLock.Some? {
        assert SlotOk(s, s.waitLock.value);
      }
    }
  }

  lemma CallAwake(s: State, i: nat, e: Event, x: nat, y: nat)
    requires Inv(s) && i < NPROC && x < NPROC && y < NPROC && CallEnabled(s, i, e)
    ensures Shape(DoCall(s, i, e)) && AwakeOk(DoCall(s, i, e), x, y)
  {
    assert AwakeOk(s, x, y) && SlotOk(s, x) && SlotOk(s, y) && ForkOk(s, i, x);
  }

  lemma CallScan(s: State, i: nat, e: Event, x: nat, y: nat)
    requires Inv(s) && i < NPROC && x < NPROC && y < NPROC && CallEnabled(s, i, e)
    ensures Shape(DoCall(s, i, e)) && ScanOk(DoCall(s, i, e), x, y)
  {
    assert ScanOk(s, x, y) && SlotOk(s, x) && SlotOk(s, y) && ForkOk(s, i, y);
  }

  lemma CallPids(s: State, i: nat, e: Event, x: nat, y: nat)
    requires Inv(s) && i < NPROC && x < NPROC && y < NPROC && CallEnabled(s, i, e)
    ensures Shape(DoCall(s, i, e)) && PidsDiffer(DoCall(s, i, e), x, y)
  {
    assert PidsDiffer(s, x, y) && BirthOk(s, x) && BirthOk(s, y) && ForkOk(s, i, x) && ForkOk(s, i, y);
  }

  lemma CallReaped(s: State, i: nat, e: Event, k: nat, x: nat)
    requires Inv(s) && i < NPROC && x < NPROC && CallEnabled(s, i, e) && k < |s.reaped|
    ensures DoCall(s, i, e).reaped == s.reaped
    ensures Shape(DoCall(s, i, e)) && ReapedOk(DoCall(s, i, e), k, x)
  {
    assert ReapedOk(s, k, x) && ForkOk(s, i, x);
  }

  lemma CallCpu(s: State, i: nat, e: Event, c: nat, x: nat)
    requires Inv(s) && i < NPROC && x < NPROC && c < NCPU && CallEnabled(s, i, e)
    ensures Shape(DoCall(s, i, e)) && CpuOk(DoCall(s, i, e), c, x)
  {
    assert CpuOk(s, c, x) && SlotOk(s, x) && ForkOk(s, i, x);
  }

  // ----- the scheduler -----

  ghost predicate Scheduling(s: State, e: Event) {
    Inv(s) && e.c < NCPU && (e.Switch? || e.Schedule?) && SchedEnabled(s, e)
  }

  lemma SchedSlot(s: State, e: Event, x: nat)
    requires Scheduling(s, e) && x < NPROC
    ensures Shape(DoSched(s, e)) && SlotOk(DoSched(s, e), x) && BirthOk(DoSched(s, e), x)
  {
    assert SlotOk(s, x) && BirthOk(s, x);
    if s.pc[x].Embryo? && s.pc[x].forker < NPROC {
      assert SlotOk(s, s.pc[x].forker);
    }
  }

  lemma SchedPids(s: State, e: Event, x: nat, y: nat)
    requires Scheduling(s, e) && x < NPROC && y < NPROC
    ensures Shape(DoSched(s, e)) && PidsDiffer(DoSched(s, e), x, y)
    ensures DoSched(s, e).reaped == s.reaped && DoSched(s, e).nextpid == s.nextpid
    ensures DoSched(s, e).pc[x].Free? == s.pc[x].Free? && DoSched(s, e).proc[x].pid == s.proc[x].pid
  {
    assert PidsDiffer(s, x, y) && SlotOk(s, x) && SlotOk(s, y);
  }

  lemma SchedFamily(s: State, e: Event, x: nat, y: nat)
    requires Scheduling(s, e) && x < NPROC && y < NPROC
    ensures Shape(DoSched(s, e)) && ChildOk(DoSched(s, e), x, y) && ForkOk(DoSched(s, e), x, y)
  {
    assert ChildOk(s, x, y) && ForkOk(s, x, y) && SlotOk(s, x) && SlotOk(s, y);
  }

  lemma SchedMissed(s: State, e: Event, x: nat, y: nat)
    requires Scheduling(s, e) && x < NPROC && y < NPROC
    ensures Shape(DoSched(s, e)) && MissedOk(DoSched(s, e), x, y)
  {
    assert MissedOk(s, x, y) && SlotOk(s, x) && SlotOk(s, y);
    if s.waitLock.Some? {
      assert SlotOk(s, s.waitLock.value);
    }
  }

  lemma SchedAwake(s: State, e: Event, x: nat, y: nat)
    requires Scheduling(s, e) && x < NPROC && y < NPROC
    ensures Shape(DoSched(s, e)) && AwakeOk(DoSched(s, e), x, y) && ScanOk(DoSched(s, e), x, y)
  {
    assert AwakeOk(s, x, y) && ScanOk(s, x, y) && SlotOk(s, x) && SlotOk(s, y);
  }

  lemma SchedCpu(s: State, e: Event, c: nat, d: nat, x: nat)
    requires Scheduling(s, e) && c < NCPU && d < NCPU && x < NPROC
    ensures Shape(DoSched(s, e)) && CpuOk(DoSched(s, e), c, x) && CpusDiffer(DoSched(s, e), c, d)
  {
    assert CpuOk(s, c, x) && CpusDiffer(s, c, d) && CpusDiffer(s, c, e.c) && SlotOk(s, x);
    if e.Schedule? {
      assert SlotOk(s, e.k) && CpuOk(s, c, e.k) && CpuOk(s, d, e.k);
    }
  }

  // ----- the whole invariant -----

  lemma ExitKeepsInv(s: State, i: nat)
    requires Inv(s) && i < NPROC && ExitEnabled(s, i)
    ensures Inv(DoExit(s, i))
  {
    var s' := DoExit(s, i);
    forall x | 0 <= x < NPROC ensures Shape(s') && SlotOk(s', x) && BirthOk(s', x) {
      ExitSlot(s, i, x);
      ExitBirth(s, i, x);
    }
    forall x, y | 0 <= x < NPROC && 0 <= y < NPROC
      ensures PidsDiffer(s', x, y) && ChildOk(s', x, y) && ForkOk(s', x, y)
      ensures MissedOk(s', x, y) && AwakeOk(s', x, y) && ScanOk(s', x, y)
    {
      ExitPids(s, i, x, y);
      ExitChild(s, i, x, y);
      ExitFork(s, i, x, y);
      ExitMissed(s, i, x, y);
      ExitAwake(s, i, x, y);
    }
    ExitPids(s, i, 0, 0);
    forall c, x | 0 <= c < NCPU && 0 <= x < NPROC ensures CpuOk(s', c, x) {
      ExitPids(s, i, x, x);
      assert CpuOk(s, c, x);
    }
    forall c, d | 0 <= c < NCPU && 0 <= d < NCPU ensures CpusDiffer(s', c, d) {
      assert CpusDiffer(s, c, d);
    }
    forall k, x | 0 <= k < |s'.reaped| && 0 <= x < NPROC ensures ReapedOk(s', k, x) {
      ExitPids(s, i, x, x);
      assert ReapedOk(s, k, x);
    }
  }

  lemma WaitKeepsInv(s: State, i: nat, g: GiveUp)
    requires Inv(s) && i < NPROC && WaitEnabled(s, i, g)
    ensures Inv(DoWait(s, i, g))
  {
    var s' := DoWait(s, i, g);
    forall x | 0 <= x < NPROC ensures Shape(s') && SlotOk(s', x) && BirthOk(s', x) {
      WaitSlot(s, i, g, x);
      WaitBirth(s, i, g, x);
    }
    forall x, y | 0 <= x < NPROC && 0 <= y < NPROC
      ensures PidsDiffer(s', x, y) && ChildOk(s', x, y) && ForkOk(s', x, y)
      ensures MissedOk(s', x, y) && AwakeOk(s', x, y) && ScanOk(s', x, y)
    {
      WaitPids(s, i, g, x, y);
      WaitChild(s, i, g, x, y);
      WaitFork(s, i, g, x, y);
      WaitMissed(s, i, g, x, y);
      WaitAwake(s, i, g, x, y);
    }
    forall c, x | 0 <= c < NCPU && 0 <= x < NPROC ensures CpuOk(s', c, x) {
      WaitCpu(s, i, g, c, x);
    }
    forall c, d | 0 <= c < NCPU && 0 <= d < NCPU ensures CpusDiffer(s', c, d) {
      assert CpusDiffer(s, c, d) && s'.cpu == s.cpu;
    }
    forall k, x | 0 <= k < |s'.reaped| && 0 <= x < NPROC ensures ReapedOk(s', k, x) {
      WaitReaped(s, i, g, k, x);
    }
    WaitReapedOnce(s, i, g);
  }

  lemma CallKeepsInv(s: State, i: nat, e: Event)
    requires Inv(s) && i < NPROC && CallEnabled(s, i, e)
    ensures Inv(DoCall(s, i, e))
  {
    var s' := DoCall(s, i, e);
    forall x | 0 <= x < NPROC ensures Shape(s') && SlotOk(s', x) && BirthOk(s', x) {
      CallSlot(s, i, e, x);
      CallBirth(s, i, e, x);
    }
    forall x, y | 0 <= x < NPROC && 0 <= y < NPROC
      ensures PidsDiffer(s', x, y) && ChildOk(s', x, y) && ForkOk(s', x, y)
      ensures MissedOk(s', x, y) && AwakeOk(s', x, y) && ScanOk(s', x, y)
    {
      CallPids(s, i, e, x, y);
      CallChild(s, i, e, x, y);
      CallFork(s, i, e, x, y);
      CallMissed(s, i, e, x, y);
      CallAwake(s, i, e, x, y);
      CallScan(s, i, e, x, y);
    }
    forall c, x | 0 <= c < NCPU && 0 <= x < NPROC ensures CpuOk(s', c, x) {
      CallCpu(s, i, e, c, x);
    }
    forall c, d | 0 <= c < NCPU && 0 <= d < NCPU ensures CpusDiffer(s', c, d) {
      assert CpusDiffer(s, c, d) && s'.cpu == s.cpu;
    }
    assert s'.reaped == s.reaped;
    forall k, x | 0 <= k < |s'.reaped| && 0 <= x < NPROC ensures ReapedOk(s', k, x) {
      CallReaped(s, i, e, k, x);
    }
  }

  lemma SchedKeepsInv(s: State, e: Event)
    requires Scheduling(s, e)
    ensures Inv(DoSched(s, e))
  {
    var s' := DoSched(s, e);
    forall x | 0 <= x < NPROC ensures Shape(s') && SlotOk(s', x) && BirthOk(s', x) {
      SchedSlot(s, e, x);
    }
    forall x, y | 0 <= x < NPROC && 0 <= y < NPROC
      ensures PidsDiffer(s', x, y) && ChildOk(s', x, y) && ForkOk(s', x, y)
      ensures MissedOk(s', x, y) && AwakeOk(s', x, y) && ScanOk(s', x, y)
    {
      SchedPids(s, e, x, y);
      SchedFamily(s, e, x, y);
      SchedMissed(s, e, x, y);
      SchedAwake(s, e, x, y);
    }
    forall c, x | 0 <= c < NCPU && 0 <= x < NPROC ensures CpuOk(s', c, x) {
      SchedCpu(s, e, c, c, x);
    }
    forall c, d | 0 <= c < NCPU && 0 <= d < NCPU ensures CpusDiffer(s', c, d) {
      SchedCpu(s, e, c, d, 0);
    }
    SchedPids(s, e, 0, 0);
    forall k, x | 0 <= k < |s'.reaped| && 0 <= x < NPROC ensures ReapedOk(s', k, x) {
      SchedPids(s, e, x, x);
      assert ReapedOk(s, k, x);
    }
  }

  lemma StepKeepsInv(s: State, e: Event)
    requires Inv(s) && Enabled(s, e)
    ensures Inv(Do(s, e))
  {
    if e.Switch? || e.Schedule? {
      SchedKeepsInv(s, e);
    } else {
      var i := s.cpu[e.c].value;
      if e.ExitStep? {
        ExitKeepsInv(s, i);
      } else if e.WaitStep? {
        WaitKeepsInv(s, i, e.give);
      } else {
        CallKeepsInv(s, i, e);
      }
    }
  }

  lemma InitialInv(s: State)
    requires Initial(s)
    ensures Inv(s)
  {
  }

  lemma {:induction false} RunKeepsInv(s: State, es: seq<Event>, r: State)
    requires Inv(s) && Reaches(s, es, r)
    ensures Inv(r)
    decreases |es|
  {
    if es != [] {
      StepKeepsInv(s, es[0]);
      RunKeepsInv(Do(s, es[0]), es[1..], r);
    }
  }

  // ----- What every run guarantees -----

  /** No lost exit: in every state of every run in which wait_lock is free, no process sleeps in
      wait or waitpid (or has let go of wait_lock in order to) while a child it waits for is a zombie. */
  lemma NoLostExit(s: State, es: seq<Event>, r: State)
    requires Initial(s) && Reaches(s, es, r) && r.waitLock.None?
    ensures Shape(r)
    ensures forall i, j :: 0 <= i < NPROC && 0 <= j < NPROC && Sleepy(r, i) ==>
              Matches(r, i, r.pc[i].target, j) ==> r.proc[j].state != ZOMBIE
  {
    InitialInv(s);
    RunKeepsInv(s, es, r);
    forall i, j | 0 <= i < NPROC && 0 <= j < NPROC && Sleepy(r, i)
      ensures Matches(r, i, r.pc[i].target, j) ==> r.proc[j].state != ZOMBIE
    {
      assert MissedOk(r, i, j);
    }
  }

  /** A process is reaped only when it is a zombie that no CPU is running any more, its slot then
      holds no children's parent pointer, and no pid is ever returned twice. */
  lemma ReapedOnceAndOffCpu(s: State, es: seq<Event>, r: State, e: Event)
    requires Initial(s) && Reaches(s, es, r) && Enabled(r, e)
    ensures forall k, l :: 0 <= k < l < |r.reaped| ==> r.reaped[k] != r.reaped[l]
    ensures Do(r, e).reaped != r.reaped ==>
              && e.WaitStep? && r.cpu[e.c].Some?
              && var pc := r.pc[r.cpu[e.c].value];
              && pc.Scan? && pc.j < NPROC && r.proc[pc.j].state == ZOMBIE
              && (forall c :: 0 <= c < NCPU ==> r.cpu[c] != Some(pc.j))
              && (forall x :: 0 <= x < NPROC ==> r.proc[x].parent != Some(pc.j))
              && Do(r, e).reaped == r.reaped + [r.proc[pc.j].pid]
  {
    InitialInv(s);
    RunKeepsInv(s, es, r);
    if Do(r, e).reaped != r.reaped {
      assert !(e.Switch? || e.Schedule?);
      var i := r.cpu[e.c].value;
      var j := r.pc[i].j;
      assert SlotOk(r, i) && SlotOk(r, j);
      forall c | 0 <= c < NCPU ensures r.cpu[c] != Some(j) {
        assert CpuOk(r, c, j);
      }
      forall x | 0 <= x < NPROC ensures r.proc[x].parent != Some(j) {
        assert ChildOk(r, x, j);
      }
    }
  }

  /** The chain of parents from slot i. */
  ghost function Ancestors(s: State, i: nat): (chain: seq<nat>)
    requires Inv(s) && i < NPROC
    ensures |chain| > 0 && chain[0] == i
    ensures forall k :: 0 <= k < |chain| ==> chain[k] < NPROC
    decreases s.proc[i].pid
  {
    if s.proc[i].parent.None? then [i]
    else
      assert BirthOk(s, i) && ChildOk(s, i, s.proc[i].parent.value);
      [i] + Ancestors(s, s.proc[i].parent.value)
  }

  /** Each process on the chain is the next one's child and has a larger pid; the last is init. */
  ghost predicate ProperChain(s: State, chain: seq<nat>) {
    && Shape(s) && |chain| > 0 && (forall k :: 0 <= k < |chain| ==> chain[k] < NPROC)
    && chain[|chain| - 1] == s.init
    && (forall k :: 0 < k < |chain| ==>
          s.proc[chain[k - 1]].parent == Some(chain[k]) && s.proc[chain[k]].pid < s.proc[chain[k - 1]].pid)
  }

  lemma {:induction false} ChainEndsAtInit(s: State, i: nat)
    requires Inv(s) && i < NPROC && !s.pc[i].Free? && !s.pc[i].Embryo?
    ensures ProperChain(s, Ancestors(s, i))
    decreases s.proc[i].pid
  {
    assert BirthOk(s, i);
    if s.proc[i].parent.Some? {
      var q := s.proc[i].parent.value;
      assert ChildOk(s, i, q);
      ChainEndsAtInit(s, q);
      var rest := Ancestors(s, q);
      var chain := [i] + rest;
      assert Ancestors(s, i) == chain;
      forall k | 0 < k < |chain|
        ensures s.proc[chain[k - 1]].parent == Some(chain[k]) && s.proc[chain[k]].pid < s.proc[chain[k - 1]].pid
      {
        if k > 1 {
          assert chain[k - 1] == rest[k - 2] && chain[k] == rest[k - 1];
        }
      }
    }
  }

  /** In every state of every run, following parent pointers from any process that fork has
      finished setting up meets strictly smaller pids and ends at init. */
  lemma ParentChains(s: State, es: seq<Event>, r: State)
    requires Initial(s) && Reaches(s, es, r)
    ensures Inv(r)
    ensures forall i :: 0 <= i < NPROC && !r.pc[i].Free? && !r.pc[i].Embryo? ==> ProperChain(r, Ancestors(r, i))
  {
    InitialInv(s);
    RunKeepsInv(s, es, r);
    forall i | 0 <= i < NPROC && !r.pc[i].Free? && !r.pc[i].Embryo?
      ensures ProperChain(r, Ancestors(r, i))
    {
      ChainEndsAtInit(r, i);
    }
  }
}
