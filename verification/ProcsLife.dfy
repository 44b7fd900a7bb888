/** What becomes of a process: fork delivers a runnable child, and exit is final and finite. */
module ProcsLife {
  import opened Basics
  import opened Params
  import opened Procs
  import opened ProcsInvariant

  /** How many steps exit still takes at most. */
  function ToGo(pc: Pc): nat {
    match pc
    case ExitWant => (NPROC + 1) * (NPROC + 3) + NPROC + 6
    case Reparent(j) => (if j < NPROC then (NPROC - j) * (NPROC + 3) else 0) + NPROC + 6
    case WakeInit(j, m) =>
      (if j < NPROC then (NPROC - 1 - j) * (NPROC + 3) else 0) + NPROC + 6 + (if m < NPROC then NPROC + 1 - m else 1)
    case WakeParent(m) => (if m < NPROC then NPROC - m else 0) + 4
    case ExitLocked => 3
    case ExitZombie => 2
    case ExitSched => 1
    case _ => 0
  }

  lemma ExitAdvances(s: State, i: nat)
    requires Shape(s) && i < NPROC && ExitEnabled(s, i)
    ensures var s' := DoExit(s, i);
            s'.pc[i].Exiting() && ToGo(s'.pc[i]) < ToGo(s.pc[i]) && s'.proc[i].pid == s.proc[i].pid && s'.reaped == s.reaped
  {
  }

  /** i's own step of exit, or its last switch away. */
  predicate OwnExit(s: State, e: Event, i: nat)
    requires Enabled(s, e)
  {
    (e.ExitStep? || e.Switch?) && s.cpu[e.c] == Some(i)
  }

  /** After a step: one step nearer to the end if it was i's own, else no farther from it; or i was dead
      and its parent has reaped it. */
  ghost predicate ExitGoesOn(s: State, e: Event, i: nat)
    requires Enabled(s, e) && i < NPROC
  {
    var s' := Do(s, e);
    && |s'.pc| == |s'.proc| == NPROC
    && if s'.pc[i].Exiting() then
         && s'.proc[i].pid == s.proc[i].pid
         && ToGo(s'.pc[i]) + (if OwnExit(s, e, i) then 1 else 0) <= ToGo(s.pc[i])
       else
         && s.pc[i].Dead? && s'.pc[i].Free? && s'.reaped == s.reaped + [s.proc[i].pid]
         && e.WaitStep? && s.proc[i].parent == s.cpu[e.c]
  }

  lemma OthersExit(s: State, e: Event, i: nat)
    requires Inv(s) && Enabled(s, e) && i < NPROC && s.pc[i].Exiting() && e.ExitStep?
    ensures ExitGoesOn(s, e, i)
  {
    var a := s.cpu[e.c].value;
    if a == i {
      ExitAdvances(s, i);
    }
  }

  lemma OthersWait(s: State, e: Event, i: nat)
    requires Inv(s) && Enabled(s, e) && i < NPROC && s.pc[i].Exiting() && e.WaitStep?
    ensures ExitGoesOn(s, e, i)
  {
    SlotFact(s, i);
    hide Inv;
  }

  lemma OthersCall(s: State, e: Event, i: nat)
    requires Inv(s) && Enabled(s, e) && i < NPROC && s.pc[i].Exiting()
    requires !(e.Switch? || e.Schedule? || e.ExitStep? || e.WaitStep?)
    ensures ExitGoesOn(s, e, i)
  {
    SlotFact(s, i);
    PairFact(s, s.cpu[e.c].value, i);
    hide Inv;
  }

  lemma OthersSched(s: State, e: Event, i: nat)
    requires Inv(s) && Enabled(s, e) && i < NPROC && s.pc[i].Exiting() && (e.Switch? || e.Schedule?)
    ensures ExitGoesOn(s, e, i)
  {
    SlotFact(s, i);
    hide Inv;
  }

  lemma ExitStepByStep(s: State, e: Event, i: nat)
    requires Inv(s) && Enabled(s, e) && i < NPROC && s.pc[i].Exiting()
    ensures ExitGoesOn(s, e, i)
  {
    if e.ExitStep? {
      OthersExit(s, e, i);
    } else if e.WaitStep? {
      OthersWait(s, e, i);
    } else if e.Switch? || e.Schedule? {
      OthersSched(s, e, i);
    } else {
      OthersCall(s, e, i);
    }
  }

  lemma StepGrows(s: State, e: Event)
    requires Enabled(s, e)
    ensures Shape(s) && s.reaped <= Do(s, e).reaped
  {
  }

  lemma {:induction false} RunGrows(s: State, es: seq<Event>, r: State)
    requires Inv(s) && Reaches(s, es, r)
    ensures Shape(s) && Shape(r) && s.reaped <= r.reaped
    decreases |es|
  {
    SlotFact(s, 0);
    hide Inv, Do, Enabled;
    if es != [] {
      StepGrows(s, es[0]);
      StepKeepsInv(s, es[0]);
      RunGrows(Do(s, es[0]), es[1..], r);
    }
  }

  /** How many steps of exit i takes in a run. */
  ghost function ExitSteps(s: State, es: seq<Event>, r: State, i: nat): nat
    requires Reaches(s, es, r)
    decreases |es|
  {
    if es == [] then 0
    else (if OwnExit(s, es[0], i) then 1 else 0) + ExitSteps(Do(s, es[0]), es[1..], r, i)
  }

  /** Whatever happens after a process has called exit, either it is still on its way out, with its pid,
      having taken as many steps as the way is shorter; or a wait has returned its pid. It never
      runs again, and its slot is not given to another process before that. */
  lemma {:induction false} ExitIsFinal(s: State, es: seq<Event>, r: State, i: nat)
    requires Inv(s) && Reaches(s, es, r) && i < NPROC && s.pc[i].Exiting()
    ensures Shape(r) && s.reaped <= r.reaped
    ensures s.proc[i].pid in r.reaped ||
            (r.pc[i].Exiting() && r.proc[i].pid == s.proc[i].pid && ToGo(r.pc[i]) + ExitSteps(s, es, r, i) <= ToGo(s.pc[i]))
    decreases |es|
  {
    hide Inv, Do, Enabled, ToGo;
    RunGrows(s, es, r);
    if es != [] {
      var s' := Do(s, es[0]);
      ExitStepByStep(s, es[0], i);
      StepKeepsInv(s, es[0]);
      RunGrows(s', es[1..], r);
      if s'.pc[i].Exiting() {
        ExitIsFinal(s', es[1..], r, i);
      } else {
        assert r.reaped[|s.reaped|] == s.proc[i].pid;
      }
    }
  }

  // --- fork ---

  /** fork takes a slot that is free and a pid that no process has or has had. */
  lemma ForkTakes(s: State, es: seq<Event>, r: State, e: Event)
    requires Initial(s) && Reaches(s, es, r) && Enabled(r, e) && e.Fork?
    ensures Shape(r) && Shape(Do(r, e)) && e.k < NPROC
    ensures var i := r.cpu[e.c].value;
            var q := Do(r, e);
            && r.pc[e.k].Free? && q.pc == r.pc[e.k := Embryo(i)][i := Forked(e.k)]
            && (forall j: nat | j < NPROC && j != e.k :: q.proc[j] == r.proc[j])
            && (forall j: nat | j < NPROC && !r.pc[j].Free? :: r.proc[j].pid < q.proc[e.k].pid)
            && (forall j: nat | j < |r.reaped| :: r.reaped[j] < q.proc[e.k].pid)
  {
    InitialInv(s);
    RunKeepsInv(s, es, r);
    SlotFact(r, e.k);
    forall j: nat | j < NPROC && !r.pc[j].Free?
      ensures r.proc[j].pid < r.nextpid
    {
      SlotFact(r, j);
    }
    forall j: nat | j < |r.reaped|
      ensures r.reaped[j] < r.nextpid
    {
      assert ReapedOk(r, j, 0);
    }
    hide Inv;
  }

  /** fork ends with a runnable child of the caller, which no one else can have taken meanwhile. */
  lemma ForkDelivers(s: State, es: seq<Event>, r: State, e: Event)
    requires Initial(s) && Reaches(s, es, r) && Enabled(r, e) && (e.SetParent? || e.MakeRunnable?)
    ensures Shape(r) && Shape(Do(r, e)) && r.pc[r.cpu[e.c].value].child < NPROC
    ensures var i := r.cpu[e.c].value;
            var k := r.pc[i].child;
            var q := Do(r, e);
            && r.pc[k] == Embryo(i) && r.proc[k].state == USED && q.proc[k].parent == Some(i) && q.proc[i].pid < q.proc[k].pid
            && (if e.SetParent? then q.pc == r.pc[i := Parented(k)] && q.proc[k].state == USED
                else q.pc == r.pc[k := Ready][i := User] && q.proc[k].state == RUNNABLE)
            && q.proc[k].pid == r.proc[k].pid && forall j: nat | j < NPROC && j != k :: q.proc[j] == r.proc[j]
  {
    InitialInv(s);
    RunKeepsInv(s, es, r);
    var i := r.cpu[e.c].value;
    var k := r.pc[i].child;
    SlotFact(r, k);
    PairFact(r, i, k);
    PairFact(r, k, i);
    hide Inv;
  }
}
