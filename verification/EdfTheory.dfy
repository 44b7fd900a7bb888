/** Earliest-deadline-first timelines: what the simulator's timeline means, and why on one CPU
    such a timeline meets every deadline that any schedule could meet.
 */
module EdfTheory {
  import opened Basics

  datatype Process = Process(pid: int, arrival: int, burst: int, deadline: int, ioWait: int)

  /** What run_edf needs of its input; the deadline bounds come from its sentinels -1 and 999999. */
  ghost predicate ValidInput(ps: seq<Process>) {
    && |ps| <= 100
    && (forall i :: 0 <= i < |ps| ==>
          ps[i].pid > 0 && ps[i].arrival >= 0 && ps[i].burst >= 1 && 0 <= ps[i].deadline < 999999)
    && (forall i, j :: 0 <= i < j < |ps| ==> ps[i].pid != ps[j].pid)
  }

  /** A timeline has one row per tick, giving for each CPU the pid that ran, or 0 if it idled. */
  type Timeline = seq<seq<int>>

  /** Ticks before t in which pid ran. */
  function Executed(tl: Timeline, pid: int, t: nat): (k: nat)
    requires t <= |tl|
    ensures k <= t
  {
    if t == 0 then 0 else Executed(tl, pid, t - 1) + if pid in tl[t - 1] then 1 else 0
  }

  lemma {:induction false} ExecutedPrefix(tl: Timeline, row: seq<int>, pid: int, t: nat)
    requires t <= |tl|
    ensures Executed(tl + [row], pid, t) == Executed(tl, pid, t)
  {
    if t > 0 {
      ExecutedPrefix(tl, row, pid, t - 1);
    }
  }

  predicate Ready(ps: seq<Process>, tl: Timeline, i: nat, t: nat)
    requires i < |ps| && t <= |tl|
  {
    ps[i].arrival <= t && Executed(tl, ps[i].pid, t) < ps[i].burst
  }

  /** Process i is ready in tick t but does not run. */
  predicate Waits(ps: seq<Process>, tl: Timeline, i: nat, t: nat)
    requires i < |ps| && t < |tl|
  {
    Ready(ps, tl, i, t) && ps[i].pid !in tl[t]
  }

  /** Tick t obeys EDF: only ready processes run, none on two CPUs; whatever runs has a deadline
      no later than whatever waits; and no CPU idles while anything waits. */
  ghost predicate EdfTick(ps: seq<Process>, tl: Timeline, t: nat)
    requires t < |tl|
  {
    && (forall c :: 0 <= c < |tl[t]| && tl[t][c] != 0 ==>
          exists i :: 0 <= i < |ps| && ps[i].pid == tl[t][c] && Ready(ps, tl, i, t))
    && (forall c, d :: 0 <= c < d < |tl[t]| && tl[t][c] != 0 ==> tl[t][c] != tl[t][d])
    && (forall i, j :: 0 <= i < |ps| && 0 <= j < |ps| && ps[i].pid in tl[t] && Waits(ps, tl, j, t) ==>
          ps[i].deadline <= ps[j].deadline)
    && (forall j :: 0 <= j < |ps| && Waits(ps, tl, j, t) ==> 0 !in tl[t])
  }

  ghost predicate IsEdf(ps: seq<Process>, tl: Timeline) {
    forall t :: 0 <= t < |tl| ==> EdfTick(ps, tl, t)
  }

  // ----- Schedules of one CPU -----

  /** Ticks in [lo, hi) that a one-CPU schedule gives to process i. */
  function Given(sched: seq<int>, i: int, lo: int, hi: int): (k: nat)
    requires 0 <= lo && hi <= |sched|
    decreases hi - lo
  {
    if hi <= lo then 0 else Given(sched, i, lo, hi - 1) + if sched[hi - 1] == i then 1 else 0
  }

  /** The schedule gives every process its burst between its arrival and its deadline. */
  ghost predicate MeetsAll(ps: seq<Process>, sched: seq<int>) {
    forall i :: 0 <= i < |ps| ==>
      && ps[i].deadline <= |sched| && 0 <= ps[i].arrival
      && Given(sched, i, ps[i].arrival, ps[i].deadline) >= ps[i].burst
  }

  ghost predicate Feasible(ps: seq<Process>) {
    exists sched :: MeetsAll(ps, sched)
  }

  lemma {:induction false} GivenFrom(sched: seq<int>, i: int, lo: int, hi: int)
    requires 0 <= lo < hi <= |sched|
    ensures Given(sched, i, lo, hi) == (if sched[lo] == i then 1 else 0) + Given(sched, i, lo + 1, hi)
    decreases hi
  {
    if lo + 1 < hi {
      GivenFrom(sched, i, lo, hi - 1);
    }
  }

  lemma {:induction false} GivenUpdate(sched: seq<int>, u: int, k: int, i: int, lo: int, hi: int)
    requires 0 <= lo && hi <= |sched| && 0 <= u < |sched|
    ensures Given(sched[u := k], i, lo, hi) == Given(sched, i, lo, hi)
              - (if lo <= u < hi && sched[u] == i then 1 else 0)
              + (if lo <= u < hi && k == i then 1 else 0)
    decreases hi - lo
  {
    if lo < hi {
      GivenUpdate(sched, u, k, i, lo, hi - 1);
    }
  }

  lemma {:induction false} GivenSlot(sched: seq<int>, i: int, lo: int, hi: int) returns (u: int)
    requires 0 <= lo && hi <= |sched| && Given(sched, i, lo, hi) > 0
    ensures lo <= u < hi && sched[u] == i
    decreases hi - lo
  {
    if sched[hi - 1] == i {
      u := hi - 1;
    } else {
      u := GivenSlot(sched, i, lo, hi - 1);
    }
  }

  /** From tick t on, the schedule still gives each process all it has left. */
  ghost predicate StillFits(ps: seq<Process>, tl: Timeline, sched: seq<int>, t: nat)
    requires t <= |tl|
  {
    forall i :: 0 <= i < |ps| ==>
      && ps[i].deadline <= |sched| && 0 <= ps[i].arrival
      && Given(sched, i, Max(t, ps[i].arrival), ps[i].deadline) >= ps[i].burst - Executed(tl, ps[i].pid, t)
  }

  /** What remains to be shown for process i after the exchange. */
  lemma ExchangeOne(ps: seq<Process>, tl: Timeline, sched: seq<int>, t: nat, j: nat, u: int, i: nat)
    requires ValidInput(ps) && i < |ps| && j < |ps| && t < |tl| && tl[t] == [ps[j].pid]
    requires EdfTick(ps, tl, t) && StillFits(ps, tl, sched, t)
    requires t <= u < ps[j].deadline && sched[u] == j && (sched[t] == j ==> u == t)
    ensures
      Given(sched[u := sched[t]], i, Max(t + 1, ps[i].arrival), ps[i].deadline)
        >= ps[i].burst - Executed(tl, ps[i].pid, t + 1)
  {
    var k := sched[t];
    var s' := sched[u := k];
    var lo, lo' := Max(t, ps[i].arrival), Max(t + 1, ps[i].arrival);
    GivenUpdate(sched, u, k, i, lo', ps[i].deadline);
    if lo == t && t < ps[i].deadline {
      GivenFrom(sched, i, t, ps[i].deadline);
    }
    assert i != j ==> ps[i].pid != ps[j].pid;
    if i == k && i != j && Ready(ps, tl, i, t) {
      assert Waits(ps, tl, i, t) && ps[j].pid in tl[t];
      assert ps[j].deadline <= ps[i].deadline;
    }
  }

  /** The exchange argument: a schedule that still fits can be rearranged to fit after an EDF tick,
      by moving into the EDF process's later slot whatever the schedule would have run now. */
  lemma Exchange(ps: seq<Process>, tl: Timeline, sched: seq<int>, t: nat) returns (sched': seq<int>)
    requires ValidInput(ps) && t < |tl| && |tl[t]| == 1 && EdfTick(ps, tl, t) && StillFits(ps, tl, sched, t)
    ensures StillFits(ps, tl, sched', t + 1)
  {
    if tl[t][0] == 0 {
      sched' := sched;
      forall i | 0 <= i < |ps|
        ensures Given(sched', i, Max(t + 1, ps[i].arrival), ps[i].deadline)
                  >= ps[i].burst - Executed(tl, ps[i].pid, t + 1)
      {
        assert 0 in tl[t] && !Waits(ps, tl, i, t);
        assert ps[i].pid !in tl[t];
      }
    } else {
      var j :| 0 <= j < |ps| && ps[j].pid == tl[t][0] && Ready(ps, tl, j, t);
      assert tl[t] == [ps[j].pid];
      assert Max(t, ps[j].arrival) == t;
      var u := GivenSlot(sched, j, t, ps[j].deadline);
      if sched[t] == j {
        u := t;
      }
      sched' := sched[u := sched[t]];
      forall i | 0 <= i < |ps|
        ensures Given(sched', i, Max(t + 1, ps[i].arrival), ps[i].deadline)
                  >= ps[i].burst - Executed(tl, ps[i].pid, t + 1)
      {
        ExchangeOne(ps, tl, sched, t, j, u, i);
      }
    }
  }

  lemma {:induction false} EdfKeepsFitting(ps: seq<Process>, tl: Timeline, sched: seq<int>, t: nat)
      returns (sched': seq<int>)
    requires ValidInput(ps) && MeetsAll(ps, sched) && IsEdf(ps, tl) && t <= |tl|
    requires forall u :: 0 <= u < |tl| ==> |tl[u]| == 1
    ensures StillFits(ps, tl, sched', t)
  {
    if t == 0 {
      sched' := sched;
    } else {
      sched' := EdfKeepsFitting(ps, tl, sched, t - 1);
      sched' := Exchange(ps, tl, sched', t - 1);
    }
  }

  /** Optimality of EDF on one CPU: if some schedule meets all deadlines, then in every EDF
      timeline a process that still has work left at any tick is before its deadline; so each
      process has run for its whole burst by its deadline. */
  lemma EdfIsOptimal(ps: seq<Process>, tl: Timeline)
    requires ValidInput(ps) && Feasible(ps) && IsEdf(ps, tl)
    requires forall u :: 0 <= u < |tl| ==> |tl[u]| == 1
    ensures forall i, t :: 0 <= i < |ps| && 0 <= t <= |tl| && Executed(tl, ps[i].pid, t) < ps[i].burst ==>
              t < ps[i].deadline
  {
    var sched :| MeetsAll(ps, sched);
    forall i, t | 0 <= i < |ps| && 0 <= t <= |tl| && Executed(tl, ps[i].pid, t) < ps[i].burst
      ensures t < ps[i].deadline
    {
      var s := EdfKeepsFitting(ps, tl, sched, t);
      var u := GivenSlot(s, i, Max(t, ps[i].arrival), ps[i].deadline);
    }
  }

  // ----- The converse -----

  /** The index of the process that a one-CPU timeline runs in tick t, or -1. */
  ghost function RunsAt(ps: seq<Process>, tl: Timeline, t: nat): (i: int)
    requires t < |tl|
  {
    if exists j :: 0 <= j < |ps| && ps[j].pid in tl[t]
    then var j :| 0 <= j < |ps| && ps[j].pid in tl[t]; j else -1
  }

  lemma {:induction false} ScheduleOfTimeline(ps: seq<Process>, tl: Timeline, sched: seq<int>, i: nat, t: nat)
    requires ValidInput(ps) && IsEdf(ps, tl) && i < |ps| && t <= |tl| <= |sched|
    requires forall u :: 0 <= u < |tl| ==> |tl[u]| == 1 && sched[u] == RunsAt(ps, tl, u)
    ensures Given(sched, i, ps[i].arrival, t) == Executed(tl, ps[i].pid, t)
  {
    if t > 0 {
      ScheduleOfTimeline(ps, tl, sched, i, t - 1);
      var u := t - 1;
      assert EdfTick(ps, tl, u);
      if ps[i].pid in tl[u] {
        assert tl[u][0] == ps[i].pid;
        assert sched[u] == i;
        var j :| 0 <= j < |ps| && ps[j].pid == tl[u][0] && Ready(ps, tl, j, u);
        assert i == j;
      } else {
        assert sched[u] != i;
      }
    }
  }

  lemma {:induction false} GivenGrows(sched: seq<int>, i: int, lo: int, mid: int, hi: int)
    requires 0 <= lo && mid <= hi <= |sched|
    ensures Given(sched, i, lo, mid) <= Given(sched, i, lo, hi)
    decreases hi
  {
    if mid < hi && lo < hi {
      GivenGrows(sched, i, lo, mid, hi - 1);
    }
  }

  /** An EDF timeline on one CPU that gives every process its burst by its deadline is itself a
      schedule that meets all deadlines. */
  lemma EdfWitness(ps: seq<Process>, tl: Timeline)
    requires ValidInput(ps) && IsEdf(ps, tl)
    requires forall u :: 0 <= u < |tl| ==> |tl[u]| == 1
    requires forall i :: 0 <= i < |ps| ==> Executed(tl, ps[i].pid, Min(|tl|, ps[i].deadline)) >= ps[i].burst
    ensures Feasible(ps)
  {
    var sched := seq(|tl| + 999999, t requires 0 <= t => if t < |tl| then RunsAt(ps, tl, t) else -1);
    forall i | 0 <= i < |ps|
      ensures Given(sched, i, ps[i].arrival, ps[i].deadline) >= ps[i].burst
    {
      ScheduleOfTimeline(ps, tl, sched, i, Min(|tl|, ps[i].deadline));
      GivenGrows(sched, i, ps[i].arrival, Min(|tl|, ps[i].deadline), ps[i].deadline);
    }
    assert MeetsAll(ps, sched);
  }
}
