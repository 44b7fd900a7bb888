/** run_edf as a whole: what its timeline, metrics and verdict mean. */
module EdfRun {
  import opened Basics
  import opened Params
  import opened Sets
  import opened EdfTheory
  import opened Edf
  import opened EdfSim

  lemma {:induction false} ExecutedGrows(tl: Timeline, pid: int, t: nat, u: nat)
    requires t <= u <= |tl|
    ensures Executed(tl, pid, t) <= Executed(tl, pid, u)
    decreases u
  {
    if t < u {
      ExecutedGrows(tl, pid, t, u - 1);
    }
  }

  /** The first tick by whose start pid has run `burst` times, searched downwards from t. */
  ghost function FinishTime(tl: Timeline, pid: int, burst: int, t: nat): (f: nat)
    requires t <= |tl| && Executed(tl, pid, t) >= burst
    ensures f <= t && Executed(tl, pid, f) >= burst
    ensures f > 0 ==> Executed(tl, pid, f - 1) < burst
  {
    if t == 0 || Executed(tl, pid, t - 1) < burst then t else FinishTime(tl, pid, burst, t - 1)
  }

  lemma FinishTimeUnique(tl: Timeline, pid: int, burst: int, t: nat, f: nat)
    requires t <= |tl| && Executed(tl, pid, t) >= burst
    requires 0 < f <= |tl| && Executed(tl, pid, f) >= burst && Executed(tl, pid, f - 1) < burst
    ensures FinishTime(tl, pid, burst, t) == f
  {
    var g := FinishTime(tl, pid, burst, t);
    if f < g {
      ExecutedGrows(tl, pid, f, g - 1);
    } else if g < f {
      ExecutedGrows(tl, pid, g, f - 1);
    }
  }

  /** The run has seen process i finish: the last tick began with nothing of it left. */
  ghost predicate SeenDone(ps: seq<Process>, tl: Timeline, i: nat)
    requires i < |ps|
  {
    |tl| > 0 && Executed(tl, ps[i].pid, |tl| - 1) >= ps[i].burst
  }

  ghost function DoneSet(ps: seq<Process>, tl: Timeline): (s: set<nat>) {
    set i | i in Indices(|ps|) && SeenDone(ps, tl, i)
  }

  /** The processes whose recorded completion, I/O wait included, is past their deadline. */
  ghost function MissSet(ps: seq<Process>, tl: Timeline): (s: set<nat>) {
    set i | i in DoneSet(ps, tl)
            && FinishTime(tl, ps[i].pid, ps[i].burst, |tl| - 1) + ps[i].ioWait > ps[i].deadline
  }

  /** What run_edf's results are, in terms of its timeline alone. */
  ghost predicate Outcome(ps: seq<Process>, cpus: nat, tl: Timeline, metrics: seq<Metrics>, completed: nat, misses: nat) {
    && IsEdf(ps, tl) && (forall t :: 0 <= t < |tl| ==> |tl[t]| == cpus)
    && |tl| <= MAX_TIME && (completed == |ps| || |tl| == MAX_TIME)
    && completed == |DoneSet(ps, tl)| && misses == |MissSet(ps, tl)|
    && |metrics| == |ps|
    && (forall i :: i in DoneSet(ps, tl) ==>
          MetricsOf(ps[i], FinishTime(tl, ps[i].pid, ps[i].burst, |tl| - 1), metrics[i]))
  }

  lemma DoneIsSeen(ps: seq<Process>, tl: Timeline, hist: History, done: set<nat>)
    requires HistoryOf(ps, tl, hist)
    requires forall i :: i in done ==> i < |ps|
    requires forall i :: 0 <= i < |ps| ==> (i in done <==> |tl| > 0 && hist[|tl| - 1][i] == 0)
    ensures done == DoneSet(ps, tl)
  {
    forall i | 0 <= i < |ps|
      ensures i in done <==> SeenDone(ps, tl, i)
    {
      if |tl| > 0 {
        assert hist[|tl| - 1][i] == ps[i].burst - Executed(tl, ps[i].pid, |tl| - 1);
      }
    }
  }

  lemma FinishMatches(ps: seq<Process>, tl: Timeline, hist: History, done: set<nat>, finish: seq<nat>, i: nat)
    requires HistoryOf(ps, tl, hist) && |finish| == |ps| && Finished(hist, done, finish)
    requires i in done && i < |ps| && SeenDone(ps, tl, i)
    ensures finish[i] == FinishTime(tl, ps[i].pid, ps[i].burst, |tl| - 1)
  {
    hide Executed, FinishTime;
    var f := finish[i];
    assert hist[f][i] == ps[i].burst - Executed(tl, ps[i].pid, f);
    assert hist[f - 1][i] == ps[i].burst - Executed(tl, ps[i].pid, f - 1);
    FinishTimeUnique(tl, ps[i].pid, ps[i].burst, |tl| - 1, f);
  }

  lemma DoneMatches(ps: seq<Process>, tl: Timeline, hist: History, done: set<nat>, finish: seq<nat>, metrics: seq<Metrics>)
    requires HistoryOf(ps, tl, hist) && |finish| == |metrics| == |ps| && Finished(hist, done, finish)
    requires forall i :: i in done ==> i < |ps| && MetricsOf(ps[i], finish[i], metrics[i])
    requires forall i :: 0 <= i < |ps| ==> (i in done <==> |tl| > 0 && hist[|tl| - 1][i] == 0)
    ensures done == DoneSet(ps, tl) && Late(done, metrics) == MissSet(ps, tl)
    ensures forall i :: i in done ==> finish[i] == FinishTime(tl, ps[i].pid, ps[i].burst, |tl| - 1)
  {
    DoneIsSeen(ps, tl, hist, done);
    hide HistoryOf, Finished, Executed, FinishTime;
    forall i | i in done
      ensures finish[i] == FinishTime(tl, ps[i].pid, ps[i].burst, |tl| - 1)
    {
      FinishMatches(ps, tl, hist, done, finish, i);
    }
    assert Late(done, metrics) == MissSet(ps, tl);
  }

  method RunEdf(ps: seq<Process>, cpus: nat)
      returns (tl: Timeline, metrics: seq<Metrics>, completed: nat, misses: nat)
    requires ValidInput(ps)
    ensures Outcome(ps, cpus, tl, metrics, completed, misses)
  {
    var sim := new Simulator(ps, cpus);
    sim.Run();
    tl, metrics, completed, misses := sim.timeline, sim.metrics, sim.completed, sim.misses;
    DoneMatches(ps, tl, sim.hist, sim.done, sim.finish, metrics);
  }

  /** The setting in which EDF is claimed optimal: one CPU, no I/O wait, deadlines inside the run. */
  ghost predicate SingleCpuSetting(ps: seq<Process>, cpus: nat) {
    cpus == 1 && forall i :: 0 <= i < |ps| ==> ps[i].ioWait == 0 && ps[i].deadline < MAX_TIME
  }

  lemma AllDoneInTime(ps: seq<Process>, tl: Timeline)
    requires ValidInput(ps) && SingleCpuSetting(ps, 1) && IsEdf(ps, tl) && Feasible(ps) && |tl| == MAX_TIME
    requires forall t :: 0 <= t < |tl| ==> |tl[t]| == 1
    ensures DoneSet(ps, tl) == Indices(|ps|)
  {
    EdfIsOptimal(ps, tl);
    forall i | 0 <= i < |ps| ensures i in DoneSet(ps, tl) {
      assert !(Executed(tl, ps[i].pid, MAX_TIME - 1) < ps[i].burst);
    }
  }

  lemma NoneLate(ps: seq<Process>, tl: Timeline)
    requires ValidInput(ps) && (forall i :: 0 <= i < |ps| ==> ps[i].ioWait == 0) && IsEdf(ps, tl) && Feasible(ps)
    requires forall t :: 0 <= t < |tl| ==> |tl[t]| == 1
    ensures MissSet(ps, tl) == {}
  {
    EdfIsOptimal(ps, tl);
    forall i | i in DoneSet(ps, tl)
      ensures FinishTime(tl, ps[i].pid, ps[i].burst, |tl| - 1) <= ps[i].deadline
    {
      var f := FinishTime(tl, ps[i].pid, ps[i].burst, |tl| - 1);
      assert f > 0 ==> Executed(tl, ps[i].pid, f - 1) < ps[i].burst;
    }
  }

  lemma FeasibleMeansNoMiss(ps: seq<Process>, tl: Timeline, metrics: seq<Metrics>, completed: nat, misses: nat)
    requires ValidInput(ps) && SingleCpuSetting(ps, 1) && Outcome(ps, 1, tl, metrics, completed, misses)
    requires Feasible(ps)
    ensures completed == |ps| && misses == 0
  {
    if |tl| == MAX_TIME {
      AllDoneInTime(ps, tl);
    }
    NoneLate(ps, tl);
  }

  lemma MetInTime(ps: seq<Process>, tl: Timeline, i: nat)
    requires i < |ps| && ps[i].ioWait >= 0 && ps[i].deadline >= 0 && i in DoneSet(ps, tl) && i !in MissSet(ps, tl)
    ensures Executed(tl, ps[i].pid, Min(|tl|, ps[i].deadline)) >= ps[i].burst
  {
    hide Executed, FinishTime;
    var f := FinishTime(tl, ps[i].pid, ps[i].burst, |tl| - 1);
    ExecutedGrows(tl, ps[i].pid, f, Min(|tl|, ps[i].deadline));
  }

  lemma NoMissMeansFeasible(ps: seq<Process>, tl: Timeline, metrics: seq<Metrics>, completed: nat, misses: nat)
    requires ValidInput(ps) && SingleCpuSetting(ps, 1) && Outcome(ps, 1, tl, metrics, completed, misses)
    requires completed == |ps| && misses == 0
    ensures Feasible(ps)
  {
    FullSet(DoneSet(ps, tl), |ps|);
    hide Executed, FinishTime, IsEdf;
    forall i | 0 <= i < |ps|
      ensures Executed(tl, ps[i].pid, Min(|tl|, ps[i].deadline)) >= ps[i].burst
    {
      MetInTime(ps, tl, i);
    }
    EdfWitness(ps, tl);
  }

  /** EDF decides schedulability on one CPU: the run completes every process without a miss if
      and only if some schedule meets all deadlines. */
  lemma EdfDecidesFeasibility(ps: seq<Process>, cpus: nat, tl: Timeline, metrics: seq<Metrics>,
                              completed: nat, misses: nat)
    requires ValidInput(ps) && SingleCpuSetting(ps, cpus) && Outcome(ps, cpus, tl, metrics, completed, misses)
    ensures completed == |ps| && misses == 0 <==> Feasible(ps)
  {
    if Feasible(ps) {
      FeasibleMeansNoMiss(ps, tl, metrics, completed, misses);
    }
    if completed == |ps| && misses == 0 {
      NoMissMeansFeasible(ps, tl, metrics, completed, misses);
    }
  }
}
