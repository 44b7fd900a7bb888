/** When run_edf's printed verdict, which looks at the miss count alone, can be trusted. On one CPU the
    work left of the processes with deadline at most d is decided by their arrivals and bursts; it
    decides which deadlines can be met, and which misses the run counts.
 */
module EdfVerdict {
  import opened Basics
  import opened Params
  import opened Sets
  import opened EdfTheory
  import opened EdfSim
  import opened EdfRun
  import opened Edf

  /** Above every deadline. */
  const ALL: int := 999999

  /** Work with deadline at most d that arrives at t, among the first n processes. */
  function Arriving(ps: seq<Process>, d: int, t: int, n: nat): (w: int)
    requires n <= |ps|
  {
    if n == 0 then 0
    else Arriving(ps, d, t, n - 1)
         + (if ps[n - 1].arrival == t && ps[n - 1].deadline <= d then ps[n - 1].burst else 0)
  }

  /** What is left at t of the work with deadline at most d that arrived before t, on a CPU that serves
      it first and never idles while there is any. */
  function Backlog(ps: seq<Process>, d: int, t: nat): (w: int) {
    if t == 0 then 0
    else
      var w := Backlog(ps, d, t - 1) + Arriving(ps, d, t - 1, |ps|);
      if w > 0 then w - 1 else 0
  }

  /** Everything can be finished by the last tick at which the run looks. */
  predicate Drains(ps: seq<Process>) {
    (forall i | 0 <= i < |ps| :: ps[i].arrival < MAX_TIME - 1) && Backlog(ps, ALL, MAX_TIME - 1) == 0
  }

  /** At its deadline nothing as urgent as process i is left. */
  predicate Meets(ps: seq<Process>, i: nat)
    requires i < |ps|
  {
    0 <= ps[i].arrival < ps[i].deadline && Backlog(ps, ps[i].deadline, ps[i].deadline) == 0
  }

  predicate AllMeet(ps: seq<Process>) {
    forall i: nat | i < |ps| :: Meets(ps, i)
  }

  /** t is the first time after the arrival of i at which nothing as urgent as i is left. */
  predicate ClearsAt(ps: seq<Process>, i: nat, t: nat)
    requires i < |ps|
  {
    && ps[i].arrival < t && Backlog(ps, ps[i].deadline, t) == 0
    && forall v: nat | v < t && ps[i].arrival < v :: Backlog(ps, ps[i].deadline, v) > 0
  }

  /** That time is too late, and the run still sees it. */
  ghost predicate CountedLate(ps: seq<Process>, i: nat)
    requires i < |ps|
  {
    exists t: nat :: t < MAX_TIME && ps[i].deadline < t + ps[i].ioWait && ClearsAt(ps, i, t)
  }

  ghost predicate SomeLate(ps: seq<Process>) {
    exists i: nat | i < |ps| :: CountedLate(ps, i)
  }

  predicate Unique(ps: seq<Process>, i: nat)
    requires i < |ps|
  {
    forall j: nat | j < |ps| && j != i :: ps[j].deadline != ps[i].deadline
  }

  /** Processes with equal deadlines are all done at some time that the run sees. */
  ghost predicate TiesSettled(ps: seq<Process>) {
    forall i: nat | i < |ps| ::
      Unique(ps, i) || exists t: nat :: ps[i].arrival < t < MAX_TIME && Backlog(ps, ps[i].deadline, t) == 0
  }

  ghost predicate NoIoWait(ps: seq<Process>) {
    forall i :: 0 <= i < |ps| ==> ps[i].ioWait == 0
  }

  // --- the backlog of an EDF timeline ---

  /** What the timeline has left at t of the first n processes with deadline at most d that arrived
      before upTo. */
  function LeftOf(ps: seq<Process>, tl: Timeline, d: int, t: nat, upTo: int, n: nat): (w: int)
    requires t <= |tl| && n <= |ps|
  {
    if n == 0 then 0
    else LeftOf(ps, tl, d, t, upTo, n - 1)
         + (if ps[n - 1].arrival < upTo && ps[n - 1].deadline <= d
            then ps[n - 1].burst - Executed(tl, ps[n - 1].pid, t) else 0)
  }

  ghost predicate OneCpu(ps: seq<Process>, tl: Timeline) {
    IsEdf(ps, tl) && forall t | 0 <= t < |tl| :: |tl[t]| == 1
  }

  /** Nobody runs before arriving, or for longer than its burst. */
  lemma {:induction false} RunsInBounds(ps: seq<Process>, tl: Timeline, i: nat, t: nat)
    requires ValidInput(ps) && OneCpu(ps, tl) && i < |ps| && t <= |tl|
    ensures Executed(tl, ps[i].pid, t) <= ps[i].burst && (t <= ps[i].arrival ==> Executed(tl, ps[i].pid, t) == 0)
    decreases t
  {
    if t > 0 {
      RunsInBounds(ps, tl, i, t - 1);
      RunnerReady(ps, tl, i, t - 1);
    }
  }

  lemma RunnerReady(ps: seq<Process>, tl: Timeline, i: nat, t: nat)
    requires ValidInput(ps) && OneCpu(ps, tl) && i < |ps| && t < |tl|
    ensures ps[i].pid in tl[t] ==> Ready(ps, tl, i, t) && tl[t][0] == ps[i].pid
  {
    assert EdfTick(ps, tl, t);
    if ps[i].pid in tl[t] {
      var j :| 0 <= j < |ps| && ps[j].pid == tl[t][0] && Ready(ps, tl, j, t);
    }
  }

  /** Arrivals at t come with their whole burst. */
  lemma {:induction false} LeftGains(ps: seq<Process>, tl: Timeline, d: int, t: nat, n: nat)
    requires ValidInput(ps) && OneCpu(ps, tl) && t <= |tl| && n <= |ps|
    ensures LeftOf(ps, tl, d, t, t + 1, n) == LeftOf(ps, tl, d, t, t, n) + Arriving(ps, d, t, n)
    decreases n
  {
    if n > 0 {
      LeftGains(ps, tl, d, t, n - 1);
      RunsInBounds(ps, tl, n - 1, t);
    }
  }

  /** Tick t runs one of the first n processes, with deadline at most d. */
  ghost predicate Serves(ps: seq<Process>, tl: Timeline, d: int, t: nat, n: nat)
    requires t < |tl| && n <= |ps|
  {
    exists i: nat | i < n :: ps[i].pid in tl[t] && ps[i].deadline <= d
  }

  /** The tick takes one unit off the process that runs, if any. */
  lemma {:induction false} LeftLoses(ps: seq<Process>, tl: Timeline, d: int, t: nat, n: nat)
    requires ValidInput(ps) && OneCpu(ps, tl) && t < |tl| && n <= |ps|
    ensures LeftOf(ps, tl, d, t + 1, t + 1, n)
         == LeftOf(ps, tl, d, t, t + 1, n) - (if Serves(ps, tl, d, t, n) then 1 else 0)
    decreases n
  {
    if n > 0 {
      LeftLoses(ps, tl, d, t, n - 1);
      RunnerReady(ps, tl, n - 1, t);
      if ps[n - 1].pid in tl[t] {
        forall i: nat | i < n - 1
          ensures ps[i].pid !in tl[t]
        {
          RunnerReady(ps, tl, i, t);
        }
      }
    }
  }

  lemma {:induction false} LeftCounts(ps: seq<Process>, tl: Timeline, d: int, t: nat, upTo: int, n: nat)
    requires ValidInput(ps) && OneCpu(ps, tl) && t <= |tl| && n <= |ps|
    ensures LeftOf(ps, tl, d, t, upTo, n) >= 0
    ensures LeftOf(ps, tl, d, t, upTo, n) == 0 <==>
              forall i: nat | i < n && ps[i].arrival < upTo && ps[i].deadline <= d ::
                Executed(tl, ps[i].pid, t) >= ps[i].burst
    decreases n
  {
    if n > 0 {
      LeftCounts(ps, tl, d, t, upTo, n - 1);
      RunsInBounds(ps, tl, n - 1, t);
    }
  }

  /** Whoever runs is at least as urgent as whoever is ready. */
  lemma UrgentFirst(ps: seq<Process>, tl: Timeline, i: nat, t: nat) returns (j: nat)
    requires ValidInput(ps) && OneCpu(ps, tl) && t < |tl| && i < |ps| && Ready(ps, tl, i, t)
    ensures j < |ps| && ps[j].pid in tl[t] && ps[j].deadline <= ps[i].deadline
  {
    assert EdfTick(ps, tl, t);
    if ps[i].pid in tl[t] {
      j := i;
    } else {
      assert Waits(ps, tl, i, t);
      assert tl[t][0] in tl[t] && tl[t][0] != 0;
      var k :| 0 <= k < |ps| && ps[k].pid == tl[t][0] && Ready(ps, tl, k, t);
      j := k;
    }
  }

  /** The CPU serves the work with deadline at most d exactly when some of it is left. */
  lemma BusyWhenLeft(ps: seq<Process>, tl: Timeline, d: int, t: nat)
    requires ValidInput(ps) && OneCpu(ps, tl) && t < |tl|
    ensures Serves(ps, tl, d, t, |ps|) <==> LeftOf(ps, tl, d, t, t + 1, |ps|) > 0
  {
    LeftCounts(ps, tl, d, t, t + 1, |ps|);
    if Serves(ps, tl, d, t, |ps|) {
      var i: nat :| i < |ps| && ps[i].pid in tl[t] && ps[i].deadline <= d;
      RunnerReady(ps, tl, i, t);
    }
    if LeftOf(ps, tl, d, t, t + 1, |ps|) > 0 {
      var i: nat :| i < |ps| && ps[i].arrival < t + 1 && ps[i].deadline <= d && Executed(tl, ps[i].pid, t) < ps[i].burst;
      var j := UrgentFirst(ps, tl, i, t);
    }
  }

  lemma {:induction false} BacklogIsLeft(ps: seq<Process>, tl: Timeline, d: int, t: nat)
    requires ValidInput(ps) && OneCpu(ps, tl) && t <= |tl|
    ensures Backlog(ps, d, t) == LeftOf(ps, tl, d, t, t, |ps|)
    decreases t
  {
    LeftCounts(ps, tl, d, t, t, |ps|);
    if t == 0 {
      NothingYet(ps, tl, d, |ps|);
    } else {
      BacklogIsLeft(ps, tl, d, t - 1);
      LeftGains(ps, tl, d, t - 1, |ps|);
      LeftLoses(ps, tl, d, t - 1, |ps|);
      BusyWhenLeft(ps, tl, d, t - 1);
      LeftCounts(ps, tl, d, t - 1, t, |ps|);
    }
  }

  lemma {:induction false} NothingYet(ps: seq<Process>, tl: Timeline, d: int, n: nat)
    requires ValidInput(ps) && n <= |ps|
    ensures LeftOf(ps, tl, d, 0, 0, n) == 0
    decreases n
  {
    if n > 0 {
      NothingYet(ps, tl, d, n - 1);
    }
  }

  /** No backlog with deadline at most d means: whoever of those has arrived is done. */
  lemma ClearMeansDone(ps: seq<Process>, tl: Timeline, d: int, t: nat)
    requires ValidInput(ps) && OneCpu(ps, tl) && t <= |tl|
    ensures Backlog(ps, d, t) >= 0
    ensures Backlog(ps, d, t) == 0 <==>
              forall i: nat | i < |ps| && ps[i].arrival < t && ps[i].deadline <= d ::
                Executed(tl, ps[i].pid, t) >= ps[i].burst
  {
    BacklogIsLeft(ps, tl, d, t);
    LeftCounts(ps, tl, d, t, t, |ps|);
  }

  lemma {:induction false} NoMoreArrivals(ps: seq<Process>, d: int, t: int, n: nat)
    requires n <= |ps| && forall i | 0 <= i < n :: ps[i].arrival < t
    ensures Arriving(ps, d, t, n) == 0
    decreases n
  {
    if n > 0 {
      NoMoreArrivals(ps, d, t, n - 1);
    }
  }

  lemma {:induction false} BacklogStays(ps: seq<Process>, d: int, t: nat, u: nat)
    requires t <= u && Backlog(ps, d, t) == 0 && forall i | 0 <= i < |ps| :: ps[i].arrival < t
    ensures Backlog(ps, d, u) == 0
    decreases u
  {
    if t < u {
      BacklogStays(ps, d, t, u - 1);
      NoMoreArrivals(ps, d, u - 1, |ps|);
    }
  }

  // --- which inputs have a schedule ---

  /** The most urgent of the ready processes below n, -1 if none is ready. */
  function MostUrgent(ps: seq<Process>, tl: Timeline, n: nat): (k: int)
    requires n <= |ps|
    ensures -1 <= k < n
    ensures k == -1 ==> forall i: nat | i < n :: !Ready(ps, tl, i, |tl|)
    ensures k != -1 ==> Ready(ps, tl, k, |tl|)
    ensures k != -1 ==> forall i: nat | i < n && Ready(ps, tl, i, |tl|) :: ps[k].deadline <= ps[i].deadline
  {
    if n == 0 then -1
    else
      var k := MostUrgent(ps, tl, n - 1);
      if Ready(ps, tl, n - 1, |tl|) && (k == -1 || ps[n - 1].deadline < ps[k].deadline) then n - 1 else k
  }

  lemma TickNext(ps: seq<Process>, tl: Timeline)
    requires ValidInput(ps)
    ensures var k := MostUrgent(ps, tl, |ps|);
            EdfTick(ps, tl + [[if k == -1 then 0 else ps[k].pid]], |tl|)
  {
    var k := MostUrgent(ps, tl, |ps|);
    var row := [if k == -1 then 0 else ps[k].pid];
    forall i: nat | i < |ps|
      ensures Ready(ps, tl + [row], i, |tl|) == Ready(ps, tl, i, |tl|)
    {
      ExecutedPrefix(tl, row, ps[i].pid, |tl|);
    }
    var tl' := tl + [row];
    hide Executed, Ready;
    assert tl'[|tl|] == row && |row| == 1;
    forall j: nat | j < |ps| && Waits(ps, tl', j, |tl|)
      ensures k != -1 && ps[k].deadline <= ps[j].deadline
    {
      assert Ready(ps, tl, j, |tl|);
    }
    assert forall i: nat | i < |ps| && ps[i].pid in row :: i == k;
  }

  /** There is an EDF timeline of any length. */
  lemma {:induction false} SomeTimeline(ps: seq<Process>, n: nat) returns (tl: Timeline)
    requires ValidInput(ps)
    ensures |tl| == n && OneCpu(ps, tl)
    decreases n
  {
    if n == 0 {
      tl := [];
    } else {
      var tl0 := SomeTimeline(ps, n - 1);
      var k := MostUrgent(ps, tl0, |ps|);
      var row := [if k == -1 then 0 else ps[k].pid];
      TickNext(ps, tl0);
      tl := tl0 + [row];
      EdfExtends(ps, tl0, row);
    }
  }

  /** Some schedule meets all deadlines exactly if at every deadline nothing that urgent is left. */
  lemma FeasibleExactly(ps: seq<Process>)
    requires ValidInput(ps)
    ensures Feasible(ps) <==> AllMeet(ps)
  {
    hide EdfTick, Executed, Backlog;
    var tl := SomeTimeline(ps, ALL);
    if Feasible(ps) {
      EdfIsOptimal(ps, tl);
      forall i: nat | i < |ps|
        ensures Meets(ps, i)
      {
        ClearMeansDone(ps, tl, ps[i].deadline, ps[i].deadline);
        RunsInBounds(ps, tl, i, ps[i].deadline);
      }
    }
    if AllMeet(ps) {
      forall i: nat | i < |ps|
        ensures Executed(tl, ps[i].pid, Min(|tl|, ps[i].deadline)) >= ps[i].burst
      {
        assert Meets(ps, i);
        ClearMeansDone(ps, tl, ps[i].deadline, ps[i].deadline);
      }
      EdfWitness(ps, tl);
    }
  }

  // --- when a process finishes ---

  /** Process i finishes in tick t - 1. */
  ghost predicate EndsAt(ps: seq<Process>, tl: Timeline, i: nat, t: nat)
    requires i < |ps|
  {
    0 < t <= |tl| && Executed(tl, ps[i].pid, t - 1) < ps[i].burst <= Executed(tl, ps[i].pid, t)
  }

  /** Until it finishes there is backlog as urgent as i. */
  lemma BacklogBefore(ps: seq<Process>, tl: Timeline, i: nat, t: nat, v: nat)
    requires ValidInput(ps) && OneCpu(ps, tl) && i < |ps| && EndsAt(ps, tl, i, t) && ps[i].arrival < v < t
    ensures Backlog(ps, ps[i].deadline, v) > 0
  {
    ClearMeansDone(ps, tl, ps[i].deadline, v);
    ExecutedGrows(tl, ps[i].pid, v, t - 1);
  }

  /** Only processes with the same deadline can be left when i finishes. */
  lemma LeftAtEnd(ps: seq<Process>, tl: Timeline, i: nat, t: nat, j: nat)
    requires ValidInput(ps) && OneCpu(ps, tl) && i < |ps| && EndsAt(ps, tl, i, t)
    requires j < |ps| && ps[j].arrival < t && Executed(tl, ps[j].pid, t) < ps[j].burst
    ensures ps[i].deadline <= ps[j].deadline && j != i
  {
    assert EdfTick(ps, tl, t - 1);
    RunnerReady(ps, tl, i, t - 1);
    RunnerReady(ps, tl, j, t - 1);
    assert ps[j].pid !in tl[t - 1] ==> Waits(ps, tl, j, t - 1);
  }

  /** A process with a deadline of its own finishes at the first time after its arrival at which
      nothing as urgent is left. */
  lemma FinishExactly(ps: seq<Process>, tl: Timeline, i: nat, t: nat)
    requires ValidInput(ps) && OneCpu(ps, tl) && i < |ps| && Unique(ps, i) && EndsAt(ps, tl, i, t)
    ensures ClearsAt(ps, i, t)
  {
    hide Backlog, EdfTick;
    RunsInBounds(ps, tl, i, t);
    ClearMeansDone(ps, tl, ps[i].deadline, t);
    forall j: nat | j < |ps| && ps[j].arrival < t && ps[j].deadline <= ps[i].deadline
      ensures Executed(tl, ps[j].pid, t) >= ps[j].burst
    {
      if Executed(tl, ps[j].pid, t) < ps[j].burst {
        LeftAtEnd(ps, tl, i, t, j);
        assert false;
      }
    }
    forall v: nat | v < t && ps[i].arrival < v
      ensures Backlog(ps, ps[i].deadline, v) > 0
    {
      BacklogBefore(ps, tl, i, t, v);
    }
  }

  /** As long as there is backlog as urgent as i, somebody with its deadline is ready. */
  lemma {:induction false} ClassReady(ps: seq<Process>, tl: Timeline, i: nat, t: nat) returns (k: nat)
    requires ValidInput(ps) && OneCpu(ps, tl) && i < |ps| && ps[i].arrival <= t <= |tl|
    requires forall v: nat | v <= t && ps[i].arrival < v :: Backlog(ps, ps[i].deadline, v) > 0
    ensures k < |ps| && ps[k].deadline == ps[i].deadline && Ready(ps, tl, k, t)
    decreases t
  {
    hide Backlog, EdfTick;
    if t == ps[i].arrival {
      k := i;
      RunsInBounds(ps, tl, i, t);
    } else {
      k := ClassReady(ps, tl, i, t - 1);
      if Executed(tl, ps[k].pid, t) >= ps[k].burst {
        ClearMeansDone(ps, tl, ps[i].deadline, t);
        var j: nat :| j < |ps| && ps[j].arrival < t && ps[j].deadline <= ps[i].deadline && Executed(tl, ps[j].pid, t) < ps[j].burst;
        LeftAtEnd(ps, tl, k, t, j);
        k := j;
      }
    }
  }

  /** The backlog as urgent as i ends with a process that has its deadline. */
  lemma ClassEnds(ps: seq<Process>, tl: Timeline, i: nat, t: nat) returns (k: nat)
    requires ValidInput(ps) && OneCpu(ps, tl) && i < |ps| && t <= |tl| && ClearsAt(ps, i, t)
    ensures k < |ps| && ps[k].deadline == ps[i].deadline && EndsAt(ps, tl, k, t)
  {
    hide Backlog, EdfTick;
    k := ClassReady(ps, tl, i, t - 1);
    ClearMeansDone(ps, tl, ps[i].deadline, t);
  }

  // --- which misses are counted ---

  /** All processes seen to be done by the end of the run means: arrived, and no backlog. */
  lemma DoneMeansDrained(ps: seq<Process>, tl: Timeline)
    requires ValidInput(ps) && OneCpu(ps, tl) && |tl| > 0
    ensures DoneSet(ps, tl) == Indices(|ps|) <==>
              (forall i | 0 <= i < |ps| :: ps[i].arrival < |tl| - 1) && Backlog(ps, ALL, |tl| - 1) == 0
  {
    hide Backlog, EdfTick;
    var t := |tl| - 1;
    ClearMeansDone(ps, tl, ALL, t);
    forall i: nat | i < |ps|
      ensures Executed(tl, ps[i].pid, t) >= ps[i].burst ==> ps[i].arrival < t
    {
      RunsInBounds(ps, tl, i, t);
    }
    if DoneSet(ps, tl) == Indices(|ps|) {
      forall i: nat | i < |ps|
        ensures Executed(tl, ps[i].pid, t) >= ps[i].burst
      {
        assert i in DoneSet(ps, tl);
      }
    }
    if (forall i | 0 <= i < |ps| :: ps[i].arrival < t) && Backlog(ps, ALL, t) == 0 {
      forall i: nat | i < |ps|
        ensures i in DoneSet(ps, tl)
      {
        assert SeenDone(ps, tl, i);
      }
    }
  }

  /** The run completes every process exactly when the input drains in time. */
  lemma CompletesExactly(ps: seq<Process>, tl: Timeline, metrics: seq<Metrics>, completed: nat, misses: nat)
    requires ValidInput(ps) && Outcome(ps, 1, tl, metrics, completed, misses)
    ensures completed == |ps| <==> Drains(ps)
  {
    hide EdfTick, Executed;
    if |ps| == 0 {
      BacklogStays(ps, ALL, 0, MAX_TIME - 1);
    } else if |tl| > 0 {
      DoneMeansDrained(ps, tl);
      if completed == |ps| {
        FullSet(DoneSet(ps, tl), |ps|);
        BacklogStays(ps, ALL, |tl| - 1, MAX_TIME - 1);
      }
    }
  }

  /** The run lasts until every backlog that clears before MAX_TIME has cleared. */
  lemma ClearsInRun(ps: seq<Process>, tl: Timeline, metrics: seq<Metrics>, completed: nat, misses: nat, i: nat, t: nat)
    requires ValidInput(ps) && Outcome(ps, 1, tl, metrics, completed, misses)
    requires i < |ps| && ClearsAt(ps, i, t) && t < MAX_TIME
    ensures t < |tl|
  {
    hide EdfTick, Executed, Backlog, FinishTime;
    if |tl| < MAX_TIME {
      FullSet(DoneSet(ps, tl), |ps|);
      assert i in DoneSet(ps, tl);
      var u := |tl| - 1;
      RunsInBounds(ps, tl, i, u);
      ClearMeansDone(ps, tl, ps[i].deadline, u);
      forall j: nat | j < |ps|
        ensures Executed(tl, ps[j].pid, u) >= ps[j].burst
      {
        assert j in DoneSet(ps, tl);
      }
      assert Backlog(ps, ps[i].deadline, u) == 0;
    }
  }

  /** A process that ends while the run looks is recorded with that time. */
  lemma EndIsRecorded(ps: seq<Process>, tl: Timeline, k: nat, t: nat)
    requires k < |ps| && EndsAt(ps, tl, k, t) && t < |tl|
    ensures k in DoneSet(ps, tl) && FinishTime(tl, ps[k].pid, ps[k].burst, |tl| - 1) == t
  {
    ExecutedGrows(tl, ps[k].pid, t, |tl| - 1);
    FinishTimeUnique(tl, ps[k].pid, ps[k].burst, |tl| - 1, t);
  }

  lemma RecordedEnds(ps: seq<Process>, tl: Timeline, k: nat)
    requires ValidInput(ps) && k < |ps| && k in DoneSet(ps, tl)
    ensures EndsAt(ps, tl, k, FinishTime(tl, ps[k].pid, ps[k].burst, |tl| - 1))
  {
  }

  /** A process with a deadline of its own is a counted miss exactly if the input says so. */
  lemma MissExactly(ps: seq<Process>, tl: Timeline, metrics: seq<Metrics>, completed: nat, misses: nat, i: nat)
    requires ValidInput(ps) && Outcome(ps, 1, tl, metrics, completed, misses) && i < |ps| && Unique(ps, i)
    ensures i in MissSet(ps, tl) <==> CountedLate(ps, i)
  {
    hide EdfTick, Executed, Backlog, FinishTime, ClearsAt, EndsAt;
    if i in MissSet(ps, tl) {
      var t := FinishTime(tl, ps[i].pid, ps[i].burst, |tl| - 1);
      RecordedEnds(ps, tl, i);
      FinishExactly(ps, tl, i, t);
      assert t < MAX_TIME && ClearsAt(ps, i, t);
    }
    if CountedLate(ps, i) {
      var t: nat :| t < MAX_TIME && ps[i].deadline < t + ps[i].ioWait && ClearsAt(ps, i, t);
      ClearsInRun(ps, tl, metrics, completed, misses, i, t);
      var k := ClassEnds(ps, tl, i, t);
      EndIsRecorded(ps, tl, k, t);
    }
  }

  /** A late end of a backlog is a counted miss of some process with that deadline. */
  lemma LateIsCounted(ps: seq<Process>, tl: Timeline, metrics: seq<Metrics>, completed: nat, misses: nat, i: nat)
    requires ValidInput(ps) && NoIoWait(ps) && Outcome(ps, 1, tl, metrics, completed, misses)
    requires i < |ps| && CountedLate(ps, i)
    ensures misses > 0
  {
    hide EdfTick, Executed, Backlog, FinishTime, ClearsAt, EndsAt, SeenDone;
    var t: nat :| t < MAX_TIME && ps[i].deadline < t + ps[i].ioWait && ClearsAt(ps, i, t);
    ClearsInRun(ps, tl, metrics, completed, misses, i, t);
    var k := ClassEnds(ps, tl, i, t);
    EndIsRecorded(ps, tl, k, t);
    assert k in MissSet(ps, tl);
  }

  lemma {:induction false} FirstClear(ps: seq<Process>, i: nat, t: nat) returns (u: nat)
    requires i < |ps| && ps[i].arrival < t && Backlog(ps, ps[i].deadline, t) == 0
    requires ps[i].arrival >= 0 && forall v: nat :: Backlog(ps, ps[i].deadline, v) >= 0
    ensures u <= t && ClearsAt(ps, i, u)
    decreases t
  {
    hide Backlog;
    if v: nat :| v < t && ps[i].arrival < v && Backlog(ps, ps[i].deadline, v) == 0 {
      u := FirstClear(ps, i, v);
    } else {
      u := t;
    }
  }

  lemma {:induction false} BacklogNatural(ps: seq<Process>, d: int, t: nat)
    requires ValidInput(ps)
    ensures Backlog(ps, d, t) >= 0
    decreases t
  {
    if t > 0 {
      BacklogNatural(ps, d, t - 1);
    }
  }

  lemma MissIsLate(ps: seq<Process>, tl: Timeline, metrics: seq<Metrics>, completed: nat, misses: nat, i: nat)
    requires ValidInput(ps) && TiesSettled(ps) && Outcome(ps, 1, tl, metrics, completed, misses)
    requires i in MissSet(ps, tl)
    ensures CountedLate(ps, i)
  {
    hide EdfTick, Executed, Backlog, FinishTime, EndsAt, CountedLate, ClearsAt, IsEdf, ValidInput, Unique, MetricsOf;
    if Unique(ps, i) {
      MissExactly(ps, tl, metrics, completed, misses, i);
    } else {
      var t: nat :| ps[i].arrival < t < MAX_TIME && Backlog(ps, ps[i].deadline, t) == 0;
      RecordedEnds(ps, tl, i);
      ClearIsLate(ps, tl, i, FinishTime(tl, ps[i].pid, ps[i].burst, |tl| - 1), t);
    }
  }

  /** The backlog as urgent as i clears no earlier than i finishes. */
  lemma ClearIsLate(ps: seq<Process>, tl: Timeline, i: nat, f: nat, t: nat)
    requires ValidInput(ps) && OneCpu(ps, tl) && i < |ps| && EndsAt(ps, tl, i, f) && ps[i].deadline < f + ps[i].ioWait
    requires ps[i].arrival < t < MAX_TIME && Backlog(ps, ps[i].deadline, t) == 0
    ensures CountedLate(ps, i)
  {
    hide EdfTick, Executed, Backlog, EndsAt;
    forall v: nat
      ensures Backlog(ps, ps[i].deadline, v) >= 0
    {
      BacklogNatural(ps, ps[i].deadline, v);
    }
    var u := FirstClear(ps, i, t);
    if u < f {
      BacklogBefore(ps, tl, i, f, u);
      assert false;
    }
    assert ClearsAt(ps, i, u);
  }

  /** If ties are settled, the run counts a miss exactly if some backlog ends late. */
  lemma MissesExactly(ps: seq<Process>, tl: Timeline, metrics: seq<Metrics>, completed: nat, misses: nat)
    requires ValidInput(ps) && NoIoWait(ps) && Outcome(ps, 1, tl, metrics, completed, misses)
    ensures SomeLate(ps) ==> misses > 0
    ensures TiesSettled(ps) ==> (misses > 0 <==> SomeLate(ps))
  {
    hide IsEdf, Executed, FinishTime, CountedLate, SeenDone, TiesSettled;
    if SomeLate(ps) {
      var i: nat :| i < |ps| && CountedLate(ps, i);
      LateIsCounted(ps, tl, metrics, completed, misses, i);
    }
    if TiesSettled(ps) && misses > 0 {
      var i :| i in MissSet(ps, tl);
      MissIsLate(ps, tl, metrics, completed, misses, i);
    }
  }

  /** The printed verdict looks at the miss count alone, and a process still unfinished at
      MAX_TIME is never counted: here it says FEASIBLE though no schedule exists. */
  lemma VerdictIgnoresUnfinished(tl: Timeline, metrics: seq<Metrics>, completed: nat, misses: nat)
    requires Outcome([Process(1, 0, 1001, 10, 0)], 1, tl, metrics, completed, misses)
    ensures misses == 0 && completed == 0 && !Feasible([Process(1, 0, 1001, 10, 0)])
  {
    var ps := [Process(1, 0, 1001, 10, 0)];
    assert ValidInput(ps) && SingleCpuSetting(ps, 1);
    assert DoneSet(ps, tl) == {};
    assert MissSet(ps, tl) == {};
    EdfDecidesFeasibility(ps, 1, tl, metrics, completed, misses);
  }

  /** When the verdict is right, in terms of the input alone: exactly if every deadline can be met, or
      some backlog ends late while the run still looks. */
  lemma VerdictExact(ps: seq<Process>, tl: Timeline, metrics: seq<Metrics>, completed: nat, misses: nat)
    requires ValidInput(ps) && NoIoWait(ps) && Outcome(ps, 1, tl, metrics, completed, misses)
    ensures AllMeet(ps) || SomeLate(ps) ==> (misses == 0 <==> Feasible(ps))
    ensures TiesSettled(ps) ==> ((misses == 0 <==> Feasible(ps)) <==> AllMeet(ps) || SomeLate(ps))
  {
    hide Feasible, AllMeet, SomeLate, TiesSettled;
    FeasibleExactly(ps);
    MissesExactly(ps, tl, metrics, completed, misses);
    if Feasible(ps) {
      NoneLate(ps, tl);
    }
  }

  /** An input that drains has settled ties. */
  lemma DrainedIsSettled(ps: seq<Process>)
    requires ValidInput(ps) && Drains(ps)
    ensures TiesSettled(ps)
  {
    hide Backlog, EdfTick, Executed;
    var t := MAX_TIME - 1;
    var tl := SomeTimeline(ps, t);
    ClearMeansDone(ps, tl, ALL, t);
    forall i: nat | i < |ps|
      ensures Backlog(ps, ps[i].deadline, t) == 0
    {
      ClearMeansDone(ps, tl, ps[i].deadline, t);
    }
  }

  /** Where ties are not settled, being an EDF timeline does not decide whether a miss is counted. */
  lemma TiesMatter() returns (tl: Timeline, tl': Timeline)
    ensures var ps := [Process(1, 0, 600, 10, 0), Process(2, 0, 600, 10, 0)];
            && OneCpu(ps, tl) && OneCpu(ps, tl') && |tl| == |tl'| == MAX_TIME
            && MissSet(ps, tl) != {} && MissSet(ps, tl') == {}
  {
    var ps := [Process(1, 0, 600, 10, 0), Process(2, 0, 600, 10, 0)];
    tl := seq(MAX_TIME, t => [if t < 600 then 1 else 2]);
    tl' := seq(MAX_TIME, t => [1 + t % 2]);
    OneFinishes(ps, tl);
    NoneFinishes(ps, tl');
  }

  lemma OneFinishes(ps: seq<Process>, tl: Timeline)
    requires ps == [Process(1, 0, 600, 10, 0), Process(2, 0, 600, 10, 0)] && |tl| == MAX_TIME
    requires forall u: nat | u < |tl| :: tl[u] == [if u < 600 then 1 else 2]
    ensures OneCpu(ps, tl) && MissSet(ps, tl) != {}
  {
    hide EdfTick, Executed;
    forall t: nat | t < |tl|
      ensures EdfTick(ps, tl, t)
    {
      InTurn(tl, t);
      TieTick(ps, tl, t);
    }
    InTurn(tl, 599);
    InTurn(tl, 600);
    EndIsRecorded(ps, tl, 0, 600);
    assert 0 in MissSet(ps, tl);
  }

  lemma NoneFinishes(ps: seq<Process>, tl: Timeline)
    requires ps == [Process(1, 0, 600, 10, 0), Process(2, 0, 600, 10, 0)] && |tl| == MAX_TIME
    requires forall u: nat | u < |tl| :: tl[u] == [1 + u % 2]
    ensures OneCpu(ps, tl) && MissSet(ps, tl) == {}
  {
    hide EdfTick, Executed;
    forall t: nat | t < |tl|
      ensures EdfTick(ps, tl, t)
    {
      Alternating(tl, t);
      TieTick(ps, tl, t);
    }
    Alternating(tl, MAX_TIME - 1);
    assert !SeenDone(ps, tl, 0) && !SeenDone(ps, tl, 1);
    assert DoneSet(ps, tl) == {};
  }

  /** With equal deadlines, running one of two ready processes is EDF. */
  lemma TieTick(ps: seq<Process>, tl: Timeline, t: nat)
    requires ps == [Process(1, 0, 600, 10, 0), Process(2, 0, 600, 10, 0)] && t < |tl|
    requires (tl[t] == [1] && Executed(tl, 1, t) < 600) || (tl[t] == [2] && Executed(tl, 2, t) < 600)
    ensures EdfTick(ps, tl, t)
  {
    var i := if tl[t] == [1] then 0 else 1;
    assert ps[i].pid == tl[t][0] && Ready(ps, tl, i, t);
  }

  lemma {:induction false} InTurn(tl: Timeline, t: nat)
    requires t <= |tl| <= MAX_TIME && forall u: nat | u < |tl| :: tl[u] == [if u < 600 then 1 else 2]
    ensures Executed(tl, 1, t) == Min(t, 600) && Executed(tl, 2, t) == t - Min(t, 600)
    decreases t
  {
    if t > 0 {
      InTurn(tl, t - 1);
    }
  }

  lemma {:induction false} Alternating(tl: Timeline, t: nat)
    requires t <= |tl| && forall u: nat | u < |tl| :: tl[u] == [1 + u % 2]
    ensures Executed(tl, 1, t) == (t + 1) / 2 && Executed(tl, 2, t) == t / 2
    decreases t
  {
    if t > 0 {
      Alternating(tl, t - 1);
    }
  }

  /** With all deadlines inside the run: the verdict is right on inputs that drain in time, the others
      have no schedule, and an input called feasible is so exactly if it drains. */
  lemma VerdictOnDrained(ps: seq<Process>, tl: Timeline, metrics: seq<Metrics>, completed: nat, misses: nat)
    requires ValidInput(ps) && SingleCpuSetting(ps, 1) && Outcome(ps, 1, tl, metrics, completed, misses)
    ensures Drains(ps) ==> (misses == 0 <==> Feasible(ps))
    ensures !Drains(ps) ==> !Feasible(ps)
    ensures misses == 0 ==> (Feasible(ps) <==> Drains(ps))
  {
    hide Outcome, Feasible;
    EdfDecidesFeasibility(ps, 1, tl, metrics, completed, misses);
    CompletesExactly(ps, tl, metrics, completed, misses);
  }
}
