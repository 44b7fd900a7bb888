/** The EDF simulator's tick loop, phase by phase, proved to produce an EDF timeline. */
module EdfSim {
  import opened Params
  import opened Sets
  import opened EdfTheory
  import opened Edf

  /** hist[t][i]: what process i had left at the start of tick t. */
  type History = seq<seq<int>>

  ghost predicate HistoryOf(ps: seq<Process>, tl: Timeline, hist: History) {
    && |hist| == |tl| + 1 && (forall t :: 0 <= t < |hist| ==> |hist[t]| == |ps|)
    && (forall t, i :: 0 <= t < |hist| && 0 <= i < |ps| ==>
          hist[t][i] == ps[i].burst - Executed(tl, ps[i].pid, t) && hist[t][i] >= 0)
  }

  lemma HistoryCounts(ps: seq<Process>, tl: Timeline, hist: History, t: nat, i: nat)
    requires HistoryOf(ps, tl, hist) && t < |hist| && i < |ps|
    ensures |hist[t]| == |ps| && hist[t][i] >= 0
  {
    assert hist[t][i] == ps[i].burst - Executed(tl, ps[i].pid, t);
  }

  /** Process i received its last tick in tick f - 1. */
  predicate FinishedAt(hist: History, i: nat, f: nat) {
    0 < f < |hist| && i < |hist[f]| && i < |hist[f - 1]| && hist[f][i] == 0 && hist[f - 1][i] > 0
  }

  ghost predicate NoneIdleWhileWaiting(ps: seq<Process>, rem: seq<int>, cur: seq<int>, time: int)
    requires |rem| == |ps|
  {
    forall i :: 0 <= i < |ps| && Waiting(ps, rem, cur, time, i) ==> -1 !in cur
  }

  /** CPUs before c that are idle are so because nothing waits. */
  ghost predicate IdleOnlyIfNoneWaits(ps: seq<Process>, rem: seq<int>, cur: seq<int>, time: int, c: nat)
    requires |rem| == |ps|
  {
    c <= |cur| && forall e, i :: 0 <= e < c && cur[e] == -1 && 0 <= i < |ps| ==> !Waiting(ps, rem, cur, time, i)
  }

  lemma AssignKeepsBusy(ps: seq<Process>, rem: seq<int>, cur: seq<int>, time: int, c: nat, j: nat)
    requires Placed(ps, rem, cur) && c < |cur| && cur[c] == -1 && j < |ps| && Waiting(ps, rem, cur, time, j)
    requires IdleOnlyIfNoneWaits(ps, rem, cur, time, c)
    ensures IdleOnlyIfNoneWaits(ps, rem, cur[c := j], time, c + 1)
  {
    forall i | 0 <= i < |ps| && Waiting(ps, rem, cur[c := j], time, i) ensures Waiting(ps, rem, cur, time, i) {
      OthersStay(cur, c, j, i);
    }
  }

  ghost predicate RunnersReady(ps: seq<Process>, rem: seq<int>, cur: seq<int>, time: int)
    requires Placed(ps, rem, cur)
  {
    forall c :: 0 <= c < |cur| && cur[c] != -1 ==> rem[cur[c]] > 0 && ps[cur[c]].arrival <= time
  }

  ghost function Row(ps: seq<Process>, cur: seq<int>): (row: seq<int>)
    requires forall c :: 0 <= c < |cur| ==> -1 <= cur[c] < |ps|
  {
    seq(|cur|, c requires 0 <= c < |cur| => if cur[c] == -1 then 0 else ps[cur[c]].pid)
  }

  lemma InRow(ps: seq<Process>, rem: seq<int>, cur: seq<int>, i: nat)
    requires ValidInput(ps) && Placed(ps, rem, cur) && i < |ps|
    ensures ps[i].pid in Row(ps, cur) <==> i in cur
    ensures 0 in Row(ps, cur) <==> -1 in cur
  {
    var row := Row(ps, cur);
    if i in cur {
      var c :| 0 <= c < |cur| && cur[c] == i;
      assert row[c] == ps[i].pid;
    }
    if -1 in cur {
      var c :| 0 <= c < |cur| && cur[c] == -1;
      assert row[c] == 0;
    }
  }

  lemma Vacate(ps: seq<Process>, rem: seq<int>, cur: seq<int>, c: nat)
    requires Placed(ps, rem, cur) && c < |cur| && cur[c] != -1
    ensures Placed(ps, rem, cur[c := -1])
    ensures forall i :: 0 <= i < |ps| ==> (i in cur[c := -1] <==> i in cur && i != cur[c])
  {
    forall i | 0 <= i < |ps| ensures i in cur[c := -1] <==> i in cur && i != cur[c] {
      OthersStay(cur, c, -1, i);
    }
  }

  /** What the simulator writes into a process's entry when it completes. */
  datatype Metrics = Metrics(completion: int, turnaround: int, waiting: int, missed: bool)

  ghost predicate MetricsOf(p: Process, f: nat, m: Metrics) {
    && m.completion == f + p.ioWait
    && m.turnaround == m.completion - p.arrival
    && m.waiting == m.turnaround - p.burst - p.ioWait
    && m.missed == (m.completion > p.deadline)
  }

  ghost function Late(done: set<nat>, metrics: seq<Metrics>): (s: set<nat>) {
    set i | i in done && i < |metrics| && metrics[i].missed
  }

  /** Exactly the done processes have their metrics recorded and their misses counted. */
  ghost predicate Recorded(ps: seq<Process>, done: set<nat>, metrics: seq<Metrics>,
                           finish: seq<nat>, completed: nat, misses: nat) {
    && |metrics| == |finish| == |ps| && (forall i :: i in done ==> i < |ps|)
    && completed == |done| && misses == |Late(done, metrics)|
    && (forall i :: i in done ==> MetricsOf(ps[i], finish[i], metrics[i]))
    && (forall i :: 0 <= i < |ps| && i !in done ==> !metrics[i].missed)
  }

  ghost predicate Finished(hist: History, done: set<nat>, finish: seq<nat>) {
    forall i :: i in done ==> i < |finish| && FinishedAt(hist, i, finish[i])
  }

  lemma FinishedGains(hist: History, done: set<nat>, finish: seq<nat>, p: nat, f: nat)
    requires Finished(hist, done, finish) && p < |finish| && p !in done && FinishedAt(hist, p, f)
    ensures Finished(hist, done + {p}, finish[p := f])
  {
  }

  lemma RecordOne(ps: seq<Process>, done: set<nat>, metrics: seq<Metrics>, finish: seq<nat>,
                  completed: nat, misses: nat, p: nat, f: nat, m: Metrics)
    requires Recorded(ps, done, metrics, finish, completed, misses) && p < |ps| && p !in done
    requires MetricsOf(ps[p], f, m)
    ensures Recorded(ps, done + {p}, metrics[p := m], finish[p := f], completed + 1,
                     if m.missed then misses + 1 else misses)
  {
    var late := Late(done, metrics);
    assert Late(done + {p}, metrics[p := m]) == if m.missed then late + {p} else late;
  }

  /** A tick whose CPUs dominate everything waiting extends an EDF timeline by an EDF row. */
  lemma TickIsEdf(ps: seq<Process>, tl: Timeline, rem: seq<int>, cur: seq<int>)
    requires ValidInput(ps) && Placed(ps, rem, cur)
    requires forall i :: 0 <= i < |ps| ==> rem[i] == ps[i].burst - Executed(tl, ps[i].pid, |tl|)
    requires RunnersReady(ps, rem, cur, |tl|) && Dominates(ps, rem, cur, |tl|)
    requires NoneIdleWhileWaiting(ps, rem, cur, |tl|)
    ensures EdfTick(ps, tl + [Row(ps, cur)], |tl|)
  {
    var row := Row(ps, cur);
    var tl' := tl + [row];
    var t := |tl|;
    forall i | 0 <= i < |ps|
      ensures Ready(ps, tl', i, t) <==> ps[i].arrival <= t && rem[i] > 0
      ensures Waits(ps, tl', i, t) <==> Waiting(ps, rem, cur, t, i)
      ensures ps[i].pid in row <==> i in cur
    {
      ExecutedPrefix(tl, row, ps[i].pid, t);
      InRow(ps, rem, cur, i);
    }
    forall c | 0 <= c < |row| && row[c] != 0
      ensures exists i :: 0 <= i < |ps| && ps[i].pid == row[c] && Ready(ps, tl', i, t)
    {
      assert Ready(ps, tl', cur[c], t);
    }
    forall j | 0 <= j < |ps| && Waits(ps, tl', j, t)
      ensures 0 !in row
    {
      InRow(ps, rem, cur, j);
    }
  }

  lemma EdfExtends(ps: seq<Process>, tl: Timeline, row: seq<int>)
    requires IsEdf(ps, tl) && EdfTick(ps, tl + [row], |tl|)
    ensures IsEdf(ps, tl + [row])
  {
    var tl' := tl + [row];
    forall t | 0 <= t < |tl|
      ensures EdfTick(ps, tl', t)
    {
      assert EdfTick(ps, tl, t);
      forall i | 0 <= i < |ps|
        ensures Ready(ps, tl', i, t) == Ready(ps, tl, i, t)
        ensures Waits(ps, tl', i, t) == Waits(ps, tl, i, t)
      {
        ExecutedPrefix(tl, row, ps[i].pid, t);
      }
    }
  }

  /** The completion check frees only CPUs whose process has nothing left. */
  lemma AfterCompletion(ps: seq<Process>, rem: seq<int>, cur0: seq<int>, cur: seq<int>, time: int)
    requires Placed(ps, rem, cur0) && Placed(ps, rem, cur) && |cur| == |cur0|
    requires forall i :: 0 <= i < |rem| ==> rem[i] >= 0
    requires forall c :: 0 <= c < |cur| ==> cur[c] == if cur0[c] != -1 && rem[cur0[c]] == 0 then -1 else cur0[c]
    requires forall c :: 0 <= c < |cur0| && cur0[c] != -1 ==> ps[cur0[c]].arrival < time
    requires DominatesOld(ps, rem, cur0, time)
    ensures RunnersReady(ps, rem, cur, time) && DominatesOld(ps, rem, cur, time)
    ensures forall i :: 0 <= i < |ps| && rem[i] == 0 ==> i !in cur
  {
    assert forall c :: 0 <= c < |cur0| && cur0[c] != -1 && rem[cur0[c]] > 0 ==> cur[c] == cur0[c];
  }

  /** One tick of execution: whatever is on a CPU has one less to run. */
  ghost predicate RanOnce(rem: seq<int>, rem': seq<int>, cur: seq<int>) {
    |rem'| == |rem| && forall i :: 0 <= i < |rem| ==> rem'[i] == rem[i] - if i in cur then 1 else 0
  }

  lemma HistoryExtends(ps: seq<Process>, tl: Timeline, hist: History, cur: seq<int>, rem': seq<int>)
    requires ValidInput(ps) && HistoryOf(ps, tl, hist) && Placed(ps, hist[|tl|], cur)
    requires RunnersReady(ps, hist[|tl|], cur, |tl|) && RanOnce(hist[|tl|], rem', cur)
    ensures HistoryOf(ps, tl + [Row(ps, cur)], hist + [rem'])
  {
    var row := Row(ps, cur);
    forall t, i | 0 <= t <= |tl| + 1 && 0 <= i < |ps|
      ensures (hist + [rem'])[t][i] == ps[i].burst - Executed(tl + [row], ps[i].pid, t)
      ensures (hist + [rem'])[t][i] >= 0
    {
      if t <= |tl| {
        ExecutedPrefix(tl, row, ps[i].pid, t);
        assert hist[t][i] == ps[i].burst - Executed(tl, ps[i].pid, t);
      } else {
        ExecutedPrefix(tl, row, ps[i].pid, |tl|);
        assert hist[|tl|][i] == ps[i].burst - Executed(tl, ps[i].pid, |tl|);
        InRow(ps, hist[|tl|], cur, i);
      }
    }
  }

  lemma DominanceCarries(ps: seq<Process>, rem: seq<int>, rem': seq<int>, cur: seq<int>, time: int)
    requires Placed(ps, rem, cur) && RanOnce(rem, rem', cur) && Dominates(ps, rem, cur, time)
    ensures Placed(ps, rem', cur) && DominatesOld(ps, rem', cur, time + 1)
  {
    forall c, i | 0 <= c < |cur| && cur[c] != -1 && 0 <= i < |ps| && Waiting(ps, rem', cur, time + 1, i)
      ensures ps[i].arrival < time + 1 ==> ps[cur[c]].deadline <= ps[i].deadline
    {
      if ps[i].arrival < time + 1 {
        assert Waiting(ps, rem, cur, time, i);
      }
    }
  }

  class Simulator {
    const ps: seq<Process>
    const cpus: nat
    var remaining: seq<int>
    var metrics: seq<Metrics>
    /** current_pid of each CPU, -1 when idle. */
    var cpu: seq<int>
    var isRunning: seq<bool>
    var time: nat
    var completed: nat
    var misses: nat
    /** One row per tick; the source stores the transpose. */
    var timeline: Timeline
    /** Index of the process on each CPU, and the tick in which each done process finished. */
    ghost var cur: seq<int>
    ghost var finish: seq<nat>
    ghost var hist: History
    /** The processes with nothing left to run that the completion check has taken off their CPU. */
    ghost var done: set<nat>

    /** The CPUs' pids and the is_running flags say what `cur` says. */
    ghost predicate Mirrors()
      requires Placed(ps, remaining, cur)
      reads this`remaining, this`cur, this`cpu, this`isRunning
    {
      && |cpu| == |cur| == cpus && |isRunning| == |ps|
      && (forall c :: 0 <= c < cpus ==> cpu[c] == if cur[c] == -1 then -1 else ps[cur[c]].pid)
      && (forall i :: 0 <= i < |ps| ==> (isRunning[i] <==> i in cur))
    }

    ghost predicate Linked()
      reads this`remaining, this`cur, this`cpu, this`isRunning, this`done
    {
      && ValidInput(ps) && Placed(ps, remaining, cur) && Mirrors()
      && (forall i :: 0 <= i < |ps| ==> (i in done <==> remaining[i] == 0 && !isRunning[i]))
    }

    ghost predicate OnTime()
      reads this`timeline, this`time, this`hist
    {
      && |timeline| == time && (forall t :: 0 <= t < time ==> |timeline[t]| == cpus)
      && HistoryOf(ps, timeline, hist) && IsEdf(ps, timeline)
    }

    ghost predicate Recording()
      reads this`done, this`metrics, this`finish, this`completed, this`misses
    {
      Recorded(ps, done, metrics, finish, completed, misses)
    }

    /** At the head of the loop: whatever is on a CPU ran in the previous tick. */
    ghost predicate JustRan()
      requires Linked()
      reads this`remaining, this`cur, this`cpu, this`isRunning, this`done, this`time, this`hist
    {
      forall c :: 0 <= c < cpus && cur[c] != -1 ==>
        0 < time < |hist| && ps[cur[c]].arrival < time && |hist[time - 1]| == |ps| && hist[time - 1][cur[c]] > 0
    }

    ghost predicate Valid()
      reads this
    {
      && Linked() && OnTime() && Recording() && Finished(hist, done, finish) && hist[time] == remaining
      && JustRan() && DominatesOld(ps, remaining, cur, time)
    }

    constructor (ps: seq<Process>, cpus: nat)
      requires ValidInput(ps)
      ensures Valid() && this.ps == ps && this.cpus == cpus
      ensures time == 0 && completed == 0 && misses == 0 && timeline == [] && done == {}
      ensures forall i :: 0 <= i < |ps| ==> remaining[i] == ps[i].burst
    {
      this.ps, this.cpus := ps, cpus;
      remaining := seq(|ps|, i requires 0 <= i < |ps| => ps[i].burst);
      metrics := seq(|ps|, _ => Metrics(0, 0, 0, false));
      isRunning := seq(|ps|, _ => false);
      cpu, cur := seq(cpus, _ => -1), seq(cpus, _ => -1);
      finish, done := seq(|ps|, _ => 0), {};
      time, completed, misses, timeline := 0, 0, 0, [];
      hist := [remaining];
    }

    /** Linear search of the process table by pid. */
    method FindIndex(pid: int, ghost i: nat) returns (k: nat)
      requires ValidInput(ps) && i < |ps| && ps[i].pid == pid
      ensures k == i
    {
      k := 0;
      while ps[k].pid != pid
        invariant k <= i
        decreases i - k
      {
        k := k + 1;
      }
    }

    /** Step 1: record and take off its CPU every process that has nothing left. */
    method CompletionPhase()
      requires Linked() && Recording() && Finished(hist, done, finish)
      requires time < |hist| && hist[time] == remaining && JustRan()
      modifies this`metrics, this`misses, this`completed, this`isRunning, this`cpu, this`cur, this`finish, this`done
      ensures Linked() && Recording() && Finished(hist, done, finish)
      ensures forall c :: 0 <= c < cpus ==>
                cur[c] == if old(cur)[c] != -1 && remaining[old(cur)[c]] == 0 then -1 else old(cur)[c]
    {
      var c := 0;
      while c < cpus
        invariant 0 <= c <= cpus && Linked() && Recording() && Finished(hist, done, finish)
        invariant forall e :: 0 <= e < cpus ==>
                    cur[e] == if e < c && old(cur)[e] != -1 && remaining[old(cur)[e]] == 0 then -1 else old(cur)[e]
      {
        if cpu[c] != -1 {
          var p := FindIndex(cpu[c], cur[c]);
          if remaining[p] == 0 {
            FinishedGains(hist, done, finish, p, time);
            Complete(c, p);
          }
        }
        c := c + 1;
      }
    }

    method Complete(c: nat, p: nat)
      requires Linked() && Recording() && c < cpus && cur[c] == p && remaining[p] == 0
      modifies this`metrics, this`misses, this`completed, this`isRunning, this`cpu, this`cur, this`finish, this`done
      ensures Linked() && Recording() && cur == old(cur)[c := -1]
      ensures done == old(done) + {p} && finish == old(finish)[p := time]
    {
      Record(p);
      Release(c, p);
      done := done + {p};
    }

    /** Write the metrics of a completed process and count its miss. */
    method Record(p: nat)
      requires Recording() && p < |ps| && p !in done
      modifies this`metrics, this`misses, this`completed, this`finish
      ensures Recorded(ps, done + {p}, metrics, finish, completed, misses) && finish == old(finish)[p := time]
    {
      var completion := time + ps[p].ioWait;
      var turnaround := completion - ps[p].arrival;
      var m := Metrics(completion, turnaround, turnaround - ps[p].burst - ps[p].ioWait, metrics[p].missed);
      if completion > ps[p].deadline {
        misses := misses + 1;
        m := m.(missed := true);
      }
      RecordOne(ps, done, metrics, finish, completed, old(misses), p, time, m);
      metrics := metrics[p := m];
      completed := completed + 1;
      finish := finish[p := time];
    }

    /** Take process p off CPU c. */
    method Release(c: nat, p: nat)
      requires Placed(ps, remaining, cur) && Mirrors() && c < cpus && cur[c] == p
      modifies this`isRunning, this`cpu, this`cur
      ensures Placed(ps, remaining, cur) && Mirrors()
      ensures cur == old(cur)[c := -1] && isRunning == old(isRunning)[p := false]
    {
      Vacate(ps, remaining, cur, c);
      isRunning := isRunning[p := false];
      cpu := cpu[c := -1];
      cur := cur[c := -1];
    }

    /** The first CPU running a process with the latest deadline, or -1 if all are idle. */
    method FindWorst() returns (w: int)
      requires Linked()
      ensures -1 <= w < cpus
      ensures w == -1 ==> forall c :: 0 <= c < cpus ==> cur[c] == -1
      ensures w != -1 ==> cur[w] != -1 && forall c :: 0 <= c < cpus && cur[c] != -1 ==>
                ps[cur[c]].deadline <= ps[cur[w]].deadline && (c < w ==> ps[cur[c]].deadline < ps[cur[w]].deadline)
    {
      w := -1;
      var worst := -1;
      var c := 0;
      while c < cpus
        invariant 0 <= c <= cpus && -1 <= w < c
        invariant w == -1 ==> worst == -1 && forall e :: 0 <= e < c ==> cur[e] == -1
        invariant w != -1 ==> cur[w] != -1 && worst == ps[cur[w]].deadline
        invariant forall e :: 0 <= e < c && cur[e] != -1 ==> ps[cur[e]].deadline <= worst && (e < w ==> ps[cur[e]].deadline < worst)
      {
        if cpu[c] != -1 {
          var p := FindIndex(cpu[c], cur[c]);
          if ps[p].deadline > worst {
            worst := ps[p].deadline;
            w := c;
          }
        }
        c := c + 1;
      }
    }

    /** Step 2: each process arriving now takes a CPU from a latest-deadline runner with a later deadline. */
    method PreemptionPhase()
      requires Linked() && RunnersReady(ps, remaining, cur, time) && DominatesOld(ps, remaining, cur, time)
      modifies this`isRunning, this`cpu, this`cur
      ensures Linked() && RunnersReady(ps, remaining, cur, time)
      ensures Balanced(ps, remaining, cur, time, |ps|, 0)
    {
      BalancedAtFirst(ps, remaining, cur, time);
      var k := 0;
      while k < |ps|
        invariant 0 <= k <= |ps| && Linked() && RunnersReady(ps, remaining, cur, time)
        invariant Balanced(ps, remaining, cur, time, k, 0)
      {
        if ps[k].arrival == time && remaining[k] > 0 && !isRunning[k] {
          Arrive(k);
        } else {
          PassArrival(ps, remaining, cur, time, k);
        }
        k := k + 1;
      }
    }

    method Arrive(k: nat)
      requires Linked() && RunnersReady(ps, remaining, cur, time) && k < |ps|
      requires Balanced(ps, remaining, cur, time, k, 0)
      modifies this`isRunning, this`cpu, this`cur
      ensures Linked() && RunnersReady(ps, remaining, cur, time)
      ensures Balanced(ps, remaining, cur, time, k + 1, 0)
    {
      var w := FindWorst();
      if w != -1 {
        var p := FindIndex(cpu[w], cur[w]);
        if ps[k].deadline < ps[p].deadline {
          Preempt(ps, remaining, cur, time, k, w);
          Release(w, p);
          return;
        }
      }
      PassArrival(ps, remaining, cur, time, k);
    }

    /** The first waiting process with the earliest deadline, or -1 if none waits. */
    method FindBest() returns (best: int)
      requires Linked()
      ensures -1 <= best < |ps|
      ensures best == -1 ==> forall i :: 0 <= i < |ps| ==> !Waiting(ps, remaining, cur, time, i)
      ensures best != -1 ==> Waiting(ps, remaining, cur, time, best)
      ensures best != -1 ==>
                forall i :: 0 <= i < |ps| && Waiting(ps, remaining, cur, time, i) ==>
                  ps[best].deadline <= ps[i].deadline && (i < best ==> ps[best].deadline < ps[i].deadline)
    {
      best := -1;
      var earliest := 999999;
      var i := 0;
      while i < |ps|
        invariant 0 <= i <= |ps| && -1 <= best < i
        invariant best == -1 ==> earliest == 999999 && forall j :: 0 <= j < i ==> !Waiting(ps, remaining, cur, time, j)
        invariant best != -1 ==> Waiting(ps, remaining, cur, time, best) && earliest == ps[best].deadline
        invariant forall j :: 0 <= j < i && Waiting(ps, remaining, cur, time, j) ==>
                    earliest <= ps[j].deadline && (j < best ==> earliest < ps[j].deadline)
      {
        if ps[i].arrival <= time && remaining[i] > 0 && !isRunning[i] {
          if ps[i].deadline < earliest {
            earliest := ps[i].deadline;
            best := i;
          }
        }
        i := i + 1;
      }
    }

    /** Put process j on idle CPU c. */
    method Occupy(c: nat, j: nat)
      requires Linked() && c < cpus && cur[c] == -1 && j < |ps| && Waiting(ps, remaining, cur, time, j)
      requires Placed(ps, remaining, cur[c := j])
      modifies this`isRunning, this`cpu, this`cur
      ensures Linked() && cur == old(cur)[c := j]
    {
      cpu := cpu[c := ps[j].pid];
      isRunning := isRunning[j := true];
      ghost var before := cur;
      cur := cur[c := j];
      forall i | 0 <= i < |ps| ensures i in cur <==> i in before || i == j {
        OthersStay(before, c, j, i);
      }
    }

    /** Step 3: each idle CPU takes a waiting process with an earliest deadline. */
    method AssignmentPhase()
      requires Linked() && RunnersReady(ps, remaining, cur, time)
      requires Balanced(ps, remaining, cur, time, |ps|, 0)
      modifies this`isRunning, this`cpu, this`cur
      ensures Linked() && RunnersReady(ps, remaining, cur, time)
      ensures Dominates(ps, remaining, cur, time) && NoneIdleWhileWaiting(ps, remaining, cur, time)
    {
      var c := 0;
      while c < cpus
        invariant 0 <= c <= cpus && Linked() && RunnersReady(ps, remaining, cur, time)
        invariant Balanced(ps, remaining, cur, time, |ps|, c)
        invariant IdleOnlyIfNoneWaits(ps, remaining, cur, time, c)
      {
        AssignCpu(c);
        c := c + 1;
      }
      BalancedMeansDominates(ps, remaining, cur, time);
    }

    method AssignCpu(c: nat)
      requires Linked() && RunnersReady(ps, remaining, cur, time) && c < cpus
      requires Balanced(ps, remaining, cur, time, |ps|, c) && IdleOnlyIfNoneWaits(ps, remaining, cur, time, c)
      modifies this`isRunning, this`cpu, this`cur
      ensures Linked() && RunnersReady(ps, remaining, cur, time)
      ensures Balanced(ps, remaining, cur, time, |ps|, c + 1) && IdleOnlyIfNoneWaits(ps, remaining, cur, time, c + 1)
    {
      if cpu[c] == -1 {
        var best := FindBest();
        if best != -1 {
          Assign(ps, remaining, cur, time, c, best);
          AssignKeepsBusy(ps, remaining, cur, time, c, best);
          Occupy(c, best);
          return;
        }
      }
      PassCpu(ps, remaining, cur, time, c);
    }

    /** Step 4: run every occupied CPU for one tick and record the row. */
    method Execute() returns (row: seq<int>)
      requires Linked()
      modifies this`remaining
      ensures row == Row(ps, cur) && RanOnce(old(remaining), remaining, cur)
    {
      row := [];
      var c := 0;
      while c < cpus
        invariant 0 <= c <= cpus && Placed(ps, remaining, cur) && Mirrors()
        invariant row == Row(ps, cur)[..c] && RanOnce(old(remaining), remaining, cur[..c])
      {
        assert cur[..c + 1] == cur[..c] + [cur[c]];
        if cpu[c] != -1 {
          var p := FindIndex(cpu[c], cur[c]);
          row := row + [cpu[c]];
          remaining := remaining[p := remaining[p] - 1];
        } else {
          row := row + [0];
        }
        c := c + 1;
      }
      assert cur[..cpus] == cur;
    }

    method AdvanceClock(row: seq<int>)
      requires IsEdf(ps, timeline + [row]) && HistoryOf(ps, timeline + [row], hist + [remaining])
      requires |timeline| == time && |row| == cpus && forall t :: 0 <= t < time ==> |timeline[t]| == cpus
      modifies this`timeline, this`time, this`hist
      ensures OnTime() && time == old(time) + 1 && timeline == old(timeline) + [row] && hist == old(hist) + [remaining]
    {
      timeline := timeline + [row];
      hist := hist + [remaining];
      time := time + 1;
    }

    /** After assignment: everything the execution step relies on. */
    ghost predicate Assigned()
      reads this
    {
      && Linked() && OnTime() && hist[time] == remaining
      && RunnersReady(ps, remaining, cur, time) && Dominates(ps, remaining, cur, time)
      && NoneIdleWhileWaiting(ps, remaining, cur, time)
    }

    method ExecutionPhase()
      requires Assigned()
      modifies this`remaining, this`timeline, this`time, this`hist
      ensures OnTime() && time == old(time) + 1 && timeline == old(timeline) + [Row(ps, cur)]
      ensures hist == old(hist) + [remaining] && RanOnce(old(remaining), remaining, cur)
    {
      TickIsEdf(ps, timeline, remaining, cur);
      EdfExtends(ps, timeline, Row(ps, cur));
      var row := Execute();
      HistoryExtends(ps, timeline, hist, cur, remaining);
      AdvanceClock(row);
    }

    method ExecuteAndSettle()
      requires Assigned() && Recording() && Finished(hist, done, finish)
      modifies this`remaining, this`timeline, this`time, this`hist
      ensures Valid() && time == old(time) + 1 && hist[time - 1] == old(remaining)
    {
      ghost var rem0 := remaining;
      ExecutionPhase();
      DominanceCarries(ps, rem0, remaining, cur, time - 1);
      assert Linked();
      assert Finished(hist, done, finish);
    }

    method CompleteAll()
      requires Valid()
      modifies this`metrics, this`misses, this`completed, this`isRunning, this`cpu, this`cur, this`finish, this`done
      ensures Linked() && Recording() && Finished(hist, done, finish)
      ensures RunnersReady(ps, remaining, cur, time) && DominatesOld(ps, remaining, cur, time)
      ensures forall i :: 0 <= i < |ps| ==> (i in done <==> remaining[i] == 0)
    {
      ghost var cur0 := cur;
      forall i | 0 <= i < |ps|
        ensures remaining[i] >= 0
      {
        HistoryCounts(ps, timeline, hist, time, i);
      }
      CompletionPhase();
      AfterCompletion(ps, remaining, cur0, cur, time);
    }

    method Decide()
      requires Linked() && RunnersReady(ps, remaining, cur, time) && DominatesOld(ps, remaining, cur, time)
      requires OnTime() && hist[time] == remaining
      modifies this`isRunning, this`cpu, this`cur
      ensures Assigned()
    {
      PreemptionPhase();
      AssignmentPhase();
    }

    /** One iteration of the main loop. */
    method Tick()
      requires Valid()
      modifies this
      ensures Valid() && time == old(time) + 1 && hist[time - 1] == old(remaining)
      ensures forall i :: 0 <= i < |ps| ==> (i in done <==> old(remaining)[i] == 0)
    {
      CompleteAll();
      Decide();
      ExecuteAndSettle();
    }

    lemma DoneAtMostAll()
      requires Recording()
      ensures completed <= |ps|
    {
      SubsetCard(done, Indices(|ps|));
    }

    /** The main loop: stops when every process has completed, or at MAX_TIME. */
    method Run()
      requires Valid() && time == 0 && done == {}
      modifies this
      ensures Valid() && time <= MAX_TIME && (completed == |ps| || time == MAX_TIME)
      ensures forall i :: 0 <= i < |ps| ==> (i in done <==> time > 0 && hist[time - 1][i] == 0)
    {
      while completed < |ps| && time < MAX_TIME
        invariant Valid() && time <= MAX_TIME
        decreases MAX_TIME - time
        invariant forall i :: 0 <= i < |ps| ==> (i in done <==> time > 0 && hist[time - 1][i] == 0)
      {
        Tick();
      }
      DoneAtMostAll();
    }
  }
}
