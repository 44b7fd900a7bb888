/** run_work_steal's tick loop. The deques are kept field by field, one entry per CPU. */
module WorkStealSim {
  import opened Params
  import opened EdfTheory
  import opened WorkSteal
  import opened Sets

  datatype Metrics = Metrics(completion: int, turnaround: int, waiting: int)

  /** What is recorded for a process that finished: it has run for exactly its burst, none of it
      before it arrived, the last tick right before its completion time; and its waiting time is
      the number of ticks it was present and did not run. */
  ghost predicate Recorded(p: Process, tl: Timeline, r: Metrics) {
    && 0 <= p.arrival < r.completion <= |tl|
    && Executed(tl, p.pid, r.completion) == p.burst == Executed(tl, p.pid, |tl|)
    && Executed(tl, p.pid, r.completion - 1) == p.burst - 1 && Executed(tl, p.pid, p.arrival) == 0
    && r.turnaround == r.completion - p.arrival && r.waiting == Idle(tl, p.pid, p.arrival, r.completion)
  }

  /** current_pid of a core that runs process k. */
  function PidOf(ps: seq<Process>, k: int): int {
    if 0 <= k < |ps| then ps[k].pid else -1
  }

  ghost predicate Mirrors(ps: seq<Process>, cores: seq<int>, on: seq<int>, cpus: nat) {
    |cores| == |on| == cpus && forall d: nat | d < cpus :: cores[d] == PidOf(ps, on[d])
  }

  /** Who has arrived was pushed once; no deque's rear exceeds the number of pushes. */
  ghost predicate Tally(arrived: seq<bool>, place: seq<Place>, pushed: set<nat>, rear: seq<nat>, cpus: nat) {
    && |arrived| == |place| && |rear| == cpus && pushed <= Indices(|place|)
    && (forall i: nat | i < |place| :: (arrived[i] <==> place[i] != NotArrived) && (i in pushed <==> arrived[i]))
    && (forall c: nat | c < cpus :: rear[c] <= |pushed|)
  }

  /** There is room for one more push. */
  lemma TallyRoom(arrived: seq<bool>, place: seq<Place>, pushed: set<nat>, rear: seq<nat>, cpus: nat, c: nat, i: nat)
    requires Tally(arrived, place, pushed, rear, cpus) && c < cpus && i < |place| && !arrived[i]
    ensures rear[c] < |place|
    ensures Tally(arrived[i := true], place[i := Queued(c, rear[c])], pushed + {i}, rear[c := rear[c] + 1], cpus)
  {
    var others := Indices(|place|) - {i};
    assert |others| == |place| - 1;
    SubsetCard(pushed, others);
    assert |pushed + {i}| == |pushed| + 1;
  }

  /** Moving someone who has arrived, with rears that do not grow. */
  lemma TallyMove(arrived: seq<bool>, place: seq<Place>, pushed: set<nat>, rear: seq<nat>, cpus: nat,
                  i: nat, to: Place, rear': seq<nat>)
    requires Tally(arrived, place, pushed, rear, cpus) && i < |place| && place[i] != NotArrived && to != NotArrived
    requires |rear'| == cpus && forall c: nat | c < cpus :: rear'[c] <= rear[c]
    ensures Tally(arrived, place[i := to], pushed, rear', cpus)
  {
  }

  /** A record stays right while the process does not run again. */
  lemma RecordedStays(p: Process, tl: Timeline, row: seq<int>, r: Metrics)
    requires Recorded(p, tl, r) && p.pid !in row
    ensures Recorded(p, tl + [row], r)
  {
    ExecutedPrefix(tl, row, p.pid, r.completion);
    ExecutedPrefix(tl, row, p.pid, r.completion - 1);
    ExecutedPrefix(tl, row, p.pid, p.arrival);
    ExecutedPrefix(tl, row, p.pid, |tl|);
    IdleIs(tl, p.pid, p.arrival, r.completion);
    IdleIs(tl + [row], p.pid, p.arrival, r.completion);
  }

  /** The record made in the tick that finishes a process. */
  lemma RecordedNow(p: Process, tl: Timeline, row: seq<int>, r: Metrics)
    requires 0 <= p.arrival <= |tl| && Executed(tl, p.pid, p.arrival) == 0 && Executed(tl, p.pid, |tl|) == p.burst - 1
    requires p.pid in row && r == Metrics(|tl| + 1, |tl| + 1 - p.arrival, |tl| + 1 - p.arrival - p.burst)
    ensures Recorded(p, tl + [row], r)
  {
    var tl' := tl + [row];
    ExecutedPrefix(tl, row, p.pid, |tl|);
    ExecutedPrefix(tl, row, p.pid, p.arrival);
    assert Executed(tl', p.pid, |tl'|) == p.burst;
    IdleIs(tl', p.pid, p.arrival, |tl'|);
  }

  class Simulator {
    const ps: seq<Process>
    const cpus: nat
    var slots: seq<seq<int>>
    var front: seq<nat>
    var rear: seq<nat>
    var size: seq<nat>
    /** current_pid of each core, -1 if idle */
    var cores: seq<int>
    var arrived: seq<bool>
    var remaining: seq<int>
    var metrics: seq<Metrics>
    var timeline: Timeline
    var completed: nat
    /** The process, rather than its pid, on each core. */
    ghost var on: seq<int>
    ghost var place: seq<Place>
    ghost var pushed: set<nat>
    ghost var done: set<nat>

    ghost function Now(): State
      reads this
    {
      State(slots, front, rear, size, on, place)
    }

    /** The deques, cores and places fit together. */
    ghost predicate Fits()
      reads this
    {
      && Input(ps) && Valid(Now(), |ps|, cpus)
      && Mirrors(ps, cores, on, cpus) && Tally(arrived, place, pushed, rear, cpus)
    }

    constructor (ps: seq<Process>, cpus: nat)
      requires Input(ps) && cpus > 0
      ensures Fits() && this.ps == ps && this.cpus == cpus
      ensures timeline == [] && completed == 0 && done == {} && |place| == |ps|
      ensures Accounts(ps, timeline, remaining, place) && Arrivals(ps, place, -1) && |metrics| == |ps|
    {
      this.ps, this.cpus := ps, cpus;
      slots := seq(cpus, _ => seq(CAPACITY, _ => 0));
      front, rear, size := seq(cpus, _ => 0), seq(cpus, _ => 0), seq(cpus, _ => 0);
      cores, on := seq(cpus, _ => -1), seq(cpus, _ => -1);
      arrived, place := seq(|ps|, _ => false), seq(|ps|, _ => NotArrived);
      remaining := seq(|ps|, i requires 0 <= i < |ps| => ps[i].burst);
      metrics := seq(|ps|, _ => Metrics(0, 0, 0));
      timeline, completed, pushed, done := [], 0, {}, {};
    }

    /** push_back: each process is pushed once, so a deque of 100 slots never overflows. */
    method PushBack(c: nat, i: nat)
      requires c < |slots| == |front| == |rear| == |size| && rear[c] < |slots[c]|
      modifies this`slots, this`rear, this`size
      ensures slots == old(slots)[c := old(slots)[c][old(rear)[c] := i]]
      ensures rear == old(rear)[c := old(rear)[c] + 1] && size == old(size)[c := old(size)[c] + 1]
    {
      slots := slots[c := slots[c][rear[c] := i]];
      rear := rear[c := rear[c] + 1];
      size := size[c := size[c] + 1];
    }

    /** pop_front */
    method PopFront(c: nat) returns (i: int)
      requires c < |slots| == |front| == |rear| == |size| && (size[c] > 0 ==> front[c] < |slots[c]|)
      modifies this`front, this`size
      ensures old(size)[c] == 0 ==> i == -1 && front == old(front) && size == old(size)
      ensures old(size)[c] > 0 ==> i == slots[c][old(front)[c]]
      ensures old(size)[c] > 0 ==> front == old(front)[c := old(front)[c] + 1] && size == old(size)[c := old(size)[c] - 1]
    {
      if size[c] == 0 {
        return -1;
      }
      size := size[c := size[c] - 1];
      i := slots[c][front[c]];
      front := front[c := front[c] + 1];
    }

    /** pop_back */
    method PopBack(c: nat) returns (i: int)
      requires c < |slots| == |front| == |rear| == |size| && (size[c] > 0 ==> 0 < rear[c] <= |slots[c]|)
      modifies this`rear, this`size
      ensures old(size)[c] == 0 ==> i == -1 && rear == old(rear) && size == old(size)
      ensures old(size)[c] > 0 ==> i == slots[c][old(rear)[c] - 1]
      ensures old(size)[c] > 0 ==> rear == old(rear)[c := old(rear)[c] - 1] && size == old(size)[c := old(size)[c] - 1]
    {
      if size[c] == 0 {
        return -1;
      }
      size := size[c := size[c] - 1];
      rear := rear[c := rear[c] - 1];
      i := slots[c][rear[c]];
    }

    /** The first of the shortest deques. */
    method Shortest() returns (c: nat)
      requires cpus > 0 && |size| == cpus
      ensures c == ShortestOf(size, cpus)
    {
      c := 0;
      var d := 1;
      while d < cpus
        invariant 1 <= d <= cpus && c == ShortestOf(size, d)
      {
        if size[d] < size[c] {
          c := d;
        }
        d := d + 1;
      }
    }

    /** The first of the longest deques other than core i's; -1 if all of those are empty. */
    method Longest(i: nat) returns (c: int)
      requires i < cpus && |size| == cpus
      ensures c == LongestOf(size, i, cpus)
    {
      c := -1;
      var max, d := 0, 0;
      while d < cpus
        invariant 0 <= d <= cpus && c == LongestOf(size, i, d) && max == if c == -1 then 0 else size[c]
      {
        if d != i && size[d] > max {
          max, c := size[d], d;
        }
        d := d + 1;
      }
    }

    /** One arrival goes to the back of the shortest deque. */
    method ArriveOne(i: nat)
      requires Fits() && i < |ps| == |arrived| && !arrived[i] && cpus > 0
      modifies this`slots, this`rear, this`size, this`arrived, this`place, this`pushed
      ensures Fits() && |place| == |ps| && Now() == Sent(old(Now()), i)
      ensures i < |old(place)| && exists c: nat :: FirstShortest(old(size), c) && JoinedBack(old(Now()), Now(), c, i)
      ensures arrived == old(arrived)[i := true]
    {
      hide Valid, Tally, Mirrors, Input;
      ghost var w := Now();
      InputSize(ps);
      ShapeOf(w, |ps|, cpus);
      TallyMeans(arrived, place, pushed, rear, cpus, i);
      var c := Shortest();
      QueueFacts(w, |ps|, cpus, c);
      TallyRoom(arrived, place, pushed, rear, cpus, c, i);
      PushKeeps(w, |ps|, cpus, c, i);
      PushBack(c, i);
      arrived := arrived[i := true];
      place := place[i := Queued(c, w.rear[c])];
      pushed := pushed + {i};
      assert Now() == Push(w, c, i);
      assert FirstShortest(w.size, c) && JoinedBack(w, Now(), c, i);
    }

    /** Phase A: everything that arrives now. */
    method Arrive()
      requires Fits() && cpus > 0 && Accounts(ps, timeline, remaining, place) && Clean(ps, timeline, place)
      requires Arrivals(ps, place, |timeline| - 1)
      modifies this`slots, this`rear, this`size, this`arrived, this`place, this`pushed
      ensures Fits() && Accounts(ps, timeline, remaining, place) && Clean(ps, timeline, place)
      ensures Arrivals(ps, place, |timeline|) && Now() == Dispatched(ps, old(Now()), |timeline|, |ps|)
      ensures forall k: nat | k < |ps| :: place[k] == Done <==> old(place)[k] == Done
    {
      hide Valid, Executed, Tally, Mirrors, Sent;
      var i := 0;
      while i < |ps|
        invariant 0 <= i <= |ps| && Now() == Dispatched(ps, old(Now()), |timeline|, i)
        invariant Fits() && Accounts(ps, timeline, remaining, place) && Clean(ps, timeline, place)
        invariant forall k: nat | k < |ps| ::
                    place[k] == NotArrived <==> ps[k].arrival > (if k < i then |timeline| else |timeline| - 1)
        invariant forall k: nat | k < |ps| :: place[k] == Done <==> old(place)[k] == Done
      {
        TallyMeans(arrived, place, pushed, rear, cpus, i);
        if ps[i].arrival == |timeline| && !arrived[i] {
          ArriveOne(i);
        }
        i := i + 1;
      }
    }

    /** An idle core takes the first process of its own deque, else the last one of the longest. */
    method AssignCore(d: nat)
      requires Fits() && d < cpus && |on| == cpus && on[d] == -1
      modifies this`front, this`rear, this`size, this`cores, this`on, this`place
      ensures Fits() && |place| == |old(place)| && |on| == cpus && |size| == |old(size)| == cpus
      ensures Now() == Fetched(old(Now()), d)
      ensures on == old(on)[d := on[d]] && (forall c | 0 <= c < cpus :: size[c] <= old(size)[c])
      ensures on[d] == -1 ==> Drained(Now()) && place == old(place)
      ensures on[d] != -1 ==> 0 <= on[d] < |place| && old(place)[on[d]].Queued? && place == old(place)[on[d] := OnCore(d)]
      ensures on[d] != -1 ==> NextFor(old(Now()), d, on[d])
    {
      hide Valid, Tally, Mirrors, Input, Fetched, NextFor, LongestOf, Drained;
      ghost var w := Now();
      ShapeOf(w, |ps|, cpus);
      QueueFacts(w, |ps|, cpus, d);
      MirrorsNot(ps, cores, on, cpus);
      var c, atFront := d, true;
      var i := PopFront(d);
      if i == -1 {
        QueueFrontFacts(w, |ps|, cpus, d);
        var max := Longest(d);
        if max == -1 {
          FetchedNone(w, d);
          return;
        }
        QueueFacts(w, |ps|, cpus, max);
        c, atFront := max, false;
        i := PopBack(max);
      }
      QueueFacts(w, |ps|, cpus, c);
      QueueFrontFacts(w, |ps|, cpus, d);
      TakeKeeps(w, |ps|, cpus, c, atFront, d);
      assert i == Taken(w, c, atFront);
      NextIs(w, c, atFront, d);
      FetchedIs(w, c, atFront, d);
      TallyMove(arrived, place, pushed, w.rear, cpus, i, OnCore(d), rear);
      MirrorsSet(ps, cores, on, cpus, d, i);
      cores := cores[d := ps[i].pid];
      on := on[d := i];
      place := place[i := OnCore(d)];
      assert Now() == Take(w, c, atFront, d);
    }

    /** Phase B: afterwards no core is idle while any deque holds a process. */
    method Assign()
      requires Fits() && Accounts(ps, timeline, remaining, place) && Clean(ps, timeline, place) && Arrivals(ps, place, |timeline|)
      modifies this`front, this`rear, this`size, this`cores, this`on, this`place
      ensures Fits() && Accounts(ps, timeline, remaining, place) && Clean(ps, timeline, place)
      ensures Arrivals(ps, place, |timeline|) && (-1 in on ==> Drained(Now())) && Now() == AllFetched(old(Now()), cpus)
      ensures forall k: nat | k < |ps| :: place[k] == Done <==> old(place)[k] == Done
    {
      hide Valid, Executed, Tally, Mirrors, Input, Fetched;
      ShapeOf(Now(), |ps|, cpus);
      var d := 0;
      while d < cpus
        invariant Now() == AllFetched(old(Now()), d)
        invariant 0 <= d <= cpus && Fits() && |on| == |size| == cpus
        invariant Accounts(ps, timeline, remaining, place) && Clean(ps, timeline, place) && Arrivals(ps, place, |timeline|)
        invariant forall e | 0 <= e < d && on[e] == -1 :: Drained(Now())
        invariant forall k: nat | k < |ps| :: place[k] == Done <==> old(place)[k] == Done
      {
        IdleMeans(Now(), ps, cores, on, cpus, d);
        if cores[d] == -1 {
          AssignCore(d);
        }
        d := d + 1;
      }
    }

    /** The process with a given pid. */
    method Find(pid: int, ghost k: nat) returns (i: int)
      requires Input(ps) && k < |ps| && ps[k].pid == pid
      ensures i == k
    {
      i := -1;
      var j := 0;
      while j < |ps|
        invariant 0 <= j <= |ps| && j <= k && i == -1
      {
        if ps[j].pid == pid {
          return j;
        }
        j := j + 1;
      }
    }

    /** Core d runs for one tick; pid is what goes into the timeline. */
    method ExecuteCore(d: nat) returns (pid: int)
      requires Fits() && d < cpus && |on| == cpus && |remaining| == |metrics| == |place| == |ps|
      modifies this`cores, this`remaining, this`metrics, this`completed, this`on, this`place, this`done
      ensures Fits() && |on| == cpus && |remaining| == |metrics| == |place| == |ps|
      ensures old(on)[d] == -1 ==>
                && pid == 0 && on == old(on) && place == old(place) && remaining == old(remaining) && metrics == old(metrics)
                && done == old(done) && completed == old(completed)
      ensures old(on)[d] != -1 ==>
                var i := old(on)[d];
                && 0 <= i < |ps| && pid == ps[i].pid && old(place)[i] == OnCore(d)
                && remaining == old(remaining)[i := old(remaining)[i] - 1]
                && if old(remaining)[i] == 1 then
                     && on == old(on)[d := -1] && place == old(place)[i := Done] && done == old(done) + {i}
                     && completed == old(completed) + 1
                     && var f := |timeline| + 1;
                        metrics == old(metrics)[i := Metrics(f, f - ps[i].arrival, f - ps[i].arrival - ps[i].burst)]
                   else
                     && on == old(on) && place == old(place) && metrics == old(metrics)
                     && done == old(done) && completed == old(completed)
    {
      hide Valid, Tally, Mirrors, Input;
      ghost var w := Now();
      IdleMeans(w, ps, cores, on, cpus, d);
      if cores[d] == -1 {
        return 0;
      }
      pid := cores[d];
      var i := Find(pid, on[d]);
      remaining := remaining[i := remaining[i] - 1];
      if remaining[i] == 0 {
        Complete(d, i);
      }
    }

    /** The completion of process i on core d. */
    method Complete(d: nat, i: nat)
      requires Fits() && d < cpus && |on| == |cores| == cpus && |metrics| == |place| == |ps| && i < |ps| && on[d] == i
      modifies this`cores, this`metrics, this`completed, this`on, this`place, this`done
      ensures Fits() && on == old(on)[d := -1] && place == old(place)[i := Done] && done == old(done) + {i}
      ensures completed == old(completed) + 1
      ensures var f := |timeline| + 1;
              metrics == old(metrics)[i := Metrics(f, f - ps[i].arrival, f - ps[i].arrival - ps[i].burst)]
    {
      hide Valid, Tally, Mirrors, Input;
      ghost var w := Now();
      var f := |timeline| + 1;
      var turnaround := f - ps[i].arrival;
      metrics := metrics[i := Metrics(f, turnaround, turnaround - ps[i].burst)];
      completed := completed + 1;
      FinishKeeps(w, |ps|, cpus, d);
      ShapeOf(w, |ps|, cpus);
      TallyMove(arrived, place, pushed, rear, cpus, i, Done, rear);
      MirrorsClear(ps, cores, on, cpus, d);
      cores := cores[d := -1];
      on := on[d := -1];
      place := place[i := Done];
      done := done + {i};
      assert Now() == Finish(w, d);
    }

    /** Phase C: one unit of work on every busy core, and the tick's row of the timeline. */
    method Execute()
      requires Fits() && Accounts(ps, timeline, remaining, place) && Clean(ps, timeline, place)
      requires Books(ps, timeline, done, metrics, place, completed)
      requires forall k | 0 <= k < |on| :: -1 <= on[k] < |ps|
      modifies this`cores, this`remaining, this`metrics, this`completed, this`on, this`place, this`done, this`timeline
      ensures Fits() && timeline == old(timeline) + [Row(ps, old(on))]
      ensures Accounts(ps, timeline, remaining, place) && Clean(ps, timeline, place)
      ensures Books(ps, timeline, done, metrics, place, completed) && |place| == |old(place)|
      ensures forall k: nat | k < |place| :: place[k] == NotArrived <==> old(place)[k] == NotArrived
    {
      hide Valid, Tally, Mirrors, Input, Executed, Accounts, Clean, Books, Row, Progressed;
      ghost var w, rem, tl := Now(), remaining, timeline + [Row(ps, on)];
      ShapeOf(w, |ps|, cpus);
      AccountsShape(ps, timeline, remaining, place);
      ProgressNone(w, |ps|, cpus, rem);
      BooksRow(ps, timeline, w, cpus, rem, done, metrics, completed);
      BooksShape(ps, tl, done, metrics, place, completed);
      var row, d := [], 0;
      while d < cpus
        invariant 0 <= d <= cpus && Fits() && |row| == d && |on| == cpus && |remaining| == |metrics| == |place| == |ps|
        invariant Progressed(w, rem, d, remaining, place, on) && Books(ps, tl, done, metrics, place, completed)
        invariant row == Row(ps, w.on)[..d] && timeline == old(timeline)
      {
        ghost var place0, metrics0, done0, completed0, remaining0, on0 := place, metrics, done, completed, remaining, on;
        CoreStill(w, |ps|, cpus, rem, d, remaining, place, on);
        var pid := ExecuteCore(d);
        RowNext(ps, w.on, d, row, pid);
        row := row + [pid];
        if w.on[d] == -1 {
          ProgressIdle(w, |ps|, cpus, rem, d, remaining, place, on);
        } else {
          ghost var i := w.on[d];
          ProgressRun(w, |ps|, cpus, rem, d, remaining0, place0, on0, remaining, place, on);
          if rem[i] == 1 {
            BooksFinish(ps, timeline, w, cpus, rem, done0, metrics0, place0, completed0, i, metrics[i]);
          }
        }
        d := d + 1;
      }
      RowDone(ps, w.on, row);
      ProgressDone(w, |ps|, cpus, rem, remaining, place, on);
      AccountsNext(ps, timeline, w, cpus, rem, place);
      CleanNext(ps, timeline, w, cpus, rem, place);
      timeline := timeline + [row];
    }

    /** Between ticks: everything that was due has arrived, every past tick conserved work. */
    ghost predicate Steady()
      reads this
    {
      && Fits() && cpus > 0 && Accounts(ps, timeline, remaining, place) && Clean(ps, timeline, place)
      && Arrivals(ps, place, |timeline| - 1) && Books(ps, timeline, done, metrics, place, completed)
      && (forall t: nat | t < |timeline| :: |timeline[t]| == cpus && WorkTick(ps, timeline, t))
    }

    /** One turn of the main loop. */
    method Tick()
      requires Steady()
      modifies this
      ensures Steady() && |timeline| == |old(timeline)| + 1
      ensures var w := AllFetched(Dispatched(ps, old(Now()), |old(timeline)|, |ps|), cpus);
              && (forall d | 0 <= d < |w.on| :: -1 <= w.on[d] < |ps|)
              && timeline == old(timeline) + [Row(ps, w.on)]
    {
      hide Valid, Tally, Mirrors, Input, Executed, Accounts, Clean, Books, Row, Arrivals, WorkTick, Recorded;
      hide Dispatched, AllFetched;
      AccountsShape(ps, timeline, remaining, place);
      Arrive();
      AccountsShape(ps, timeline, remaining, place);
      BooksMoved(ps, timeline, done, metrics, old(place), place, completed);
      ghost var place1 := place;
      Assign();
      AccountsShape(ps, timeline, remaining, place);
      BooksMoved(ps, timeline, done, metrics, place1, place, completed);
      ghost var w, tl := Now(), timeline;
      TickConserves(ps, timeline, w, cpus, remaining);
      ShapeOf(w, |ps|, cpus);
      Execute();
      ArrivalsNext(ps, w.place, place, |tl|);
      forall t: nat | t < |timeline|
        ensures |timeline[t]| == cpus && WorkTick(ps, timeline, t)
      {
        if t < |tl| {
          WorkTickStays(ps, tl, Row(ps, w.on), t);
        }
      }
    }

    /** The whole simulation. */
    method Run()
      requires Steady()
      modifies this
      ensures Steady() && |timeline| >= |old(timeline)|
      ensures completed >= |ps| || |timeline| >= MAX_TIME
    {
      while completed < |ps| && |timeline| < MAX_TIME
        invariant Steady() && |timeline| >= |old(timeline)|
        decreases MAX_TIME - |timeline|
      {
        Tick();
      }
    }
  }

  /** run_work_steal: every tick conserves work; each process that was completed ran for exactly its
      burst, and its waiting time is the number of ticks it was present but did not run. The run
      ends when all are completed or the timeline is full. */
  method RunWorkSteal(ps: seq<Process>, cpus: nat) returns (tl: Timeline, metrics: seq<Metrics>, completed: nat, ghost done: set<nat>)
    requires Input(ps) && cpus > 0
    ensures forall t: nat | t < |tl| :: |tl[t]| == cpus && WorkTick(ps, tl, t)
    ensures completed == |done| && |metrics| == |ps| && (completed == |ps| || |tl| >= MAX_TIME)
    ensures forall i: nat :: i in done <==> i < |ps| && Executed(tl, ps[i].pid, |tl|) == ps[i].burst
    ensures forall i: nat | i in done :: Recorded(ps[i], tl, metrics[i])
  {
    var sim := new Simulator(ps, cpus);
    StartSteady(ps, sim.place);
    sim.Run();
    tl, metrics, completed, done := sim.timeline, sim.metrics, sim.completed, sim.done;
    DoneBound(done, |ps|);
    DoneMeans(ps, tl, sim.remaining, sim.place, done, metrics, completed);
  }

  // --- small facts for the methods ---

  /** A nonempty deque's first entry is a process. */
  lemma QueueFrontFacts(w: State, n: nat, m: nat, c: nat)
    requires Valid(w, n, m) && c < m
    ensures Shape(w, n, m) && (w.size[c] > 0 ==> w.front[c] < |w.slots[c]| && 0 <= w.slots[c][w.front[c]] < n)
  {
    assert QueueOk(w, n, m, c);
  }

  lemma MirrorsSet(ps: seq<Process>, cores: seq<int>, on: seq<int>, cpus: nat, d: nat, i: nat)
    requires Mirrors(ps, cores, on, cpus) && d < cpus && i < |ps|
    ensures Mirrors(ps, cores[d := ps[i].pid], on[d := i], cpus)
  {
  }

  lemma MirrorsNot(ps: seq<Process>, cores: seq<int>, on: seq<int>, cpus: nat)
    requires Mirrors(ps, cores, on, cpus)
    ensures |cores| == |on| == cpus
  {
  }

  /** A core shows -1 exactly when it is idle; otherwise the pid of its process. */
  lemma IdleMeans(w: State, ps: seq<Process>, cores: seq<int>, on: seq<int>, cpus: nat, d: nat)
    requires Input(ps) && Mirrors(ps, cores, on, cpus) && d < cpus && Valid(w, |ps|, cpus) && w.on == on
    ensures |cores| == |on| == cpus && (cores[d] == -1 <==> on[d] == -1)
    ensures on[d] != -1 ==> 0 <= on[d] < |ps| && cores[d] == ps[on[d]].pid && w.place[on[d]] == OnCore(d)
  {
    assert CoreOk(w, |ps|, cpus, d);
  }

  lemma MirrorsClear(ps: seq<Process>, cores: seq<int>, on: seq<int>, cpus: nat, d: nat)
    requires Mirrors(ps, cores, on, cpus) && d < cpus
    ensures Mirrors(ps, cores[d := -1], on[d := -1], cpus)
  {
  }

  lemma InputSize(ps: seq<Process>)
    requires Input(ps)
    ensures |ps| <= CAPACITY
  {
  }

  lemma TallyMeans(arrived: seq<bool>, place: seq<Place>, pushed: set<nat>, rear: seq<nat>, cpus: nat, i: nat)
    requires Tally(arrived, place, pushed, rear, cpus) && i < |place|
    ensures |arrived| == |place| && (arrived[i] <==> place[i] != NotArrived)
  {
  }

  lemma ShapeOf(w: State, n: nat, m: nat)
    requires Valid(w, n, m)
    ensures Shape(w, n, m)
  {
  }

  lemma QueueFacts(w: State, n: nat, m: nat, c: nat)
    requires Valid(w, n, m) && c < m
    ensures Shape(w, n, m) && |w.slots[c]| == CAPACITY && w.front[c] <= w.rear[c] <= CAPACITY && w.size[c] == w.rear[c] - w.front[c]
    ensures CoreOk(w, n, m, c)
  {
    assert QueueOk(w, n, m, c);
  }

  // --- the execution loop ---

  predicate RanBy(w: State, i: nat, d: nat)
    requires i < |w.place|
  {
    w.place[i].OnCore? && w.place[i].c < d
  }

  /** Cores before d have run. */
  ghost predicate Progressed(w: State, rem: seq<int>, d: nat, remaining: seq<int>, place: seq<Place>, on: seq<int>) {
    && |rem| == |remaining| == |place| == |w.place| && |on| == |w.on|
    && (forall i: nat | i < |place| ::
          && remaining[i] == rem[i] - (if RanBy(w, i, d) then 1 else 0)
          && place[i] == if RanBy(w, i, d) && rem[i] == 1 then Done else w.place[i])
    && (forall e: nat | d <= e < |on| :: on[e] == w.on[e])
  }

  lemma ProgressNone(w: State, n: nat, m: nat, rem: seq<int>)
    requires Valid(w, n, m) && |rem| == n
    ensures Progressed(w, rem, 0, rem, w.place, w.on)
  {
  }

  lemma CoreStill(w: State, n: nat, m: nat, rem: seq<int>, d: nat, remaining: seq<int>, place: seq<Place>, on: seq<int>)
    requires Valid(w, n, m) && Progressed(w, rem, d, remaining, place, on) && d < m
    ensures |w.on| == |on| == m && on[d] == w.on[d] && (on[d] != -1 ==> 0 <= on[d] < n == |rem| && w.place[on[d]] == OnCore(d))
    ensures on[d] != -1 ==> |remaining| == |place| == n && remaining[on[d]] == rem[on[d]] && place[on[d]] == OnCore(d)
  {
    assert CoreOk(w, n, m, d);
  }

  lemma ProgressIdle(w: State, n: nat, m: nat, rem: seq<int>, d: nat, remaining: seq<int>, place: seq<Place>, on: seq<int>)
    requires Valid(w, n, m) && Progressed(w, rem, d, remaining, place, on) && d < m && w.on[d] == -1
    ensures Progressed(w, rem, d + 1, remaining, place, on)
  {
    forall i: nat | i < |place|
      ensures RanBy(w, i, d + 1) == RanBy(w, i, d)
    {
      assert PlaceOk(w, n, m, i);
    }
  }

  lemma ProgressRun(w: State, n: nat, m: nat, rem: seq<int>, d: nat, remaining: seq<int>, place: seq<Place>, on: seq<int>,
                    remaining': seq<int>, place': seq<Place>, on': seq<int>)
    requires Valid(w, n, m) && Progressed(w, rem, d, remaining, place, on) && d < m && 0 <= w.on[d] < n == |remaining| == |place|
    requires remaining' == remaining[w.on[d] := remaining[w.on[d]] - 1] && |on'| == |on|
    requires place' == if rem[w.on[d]] == 1 then place[w.on[d] := Done] else place
    requires forall e: nat | e < |on| && e != d :: on'[e] == on[e]
    ensures Progressed(w, rem, d + 1, remaining', place', on')
  {
    assert CoreOk(w, n, m, d);
    forall i: nat | i < n
      ensures RanBy(w, i, d + 1) <==> RanBy(w, i, d) || i == w.on[d]
    {
      assert PlaceOk(w, n, m, i);
    }
  }

  lemma ProgressDone(w: State, n: nat, m: nat, rem: seq<int>, remaining: seq<int>, place: seq<Place>, on: seq<int>)
    requires Valid(w, n, m) && Progressed(w, rem, m, remaining, place, on)
    ensures |rem| == |w.place| && remaining == After(w, rem) && PlacesAfter(w, rem, place)
    ensures |place| == n && forall i: nat | i < n :: place[i] == NotArrived <==> w.place[i] == NotArrived
  {
    forall i: nat | i < n
      ensures RanBy(w, i, m) <==> w.place[i].OnCore?
    {
      assert PlaceOk(w, n, m, i);
    }
  }

  /** The completed processes, with their records. */
  ghost predicate Books(ps: seq<Process>, tl: Timeline, done: set<nat>, metrics: seq<Metrics>, place: seq<Place>, completed: nat) {
    && |metrics| == |place| == |ps| && completed == |done|
    && (forall i: nat :: i in done <==> i < |ps| && place[i] == Done)
    && (forall i: nat | i in done :: i < |ps| && Recorded(ps[i], tl, metrics[i]))
  }

  lemma BooksShape(ps: seq<Process>, tl: Timeline, done: set<nat>, metrics: seq<Metrics>, place: seq<Place>, completed: nat)
    requires Books(ps, tl, done, metrics, place, completed)
    ensures |metrics| == |place| == |ps| && completed == |done|
  {
  }

  lemma AccountsShape(ps: seq<Process>, tl: Timeline, remaining: seq<int>, place: seq<Place>)
    requires Accounts(ps, tl, remaining, place)
    ensures |remaining| == |place| == |ps|
  {
  }

  /** The records stay right when the tick's row is added, for the done do not run. */
  lemma BooksRow(ps: seq<Process>, tl: Timeline, w: State, m: nat, rem: seq<int>, done: set<nat>, metrics: seq<Metrics>, completed: nat)
    requires Input(ps) && Valid(w, |ps|, m) && Books(ps, tl, done, metrics, w.place, completed)
    ensures forall d | 0 <= d < m :: -1 <= w.on[d] < |ps|
    ensures Books(ps, tl + [Row(ps, w.on)], done, metrics, w.place, completed)
  {
    CoresInRange(w, |ps|, m);
    hide Valid, Recorded, Row;
    forall i: nat | i in done
      ensures Recorded(ps[i], tl + [Row(ps, w.on)], metrics[i])
    {
      InRow(ps, w, m, i);
      RecordedStays(ps[i], tl, Row(ps, w.on), metrics[i]);
    }
  }

  /** A process that finishes gets its record. */
  lemma BooksFinish(ps: seq<Process>, tl: Timeline, w: State, m: nat, rem: seq<int>, done: set<nat>, metrics: seq<Metrics>,
                    place: seq<Place>, completed: nat, i: nat, r: Metrics)
    requires Input(ps) && Valid(w, |ps|, m) && Accounts(ps, tl, rem, w.place) && Clean(ps, tl, w.place) && i < |ps|
    requires (forall d | 0 <= d < m :: -1 <= w.on[d] < |ps|) && |w.on| == m
    requires Books(ps, tl + [Row(ps, w.on)], done, metrics, place, completed) && |place| == |metrics| == |ps|
    requires w.place[i].OnCore? && place[i] != Done && rem[i] == 1
    requires r == Metrics(|tl| + 1, |tl| + 1 - ps[i].arrival, |tl| + 1 - ps[i].arrival - ps[i].burst)
    ensures Books(ps, tl + [Row(ps, w.on)], done + {i}, metrics[i := r], place[i := Done], completed + 1)
  {
    InRow(ps, w, m, i);
    RecordedNow(ps[i], tl, Row(ps, w.on), r);
    hide Recorded, Row, Executed;
    assert |done + {i}| == |done| + 1;
  }

  lemma RowNext(ps: seq<Process>, on: seq<int>, d: nat, row: seq<int>, pid: int)
    requires (forall k | 0 <= k < |on| :: -1 <= on[k] < |ps|) && d < |on| && row == Row(ps, on)[..d]
    requires pid == if on[d] == -1 then 0 else ps[on[d]].pid
    ensures row + [pid] == Row(ps, on)[..d + 1]
  {
  }

  lemma RowDone(ps: seq<Process>, on: seq<int>, row: seq<int>)
    requires (forall k | 0 <= k < |on| :: -1 <= on[k] < |ps|) && |row| == |on| && row == Row(ps, on)[..|on|]
    ensures row == Row(ps, on)
  {
  }

  // --- between phases ---

  lemma BooksMoved(ps: seq<Process>, tl: Timeline, done: set<nat>, metrics: seq<Metrics>, place: seq<Place>, place': seq<Place>,
                   completed: nat)
    requires Books(ps, tl, done, metrics, place, completed) && |place'| == |place| == |ps|
    requires forall k: nat | k < |ps| :: place'[k] == Done <==> place[k] == Done
    ensures Books(ps, tl, done, metrics, place', completed)
  {
  }

  lemma ArrivalsNext(ps: seq<Process>, place: seq<Place>, place': seq<Place>, t: int)
    requires Arrivals(ps, place, t) && |place'| == |place|
    requires forall k: nat | k < |place| :: place'[k] == NotArrived <==> place[k] == NotArrived
    ensures Arrivals(ps, place', t)
  {
  }

  lemma WorkTickStays(ps: seq<Process>, tl: Timeline, row: seq<int>, t: nat)
    requires t < |tl| && WorkTick(ps, tl, t)
    ensures WorkTick(ps, tl + [row], t)
  {
    var tl' := tl + [row];
    assert tl'[t] == tl[t];
    forall i: nat | i < |ps|
      ensures Ready(ps, tl', i, t) == Ready(ps, tl, i, t)
    {
      ExecutedPrefix(tl, row, ps[i].pid, t);
    }
    forall c | 0 <= c < |tl'[t]| && tl'[t][c] != 0
      ensures exists i | 0 <= i < |ps| :: ps[i].pid == tl'[t][c] && Ready(ps, tl', i, t)
    {
      var i :| 0 <= i < |ps| && ps[i].pid == tl[t][c] && Ready(ps, tl, i, t);
      assert Ready(ps, tl', i, t);
    }
  }

  lemma StartSteady(ps: seq<Process>, place: seq<Place>)
    requires Input(ps) && Arrivals(ps, place, -1) && |place| == |ps|
    ensures Clean(ps, [], place) && forall i: nat | i < |ps| :: place[i] == NotArrived
  {
  }

  lemma DoneBound(done: set<nat>, n: nat)
    requires forall i | i in done :: i < n
    ensures |done| <= n
  {
    SubsetCard(done, Indices(n));
  }

  lemma DoneMeans(ps: seq<Process>, tl: Timeline, remaining: seq<int>, place: seq<Place>, done: set<nat>, metrics: seq<Metrics>,
                  completed: nat)
    requires Accounts(ps, tl, remaining, place) && Books(ps, tl, done, metrics, place, completed)
    ensures forall i: nat :: i in done <==> i < |ps| && Executed(tl, ps[i].pid, |tl|) == ps[i].burst
  {
    hide Executed;
  }
}
