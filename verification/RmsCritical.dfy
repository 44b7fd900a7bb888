/** When the miss count of the rate-monotonic run is right. Whether a task ever misses a deadline is
    decided by its first period, in which all tasks are released together: by the work of the task
    and of those that go before it on its CPU. A run sees exactly the first periods that end before it.
 */
module RmsCritical {
  import opened Basics
  import opened Params
  import opened Lcm
  import opened Rms

  /** Task j is i, or goes before i on the same CPU. */
  predicate Level(ts: Tasks, i: nat, j: nat)
    requires ts.Valid() && i < |ts.p| && j < |ts.p|
  {
    ts.a[j] == ts.a[i] && (j == i || Before(ts, j, i))
  }

  /** The sum of v over the tasks below n of the level of i. */
  function Work(ts: Tasks, i: nat, v: seq<int>, n: nat): (w: int)
    requires ts.Valid() && i < |ts.p| && n <= |v| == |ts.p|
  {
    if n == 0 then 0 else Work(ts, i, v, n - 1) + (if Level(ts, i, n - 1) then v[n - 1] else 0)
  }

  /** Work of the level of i released before t: the sum of e * ceil(t / p). */
  function W(ts: Tasks, i: nat, t: nat): (w: int)
    requires ts.Valid() && i < |ts.p|
  {
    Work(ts, i, Demand(ts, t), |ts.p|)
  }

  /** Released together at time 0, the level of i catches up within the first period of i. */
  ghost predicate FitsFirst(ts: Tasks, i: nat)
    requires ts.Valid() && i < |ts.p|
  {
    exists t: nat :: 0 < t <= ts.p[i] && W(ts, i, t) <= t
  }

  // --- one tick of a level ---

  lemma {:induction false} WorkAdds(ts: Tasks, i: nat, u: seq<int>, v: seq<int>, w: seq<int>, n: nat)
    requires ts.Valid() && i < |ts.p| && n <= |u| == |v| == |w| == |ts.p|
    requires forall j | 0 <= j < n :: w[j] == u[j] + v[j]
    ensures Work(ts, i, w, n) == Work(ts, i, u, n) + Work(ts, i, v, n)
    decreases n
  {
    if n > 0 {
      WorkAdds(ts, i, u, v, w, n - 1);
    }
  }

  lemma {:induction false} WorkAtLeast(ts: Tasks, i: nat, r: seq<nat>, n: nat, j: nat)
    requires ts.Valid() && i < |ts.p| && j < n <= |r| == |ts.p|
    ensures Work(ts, i, r, n) >= if Level(ts, i, j) then r[j] else 0
    decreases n
  {
    if n > 1 {
      WorkAtLeast(ts, i, r, n - 1, if j < n - 1 then j else 0);
    }
  }

  lemma {:induction false} WorkNone(ts: Tasks, i: nat, r: seq<nat>, n: nat)
    requires ts.Valid() && i < |ts.p| && n <= |r| == |ts.p|
    requires forall j: nat | j < n && Level(ts, i, j) :: r[j] == 0
    ensures Work(ts, i, r, n) == 0
    decreases n
  {
    if n > 0 {
      WorkNone(ts, i, r, n - 1);
    }
  }

  /** The CPU of i runs a task of its level. */
  predicate Serves(ts: Tasks, i: nat, r1: seq<nat>)
    requires ts.Valid() && i < |ts.p| == |r1|
  {
    var k := Pick(ts, r1, ts.a[i], |r1|);
    k != -1 && Level(ts, i, k)
  }

  lemma {:induction false} WorkRan(ts: Tasks, i: nat, r1: seq<nat>, n: nat)
    requires ts.Valid() && i < |ts.p| && n <= |r1| == |ts.p|
    ensures var k := Pick(ts, r1, ts.a[i], |r1|);
            Work(ts, i, Ran(ts, r1, r1), n) == Work(ts, i, r1, n) - (if 0 <= k < n && Level(ts, i, k) then 1 else 0)
    decreases n
  {
    if n > 0 {
      WorkRan(ts, i, r1, n - 1);
      PickReady(ts, r1, ts.a[i]);
    }
  }

  /** A CPU that does not serve the level has nothing of it to run. */
  lemma ServesWhenLeft(ts: Tasks, i: nat, r1: seq<nat>, j: nat)
    requires ts.Valid() && i < |ts.p| == |r1| && j < |r1| && Level(ts, i, j) && r1[j] > 0
    ensures Serves(ts, i, r1)
  {
    var k := Pick(ts, r1, ts.a[i], |r1|);
    assert IsPick(ts, r1, ts.a[i], k, |r1|) && Ready(ts, r1, ts.a[i], j);
    assert j != k ==> Before(ts, k, j);
  }

  /** What the level has left at t. */
  function Pending(ts: Tasks, i: nat, t: nat): (w: int)
    requires ts.Valid() && i < |ts.p|
  {
    Work(ts, i, Left(ts, t), |ts.p|)
  }

  lemma DemandStep(ts: Tasks, i: nat, t: nat)
    requires ts.Valid() && i < |ts.p|
    ensures W(ts, i, t + 1) == W(ts, i, t) + Work(ts, i, Jobs(ts, t), |ts.p|)
  {
    hide Work, Jobs, Demand;
    forall j | 0 <= j < |ts.p|
      ensures Demand(ts, t + 1)[j] == Demand(ts, t)[j] + Jobs(ts, t)[j]
    {
      DemandNext(ts, t, j);
    }
    WorkAdds(ts, i, Demand(ts, t), Jobs(ts, t), Demand(ts, t + 1), |ts.p|);
  }

  /** In one tick the level gains its jobs and loses a unit if served; if not, nothing is left. */
  lemma LevelStep(ts: Tasks, i: nat, t: nat)
    requires ts.Valid() && i < |ts.p|
    ensures var r1 := Released(ts, Left(ts, t), t);
            && Pending(ts, i, t + 1) - W(ts, i, t + 1)
            == Pending(ts, i, t) - W(ts, i, t) - (if Serves(ts, i, r1) then 1 else 0)
            && (!Serves(ts, i, r1) ==> Pending(ts, i, t + 1) == 0)
  {
    LeftNext(ts, t);
    hide Left, Work, Pick, Demand, Level;
    var r := Left(ts, t);
    var r1 := Released(ts, r, t);
    WorkAdds(ts, i, r, Jobs(ts, t), r1, |r|);
    WorkRan(ts, i, r1, |r|);
    DemandStep(ts, i, t);
    forall j: nat | j < |r| && Level(ts, i, j) && r1[j] > 0
      ensures Serves(ts, i, r1)
    {
      ServesWhenLeft(ts, i, r1, j);
    }
    if !Serves(ts, i, r1) {
      WorkNone(ts, i, r1, |r|);
    }
  }

  lemma StartsClear(ts: Tasks, i: nat)
    requires ts.Valid() && i < |ts.p|
    ensures Pending(ts, i, 0) == W(ts, i, 0) == 0
  {
    StartsEmpty(ts, i, |ts.p|);
  }

  lemma {:induction false} StartsEmpty(ts: Tasks, i: nat, n: nat)
    requires ts.Valid() && i < |ts.p| && n <= |ts.p|
    ensures Work(ts, i, Left(ts, 0), n) == 0 && Work(ts, i, Demand(ts, 0), n) == 0
    decreases n
  {
    if n > 0 {
      StartsEmpty(ts, i, n - 1);
      RemainderIs(ts.p[n - 1] - 1, ts.p[n - 1], 0, ts.p[n - 1] - 1);
    }
  }

  // --- a level that fits is clear once in every period ---

  /** ceil((s + t) / p) <= ceil(s / p) + ceil(t / p) */
  lemma CeilSplits(s: nat, t: nat, p: nat)
    requires p > 0
    ensures (s + t + p - 1) / p <= (s + p - 1) / p + (t + p - 1) / p
  {
    var x, y := (s + p - 1) / p, (t + p - 1) / p;
    assert s + p - 1 == x * p + (s + p - 1) % p && t + p - 1 == y * p + (t + p - 1) % p;
    assert s <= x * p && t <= y * p;
    assert (x + y) * p == x * p + y * p;
    QuotientAtMost(s + t + p - 1, x + y, p);
  }

  lemma QuotientAtMost(x: nat, q: nat, p: nat)
    requires p > 0 && x <= q * p + p - 1
    ensures x / p <= q
  {
    var k := x / p;
    assert x == k * p + x % p;
    MulLess(p, q, k);
    assert p * q == q * p && p * k == k * p;
    assert p * (q + 1) == q * p + p;
    MulLess(p, q + 1, k);
  }

  lemma {:induction false} DemandSplits(ts: Tasks, i: nat, s: nat, t: nat, n: nat)
    requires ts.Valid() && i < |ts.p| && n <= |ts.p|
    ensures Work(ts, i, Demand(ts, s + t), n) <= Work(ts, i, Demand(ts, s), n) + Work(ts, i, Demand(ts, t), n)
    decreases n
  {
    if n > 0 {
      DemandSplits(ts, i, s, t, n - 1);
      var e, p := ts.e[n - 1], ts.p[n - 1];
      CeilSplits(s, t, p);
      var x, y := (s + p - 1) / p, (t + p - 1) / p;
      MulLe(e, (s + t + p - 1) / p, x + y);
      assert e * (x + y) == e * x + e * y;
    }
  }

  /** Some time s, fewer than t0 ticks before u, at which the level had nothing left. */
  lemma {:induction false} ClearSince(ts: Tasks, i: nat, t0: nat, u: nat) returns (s: nat)
    requires ts.Valid() && i < |ts.p| && 0 < t0 && W(ts, i, t0) <= t0
    ensures s <= u < s + t0 && Pending(ts, i, s) == 0
    ensures Pending(ts, i, u) == W(ts, i, u) - W(ts, i, s) - (u - s)
    decreases u
  {
    hide Work, W, Pending, Serves, Left, Released;
    if u == 0 {
      s := 0;
      StartsClear(ts, i);
    } else {
      s := ClearSince(ts, i, t0, u - 1);
      LevelStep(ts, i, u - 1);
      PendingAtLeast(ts, i, u, i);
      if !Serves(ts, i, Released(ts, Left(ts, u - 1), u - 1)) {
        s := u;
      } else if u == s + t0 {
        CaughtUp(ts, i, s, t0);
        s := u;
      }
    }
  }

  lemma CaughtUp(ts: Tasks, i: nat, s: nat, t: nat)
    requires ts.Valid() && i < |ts.p|
    ensures W(ts, i, s + t) - W(ts, i, s) <= W(ts, i, t)
  {
    DemandSplits(ts, i, s, t, |ts.p|);
  }

  lemma PendingAtLeast(ts: Tasks, i: nat, t: nat, j: nat)
    requires ts.Valid() && i < |ts.p| && j < |ts.p|
    ensures Pending(ts, i, t) >= if Level(ts, i, j) then Left(ts, t)[j] else 0
  {
    WorkAtLeast(ts, i, Left(ts, t), |ts.p|, j);
  }

  lemma {:induction false} NoNewJob(ts: Tasks, i: nat, s: nat, u: nat)
    requires ts.Valid() && i < |ts.p| && s <= u && Left(ts, s)[i] == 0
    requires forall v: nat | s <= v < u :: v % ts.p[i] != 0
    ensures Left(ts, u)[i] == 0
    decreases u
  {
    if s < u {
      NoNewJob(ts, i, s, u - 1);
      LeftNext(ts, u - 1);
    }
  }

  lemma NoMultipleBetween(v: nat, u: nat, p: nat)
    requires p > 0 && u % p == 0 && v < u < v + p
    ensures v % p != 0
  {
    var x, y := v / p, u / p;
    assert v == x * p + v % p && u == y * p;
    if v % p == 0 {
      assert (y - x) * p == u - v;
      Compare(y - x, 1, p);
      Compare(y - x, 0, p);
      assert false;
    }
  }

  /** A task that fits in its first period never misses a deadline. */
  lemma FitsNeverMisses(ts: Tasks, i: nat, t: nat)
    requires ts.Valid() && i < |ts.p| && FitsFirst(ts, i)
    ensures !Misses(ts, t, i)
  {
    hide Left, W, Pending;
    if t > 0 && t % ts.p[i] == 0 {
      var t0: nat :| 0 < t0 <= ts.p[i] && W(ts, i, t0) <= t0;
      var s := ClearSince(ts, i, t0, t);
      PendingAtLeast(ts, i, s, i);
      forall v: nat | s <= v < t
        ensures v % ts.p[i] != 0
      {
        NoMultipleBetween(v, t, ts.p[i]);
      }
      NoNewJob(ts, i, s, t);
    }
  }

  // --- a task that does not fit misses its first deadline ---

  lemma {:induction false} NeverClear(ts: Tasks, i: nat, t: nat)
    requires ts.Valid() && i < |ts.p|
    ensures Pending(ts, i, t) >= W(ts, i, t) - t
    decreases t
  {
    hide Work, W, Pending, Serves, Left, Released;
    if t == 0 {
      StartsClear(ts, i);
    } else {
      NeverClear(ts, i, t - 1);
      LevelStep(ts, i, t - 1);
    }
  }

  /** The tick in which i finishes leaves nothing of its level. */
  lemma LastOfLevel(ts: Tasks, i: nat, t: nat)
    requires ts.Valid() && i < |ts.p| && Released(ts, Left(ts, t), t)[i] > 0 && Left(ts, t + 1)[i] == 0
    ensures Pending(ts, i, t + 1) == 0
  {
    LeftNext(ts, t);
    hide Left, Work;
    var r1 := Released(ts, Left(ts, t), t);
    assert IsPick(ts, r1, ts.a[i], i, |r1|);
    forall j: nat | j < |r1| && Level(ts, i, j)
      ensures Ran(ts, r1, r1)[j] == 0
    {
      assert j != i ==> !Ready(ts, r1, ts.a[i], j);
    }
    WorkNone(ts, i, Ran(ts, r1, r1), |r1|);
  }

  lemma {:induction false} StaysUnfinished(ts: Tasks, i: nat, t: nat)
    requires ts.Valid() && i < |ts.p| && !FitsFirst(ts, i) && 0 < t <= ts.p[i]
    ensures Left(ts, t)[i] > 0
    decreases t
  {
    hide Left, W, Pending;
    if t == 1 {
      Mod0(ts.p[i]);
    } else {
      StaysUnfinished(ts, i, t - 1);
    }
    assert Released(ts, Left(ts, t - 1), t - 1)[i] > 0;
    NeverClear(ts, i, t);
    assert W(ts, i, t) > t;
    if Left(ts, t)[i] == 0 {
      LastOfLevel(ts, i, t - 1);
      assert false;
    }
  }

  lemma Mod0(p: nat)
    requires p > 0
    ensures 0 % p == 0 && p % p == 0
  {
  }

  /** The critical-instant theorem: task i never misses a deadline if and only if the work of its
      level, released together at time 0, is caught up with within its first period. If not, it
      misses its first deadline. */
  lemma CriticalInstant(ts: Tasks, i: nat)
    requires ts.Valid() && i < |ts.p|
    ensures FitsFirst(ts, i) <==> forall t: nat :: !Misses(ts, t, i)
    ensures !FitsFirst(ts, i) ==> Misses(ts, ts.p[i], i)
  {
    hide Left, W, FitsFirst;
    if FitsFirst(ts, i) {
      forall t: nat
        ensures !Misses(ts, t, i)
      {
        FitsNeverMisses(ts, i, t);
      }
    } else {
      StaysUnfinished(ts, i, ts.p[i]);
      Mod0(ts.p[i]);
      assert Misses(ts, ts.p[i], i);
    }
  }

  lemma TooEarly(ts: Tasks, i: nat, t: nat)
    requires ts.Valid() && i < |ts.p| && t < ts.p[i]
    ensures !Misses(ts, t, i)
  {
    hide Left;
    RemainderIs(t, ts.p[i], 0, t);
  }

  /** Before h, task i misses a deadline exactly if it does not fit and its first deadline is before h. */
  lemma SeenExactly(ts: Tasks, i: nat, h: nat)
    requires ts.Valid() && i < |ts.p|
    ensures (forall t: nat | t < h :: !Misses(ts, t, i)) <==> FitsFirst(ts, i) || ts.p[i] >= h
  {
    hide Misses, FitsFirst;
    CriticalInstant(ts, i);
    if ts.p[i] >= h {
      forall t: nat | t < h
        ensures !Misses(ts, t, i)
      {
        TooEarly(ts, i, t);
      }
    }
  }

  /** All deadlines are met for ever exactly if every task fits in its first period. */
  lemma SchedulableExactly(ts: Tasks)
    requires ts.Valid()
    ensures (forall end: nat :: NoMiss(ts, end)) <==> forall i: nat | i < |ts.p| :: FitsFirst(ts, i)
  {
    hide Misses, FitsFirst;
    forall i: nat | i < |ts.p|
      ensures FitsFirst(ts, i) <==> forall t: nat :: !Misses(ts, t, i)
    {
      CriticalInstant(ts, i);
    }
    if forall end: nat :: NoMiss(ts, end) {
      forall i: nat | i < |ts.p|
        ensures FitsFirst(ts, i)
      {
        forall t: nat
          ensures !Misses(ts, t, i)
        {
          assert NoMiss(ts, t + 1);
        }
      }
    }
    if forall i: nat | i < |ts.p| :: FitsFirst(ts, i) {
      forall end: nat
        ensures NoMiss(ts, end)
      {
        forall t: nat, i: nat | t < end && i < |ts.p|
          ensures !Misses(ts, t, i)
        {
          assert FitsFirst(ts, i);
        }
      }
    }
  }

  /** No miss before h exactly if every task whose first deadline is before h fits. */
  lemma NoMissExactly(ts: Tasks, h: nat)
    requires ts.Valid()
    ensures NoMiss(ts, h) <==> forall i: nat | i < |ts.p| && ts.p[i] < h :: FitsFirst(ts, i)
  {
    hide Misses, FitsFirst;
    forall i: nat | i < |ts.p|
      ensures (forall t: nat | t < h :: !Misses(ts, t, i)) <==> FitsFirst(ts, i) || ts.p[i] >= h
    {
      SeenExactly(ts, i, h);
    }
    if forall i: nat | i < |ts.p| && ts.p[i] < h :: FitsFirst(ts, i) {
      forall t: nat, i: nat | t < h && i < |ts.p|
        ensures !Misses(ts, t, i)
      {
        assert ts.p[i] >= h || FitsFirst(ts, i);
      }
    }
  }

  /** When the miss count of a run of any length h is right for all time: exactly if every task whose
      first deadline the run does not reach fits, or some task whose first deadline it reaches does
      not. The input decides this, before any run. */
  lemma MissesDecide(ts: Tasks, h: nat)
    requires ts.Valid()
    ensures (NoMiss(ts, h) <==> forall end: nat :: NoMiss(ts, end))
       <==> (forall i: nat | i < |ts.p| && ts.p[i] >= h :: FitsFirst(ts, i))
            || (exists i: nat | i < |ts.p| && ts.p[i] < h :: !FitsFirst(ts, i))
  {
    hide NoMiss, FitsFirst;
    SchedulableExactly(ts);
    NoMissExactly(ts, h);
  }

  /** The counters of a finished run, capped or not. Task by task the count is zero exactly if the
      task fits or its first deadline was not reached, so the total is right exactly as above. If the
      hyperperiod was not capped and no CPU is overloaded, busy times are the tasks' demand. */
  lemma RunProves(ts: Tasks, h: nat, m: seq<nat>)
    requires ts.Valid() && h == Min(LcmAll(ts.p), MAX_TIME) && |m| == |ts.p|
    requires forall i: nat | i < |m| :: m[i] == MissCount(ts, i, h)
    ensures forall i: nat | i < |m| :: m[i] == 0 <==> FitsFirst(ts, i) || ts.p[i] >= h
    ensures ((forall i: nat | i < |m| :: m[i] == 0) <==> forall end: nat :: NoMiss(ts, end))
       <==> (forall i: nat | i < |ts.p| && ts.p[i] >= h :: FitsFirst(ts, i))
            || (exists i: nat | i < |ts.p| && ts.p[i] < h :: !FitsFirst(ts, i))
    ensures LcmAll(ts.p) <= MAX_TIME && Fits(ts, h) ==>
              forall c: nat :: Busy(ts, c, h) == SumOn(ts, Share(ts, h), c, |ts.p|)
  {
    hide Left, Busy, SumOn, MissCount, Misses, NoMiss, LcmAll, CommonMultiple, Share, Fits, FitsFirst;
    forall i: nat | i < |m|
      ensures m[i] == 0 <==> FitsFirst(ts, i) || ts.p[i] >= h
    {
      MissCountZero(ts, i, h);
      SeenExactly(ts, i, h);
    }
    CountsClear(ts, h, m);
    MissesDecide(ts, h);
    if LcmAll(ts.p) <= MAX_TIME && Fits(ts, h) {
      BusyOfRun(ts, h);
    }
  }

  lemma BusyOfRun(ts: Tasks, h: nat)
    requires ts.Valid() && h == LcmAll(ts.p) && Fits(ts, h)
    ensures forall c: nat :: Busy(ts, c, h) == SumOn(ts, Share(ts, h), c, |ts.p|)
  {
    hide Left, Busy, SumOn, LcmAll, CommonMultiple, Share, Fits;
    LcmAllCommon(ts.p);
    NothingLeftExactly(ts, h);
    forall c: nat
      ensures Busy(ts, c, h) == SumOn(ts, Share(ts, h), c, |ts.p|)
    {
      BusyIsDemand(ts, c, h);
    }
  }

  // --- rates are the best fixed priorities ---

  /** The same tasks with other priorities. */
  function WithOrder(ts: Tasks, o: seq<nat>): (ts': Tasks) {
    ts.(o := o)
  }

  /** The last in priority of i and those of the first n tasks that go before i. */
  function LastOf(ts: Tasks, o: seq<nat>, i: nat, n: nat): (m: nat)
    requires ts.Valid() && i < |ts.p| == |o| && n <= |ts.p|
    ensures m < |ts.p| && Level(ts, i, m) && o[i] <= o[m]
    ensures forall j: nat | j < n && Level(ts, i, j) :: o[j] <= o[m]
  {
    if n == 0 then i
    else
      var m := LastOf(ts, o, i, n - 1);
      if Level(ts, i, n - 1) && o[n - 1] > o[m] then n - 1 else m
  }

  /** A larger level has more work. */
  lemma {:induction false} WorkMore(ts: Tasks, ts': Tasks, i: nat, m: nat, v: seq<int>, n: nat)
    requires ts.Valid() && ts'.Valid() && ts'.p == ts.p && i < |ts.p| && m < |ts.p| && n <= |v| == |ts.p|
    requires forall j: nat | j < n && Level(ts, i, j) :: Level(ts', m, j)
    requires forall j: nat | j < n :: v[j] >= 0
    ensures Work(ts, i, v, n) <= Work(ts', m, v, n)
    decreases n
  {
    if n > 0 {
      WorkMore(ts, ts', i, m, v, n - 1);
    }
  }

  lemma DemandNatural(ts: Tasks, t: nat, j: nat)
    requires ts.Valid() && j < |ts.p|
    ensures Demand(ts, t)[j] >= 0
  {
    Product(ts.e[j], (t + ts.p[j] - 1) / ts.p[j]);
  }

  /** If all tasks on the CPU of i fit under some priorities, i fits under rate priorities: let m be the
      last in priority of the tasks with at least the rate of i; its level holds all of them, and its
      first period is no longer than that of i. */
  lemma FitsByRate(ts: Tasks, o: seq<nat>, i: nat)
    requires ts.Valid() && RateMonotonic(ts) && i < |ts.p| && WithOrder(ts, o).Valid()
    requires forall j: nat | j < |ts.p| && ts.a[j] == ts.a[i] :: FitsFirst(WithOrder(ts, o), j)
    ensures FitsFirst(ts, i)
  {
    hide Demand, Work;
    var ts' := WithOrder(ts, o);
    var m := LastOf(ts, o, i, |ts.p|);
    assert FitsFirst(ts', m);
    var t: nat :| 0 < t <= ts.p[m] && W(ts', m, t) <= t;
    assert m != i ==> Rate(ts.p, m, i);
    forall j: nat | j < |ts.p| && Level(ts, i, j)
      ensures Level(ts', m, j)
    {
      assert o[j] <= o[m];
    }
    forall j: nat | j < |ts.p|
      ensures Demand(ts, t)[j] >= 0
    {
      DemandNatural(ts, t, j);
    }
    SameDemand(ts, o, t);
    WorkMore(ts, ts', i, m, Demand(ts, t), |ts.p|);
    assert W(ts, i, t) <= t;
  }

  lemma SameDemand(ts: Tasks, o: seq<nat>, t: nat)
    requires ts.Valid() && WithOrder(ts, o).Valid()
    ensures Demand(WithOrder(ts, o), t) == Demand(ts, t)
  {
  }

  /** Rate-monotonic priorities are optimal: if with some fixed priorities no task of CPU c ever misses
      a deadline, then none does with rate priorities. */
  lemma RateMonotonicOptimal(ts: Tasks, o: seq<nat>, c: nat)
    requires ts.Valid() && RateMonotonic(ts) && WithOrder(ts, o).Valid()
    requires forall i: nat, t: nat | i < |ts.p| && ts.a[i] == c :: !Misses(WithOrder(ts, o), t, i)
    ensures forall i: nat, t: nat | i < |ts.p| && ts.a[i] == c :: !Misses(ts, t, i)
  {
    hide Misses, FitsFirst, RateMonotonic;
    forall i: nat | i < |ts.p| && ts.a[i] == c
      ensures FitsFirst(WithOrder(ts, o), i)
    {
      CriticalInstant(WithOrder(ts, o), i);
    }
    forall i: nat, t: nat | i < |ts.p| && ts.a[i] == c
      ensures !Misses(ts, t, i)
    {
      FitsByRate(ts, o, i);
      CriticalInstant(ts, i);
    }
  }

  // --- what a run may not see ---

  /** A capped run: utilisation is below one and the run of 1000 ticks counts no miss, but the second
      task misses its first deadline. */
  lemma CappedRunIsSilent()
    ensures var ts := ByRate([600, 600], [1001, 1500], [0, 0]);
            && ts.Valid() && CommonMultiple(1501500, ts.p) && Fits(ts, 1501500)
            && Min(LcmAll(ts.p), MAX_TIME) == 1000 && NoMiss(ts, 1000) && Misses(ts, 1500, 1)
  {
    var ts := ByRate([600, 600], [1001, 1500], [0, 0]);
    CappedLength(ts.p);
    CappedFits();
    forall t: nat, i: nat | t < 1000 && i < 2
      ensures !Misses(ts, t, i)
    {
      TooEarly(ts, i, t);
    }
    CappedUnfit();
    CriticalInstant(ts, 1);
  }

  lemma CappedLength(p: seq<nat>)
    requires p == [1001, 1500]
    ensures CommonMultiple(1501500, p) && Min(LcmAll(p), MAX_TIME) == 1000
  {
    assert Divides(p[0], 1501500) && Divides(p[1], 1501500);
    LcmAllCommon(p);
    var l := LcmAll(p);
    assert Divides(p[1], l) && l > 0;
    assert l >= 1500;
  }

  lemma CappedFits()
    ensures Fits(ByRate([600, 600], [1001, 1500], [0, 0]), 1501500)
  {
    var ts := ByRate([600, 600], [1001, 1500], [0, 0]);
    var v := Share(ts, 1501500);
    assert v[0] == 900000 && v[1] == 600600;
    forall c: nat
      ensures SumOn(ts, v, c, 2) <= 1501500
    {
      assert SumOn(ts, v, c, 0) == 0 && SumOn(ts, v, c, 1) <= 900000;
      assert SumOn(ts, v, c, 2) == SumOn(ts, v, c, 1) + (if ts.a[1] == c then v[1] else 0);
    }
  }

  lemma CappedUnfit()
    ensures !FitsFirst(ByRate([600, 600], [1001, 1500], [0, 0]), 1)
  {
    var ts := ByRate([600, 600], [1001, 1500], [0, 0]);
    forall t: nat | 0 < t <= 1500
      ensures W(ts, 1, t) > t
    {
      var d := Demand(ts, t);
      assert d[0] == 600 * ((t + 1000) / 1001) && d[1] == 600 * ((t + 1499) / 1500);
      assert Work(ts, 1, d, 0) == 0 && Work(ts, 1, d, 1) == d[0];
      assert Work(ts, 1, d, 2) == d[0] + d[1];
    }
  }
}
