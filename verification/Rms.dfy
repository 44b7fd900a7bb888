/** The rate-monotonic simulation of rms.c, for tasks already assigned to CPUs. The schedule is defined
    for any fixed priorities; those of rms.c are the rates.
 */
module Rms {
  import opened Basics
  import opened Params
  import opened Lcm

  /** Execution times, periods, CPU and priority of each task; a smaller number goes first. */
  datatype Tasks = Tasks(e: seq<nat>, p: seq<nat>, a: seq<nat>, o: seq<nat>) {
    ghost predicate Valid() {
      && |e| == |p| == |a| == |o| && (forall i | 0 <= i < |p| :: e[i] > 0 && p[i] > 0)
      && (forall i, j | 0 <= i < j < |o| :: o[i] != o[j])
    }
  }

  /** A shorter period, then a lower number. */
  predicate Rate(p: seq<nat>, i: nat, j: nat)
    requires i < |p| && j < |p|
  {
    p[i] < p[j] || (p[i] == p[j] && i < j)
  }

  ghost predicate RateMonotonic(ts: Tasks)
    requires ts.Valid()
  {
    forall i: nat, j: nat | i < |ts.p| && j < |ts.p| :: Before(ts, i, j) <==> Rate(ts.p, i, j)
  }

  /** Tasks with the priorities that rms.c gives them. */
  function ByRate(e: seq<nat>, p: seq<nat>, a: seq<nat>): (ts: Tasks)
    requires |e| == |p| == |a| && forall i | 0 <= i < |p| :: e[i] > 0 && p[i] > 0
    ensures ts.e == e && ts.p == p && ts.a == a && ts.Valid() && RateMonotonic(ts)
  {
    var o := seq(|p|, i requires 0 <= i < |p| => p[i] * |p| + i);
    RatesOrdered(p, o);
    Tasks(e, p, a, o)
  }

  lemma RatesOrdered(p: seq<nat>, o: seq<nat>)
    requires |o| == |p| && forall i | 0 <= i < |p| :: o[i] == p[i] * |p| + i
    ensures forall i: nat, j: nat | i < |p| && j < |p| :: o[i] < o[j] <==> Rate(p, i, j)
    ensures forall i, j | 0 <= i < j < |o| :: o[i] != o[j]
  {
    forall i: nat, j: nat | i < |p| && j < |p|
      ensures o[i] < o[j] <==> Rate(p, i, j)
    {
      Compare(p[i], p[j], |p|);
    }
    forall i: nat, j: nat | i < j < |o|
      ensures o[i] != o[j]
    {
      Compare(p[i], p[j], |p|);
    }
  }

  // --- the schedule, for all time ---

  /** Remaining work once the jobs of tick t are released. */
  function Released(ts: Tasks, r: seq<nat>, t: nat): (r1: seq<nat>)
    requires ts.Valid() && |r| == |ts.p|
    ensures |r1| == |r|
  {
    seq(|r|, i requires 0 <= i < |r| => if t % ts.p[i] == 0 then r[i] + ts.e[i] else r[i])
  }

  predicate Ready(ts: Tasks, r: seq<nat>, c: nat, i: nat)
    requires ts.Valid() && |r| == |ts.p| && i < |r|
  {
    ts.a[i] == c && r[i] > 0
  }

  /** i has the higher priority. */
  predicate Before(ts: Tasks, i: nat, j: nat)
    requires i < |ts.o| && j < |ts.o|
  {
    ts.o[i] < ts.o[j]
  }

  /** k is the task CPU c runs: the first of its ready tasks, -1 if there is none. */
  ghost predicate IsPick(ts: Tasks, r: seq<nat>, c: nat, k: int, n: nat)
    requires ts.Valid() && n <= |r| == |ts.p|
  {
    if k == -1 then forall i: nat | i < n :: !Ready(ts, r, c, i)
    else 0 <= k < n && Ready(ts, r, c, k) && forall i: nat | i < n && Ready(ts, r, c, i) && i != k :: Before(ts, k, i)
  }

  /** The source's choice: the best of the ready tasks below n. */
  function Pick(ts: Tasks, r: seq<nat>, c: nat, n: nat): (k: int)
    requires ts.Valid() && n <= |r| == |ts.p|
    ensures -1 <= k < n && IsPick(ts, r, c, k, n)
  {
    if n == 0 then -1
    else
      var k := Pick(ts, r, c, n - 1);
      if Ready(ts, r, c, n - 1) && (k == -1 || Before(ts, n - 1, k)) then n - 1 else k
  }

  /** Remaining work at the end of tick t. */
  function Step(ts: Tasks, r: seq<nat>, t: nat): (r2: seq<nat>)
    requires ts.Valid() && |r| == |ts.p|
    ensures |r2| == |r|
  {
    var r1 := Released(ts, r, t);
    Ran(ts, r1, r1)
  }

  /** One unit taken off every task that its CPU picks. */
  function Ran(ts: Tasks, r: seq<nat>, r1: seq<nat>): (r2: seq<nat>)
    requires ts.Valid() && |r| == |r1| == |ts.p|
    ensures |r2| == |r|
  {
    seq(|r|, i requires 0 <= i < |r| => if Pick(ts, r1, ts.a[i], |r1|) == i && r[i] > 0 then r[i] - 1 else r[i])
  }

  /** Remaining work at the start of tick t. */
  function Left(ts: Tasks, t: nat): (r: seq<nat>)
    requires ts.Valid()
    ensures |r| == |ts.p|
  {
    if t == 0 then seq(|ts.p|, _ => 0) else Step(ts, Left(ts, t - 1), t - 1)
  }

  /** What CPU c runs in tick t: a task, or -1. */
  function Runs(ts: Tasks, t: nat, c: nat): (k: int)
    requires ts.Valid()
    ensures -1 <= k < |ts.p|
  {
    Pick(ts, Released(ts, Left(ts, t), t), c, |ts.p|)
  }

  /** A job of task i is released at t > 0 while the one before it is unfinished. */
  predicate Misses(ts: Tasks, t: nat, i: nat)
    requires ts.Valid() && i < |ts.p|
  {
    t > 0 && t % ts.p[i] == 0 && Left(ts, t)[i] > 0
  }

  ghost predicate NoMiss(ts: Tasks, h: nat)
    requires ts.Valid()
  {
    forall t: nat, i: nat | t < h && i < |ts.p| :: !Misses(ts, t, i)
  }

  // --- periodicity ---

  lemma ShiftMod(t: nat, h: nat, p: nat)
    requires p > 0 && h % p == 0
    ensures (t + h) % p == t % p
  {
    var q, s := h / p, t / p;
    assert h == q * p && t == s * p + t % p;
    assert (s + q) * p == s * p + q * p;
    assert t + h == (s + q) * p + t % p;
    RemainderIs(t + h, p, s + q, t % p);
  }

  lemma RemainderIs(x: nat, p: nat, q: nat, r: nat)
    requires p > 0 && x == q * p + r && r < p
    ensures x % p == r && x / p == q
  {
    Compare(x / p, q, p);
  }

  lemma LeftNext(ts: Tasks, t: nat)
    requires ts.Valid()
    ensures Left(ts, t + 1) == Step(ts, Left(ts, t), t)
  {
  }

  lemma ReleasedSame(ts: Tasks, r: seq<nat>, h: nat, t: nat)
    requires ts.Valid() && |r| == |ts.p| && CommonMultiple(h, ts.p)
    ensures Released(ts, r, t + h) == Released(ts, r, t)
  {
    forall i | 0 <= i < |ts.p|
      ensures (t + h) % ts.p[i] == t % ts.p[i]
    {
      assert Divides(ts.p[i], h);
      ShiftMod(t, h, ts.p[i]);
    }
  }

  lemma StepSame(ts: Tasks, r: seq<nat>, h: nat, t: nat)
    requires ts.Valid() && |r| == |ts.p| && CommonMultiple(h, ts.p)
    ensures Step(ts, r, t + h) == Step(ts, r, t)
  {
    hide Pick;
    ReleasedSame(ts, r, h, t);
  }

  /** Once a common multiple of the periods has passed and no work is left, everything repeats. */
  lemma {:induction false} Repeats(ts: Tasks, h: nat, t: nat)
    requires ts.Valid() && CommonMultiple(h, ts.p) && Left(ts, h) == Left(ts, 0)
    ensures Left(ts, t + h) == Left(ts, t)
    decreases t
  {
    hide Left, Step, CommonMultiple;
    if t > 0 {
      Repeats(ts, h, t - 1);
      LeftNext(ts, t - 1);
      LeftNext(ts, t - 1 + h);
      StepSame(ts, Left(ts, t - 1), h, t - 1);
    }
  }

  lemma {:induction false} RepeatsOften(ts: Tasks, h: nat, t: nat)
    requires ts.Valid() && CommonMultiple(h, ts.p) && Left(ts, h) == Left(ts, 0)
    ensures h > 0 && Left(ts, t) == Left(ts, t % h) && Released(ts, Left(ts, t), t) == Released(ts, Left(ts, t % h), t % h)
    decreases t
  {
    hide Left, Released, CommonMultiple;
    Positive(h, ts.p);
    ModStep(t, h);
    if t >= h {
      RepeatsOften(ts, h, t - h);
      Repeats(ts, h, t - h);
      ReleasedSame(ts, Left(ts, t), h, t - h);
    }
  }

  lemma Positive(h: nat, p: seq<nat>)
    requires (forall i | 0 <= i < |p| :: p[i] > 0) && CommonMultiple(h, p)
    ensures h > 0 && forall i | 0 <= i < |p| :: h % p[i] == 0
  {
    assert forall i | 0 <= i < |p| :: Divides(p[i], h);
  }

  lemma ModStep(t: nat, h: nat)
    requires h > 0
    ensures t < h ==> t % h == t
    ensures t >= h ==> t % h == (t - h) % h
  {
    if t >= h {
      var q, s := (t - h) / h, (t - h) % h;
      assert t - h == q * h + s;
      assert (q + 1) * h == q * h + h;
      RemainderIs(t, h, q + 1, s);
    } else {
      RemainderIs(t, h, 0, t);
    }
  }

  /** Reducing modulo a multiple of p first does not matter. */
  lemma ModMod(t: nat, h: nat, p: nat)
    requires h > 0 && p > 0 && h % p == 0
    ensures t % h % p == t % p
  {
    assert t == t / h * h + t % h;
    MultipleMod(t % h, t / h, h, p);
  }

  /** A simulation over a common multiple of the periods that ends with no miss and no work left
      decides the whole future: the timeline repeats with period h and no deadline is ever missed. */
  lemma HyperperiodSuffices(ts: Tasks, h: nat)
    requires ts.Valid() && CommonMultiple(h, ts.p) && Left(ts, h) == seq(|ts.p|, _ => 0) && NoMiss(ts, h)
    ensures forall t: nat, c: nat :: Runs(ts, t, c) == Runs(ts, t % h, c)
    ensures forall end: nat :: NoMiss(ts, end)
  {
    assert h > 0 && Left(ts, h) == Left(ts, 0);
    hide Left, Released, CommonMultiple, Pick;
    forall t: nat, c: nat
      ensures Runs(ts, t, c) == Runs(ts, t % h, c)
    {
      RepeatsOften(ts, h, t);
    }
    forall t: nat, i: nat | i < |ts.p|
      ensures !Misses(ts, t, i)
    {
      NeverMisses(ts, h, t, i);
    }
  }

  lemma NeverMisses(ts: Tasks, h: nat, t: nat, i: nat)
    requires ts.Valid() && CommonMultiple(h, ts.p) && Left(ts, h) == Left(ts, 0) && NoMiss(ts, h) && i < |ts.p|
    ensures !Misses(ts, t, i)
  {
    assert Left(ts, 0)[i] == 0;
    hide Left, CommonMultiple, Released;
    Positive(h, ts.p);
    RepeatsOften(ts, h, t);
    ModMod(t, h, ts.p[i]);
    assert !Misses(ts, t % h, i);
  }

  lemma {:induction false} MultipleMod(s: nat, k: nat, h: nat, p: nat)
    requires p > 0 && h % p == 0
    ensures (k * h + s) % p == s % p
    decreases k
  {
    if k > 0 {
      MultipleMod(s, k - 1, h, p);
      ShiftMod((k - 1) * h + s, h, p);
      assert k * h == (k - 1) * h + h;
    }
  }

  // --- conservation of work ---

  /** The sum of v over the tasks below n that are on CPU c. */
  function SumOn(ts: Tasks, v: seq<int>, c: nat, n: nat): (s: int)
    requires ts.Valid() && n <= |v| == |ts.p|
  {
    if n == 0 then 0 else SumOn(ts, v, c, n - 1) + (if ts.a[n - 1] == c then v[n - 1] else 0)
  }

  /** Ticks before t in which CPU c ran something. */
  function Busy(ts: Tasks, c: nat, t: nat): (b: nat)
    requires ts.Valid()
  {
    if t == 0 then 0 else Busy(ts, c, t - 1) + (if Runs(ts, t - 1, c) == -1 then 0 else 1)
  }

  /** Work of each task released before t: one job at every multiple of its period. */
  function Demand(ts: Tasks, t: nat): (d: seq<int>)
    requires ts.Valid()
    ensures |d| == |ts.p|
  {
    seq(|ts.p|, i requires 0 <= i < |ts.p| => ts.e[i] * ((t + ts.p[i] - 1) / ts.p[i]))
  }

  lemma NextRelease(t: nat, p: nat)
    requires p > 0
    ensures (t + 1 + p - 1) / p == (t + p - 1) / p + (if t % p == 0 then 1 else 0)
  {
    var q, r := t / p, t % p;
    assert t == q * p + r;
    assert (q + 1) * p == q * p + p;
    RemainderIs(t + p, p, q + 1, r);
    if r == 0 {
      RemainderIs(t + p - 1, p, q, p - 1);
    } else {
      RemainderIs(t + p - 1, p, q + 1, r - 1);
    }
  }

  /** Adding two amounts task by task. */
  lemma {:induction false} SumAdds(ts: Tasks, u: seq<int>, v: seq<int>, w: seq<int>, c: nat, n: nat)
    requires ts.Valid() && n <= |u| == |v| == |w| == |ts.p|
    requires forall i | 0 <= i < n && ts.a[i] == c :: w[i] == u[i] + v[i]
    ensures SumOn(ts, w, c, n) == SumOn(ts, u, c, n) + SumOn(ts, v, c, n)
    decreases n
  {
    if n > 0 {
      SumAdds(ts, u, v, w, c, n - 1);
    }
  }

  /** One tick takes one unit off the tasks of a CPU that runs something. */
  lemma {:induction false} SumRan(ts: Tasks, r1: seq<nat>, c: nat, n: nat)
    requires ts.Valid() && n <= |r1| == |ts.p|
    ensures var k := Pick(ts, r1, c, |r1|);
            SumOn(ts, Ran(ts, r1, r1), c, n) == SumOn(ts, r1, c, n) - (if 0 <= k < n then 1 else 0)
    decreases n
  {
    if n > 0 {
      SumRan(ts, r1, c, n - 1);
      assert Pick(ts, r1, c, |r1|) == n - 1 ==> Ready(ts, r1, c, n - 1);
    }
  }

  /** The jobs released at t. */
  function Jobs(ts: Tasks, t: nat): (d: seq<int>)
    requires ts.Valid()
    ensures |d| == |ts.p|
  {
    seq(|ts.p|, i requires 0 <= i < |ts.p| => if t % ts.p[i] == 0 then ts.e[i] else 0)
  }

  lemma DemandNext(ts: Tasks, t: nat, i: nat)
    requires ts.Valid() && i < |ts.p|
    ensures Demand(ts, t + 1)[i] == Demand(ts, t)[i] + Jobs(ts, t)[i]
  {
    NextRelease(t, ts.p[i]);
    var q := (t + ts.p[i] - 1) / ts.p[i];
    assert ts.e[i] * (q + 1) == ts.e[i] * q + ts.e[i];
  }

  lemma DemandSum(ts: Tasks, c: nat, t: nat)
    requires ts.Valid()
    ensures SumOn(ts, Demand(ts, t + 1), c, |ts.p|) == SumOn(ts, Demand(ts, t), c, |ts.p|) + SumOn(ts, Jobs(ts, t), c, |ts.p|)
  {
    hide SumOn, Jobs, Demand;
    forall i | 0 <= i < |ts.p|
      ensures Demand(ts, t + 1)[i] == Demand(ts, t)[i] + Jobs(ts, t)[i]
    {
      DemandNext(ts, t, i);
    }
    SumAdds(ts, Demand(ts, t), Jobs(ts, t), Demand(ts, t + 1), c, |ts.p|);
  }

  lemma LeftSum(ts: Tasks, r: seq<nat>, c: nat, t: nat)
    requires ts.Valid() && |r| == |ts.p|
    ensures SumOn(ts, Step(ts, r, t), c, |r|)
         == SumOn(ts, r, c, |r|) + SumOn(ts, Jobs(ts, t), c, |r|)
            - (if Pick(ts, Released(ts, r, t), c, |r|) == -1 then 0 else 1)
  {
    hide SumOn, Pick;
    SumAdds(ts, r, Jobs(ts, t), Released(ts, r, t), c, |r|);
    SumRan(ts, Released(ts, r, t), c, |r|);
  }

  /** What was released on a CPU by time t was run or is left. */
  lemma {:induction false} WorkConserved(ts: Tasks, c: nat, t: nat)
    requires ts.Valid()
    ensures Busy(ts, c, t) + SumOn(ts, Left(ts, t), c, |ts.p|) == SumOn(ts, Demand(ts, t), c, |ts.p|)
    decreases t
  {
    if t == 0 {
      ZeroSums(ts, c, |ts.p|);
    } else {
      WorkConserved(ts, c, t - 1);
      ConservedNext(ts, c, t - 1);
    }
  }

  lemma ConservedNext(ts: Tasks, c: nat, t: nat)
    requires ts.Valid()
    requires Busy(ts, c, t) + SumOn(ts, Left(ts, t), c, |ts.p|) == SumOn(ts, Demand(ts, t), c, |ts.p|)
    ensures Busy(ts, c, t + 1) + SumOn(ts, Left(ts, t + 1), c, |ts.p|) == SumOn(ts, Demand(ts, t + 1), c, |ts.p|)
  {
    hide SumOn, Jobs, Demand, Step, Pick, Released, Left;
    LeftNext(ts, t);
    DemandSum(ts, c, t);
    LeftSum(ts, Left(ts, t), c, t);
  }

  lemma {:induction false} ZeroSums(ts: Tasks, c: nat, n: nat)
    requires ts.Valid() && n <= |ts.p|
    ensures SumOn(ts, Left(ts, 0), c, n) == 0 && SumOn(ts, Demand(ts, 0), c, n) == 0
    decreases n
  {
    if n > 0 {
      ZeroSums(ts, c, n - 1);
      RemainderIs(ts.p[n - 1] - 1, ts.p[n - 1], 0, ts.p[n - 1] - 1);
    }
  }

  /** e[i] * h / p[i] */
  function Share(ts: Tasks, h: nat): (d: seq<int>)
    requires ts.Valid()
    ensures |d| == |ts.p|
  {
    seq(|ts.p|, i requires 0 <= i < |ts.p| => ts.e[i] * h / ts.p[i])
  }

  /** With no work left after a common multiple h of the periods, CPU c was busy for exactly the
      sum of e[i] * h / p[i] over its tasks. */
  lemma BusyIsDemand(ts: Tasks, c: nat, h: nat)
    requires ts.Valid() && CommonMultiple(h, ts.p) && Left(ts, h) == seq(|ts.p|, _ => 0)
    ensures Busy(ts, c, h) == SumOn(ts, Share(ts, h), c, |ts.p|)
  {
    hide Left, SumOn, Busy;
    WorkConserved(ts, c, h);
    NothingLeft(ts, c, h, |ts.p|);
    DemandIsShare(ts, h);
  }

  lemma ShareIs(e: nat, h: nat, p: nat)
    requires p > 0 && h % p == 0
    ensures e * ((h + p - 1) / p) == e * h / p
  {
    var q := h / p;
    assert h == q * p;
    RemainderIs(h + p - 1, p, q, p - 1);
    assert e * (q * p) == (e * q) * p;
    ModIs(e * h, p, e * q);
  }

  lemma {:induction false} NothingLeft(ts: Tasks, c: nat, h: nat, n: nat)
    requires ts.Valid() && Left(ts, h) == seq(|ts.p|, _ => 0) && n <= |ts.p|
    ensures SumOn(ts, Left(ts, h), c, n) == 0
    decreases n
  {
    if n > 0 {
      NothingLeft(ts, c, h, n - 1);
    }
  }

  // --- what the run can tell ---

  /** A run of length h that counts no miss is no proof of schedulability: with one task of period 1
      and execution time 2 the run has length 1 and no tick in which to notice the overload. */
  lemma SilentOverload()
    ensures var ts := ByRate([2], [1], [0]);
            ts.Valid() && LcmAll(ts.p) == 1 && NoMiss(ts, 1) && Misses(ts, 1, 0)
  {
    var ts := ByRate([2], [1], [0]);
    assert Gcd(1, 1) == Gcd(1, 0) == 1;
    assert ts.p[..0] == [];
    assert LcmAll(ts.p) == LcmOf(LcmAll(ts.p[..0]), 1);
    var r1 := Released(ts, Left(ts, 0), 0);
    assert r1 == [2] && Pick(ts, r1, 0, 1) <= 0;
    assert Left(ts, 1) == Step(ts, Left(ts, 0), 0);
    assert Left(ts, 1)[0] >= 1;
  }

  /** Exactly what a run must show: over a common multiple h of the periods, no deadline is ever
      missed if and only if none is missed before h and no work is left at h. */
  lemma ScheduleExact(ts: Tasks, h: nat)
    requires ts.Valid() && CommonMultiple(h, ts.p)
    ensures (forall end: nat :: NoMiss(ts, end)) <==> NoMiss(ts, h) && Left(ts, h) == seq(|ts.p|, _ => 0)
  {
    if NoMiss(ts, h) && Left(ts, h) == seq(|ts.p|, _ => 0) {
      HyperperiodSuffices(ts, h);
    }
    if forall end: nat :: NoMiss(ts, end) {
      assert NoMiss(ts, h) && NoMiss(ts, h + 1);
      forall i: nat | i < |ts.p|
        ensures Left(ts, h)[i] == 0
      {
        assert !Misses(ts, h, i) && Divides(ts.p[i], h);
      }
    }
  }

  // --- utilisation decides what is left ---

  /** Every CPU's tasks ask for at most h units in h ticks: utilisation at most one. */
  ghost predicate Fits(ts: Tasks, h: nat)
    requires ts.Valid()
  {
    forall c: nat :: SumOn(ts, Share(ts, h), c, |ts.p|) <= h
  }

  lemma {:induction false} NonNegative(ts: Tasks, r: seq<nat>, c: nat, n: nat, i: nat)
    requires ts.Valid() && i < n <= |r| == |ts.p|
    ensures SumOn(ts, r, c, n) >= if ts.a[i] == c then r[i] else 0
    decreases n
  {
    if n > 1 {
      NonNegative(ts, r, c, n - 1, if i < n - 1 then i else 0);
    }
  }

  /** A CPU with nothing to run has nothing waiting. */
  lemma {:induction false} IdleSum(ts: Tasks, r: seq<nat>, c: nat, n: nat)
    requires ts.Valid() && n <= |r| == |ts.p| && forall i: nat | i < n :: !Ready(ts, r, c, i)
    ensures SumOn(ts, r, c, n) == 0
    decreases n
  {
    if n > 0 {
      IdleSum(ts, r, c, n - 1);
      assert !Ready(ts, r, c, n - 1);
    }
  }

  lemma IdleLeavesNothing(ts: Tasks, r: seq<nat>, c: nat, t: nat)
    requires ts.Valid() && |r| == |ts.p| && Pick(ts, Released(ts, r, t), c, |r|) == -1
    ensures SumOn(ts, Step(ts, r, t), c, |r|) == 0
  {
    var r1 := Released(ts, r, t);
    IdleSum(ts, r1, c, |r|);
    SumRan(ts, r1, c, |r|);
  }

  /** The start s of the busy stretch that t is in: since s CPU c has run one unit in every tick. */
  lemma {:induction false} BusySince(ts: Tasks, c: nat, t: nat) returns (s: nat)
    requires ts.Valid()
    ensures s <= t
    ensures SumOn(ts, Left(ts, t), c, |ts.p|)
         == SumOn(ts, Demand(ts, t), c, |ts.p|) - SumOn(ts, Demand(ts, s), c, |ts.p|) - (t - s)
    decreases t
  {
    if t == 0 {
      s := 0;
      ZeroSums(ts, c, |ts.p|);
    } else {
      hide SumOn, Jobs, Demand, Step, Pick, Released;
      LeftNext(ts, t - 1);
      hide Left;
      var r := Left(ts, t - 1);
      if Pick(ts, Released(ts, r, t - 1), c, |r|) == -1 {
        s := t;
        IdleLeavesNothing(ts, r, c, t - 1);
      } else {
        s := BusySince(ts, c, t - 1);
        DemandSum(ts, c, t - 1);
        LeftSum(ts, r, c, t - 1);
      }
    }
  }

  /** e * ceil(s / p) is at least the share s / h of e * h / p. */
  lemma DenseJob(e: nat, p: nat, h: nat, s: nat)
    requires p > 0 && h % p == 0
    ensures h * (e * ((s + p - 1) / p)) >= s * (e * h / p)
  {
    var q, k := h / p, (s + p - 1) / p;
    assert h == q * p && s + p - 1 == k * p + (s + p - 1) % p;
    assert k * p >= s;
    assert e * h / p == e * q by {
      assert e * (q * p) == (e * q) * p;
      ModIs(e * h, p, e * q);
    }
    DenseProduct(e, q, k, p, s);
  }

  lemma DenseProduct(e: nat, q: nat, k: nat, p: nat, s: nat)
    requires k * p >= s
    ensures (q * p) * (e * k) >= s * (e * q)
  {
    assert (q * p) * (e * k) == (e * q) * (k * p);
    MulLe(e * q, s, k * p);
  }

  lemma MulLe(x: nat, y: nat, z: nat)
    requires y <= z
    ensures x * y <= x * z
  {
    assert x * z == x * y + x * (z - y);
  }

  /** Jobs come early: by time s at least the share s / h of the demand of h has been released. */
  lemma {:induction false} DemandDense(ts: Tasks, c: nat, h: nat, s: nat, n: nat)
    requires ts.Valid() && CommonMultiple(h, ts.p) && n <= |ts.p|
    ensures h * SumOn(ts, Demand(ts, s), c, n) >= s * SumOn(ts, Share(ts, h), c, n)
    decreases n
  {
    if n > 0 {
      DemandDense(ts, c, h, s, n - 1);
      assert Divides(ts.p[n - 1], h);
      DenseJob(ts.e[n - 1], ts.p[n - 1], h, s);
      Spread(h, SumOn(ts, Demand(ts, s), c, n - 1), Demand(ts, s)[n - 1]);
      Spread(s, SumOn(ts, Share(ts, h), c, n - 1), Share(ts, h)[n - 1]);
    }
  }

  lemma Spread(x: int, y: int, z: int)
    ensures x * (y + z) == x * y + x * z
  {
  }

  lemma DemandIsShare(ts: Tasks, h: nat)
    requires ts.Valid() && CommonMultiple(h, ts.p)
    ensures Demand(ts, h) == Share(ts, h)
  {
    forall i: nat | i < |ts.p|
      ensures Demand(ts, h)[i] == Share(ts, h)[i]
    {
      assert Divides(ts.p[i], h);
      ShareIs(ts.e[i], h, ts.p[i]);
    }
  }

  /** The tail of the demand is no denser than the whole. */
  lemma TailFits(h: nat, s: nat, whole: int, early: int)
    requires 0 < h && s <= h && whole <= h && h * early >= s * whole
    ensures whole - early <= h - s
  {
    assert (h - s) * (h - whole) >= 0;
    assert (h - s) * (h - whole) == h * (h - s) - (h * whole - s * whole);
    assert h * (whole - early) == h * whole - h * early;
    MulLess(h, h - s, whole - early);
  }

  lemma MulLess(h: nat, x: int, y: int)
    requires h > 0
    ensures x < y ==> h * x < h * y
  {
  }

  lemma LeftIsNone(ts: Tasks, c: nat, h: nat)
    requires ts.Valid() && CommonMultiple(h, ts.p) && SumOn(ts, Share(ts, h), c, |ts.p|) <= h
    ensures SumOn(ts, Left(ts, h), c, |ts.p|) <= 0
  {
    hide Left, SumOn, Demand, Share, CommonMultiple;
    Positive(h, ts.p);
    var s := BusySince(ts, c, h);
    DemandIsShare(ts, h);
    DemandDense(ts, c, h, s, |ts.p|);
    TailFits(h, s, SumOn(ts, Share(ts, h), c, |ts.p|), SumOn(ts, Demand(ts, s), c, |ts.p|));
  }

  lemma {:induction false} BusyAtMost(ts: Tasks, c: nat, t: nat)
    requires ts.Valid()
    ensures Busy(ts, c, t) <= t
    decreases t
  {
    hide Runs;
    if t > 0 {
      BusyAtMost(ts, c, t - 1);
    }
  }

  /** Whether work is left after a common multiple of the periods is decided by utilisation alone,
      whatever the priorities did. */
  lemma NothingLeftExactly(ts: Tasks, h: nat)
    requires ts.Valid() && CommonMultiple(h, ts.p)
    ensures Left(ts, h) == seq(|ts.p|, _ => 0) <==> Fits(ts, h)
  {
    hide Left, SumOn, Busy, Share, CommonMultiple;
    if Fits(ts, h) {
      forall i: nat | i < |ts.p|
        ensures Left(ts, h)[i] == 0
      {
        LeftIsNone(ts, ts.a[i], h);
        NonNegative(ts, Left(ts, h), ts.a[i], |ts.p|, i);
      }
    }
    if Left(ts, h) == seq(|ts.p|, _ => 0) {
      forall c: nat
        ensures SumOn(ts, Share(ts, h), c, |ts.p|) <= h
      {
        BusyIsDemand(ts, c, h);
        BusyAtMost(ts, c, h);
      }
    }
  }

  /** A run over a common multiple of the periods: without overload its misses tell everything, and
      an overloaded CPU misses a deadline at h at the latest, one tick after such a run has ended. */
  lemma FullRunDecides(ts: Tasks, h: nat)
    requires ts.Valid() && CommonMultiple(h, ts.p)
    ensures Fits(ts, h) ==> (NoMiss(ts, h) <==> forall end: nat :: NoMiss(ts, end))
    ensures !Fits(ts, h) ==> !NoMiss(ts, h + 1)
  {
    hide Left, SumOn, Share, CommonMultiple, Fits, Misses;
    NothingLeftExactly(ts, h);
    ScheduleExact(ts, h);
    if !Fits(ts, h) {
      OverloadShows(ts, h);
    }
  }

  lemma OverloadShows(ts: Tasks, h: nat)
    requires ts.Valid() && CommonMultiple(h, ts.p) && Left(ts, h) != seq(|ts.p|, _ => 0)
    ensures !NoMiss(ts, h + 1)
  {
    hide Left, CommonMultiple;
    Positive(h, ts.p);
    var r := Left(ts, h);
    ZeroSeq(r);
    var i: nat :| i < |ts.p| && r[i] != 0;
    assert Misses(ts, h, i);
  }

  lemma ZeroSeq(r: seq<nat>)
    ensures (forall i: nat | i < |r| :: r[i] == 0) <==> r == seq(|r|, _ => 0)
  {
  }

  /** How often task i misses before t. */
  function MissCount(ts: Tasks, i: nat, t: nat): (m: nat)
    requires ts.Valid() && i < |ts.p|
  {
    if t == 0 then 0 else MissCount(ts, i, t - 1) + (if Misses(ts, t - 1, i) then 1 else 0)
  }

  lemma {:induction false} MissCountZero(ts: Tasks, i: nat, h: nat)
    requires ts.Valid() && i < |ts.p|
    ensures MissCount(ts, i, h) == 0 <==> forall t: nat | t < h :: !Misses(ts, t, i)
    decreases h
  {
    if h > 0 {
      MissCountZero(ts, i, h - 1);
    }
  }

  // --- the simulation loop ---

  /** Releases the jobs of tick t, counting those whose predecessor is unfinished. */
  method Release(ts: Tasks, r: seq<nat>, m: seq<nat>, t: nat) returns (r1: seq<nat>, m1: seq<nat>)
    requires ts.Valid() && |r| == |m| == |ts.p|
    ensures r1 == Released(ts, r, t) && |m1| == |m|
    ensures forall i | 0 <= i < |m| :: m1[i] == m[i] + (if t > 0 && t % ts.p[i] == 0 && r[i] > 0 then 1 else 0)
  {
    r1, m1 := r, m;
    var i := 0;
    while i < |ts.p|
      invariant 0 <= i <= |ts.p| && |r1| == |r| && |m1| == |m|
      invariant forall j | 0 <= j < |r| :: r1[j] == if j < i then Released(ts, r, t)[j] else r[j]
      invariant forall j | 0 <= j < |m| :: m1[j] == m[j] + (if j < i && t > 0 && t % ts.p[j] == 0 && r[j] > 0 then 1 else 0)
    {
      if t % ts.p[i] == 0 {
        if t > 0 && r1[i] > 0 {
          m1 := m1[i := m1[i] + 1];
        }
        r1 := r1[i := r1[i] + ts.e[i]];
      }
      i := i + 1;
    }
  }

  /** The scan for the task CPU c runs. */
  method Choose(ts: Tasks, r: seq<nat>, c: nat) returns (k: int)
    requires ts.Valid() && |r| == |ts.p| && RateMonotonic(ts)
    ensures k == Pick(ts, r, c, |r|)
    ensures k == -1 ==> forall i: nat | i < |r| && ts.a[i] == c :: r[i] == 0
    ensures k != -1 ==> 0 <= k < |r| && ts.a[k] == c && r[k] > 0
    ensures k != -1 ==> forall i: nat | i < |r| && ts.a[i] == c && r[i] > 0 && i != k :: Rate(ts.p, k, i)
  {
    k := -1;
    var i := 0;
    while i < |ts.p|
      invariant 0 <= i <= |ts.p| && k == Pick(ts, r, c, i)
    {
      if ts.a[i] == c && r[i] > 0 {
        assert k != -1 ==> (Before(ts, i, k) <==> Rate(ts.p, i, k));
        if k == -1 || ts.p[i] < ts.p[k] || (ts.p[i] == ts.p[k] && i < k) {
          k := i;
        }
      }
      i := i + 1;
    }
    assert IsPick(ts, r, c, k, |r|);
    forall i: nat | k != -1 && i < |r| && ts.a[i] == c && r[i] > 0 && i != k
      ensures Rate(ts.p, k, i)
    {
      assert Ready(ts, r, c, i) && Before(ts, k, i);
    }
    forall i: nat | k == -1 && i < |r| && ts.a[i] == c
      ensures r[i] == 0
    {
      assert !Ready(ts, r, c, i);
    }
  }

  /** A CPU's choice depends on its own tasks only. */
  lemma {:induction false} PickLocal(ts: Tasks, r: seq<nat>, r': seq<nat>, c: nat, n: nat)
    requires ts.Valid() && n <= |r| == |r'| == |ts.p| && forall i | 0 <= i < n && ts.a[i] == c :: r'[i] == r[i]
    ensures Pick(ts, r', c, n) == Pick(ts, r, c, n)
    decreases n
  {
    if n > 0 {
      PickLocal(ts, r, r', c, n - 1);
    }
  }

  /** The second part of a tick: every CPU runs its choice for one unit. */
  method RunCpus(ts: Tasks, r1: seq<nat>, cpus: nat, busy: seq<nat>) returns (r2: seq<nat>, busy1: seq<nat>, row: seq<int>)
    requires ts.Valid() && RateMonotonic(ts)
    requires |r1| == |ts.p| && |busy| == cpus && forall i | 0 <= i < |ts.a| :: ts.a[i] < cpus
    ensures r2 == Ran(ts, r1, r1) && |busy1| == |row| == cpus
    ensures forall c: nat | c < cpus :: row[c] == Pick(ts, r1, c, |r1|) + 1
    ensures forall c: nat | c < cpus :: busy1[c] == busy[c] + (if Pick(ts, r1, c, |r1|) == -1 then 0 else 1)
  {
    hide Ready, IsPick, RateMonotonic;
    r2, busy1, row := r1, busy, [];
    var c := 0;
    while c < cpus
      invariant 0 <= c <= cpus && |r2| == |r1| && |busy1| == cpus && |row| == c
      invariant forall i: nat | i < |r1| ::
                  r2[i] == if ts.a[i] < c && Pick(ts, r1, ts.a[i], |r1|) == i && r1[i] > 0 then r1[i] - 1 else r1[i]
      invariant forall d: nat | d < c :: row[d] == Pick(ts, r1, d, |r1|) + 1
      invariant forall d: nat | d < cpus ::
                  busy1[d] == busy[d] + (if d < c && Pick(ts, r1, d, |r1|) != -1 then 1 else 0)
    {
      var k := Choose(ts, r2, c);
      PickLocal(ts, r1, r2, c, |r1|);
      PickReady(ts, r1, c);
      if k == -1 {
        row := row + [0];
      } else {
        row := row + [k + 1];
        r2 := r2[k := r2[k] - 1];
        busy1 := busy1[c := busy1[c] + 1];
      }
      c := c + 1;
    }
  }

  lemma PickReady(ts: Tasks, r: seq<nat>, c: nat)
    requires ts.Valid() && |r| == |ts.p|
    ensures var k := Pick(ts, r, c, |r|); k != -1 ==> ts.a[k] == c && r[k] > 0
  {
  }

  /** The timeline's row for tick t. */
  ghost predicate RowOk(ts: Tasks, row: seq<int>, t: nat, cpus: nat)
    requires ts.Valid()
  {
    |row| == cpus && forall c: nat | c < cpus :: row[c] == Runs(ts, t, c) + 1
  }

  /** What one tick adds to the counters. */
  lemma TickFacts(ts: Tasks, t: nat)
    requires ts.Valid()
    ensures var r1 := Released(ts, Left(ts, t), t);
            && Left(ts, t + 1) == Ran(ts, r1, r1)
            && (forall c: nat :: Runs(ts, t, c) == Pick(ts, r1, c, |r1|))
            && (forall c: nat :: Busy(ts, c, t + 1) == Busy(ts, c, t) + (if Pick(ts, r1, c, |r1|) == -1 then 0 else 1))
    ensures forall i: nat | i < |ts.p| ::
              MissCount(ts, i, t + 1) == MissCount(ts, i, t) + (if t > 0 && t % ts.p[i] == 0 && Left(ts, t)[i] > 0 then 1 else 0)
  {
    hide Pick, Released, Ran;
  }

  lemma StartFacts(ts: Tasks)
    requires ts.Valid()
    ensures Left(ts, 0) == seq(|ts.p|, _ => 0)
    ensures (forall c: nat :: Busy(ts, c, 0) == 0) && forall i: nat | i < |ts.p| :: MissCount(ts, i, 0) == 0
  {
  }

  // --- what a timeline says by itself ---

  /** Ticks before t in which the timeline has CPU c run task i. */
  function RanOf(tl: seq<seq<int>>, c: nat, i: nat, t: nat): (n: nat)
    requires t <= |tl|
    ensures n <= t
  {
    if t == 0 then 0 else RanOf(tl, c, i, t - 1) + (if c < |tl[t - 1]| && tl[t - 1][c] == i + 1 then 1 else 0)
  }

  /** Work of task i open in tick t: jobs released at multiples of its period up to t, less what was run. */
  function Open(ts: Tasks, tl: seq<seq<int>>, i: nat, t: nat): (w: int)
    requires i < |ts.p| == |ts.e| == |ts.a| && ts.p[i] > 0 && t <= |tl|
  {
    ts.e[i] * (t / ts.p[i] + 1) - RanOf(tl, ts.a[i], i, t)
  }

  /** In tick t CPU c runs the task with open work that has the shortest period, then the lowest
      number, and idles only if it has none. */
  ghost predicate RateTick(ts: Tasks, tl: seq<seq<int>>, c: nat, t: nat)
    requires ts.Valid() && t < |tl| && c < |tl[t]|
  {
    var k := tl[t][c] - 1;
    && (k == -1 || (0 <= k < |ts.p| && ts.a[k] == c && Open(ts, tl, k, t) > 0))
    && (forall i: nat | i < |ts.p| && ts.a[i] == c && Open(ts, tl, i, t) > 0 && i != k :: k >= 0 && Rate(ts.p, k, i))
  }

  /** Task i has a job due at t > 0 that is not done. */
  predicate Late(ts: Tasks, tl: seq<seq<int>>, i: nat, t: nat)
    requires i < |ts.p| == |ts.e| == |ts.a| && ts.p[i] > 0 && t <= |tl|
  {
    t > 0 && t % ts.p[i] == 0 && ts.e[i] * (t / ts.p[i]) > RanOf(tl, ts.a[i], i, t)
  }

  function LateCount(ts: Tasks, tl: seq<seq<int>>, i: nat, t: nat): (m: nat)
    requires i < |ts.p| == |ts.e| == |ts.a| && ts.p[i] > 0 && t <= |tl|
  {
    if t == 0 then 0 else LateCount(ts, tl, i, t - 1) + (if Late(ts, tl, i, t - 1) then 1 else 0)
  }

  /** Ticks before t in which CPU c ran something. */
  function BusyOf(tl: seq<seq<int>>, c: nat, t: nat): (n: nat)
    requires t <= |tl|
  {
    if t == 0 then 0 else BusyOf(tl, c, t - 1) + (if c < |tl[t - 1]| && tl[t - 1][c] != 0 then 1 else 0)
  }

  ghost predicate Rows(ts: Tasks, tl: seq<seq<int>>, cpus: nat)
    requires ts.Valid()
  {
    (forall i | 0 <= i < |ts.a| :: ts.a[i] < cpus) && forall t: nat | t < |tl| :: RowOk(ts, tl[t], t, cpus)
  }

  /** Task by task: released, run, left. */
  lemma {:induction false} TaskConserved(ts: Tasks, tl: seq<seq<int>>, cpus: nat, i: nat, t: nat)
    requires ts.Valid() && Rows(ts, tl, cpus) && t <= |tl| && i < |ts.p|
    ensures Left(ts, t)[i] == Demand(ts, t)[i] - RanOf(tl, ts.a[i], i, t)
    decreases t
  {
    if t == 0 {
      RemainderIs(ts.p[i] - 1, ts.p[i], 0, ts.p[i] - 1);
    } else {
      assert ts.a[i] < cpus;
      hide Pick, Demand, Left, Rows;
      TaskConserved(ts, tl, cpus, i, t - 1);
      LeftNext(ts, t - 1);
      DemandNext(ts, t - 1, i);
      RowIs(ts, tl, cpus, t - 1);
      PickReady(ts, Released(ts, Left(ts, t - 1), t - 1), ts.a[i]);
    }
  }

  /** Open work is what the schedule has released and not run. */
  lemma OpenIs(ts: Tasks, tl: seq<seq<int>>, cpus: nat, i: nat, t: nat)
    requires ts.Valid() && Rows(ts, tl, cpus) && t <= |tl| && i < |ts.p|
    ensures Open(ts, tl, i, t) == Released(ts, Left(ts, t), t)[i]
    ensures Late(ts, tl, i, t) <==> Misses(ts, t, i)
  {
    hide Pick, Left, Rows, RanOf, Demand;
    TaskConserved(ts, tl, cpus, i, t);
    DemandIs(ts, i, t);
  }

  /** Demand before and with the jobs of tick t. */
  lemma DemandIs(ts: Tasks, i: nat, t: nat)
    requires ts.Valid() && i < |ts.p|
    ensures Demand(ts, t)[i] + Jobs(ts, t)[i] == ts.e[i] * (t / ts.p[i] + 1)
    ensures t % ts.p[i] == 0 ==> Demand(ts, t)[i] == ts.e[i] * (t / ts.p[i])
  {
    CeilIs(t, ts.p[i]);
    Spread(ts.e[i], t / ts.p[i], 1);
  }

  lemma CeilIs(t: nat, p: nat)
    requires p > 0
    ensures (t + p - 1) / p == if t % p == 0 then t / p else t / p + 1
  {
    var q := t / p;
    assert t == q * p + t % p;
    if t % p == 0 {
      RemainderIs(t + p - 1, p, q, p - 1);
    } else {
      assert (q + 1) * p == q * p + p;
      RemainderIs(t + p - 1, p, q + 1, t % p - 1);
    }
  }

  lemma RateTickIs(ts: Tasks, tl: seq<seq<int>>, cpus: nat, c: nat, t: nat)
    requires ts.Valid() && RateMonotonic(ts) && Rows(ts, tl, cpus) && t < |tl| && c < cpus
    ensures c < |tl[t]| && RateTick(ts, tl, c, t)
  {
    hide Left, Released, Open, Rows;
    var r1 := Released(ts, Left(ts, t), t);
    RowIs(ts, tl, cpus, t);
    var k := Pick(ts, r1, c, |r1|);
    assert IsPick(ts, r1, c, k, |r1|);
    forall i: nat | i < |ts.p|
      ensures Open(ts, tl, i, t) == r1[i]
    {
      OpenIs(ts, tl, cpus, i, t);
    }
    forall i: nat | i < |ts.p| && ts.a[i] == c && Open(ts, tl, i, t) > 0 && i != k
      ensures k >= 0 && Rate(ts.p, k, i)
    {
      assert Ready(ts, r1, c, i);
      assert k >= 0 ==> Before(ts, k, i);
    }
  }

  lemma RowIs(ts: Tasks, tl: seq<seq<int>>, cpus: nat, t: nat)
    requires ts.Valid() && Rows(ts, tl, cpus) && t < |tl|
    ensures RowOk(ts, tl[t], t, cpus)
  {
  }

  lemma {:induction false} LateCountIs(ts: Tasks, tl: seq<seq<int>>, cpus: nat, i: nat, t: nat)
    requires ts.Valid() && Rows(ts, tl, cpus) && t <= |tl| && i < |ts.p|
    ensures LateCount(ts, tl, i, t) == MissCount(ts, i, t)
    decreases t
  {
    hide Misses, Late, Rows, Open, Released;
    if t > 0 {
      LateCountIs(ts, tl, cpus, i, t - 1);
      OpenIs(ts, tl, cpus, i, t - 1);
    }
  }

  lemma {:induction false} BusyOfIs(ts: Tasks, tl: seq<seq<int>>, cpus: nat, c: nat, t: nat)
    requires ts.Valid() && Rows(ts, tl, cpus) && t <= |tl| && c < cpus
    ensures BusyOf(tl, c, t) == Busy(ts, c, t)
    decreases t
  {
    hide Runs, Rows;
    if t > 0 {
      BusyOfIs(ts, tl, cpus, c, t - 1);
      RowIs(ts, tl, cpus, t - 1);
    }
  }

  /** The simulation of run_rms; the timeline is kept tick by tick. In every tick every CPU obeys rate
      monotonicity, and the counters are what the timeline says. */
  method RunRms(e: seq<nat>, p: seq<nat>, a: seq<nat>, cpus: nat)
      returns (h: nat, timeline: seq<seq<int>>, m: seq<nat>, busy: seq<nat>, r: seq<nat>)
    requires |e| == |p| == |a| && (forall i | 0 <= i < |p| :: e[i] > 0 && p[i] > 0) && forall i | 0 <= i < |a| :: a[i] < cpus
    ensures h == Min(LcmAll(p), MAX_TIME) && |timeline| == h && |busy| == cpus && |m| == |p|
    ensures var ts := ByRate(e, p, a);
            && r == Left(ts, h) && Rows(ts, timeline, cpus)
            && (forall t: nat, c: nat | t < h && c < cpus :: c < |timeline[t]| && RateTick(ts, timeline, c, t))
            && (forall i: nat | i < |m| :: m[i] == MissCount(ts, i, h) == LateCount(ts, timeline, i, h))
            && (forall c: nat | c < cpus :: busy[c] == Busy(ts, c, h) == BusyOf(timeline, c, h))
  {
    var ts := ByRate(e, p, a);
    h, timeline, m, busy, r := Simulate(ts, cpus);
    hide Left, Busy, MissCount, Rows, RateTick, LateCount, BusyOf, LcmAll, ByRate, RateMonotonic;
    forall t: nat, c: nat | t < h && c < cpus
      ensures c < |timeline[t]| && RateTick(ts, timeline, c, t)
    {
      RateTickIs(ts, timeline, cpus, c, t);
    }
    forall i: nat | i < |m|
      ensures MissCount(ts, i, h) == LateCount(ts, timeline, i, h)
    {
      LateCountIs(ts, timeline, cpus, i, h);
    }
    forall c: nat | c < cpus
      ensures Busy(ts, c, h) == BusyOf(timeline, c, h)
    {
      BusyOfIs(ts, timeline, cpus, c, h);
    }
  }

  method Simulate(ts: Tasks, cpus: nat) returns (h: nat, timeline: seq<seq<int>>, m: seq<nat>, busy: seq<nat>, r: seq<nat>)
    requires ts.Valid() && RateMonotonic(ts) && forall i | 0 <= i < |ts.a| :: ts.a[i] < cpus
    ensures h == Min(LcmAll(ts.p), MAX_TIME) && |timeline| == h && |busy| == cpus && |m| == |ts.p| && r == Left(ts, h)
    ensures Rows(ts, timeline, cpus)
    ensures forall i: nat | i < |m| :: m[i] == MissCount(ts, i, h)
    ensures forall c: nat | c < cpus :: busy[c] == Busy(ts, c, h)
  {
    hide Pick, Released, Ran, Left, Busy, MissCount, Runs, LcmAll, RateMonotonic;
    h := Hyperperiod(ts.p);
    r, m, busy, timeline := seq(|ts.p|, _ => 0), seq(|ts.p|, _ => 0), seq(cpus, _ => 0), [];
    StartFacts(ts);
    var t := 0;
    while t < h
      invariant 0 <= t <= h && r == Left(ts, t) && |m| == |ts.p| && |busy| == cpus && |timeline| == t
      invariant forall s: nat | s < t :: RowOk(ts, timeline[s], s, cpus)
      invariant forall i: nat | i < |m| :: m[i] == MissCount(ts, i, t)
      invariant forall c: nat | c < cpus :: busy[c] == Busy(ts, c, t)
    {
      TickFacts(ts, t);
      var r1, m1 := Release(ts, r, m, t);
      var r2, busy1, row := RunCpus(ts, r1, cpus, busy);
      r, m, busy := r2, m1, busy1;
      timeline := timeline + [row];
      t := t + 1;
    }
  }

  lemma CountsClear(ts: Tasks, h: nat, m: seq<nat>)
    requires ts.Valid() && |m| == |ts.p| && forall i: nat | i < |m| :: m[i] == MissCount(ts, i, h)
    ensures (forall i: nat | i < |m| :: m[i] == 0) <==> NoMiss(ts, h)
  {
    hide MissCount, Misses;
    forall i: nat | i < |m|
      ensures m[i] == 0 <==> forall t: nat | t < h :: !Misses(ts, t, i)
    {
      MissCountZero(ts, i, h);
    }
    if forall i: nat | i < |m| :: m[i] == 0 {
      forall t: nat, i: nat | t < h && i < |ts.p|
        ensures !Misses(ts, t, i)
      {
        assert m[i] == 0;
      }
    }
  }
}
