/** The EDF simulator: completion, preemption, assignment and execution phases of each tick. */
module Edf {
  import opened Sets
  import opened EdfTheory

  // ----- One tick, seen as sets of waiting processes and idle CPUs -----

  /** Process i is ready and on no CPU; `cur` gives each CPU's process index, or -1. */
  predicate Waiting(ps: seq<Process>, rem: seq<int>, cur: seq<int>, time: int, i: nat)
    requires i < |ps| == |rem|
  {
    ps[i].arrival <= time && rem[i] > 0 && i !in cur
  }

  /** The preemption loop has reached index k: it has seen i if i arrived earlier, or now and before k. */
  predicate Seen(ps: seq<Process>, time: int, k: nat, i: nat)
    requires i < |ps|
  {
    ps[i].arrival < time || (ps[i].arrival == time && i < k)
  }

  ghost function Sooner(ps: seq<Process>, rem: seq<int>, cur: seq<int>, time: int, k: nat, d: int): (s: set<nat>)
    requires |ps| == |rem|
  {
    set i: nat | i < |ps| && Waiting(ps, rem, cur, time, i) && Seen(ps, time, k, i) && ps[i].deadline < d
  }

  ghost function Idle(cur: seq<int>, from: nat): (s: set<nat>) {
    set c: nat | from <= c < |cur| && cur[c] == -1
  }

  ghost predicate Placed(ps: seq<Process>, rem: seq<int>, cur: seq<int>) {
    && |rem| == |ps|
    && (forall c :: 0 <= c < |cur| ==> -1 <= cur[c] < |ps|)
    && (forall c, d :: 0 <= c < d < |cur| && cur[c] != -1 ==> cur[c] != cur[d])
  }

  /** For every running process, there are idle CPUs enough for all seen waiting processes with
      earlier deadlines. */
  ghost predicate Balanced(ps: seq<Process>, rem: seq<int>, cur: seq<int>, time: int, k: nat, from: nat)
    requires Placed(ps, rem, cur)
  {
    forall c :: 0 <= c < |cur| && cur[c] != -1 ==>
      |Sooner(ps, rem, cur, time, k, ps[cur[c]].deadline)| <= |Idle(cur, from)|
  }

  /** Dominance over everything that arrived before this tick. */
  ghost predicate DominatesOld(ps: seq<Process>, rem: seq<int>, cur: seq<int>, time: int)
    requires Placed(ps, rem, cur)
  {
    forall c, i :: 0 <= c < |cur| && cur[c] != -1 && 0 <= i < |ps| && Waiting(ps, rem, cur, time, i)
      ==> ps[i].arrival < time ==> ps[cur[c]].deadline <= ps[i].deadline
  }

  ghost predicate Dominates(ps: seq<Process>, rem: seq<int>, cur: seq<int>, time: int)
    requires Placed(ps, rem, cur)
  {
    forall c, i :: 0 <= c < |cur| && cur[c] != -1 && 0 <= i < |ps| && Waiting(ps, rem, cur, time, i)
      ==> ps[cur[c]].deadline <= ps[i].deadline
  }

  lemma BalancedAtFirst(ps: seq<Process>, rem: seq<int>, cur: seq<int>, time: int)
    requires Placed(ps, rem, cur) && DominatesOld(ps, rem, cur, time)
    ensures Balanced(ps, rem, cur, time, 0, 0)
  {
    forall c | 0 <= c < |cur| && cur[c] != -1
      ensures |Sooner(ps, rem, cur, time, 0, ps[cur[c]].deadline)| <= |Idle(cur, 0)|
    {
      assert Sooner(ps, rem, cur, time, 0, ps[cur[c]].deadline) == {};
    }
  }

  lemma OthersStay(cur: seq<int>, w: nat, x: int, i: int)
    requires w < |cur|
    ensures i in cur[w := x] <==> i == x || exists c :: 0 <= c < |cur| && c != w && cur[c] == i
    ensures i in cur && i != cur[w] ==> i in cur[w := x]
  {
    var cur' := cur[w := x];
    assert cur'[w] == x;
    if c :| 0 <= c < |cur| && c != w && cur[c] == i {
      assert cur'[c] == i;
    }
  }

  lemma CardAtMostOneMore(a: set<nat>, b: set<nat>, x: nat)
    requires a <= b + {x}
    ensures |a| <= |b| + 1
  {
    SubsetCard(a, b + {x});
  }

  /** The preemption loop passes index k without preempting. */
  lemma PassArrival(ps: seq<Process>, rem: seq<int>, cur: seq<int>, time: int, k: nat)
    requires Placed(ps, rem, cur) && Balanced(ps, rem, cur, time, k, 0) && k < |ps|
    requires ps[k].arrival == time && Waiting(ps, rem, cur, time, k) ==>
               forall c :: 0 <= c < |cur| && cur[c] != -1 ==> ps[cur[c]].deadline <= ps[k].deadline
    ensures Balanced(ps, rem, cur, time, k + 1, 0)
  {
    forall c | 0 <= c < |cur| && cur[c] != -1
      ensures |Sooner(ps, rem, cur, time, k + 1, ps[cur[c]].deadline)| <= |Idle(cur, 0)|
    {
      assert Sooner(ps, rem, cur, time, k + 1, ps[cur[c]].deadline) == Sooner(ps, rem, cur, time, k, ps[cur[c]].deadline);
    }
  }

  /** The preemption loop takes CPU w, which runs a latest deadline, from its process. */
  lemma Preempt(ps: seq<Process>, rem: seq<int>, cur: seq<int>, time: int, k: nat, w: nat)
    requires Placed(ps, rem, cur) && Balanced(ps, rem, cur, time, k, 0) && k < |ps|
    requires w < |cur| && cur[w] != -1
    requires forall c :: 0 <= c < |cur| && cur[c] != -1 ==> ps[cur[c]].deadline <= ps[cur[w]].deadline
    ensures Placed(ps, rem, cur[w := -1]) && Balanced(ps, rem, cur[w := -1], time, k + 1, 0)
  {
    var cur' := cur[w := -1];
    assert Idle(cur', 0) == Idle(cur, 0) + {w};
    forall c | 0 <= c < |cur'| && cur'[c] != -1
      ensures |Sooner(ps, rem, cur', time, k + 1, ps[cur'[c]].deadline)| <= |Idle(cur', 0)|
    {
      var d := ps[cur[c]].deadline;
      forall i | i in Sooner(ps, rem, cur', time, k + 1, d)
        ensures i in Sooner(ps, rem, cur, time, k, d) + {k}
      {
        OthersStay(cur, w, -1, i);
      }
      CardAtMostOneMore(Sooner(ps, rem, cur', time, k + 1, d), Sooner(ps, rem, cur, time, k, d), k);
    }
  }

  /** The assignment loop gives idle CPU c the waiting process j with an earliest deadline. */
  lemma Assign(ps: seq<Process>, rem: seq<int>, cur: seq<int>, time: int, c: nat, j: nat)
    requires Placed(ps, rem, cur) && Balanced(ps, rem, cur, time, |ps|, c)
    requires c < |cur| && cur[c] == -1 && j < |ps| && Waiting(ps, rem, cur, time, j)
    requires forall i :: 0 <= i < |ps| && Waiting(ps, rem, cur, time, i) ==> ps[j].deadline <= ps[i].deadline
    ensures Placed(ps, rem, cur[c := j]) && Balanced(ps, rem, cur[c := j], time, |ps|, c + 1)
  {
    var cur' := cur[c := j];
    assert Idle(cur', c + 1) == Idle(cur, c) - {c};
    forall e | 0 <= e < |cur'| && cur'[e] != -1
      ensures |Sooner(ps, rem, cur', time, |ps|, ps[cur'[e]].deadline)| <= |Idle(cur', c + 1)|
    {
      var d := ps[cur'[e]].deadline;
      var before, after := Sooner(ps, rem, cur, time, |ps|, d), Sooner(ps, rem, cur', time, |ps|, d);
      assert cur'[c] == j;
      forall i | i in after ensures i in before && i != j {
        OthersStay(cur, c, j, i);
      }
      AssignCount(before, after, Idle(cur, c), c, j, e == c || before == {});
    }
  }

  lemma AssignCount(before: set<nat>, after: set<nat>, idle: set<nat>, c: nat, j: nat, none: bool)
    requires after <= before && j !in after && c in idle && |before| <= |idle|
    requires if none then after == {} else j in before
    ensures |after| <= |idle - {c}|
  {
    if !none {
      SubsetCard(after, before - {j});
    }
  }

  /** The assignment loop passes CPU c: it is busy, or nothing is waiting. */
  lemma PassCpu(ps: seq<Process>, rem: seq<int>, cur: seq<int>, time: int, c: nat)
    requires Placed(ps, rem, cur) && Balanced(ps, rem, cur, time, |ps|, c) && c < |cur|
    requires cur[c] != -1 || forall i :: 0 <= i < |ps| ==> !Waiting(ps, rem, cur, time, i)
    ensures Balanced(ps, rem, cur, time, |ps|, c + 1)
  {
    if cur[c] != -1 {
      assert Idle(cur, c + 1) == Idle(cur, c);
    } else {
      forall e | 0 <= e < |cur| && cur[e] != -1
        ensures |Sooner(ps, rem, cur, time, |ps|, ps[cur[e]].deadline)| <= |Idle(cur, c + 1)|
      {
        assert Sooner(ps, rem, cur, time, |ps|, ps[cur[e]].deadline) == {};
      }
    }
  }

  lemma BalancedMeansDominates(ps: seq<Process>, rem: seq<int>, cur: seq<int>, time: int)
    requires Placed(ps, rem, cur) && Balanced(ps, rem, cur, time, |ps|, |cur|)
    ensures Dominates(ps, rem, cur, time)
  {
    assert Idle(cur, |cur|) == {};
    forall c, i | 0 <= c < |cur| && cur[c] != -1 && 0 <= i < |ps| && Waiting(ps, rem, cur, time, i)
      ensures ps[cur[c]].deadline <= ps[i].deadline
    {
      assert Sooner(ps, rem, cur, time, |ps|, ps[cur[c]].deadline) == {};
      assert i in Sooner(ps, rem, cur, time, |ps|, ps[cur[c]].deadline) <==> ps[i].deadline < ps[cur[c]].deadline;
    }
  }
}
