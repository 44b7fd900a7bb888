/** The buffer cache's doubly linked ring: buffers 0..n-1 and the head n, as two maps of indices,
    with the order in which next visits the buffers.
 */
module CacheList {
  import opened Basics

  /** Position i of the ring: the head before the first and after the last buffer. */
  function At(order: seq<nat>, n: nat, i: int): (b: nat) {
    if 0 <= i < |order| then order[i] else n
  }

  predicate LinkOk(next: seq<nat>, prev: seq<nat>, order: seq<nat>, n: nat, i: nat) {
    var a, b := At(order, n, i - 1), At(order, n, i);
    a < |next| && b < |prev| && next[a] == b && prev[b] == a
  }

  ghost predicate Ring(next: seq<nat>, prev: seq<nat>, order: seq<nat>, n: nat) {
    && |next| == |prev| == n + 1
    && (forall i | 0 <= i < |order| :: order[i] < n)
    && (forall i, j | 0 <= i < j < |order| :: order[i] != order[j])
    && (forall i: nat | i <= |order| :: LinkOk(next, prev, order, n, i))
  }

  /** b->next->prev = b->prev; b->prev->next = b->next */
  lemma Unlinked(next: seq<nat>, prev: seq<nat>, order: seq<nat>, n: nat, k: nat)
    requires Ring(next, prev, order, n) && k < |order|
    ensures var b := order[k];
            && next[b] <= n && prev[b] <= n
            && Ring(next[prev[b] := next[b]], prev[next[b] := prev[b]], Without(order, k), n)
            && b !in Without(order, k)
  {
    var b, r := order[k], Without(order, k);
    assert LinkOk(next, prev, order, n, k) && LinkOk(next, prev, order, n, k + 1);
    var next', prev' := next[prev[b] := next[b]], prev[next[b] := prev[b]];
    forall i: nat | i <= |r|
      ensures LinkOk(next', prev', r, n, i)
    {
      assert LinkOk(next, prev, order, n, if i < k then i else i + 1);
    }
  }

  /** b->next = head.next; b->prev = &head; head.next->prev = b; head.next = b */
  lemma Pushed(next: seq<nat>, prev: seq<nat>, order: seq<nat>, n: nat, b: nat)
    requires Ring(next, prev, order, n) && b < n && b !in order
    ensures next[n] <= n
    ensures Ring(next[b := next[n]][n := b], prev[b := n][next[n] := b], [b] + order, n)
  {
    assert LinkOk(next, prev, order, n, 0);
    var next', prev', r := next[b := next[n]][n := b], prev[b := n][next[n] := b], [b] + order;
    forall i: nat | i <= |r|
      ensures LinkOk(next', prev', r, n, i)
    {
      if i > 1 {
        assert LinkOk(next, prev, order, n, i - 1);
      }
    }
  }

  lemma Distinct(next: seq<nat>, prev: seq<nat>, order: seq<nat>, n: nat)
    requires Ring(next, prev, order, n)
    ensures forall i, j | 0 <= i < j < |order| :: order[i] != order[j]
  {
  }

  lemma NextIs(next: seq<nat>, prev: seq<nat>, order: seq<nat>, n: nat, k: nat)
    requires Ring(next, prev, order, n) && k < |order|
    ensures next[order[k]] != order[k]
  {
    assert LinkOk(next, prev, order, n, k + 1);
  }

  /** Following next and prev. */
  lemma Neighbours(next: seq<nat>, prev: seq<nat>, order: seq<nat>, n: nat, k: int)
    requires Ring(next, prev, order, n) && -1 <= k <= |order|
    ensures At(order, n, k) <= n
    ensures k < |order| ==> next[At(order, n, k)] == At(order, n, k + 1)
    ensures 0 <= k ==> prev[At(order, n, k)] == At(order, n, k - 1)
  {
    if 0 <= k {
      assert LinkOk(next, prev, order, n, k);
    }
    if k < |order| {
      assert LinkOk(next, prev, order, n, k + 1);
    }
  }
}
