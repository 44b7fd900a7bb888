/** User-memory semaphores: sem_wait and sem_post under sem_lock, as a user of sleep/wakeup. */
module Semaphore {
  import opened Basics
  import opened CInt
  import opened SleepWakeup

  /** A semaphore is a word at an address of an address space; threads made by clone share the
      space. Its sleep channel is the bare address. */
  datatype SemId = SemId(space: nat, addr: nat)

  /** The word, and the callers that have waited and not yet posted. */
  datatype Cell = Cell(value: int, inside: set<nat>)

  type Memory = map<SemId, Cell>

  datatype SemOp = Wait(caller: nat, id: SemId) | Post(caller: nat, id: SemId)

  predicate Blocked(m: Memory, op: SemOp) {
    op.Wait? && op.id in m && m[op.id].value <= 0
  }

  function Next(m: Memory, op: SemOp): (m': Memory) {
    if op.id !in m then m
    else
      var c := m[op.id];
      match op
      case Wait(t, id) =>
        m[id := Cell(Int32(c.value - 1), c.inside + {t})]
      case Post(t, id) =>
        m[id := Cell(Int32(c.value + 1), c.inside - {t})]
  }

  function Wakes(m: Memory, op: SemOp): seq<nat> {
    if op.Post? then [op.id.addr] else []
  }

  /** Under `matched`, callers post only what they have waited for and do not wait twice. */
  predicate Allowed(matched: bool, m: Memory, op: SemOp) {
    && op.id in m
    && (matched ==> (op.Post? <==> op.caller in m[op.id].inside))
  }

  function Sem(matched: bool): (p: Protocol<Memory, SemOp>) {
    Protocol((m, op) => Blocked(m, op), (m, op) => Allowed(matched, m, op),
             (m, op) => Next(m, op), (m, op) => Wakes(m, op), (op: SemOp) => op.id.addr)
  }

  lemma PostWakesWaiters(matched: bool)
    ensures WakesWhatItUnblocks(Sem(matched))
  {
    var p := Sem(matched);
    forall m, o, o' | !p.blocked(m, o) && p.allowed(m, o) && p.blocked(m, o') && !p.blocked(p.next(m, o), o')
      ensures p.chan(o') in p.wakes(m, o)
    {
      assert Blocked(m, o') && !Blocked(Next(m, o), o');
    }
  }

  ghost predicate FreshMemory(m: Memory) {
    forall id :: id in m ==> INT_MIN <= m[id].value <= INT_MAX && m[id].inside == {}
  }

  /** Whenever sem_lock is free, no thread sleeps in sem_wait on a semaphore with a positive value. */
  lemma NoLostPost(s: State<Memory, SemOp>, es: seq<Event<SemOp>>, r: State<Memory, SemOp>)
    requires Initial(s) && Reaches(Sem(false), s, es, r) && r.lk.None?
    ensures forall t :: 0 <= t < |r.pc| && r.pc[t].Sleepy() ==>
              r.pc[t].op.Wait? && r.pc[t].op.id in r.data && r.data[r.pc[t].op.id].value <= 0
  {
    PostWakesWaiters(false);
    NoLostWakeup(Sem(false), s, es, r);
    forall t | 0 <= t < |r.pc| && r.pc[t].Sleepy()
      ensures Blocked(r.data, r.pc[t].op)
    {
      assert Sem(false).blocked(r.data, r.pc[t].op);
    }
  }

  // --- the word as a function of what took effect ---

  function Posts(h: seq<SemOp>, id: SemId): nat {
    if h == [] then 0
    else Posts(h[..|h| - 1], id) + if h[|h| - 1].Post? && h[|h| - 1].id == id then 1 else 0
  }

  function Waits(h: seq<SemOp>, id: SemId): nat {
    if h == [] then 0
    else Waits(h[..|h| - 1], id) + if h[|h| - 1].Wait? && h[|h| - 1].id == id then 1 else 0
  }

  /** The callers whose latest operation on the semaphore was a wait. */
  function Inside(h: seq<SemOp>, id: SemId): set<nat> {
    if h == [] then {}
    else
      var op := h[|h| - 1];
      if op.id != id then Inside(h[..|h| - 1], id)
      else if op.Wait? then Inside(h[..|h| - 1], id) + {op.caller} else Inside(h[..|h| - 1], id) - {op.caller}
  }

  ghost predicate CellIs(start: int, h: seq<SemOp>, id: SemId, c: Cell) {
    c.value == Int32(start + Posts(h, id) - Waits(h, id)) && c.inside == Inside(h, id)
  }

  lemma {:induction false} MemoryAfter(matched: bool, m: Memory, h: seq<SemOp>)
    requires FreshMemory(m)
    ensures var m' := After(Sem(matched), m, h);
            m'.Keys == m.Keys && forall id :: id in m ==> CellIs(m[id].value, h, id, m'[id])
    decreases |h|
  {
    if h == [] {
      forall id | id in m
        ensures CellIs(m[id].value, h, id, m[id])
      {
        Int32Exact(m[id].value);
      }
    } else {
      var h0, op := h[..|h| - 1], h[|h| - 1];
      MemoryAfter(matched, m, h0);
      var m0 := After(Sem(matched), m, h0);
      forall id | id in m
        ensures CellIs(m[id].value, h, id, Next(m0, op)[id])
      {
        assert CellIs(m[id].value, h0, id, m0[id]);
        Int32Step(m[id].value + Posts(h0, id) - Waits(h0, id), if op.Wait? then -1 else 1);
      }
    }
  }

  /** In every run each semaphore word is its starting value plus the posts minus the waits that
      have taken effect, as a 32-bit int, which is that number itself exactly when the number fits;
      and a wait goes through exactly when the word is positive. */
  lemma SemaphoreConservation(s: State<Memory, SemOp>, es: seq<Event<SemOp>>, r: State<Memory, SemOp>)
    requires FreshMemory(s.data) && Reaches(Sem(false), s, es, r)
    ensures r.data.Keys == s.data.Keys
    ensures var h := History(Sem(false), s, es, r);
            forall id :: id in r.data ==>
              var x := s.data[id].value + Posts(h, id) - Waits(h, id);
              && r.data[id].value == Int32(x)
              && (r.data[id].value == x <==> INT_MIN <= x <= INT_MAX)
              && (forall t :: Sem(false).blocked(r.data, Wait(t, id)) <==> Int32(x) <= 0)
  {
    hide Int32, Reaches, History, Proper, After;
    RunsAreSerial(Sem(false), s, es, r);
    var h := History(Sem(false), s, es, r);
    MemoryAfter(false, s.data, h);
    forall id | id in r.data
      ensures var x := s.data[id].value + Posts(h, id) - Waits(h, id);
              && r.data[id].value == Int32(x)
              && (r.data[id].value == x <==> INT_MIN <= x <= INT_MAX)
              && (forall t :: Sem(false).blocked(r.data, Wait(t, id)) <==> Int32(x) <= 0)
    {
      assert CellIs(s.data[id].value, h, id, r.data[id]);
      Int32Exact(s.data[id].value + Posts(h, id) - Waits(h, id));
    }
  }

  ghost predicate Guarded(m: Memory, m': Memory) {
    m'.Keys == m.Keys && forall id :: id in m ==>
      0 <= m'[id].value <= m[id].value <= INT_MAX && m'[id].value + |m'[id].inside| == m[id].value
  }

  lemma NextGuards(m: Memory, m': Memory, op: SemOp)
    requires Guarded(m, m') && !Blocked(m', op) && Allowed(true, m', op)
    ensures Guarded(m, Next(m', op))
  {
    var c := m'[op.id];
    if op.Wait? {
      assert |c.inside + {op.caller}| == |c.inside| + 1;
    } else {
      assert |c.inside - {op.caller}| == |c.inside| - 1;
    }
  }

  lemma {:induction false} ProperGuards(m: Memory, h: seq<SemOp>)
    requires FreshMemory(m) && (forall id :: id in m ==> m[id].value >= 0) && Proper(Sem(true), m, h)
    ensures Guarded(m, After(Sem(true), m, h))
    decreases |h|
  {
    if h != [] {
      ProperGuards(m, h[..|h| - 1]);
      NextGuards(m, After(Sem(true), m, h[..|h| - 1]), h[|h| - 1]);
    }
  }

  /** Used in matched wait/post pairs, a semaphore that starts at n admits at most n callers at
      once; starting at 1 it is a mutual exclusion lock. */
  lemma MutualExclusion(s: State<Memory, SemOp>, es: seq<Event<SemOp>>, r: State<Memory, SemOp>)
    requires FreshMemory(s.data) && (forall id :: id in s.data ==> s.data[id].value >= 0)
    requires Reaches(Sem(true), s, es, r)
    ensures var h := History(Sem(true), s, es, r);
            forall id :: id in s.data ==>
              && |Inside(h, id)| <= s.data[id].value
              && (s.data[id].value == 1 ==> forall t, u :: t in Inside(h, id) && u in Inside(h, id) ==> t == u)
  {
    var h := History(Sem(true), s, es, r);
    RunsAreSerial(Sem(true), s, es, r);
    MemoryAfter(true, s.data, h);
    ProperGuards(s.data, h);
    forall id | id in s.data
      ensures |Inside(h, id)| <= s.data[id].value
      ensures s.data[id].value == 1 ==> forall t, u :: t in Inside(h, id) && u in Inside(h, id) ==> t == u
    {
      assert CellIs(s.data[id].value, h, id, r.data[id]);
      forall t, u | s.data[id].value == 1 && t in Inside(h, id) && u in Inside(h, id)
        ensures t == u
      {
        assert |Inside(h, id) - {t}| == |Inside(h, id)| - 1;
        assert Inside(h, id) - {t} == {};
      }
    }
  }
}
