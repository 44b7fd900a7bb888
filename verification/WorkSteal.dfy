/** Where the processes of the work-stealing scheduler are, and what its timeline promises. */
module WorkSteal {
  import opened EdfTheory

  const CAPACITY: nat := 100

  /** What run_work_steal needs of its input. */
  ghost predicate Input(ps: seq<Process>) {
    && |ps| <= CAPACITY
    && (forall i | 0 <= i < |ps| :: ps[i].pid > 0 && ps[i].arrival >= 0 && ps[i].burst >= 1)
    && (forall i, j | 0 <= i < j < |ps| :: ps[i].pid != ps[j].pid)
  }

  // --- places ---

  datatype Place = NotArrived | Queued(c: nat, k: nat) | OnCore(c: nat) | Done

  /** The per-CPU deques, the process each core runs (-1 if idle) and where each process is. */
  datatype State = State(slots: seq<seq<int>>, front: seq<nat>, rear: seq<nat>, size: seq<nat>, on: seq<int>, place: seq<Place>)

  predicate Shape(w: State, n: nat, m: nat) {
    |w.slots| == |w.front| == |w.rear| == |w.size| == |w.on| == m && |w.place| == n
  }

  /** Slots front to rear of a deque hold processes that are queued there. */
  ghost predicate QueueOk(w: State, n: nat, m: nat, c: nat)
    requires Shape(w, n, m) && c < m
  {
    && |w.slots[c]| == CAPACITY && w.front[c] <= w.rear[c] <= CAPACITY && w.size[c] == w.rear[c] - w.front[c]
    && (forall k | w.front[c] <= k < w.rear[c] :: 0 <= w.slots[c][k] < n && w.place[w.slots[c][k]] == Queued(c, k))
  }

  predicate CoreOk(w: State, n: nat, m: nat, d: nat)
    requires Shape(w, n, m) && d < m
  {
    w.on[d] == -1 || (0 <= w.on[d] < n && w.place[w.on[d]] == OnCore(d))
  }

  /** A process is where its place says. */
  predicate PlaceOk(w: State, n: nat, m: nat, i: nat)
    requires Shape(w, n, m) && i < n
  {
    match w.place[i]
    case Queued(c, k) => c < m && w.front[c] <= k < w.rear[c] && k < |w.slots[c]| && w.slots[c][k] == i
    case OnCore(d) => d < m && w.on[d] == i
    case _ => true
  }

  ghost predicate Valid(w: State, n: nat, m: nat) {
    && Shape(w, n, m)
    && (forall c: nat | c < m :: QueueOk(w, n, m, c) && CoreOk(w, n, m, c))
    && (forall i: nat | i < n :: PlaceOk(w, n, m, i))
  }

  /** So no process is in two slots, on two cores, or in a slot and on a core. */
  lemma ExactlyOnePlace(w: State, n: nat, m: nat, i: nat)
    requires Valid(w, n, m) && i < n
    ensures forall c: nat, k | c < m && w.front[c] <= k < w.rear[c] && k < |w.slots[c]| && w.slots[c][k] == i :: w.place[i] == Queued(c, k)
    ensures forall d: nat | d < m && w.on[d] == i :: w.place[i] == OnCore(d)
    ensures w.place[i].Queued? ==> var q := w.place[i]; q.c < m && w.front[q.c] <= q.k < w.rear[q.c] && q.k < |w.slots[q.c]| && w.slots[q.c][q.k] == i
    ensures w.place[i].OnCore? ==> w.place[i].c < m && w.on[w.place[i].c] == i
  {
    assert PlaceOk(w, n, m, i);
    forall c: nat, k | c < m && w.front[c] <= k < w.rear[c] && k < |w.slots[c]| && w.slots[c][k] == i
      ensures w.place[i] == Queued(c, k)
    {
      assert QueueOk(w, n, m, c);
    }
    forall d: nat | d < m && w.on[d] == i
      ensures w.place[i] == OnCore(d)
    {
      assert CoreOk(w, n, m, d);
    }
  }

  /** push_back of an arriving process. */
  function Push(w: State, c: nat, i: nat): (w': State)
    requires c < |w.slots| == |w.front| == |w.rear| == |w.size| && w.rear[c] < |w.slots[c]| && i < |w.place|
  {
    w.(slots := w.slots[c := w.slots[c][w.rear[c] := i]], rear := w.rear[c := w.rear[c] + 1],
       size := w.size[c := w.size[c] + 1], place := w.place[i := Queued(c, w.rear[c])])
  }

  lemma PushKeeps(w: State, n: nat, m: nat, c: nat, i: nat)
    requires Valid(w, n, m) && c < m && i < n && w.place[i] == NotArrived && w.rear[c] < CAPACITY == |w.slots[c]|
    ensures Valid(Push(w, c, i), n, m)
  {
    var w' := Push(w, c, i);
    assert QueueOk(w, n, m, c);
    forall d: nat | d < m
      ensures QueueOk(w', n, m, d) && CoreOk(w', n, m, d)
    {
      assert QueueOk(w, n, m, d) && CoreOk(w, n, m, d);
    }
    forall j: nat | j < n
      ensures PlaceOk(w', n, m, j)
    {
      assert PlaceOk(w, n, m, j);
    }
  }

  /** Taking the first (or, when stealing, the last) process of deque c onto idle core d. */
  function Take(w: State, c: nat, atFront: bool, d: nat): (w': State)
    requires c < |w.slots| == |w.front| == |w.rear| == |w.size| && w.front[c] < w.rear[c] <= |w.slots[c]| && w.size[c] > 0
    requires d < |w.on| && 0 <= Taken(w, c, atFront) < |w.place|
  {
    var i := Taken(w, c, atFront);
    w.(front := if atFront then w.front[c := w.front[c] + 1] else w.front,
       rear := if atFront then w.rear else w.rear[c := w.rear[c] - 1],
       size := w.size[c := w.size[c] - 1], on := w.on[d := i], place := w.place[i := OnCore(d)])
  }

  function Taken(w: State, c: nat, atFront: bool): (i: int)
    requires c < |w.slots| == |w.front| == |w.rear| && w.front[c] < w.rear[c] <= |w.slots[c]|
  {
    w.slots[c][if atFront then w.front[c] else w.rear[c] - 1]
  }

  lemma TakeKeeps(w: State, n: nat, m: nat, c: nat, atFront: bool, d: nat)
    requires Valid(w, n, m) && c < m && d < m && w.size[c] > 0 && w.on[d] == -1
    ensures w.front[c] < w.rear[c] <= |w.slots[c]| && 0 <= Taken(w, c, atFront) < n
    ensures w.place[Taken(w, c, atFront)] == Queued(c, if atFront then w.front[c] else w.rear[c] - 1)
    ensures Valid(Take(w, c, atFront, d), n, m)
  {
    assert QueueOk(w, n, m, c);
    var i := Taken(w, c, atFront);
    assert w.place[i].Queued?;
    var w' := Take(w, c, atFront, d);
    forall e: nat | e < m
      ensures QueueOk(w', n, m, e) && CoreOk(w', n, m, e)
    {
      assert QueueOk(w, n, m, e) && CoreOk(w, n, m, e);
    }
    forall j: nat | j < n
      ensures PlaceOk(w', n, m, j)
    {
      assert PlaceOk(w, n, m, j);
    }
  }

  // --- who goes where ---

  predicate FirstShortest(size: seq<nat>, c: nat) {
    c < |size| && forall d: nat | d < |size| :: size[c] <= size[d] && (d < c ==> size[c] < size[d])
  }

  /** The first of the longest deques other than i's own, and not empty. */
  predicate FirstLongest(size: seq<nat>, i: nat, c: nat) {
    && c < |size| && c != i && size[c] > 0
    && forall d: nat | d < |size| && d != i :: size[d] <= size[c] && (d < c ==> size[d] < size[c])
  }

  /** Process i is at the back of deque c and nothing else has moved. */
  predicate JoinedBack(w: State, w': State, c: nat, i: nat)
    requires i < |w.place|
  {
    && c < |w.rear| == |w.size| && w'.place == w.place[i := Queued(c, w.rear[c])]
    && w'.rear == w.rear[c := w.rear[c] + 1] && w'.size == w.size[c := w.size[c] + 1]
    && w'.front == w.front && w'.on == w.on
  }

  /** Process i was at the front of d's own deque or, that being empty, at the back of the first
      longest other one. */
  ghost predicate NextFor(w: State, d: nat, i: int) {
    && d < |w.size| == |w.front| == |w.rear| && 0 <= i < |w.place|
    && if w.size[d] > 0 then w.place[i] == Queued(d, w.front[d])
       else exists c: nat :: FirstLongest(w.size, d, c) && w.rear[c] > 0 && w.place[i] == Queued(c, w.rear[c] - 1)
  }

  lemma NextIs(w: State, c: nat, atFront: bool, d: nat)
    requires d < |w.size| && CanTake(w, c, atFront, d)
    requires if atFront then c == d else w.size[d] == 0 && c == LongestOf(w.size, d, |w.size|)
    requires w.place[Taken(w, c, atFront)] == Queued(c, if atFront then w.front[c] else w.rear[c] - 1)
    ensures NextFor(w, d, Taken(w, c, atFront))
  {
    assert !atFront ==> FirstLongest(w.size, d, c);
  }

  /** The first of the shortest of the deques below n. */
  function ShortestOf(size: seq<nat>, n: nat): (c: nat)
    requires 0 < n <= |size|
    ensures c < n && forall d: nat | d < n :: size[c] <= size[d] && (d < c ==> size[c] < size[d])
  {
    if n == 1 then 0
    else
      var c := ShortestOf(size, n - 1);
      if size[n - 1] < size[c] then n - 1 else c
  }

  /** The first of the longest nonempty deques below n other than i's own; -1 if those are all empty. */
  function LongestOf(size: seq<nat>, i: nat, n: nat): (c: int)
    requires n <= |size|
    ensures -1 <= c < n
    ensures c == -1 ==> forall d: nat | d < n && d != i :: size[d] == 0
    ensures c != -1 ==> c != i && size[c] > 0
    ensures c != -1 ==> forall d: nat | d < n && d != i :: size[d] <= size[c] && (d < c ==> size[d] < size[c])
  {
    if n == 0 then -1
    else
      var c := LongestOf(size, i, n - 1);
      if n - 1 != i && size[n - 1] > (if c == -1 then 0 else size[c]) then n - 1 else c
  }

  /** The processes below n that arrive at t, one after the other to the deque that is shortest then. */
  ghost function Dispatched(ps: seq<Process>, w: State, t: int, n: nat): (w': State)
    requires n <= |ps|
  {
    if n == 0 then w
    else
      var v := Dispatched(ps, w, t, n - 1);
      if ps[n - 1].arrival == t then Sent(v, n - 1) else v
  }

  /** Process i goes to the back of the first shortest deque. */
  ghost function Sent(w: State, i: nat): (w': State) {
    if |w.size| > 0 && Room(w, ShortestOf(w.size, |w.size|), i) then Push(w, ShortestOf(w.size, |w.size|), i) else w
  }

  predicate Room(w: State, c: nat, i: nat) {
    c < |w.slots| == |w.front| == |w.rear| == |w.size| && w.rear[c] < |w.slots[c]| && i < |w.place|
  }

  /** Idle core d takes the front of its own deque, else the back of the longest other one. */
  ghost function Fetched(w: State, d: nat): (w': State) {
    if d >= |w.size| then w
    else if w.size[d] > 0 then (if CanTake(w, d, true, d) then Take(w, d, true, d) else w)
    else
      var c := LongestOf(w.size, d, |w.size|);
      if c != -1 && CanTake(w, c, false, d) then Take(w, c, false, d) else w
  }

  predicate CanTake(w: State, c: nat, atFront: bool, d: nat) {
    && c < |w.slots| == |w.front| == |w.rear| == |w.size| && w.front[c] < w.rear[c] <= |w.slots[c]| && w.size[c] > 0
    && d < |w.on| && 0 <= Taken(w, c, atFront) < |w.place|
  }

  lemma FetchedNone(w: State, d: nat)
    requires d < |w.size| && w.size[d] == 0 && LongestOf(w.size, d, |w.size|) == -1
    ensures Fetched(w, d) == w && Drained(w)
  {
  }

  lemma FetchedIs(w: State, c: nat, atFront: bool, d: nat)
    requires d < |w.size| && CanTake(w, c, atFront, d)
    requires if atFront then c == d else w.size[d] == 0 && c == LongestOf(w.size, d, |w.size|)
    ensures Fetched(w, d) == Take(w, c, atFront, d)
  {
  }

  /** The idle cores below n fetch, in order. */
  ghost function AllFetched(w: State, n: nat): (w': State) {
    if n == 0 then w
    else
      var v := AllFetched(w, n - 1);
      if n - 1 < |v.on| && v.on[n - 1] == -1 then Fetched(v, n - 1) else v
  }

  /** The process on core d finishes. */
  function Finish(w: State, d: nat): (w': State)
    requires d < |w.on| && 0 <= w.on[d] < |w.place|
  {
    w.(on := w.on[d := -1], place := w.place[w.on[d] := Done])
  }

  lemma FinishKeeps(w: State, n: nat, m: nat, d: nat)
    requires Valid(w, n, m) && d < m && 0 <= w.on[d] < n
    ensures Valid(Finish(w, d), n, m) && w.place[w.on[d]] == OnCore(d)
  {
    var w' := Finish(w, d);
    assert CoreOk(w, n, m, d);
    forall e: nat | e < m
      ensures QueueOk(w', n, m, e) && CoreOk(w', n, m, e)
    {
      assert QueueOk(w, n, m, e) && CoreOk(w, n, m, e);
    }
    forall j: nat | j < n
      ensures PlaceOk(w', n, m, j)
    {
      assert PlaceOk(w, n, m, j);
    }
  }

  /** Every deque is empty. */
  predicate Drained(w: State) {
    forall c | 0 <= c < |w.size| :: w.size[c] == 0
  }

  /** With all deques empty, whoever has arrived and is not done is on a core. */
  lemma DrainedPlaces(w: State, n: nat, m: nat, i: nat)
    requires Valid(w, n, m) && Drained(w) && i < n
    ensures !w.place[i].Queued?
  {
    assert PlaceOk(w, n, m, i);
    assert w.place[i].Queued? ==> QueueOk(w, n, m, w.place[i].c);
  }

  // --- the timeline ---

  /** The row of a tick: the pid on each core, 0 for an idle one. */
  function Row(ps: seq<Process>, on: seq<int>): (row: seq<int>)
    requires forall d | 0 <= d < |on| :: -1 <= on[d] < |ps|
    ensures |row| == |on|
  {
    seq(|on|, d requires 0 <= d < |on| => if on[d] == -1 then 0 else ps[on[d]].pid)
  }

  /** Tick t conserves work: only ready processes run, none on two cores, and a core is idle only
      if every ready process runs. */
  ghost predicate WorkTick(ps: seq<Process>, tl: Timeline, t: nat)
    requires t < |tl|
  {
    && (forall c | 0 <= c < |tl[t]| && tl[t][c] != 0 :: exists i | 0 <= i < |ps| :: ps[i].pid == tl[t][c] && Ready(ps, tl, i, t))
    && (forall c, d | 0 <= c < d < |tl[t]| && tl[t][c] != 0 :: tl[t][c] != tl[t][d])
    && (0 in tl[t] ==> forall i: nat | i < |ps| && Ready(ps, tl, i, t) :: ps[i].pid in tl[t])
  }

  /** remaining is what the timeline has left of each burst; the done processes have nothing left. */
  ghost predicate Accounts(ps: seq<Process>, tl: Timeline, remaining: seq<int>, place: seq<Place>) {
    && |remaining| == |place| == |ps|
    && (forall i: nat | i < |ps| :: remaining[i] == ps[i].burst - Executed(tl, ps[i].pid, |tl|))
    && (forall i: nat | i < |ps| :: if place[i] == Done then remaining[i] == 0 else remaining[i] > 0)
  }

  /** Who has arrived at time t. */
  ghost predicate Arrivals(ps: seq<Process>, place: seq<Place>, t: int) {
    |place| == |ps| && forall i: nat | i < |ps| :: place[i] == NotArrived <==> ps[i].arrival > t
  }

  lemma InRow(ps: seq<Process>, w: State, m: nat, i: nat)
    requires Input(ps) && Valid(w, |ps|, m) && i < |ps|
    ensures forall d | 0 <= d < m :: -1 <= w.on[d] < |ps|
    ensures ps[i].pid in Row(ps, w.on) <==> w.place[i].OnCore?
  {
    forall d: nat | d < m
      ensures -1 <= w.on[d] < |ps|
    {
      assert CoreOk(w, |ps|, m, d);
    }
    assert PlaceOk(w, |ps|, m, i);
    var row := Row(ps, w.on);
    if w.place[i].OnCore? {
      assert row[w.place[i].c] == ps[i].pid;
    }
    if ps[i].pid in row {
      var d: nat :| d < m && row[d] == ps[i].pid;
      assert CoreOk(w, |ps|, m, d);
      assert w.on[d] == i;
    }
  }

  lemma ReadyIs(ps: seq<Process>, tl: Timeline, row: seq<int>, remaining: seq<int>, place: seq<Place>, i: nat)
    requires Accounts(ps, tl, remaining, place) && Arrivals(ps, place, |tl|) && i < |ps|
    ensures Ready(ps, tl + [row], i, |tl|) <==> place[i].Queued? || place[i].OnCore?
  {
    ExecutedPrefix(tl, row, ps[i].pid, |tl|);
  }

  /** A tick that starts with deques drained, or with no idle core, conserves work. */
  lemma TickConserves(ps: seq<Process>, tl: Timeline, w: State, m: nat, remaining: seq<int>)
    requires Input(ps) && Valid(w, |ps|, m) && Accounts(ps, tl, remaining, w.place) && Arrivals(ps, w.place, |tl|)
    requires -1 in w.on ==> Drained(w)
    ensures forall d | 0 <= d < m :: -1 <= w.on[d] < |ps|
    ensures WorkTick(ps, tl + [Row(ps, w.on)], |tl|)
  {
    forall d: nat | d < m
      ensures -1 <= w.on[d] < |ps|
    {
      assert CoreOk(w, |ps|, m, d);
    }
    var row := Row(ps, w.on);
    var tl' := tl + [row];
    forall c | 0 <= c < |row| && row[c] != 0
      ensures exists i | 0 <= i < |ps| :: ps[i].pid == row[c] && Ready(ps, tl', i, |tl|)
    {
      assert CoreOk(w, |ps|, m, c);
      ReadyIs(ps, tl, row, remaining, w.place, w.on[c]);
    }
    forall c, d | 0 <= c < d < |row| && row[c] != 0
      ensures row[c] != row[d]
    {
      assert CoreOk(w, |ps|, m, c) && CoreOk(w, |ps|, m, d);
    }
    if 0 in row {
      var d :| 0 <= d < |row| && row[d] == 0;
      assert CoreOk(w, |ps|, m, d);
      assert w.on[d] == -1;
      forall i: nat | i < |ps| && Ready(ps, tl', i, |tl|)
        ensures ps[i].pid in row
      {
        ReadyIs(ps, tl, row, remaining, w.place, i);
        DrainedPlaces(w, |ps|, m, i);
        InRow(ps, w, m, i);
      }
    }
  }

  // --- waiting time ---

  /** Ticks in lo..hi in which pid does not run. */
  function Idle(tl: Timeline, pid: int, lo: nat, hi: nat): (k: nat)
    requires hi <= |tl|
  {
    if hi <= lo then 0 else Idle(tl, pid, lo, hi - 1) + (if pid in tl[hi - 1] then 0 else 1)
  }

  lemma {:induction false} IdleIs(tl: Timeline, pid: int, lo: nat, hi: nat)
    requires lo <= hi <= |tl|
    ensures Idle(tl, pid, lo, hi) == hi - lo - (Executed(tl, pid, hi) - Executed(tl, pid, lo))
    decreases hi
  {
    if lo < hi {
      IdleIs(tl, pid, lo, hi - 1);
    }
  }

  // --- one tick after another ---

  /** A process has not run before it arrived. */
  ghost predicate Clean(ps: seq<Process>, tl: Timeline, place: seq<Place>) {
    |place| == |ps| && forall i: nat | i < |ps| ::
      if place[i] == NotArrived then Executed(tl, ps[i].pid, |tl|) == 0
      else 0 <= ps[i].arrival <= |tl| && Executed(tl, ps[i].pid, ps[i].arrival) == 0
  }

  /** Process i has its last unit of work done in the coming tick. */
  predicate Finishes(w: State, remaining: seq<int>, i: nat)
    requires i < |w.place| == |remaining|
  {
    w.place[i].OnCore? && remaining[i] == 1
  }

  /** What is left after the tick in which the cores of w run. */
  function After(w: State, remaining: seq<int>): (r: seq<int>)
    requires |w.place| == |remaining|
    ensures |r| == |remaining|
  {
    seq(|remaining|, i requires 0 <= i < |remaining| => if w.place[i].OnCore? then remaining[i] - 1 else remaining[i])
  }

  ghost predicate PlacesAfter(w: State, remaining: seq<int>, place: seq<Place>) {
    |place| == |w.place| == |remaining| && forall i: nat | i < |place| ::
      place[i] == if Finishes(w, remaining, i) then Done else w.place[i]
  }

  lemma ExecutedNext(ps: seq<Process>, tl: Timeline, w: State, m: nat, i: nat)
    requires Input(ps) && Valid(w, |ps|, m) && i < |ps|
    ensures forall d | 0 <= d < m :: -1 <= w.on[d] < |ps|
    ensures var tl' := tl + [Row(ps, w.on)];
            && Executed(tl', ps[i].pid, |tl|) == Executed(tl, ps[i].pid, |tl|)
            && Executed(tl', ps[i].pid, |tl'|) == Executed(tl, ps[i].pid, |tl|) + (if w.place[i].OnCore? then 1 else 0)
  {
    InRow(ps, w, m, i);
    ExecutedPrefix(tl, Row(ps, w.on), ps[i].pid, |tl|);
  }

  lemma AccountsNext(ps: seq<Process>, tl: Timeline, w: State, m: nat, remaining: seq<int>, place: seq<Place>)
    requires Input(ps) && Valid(w, |ps|, m) && Accounts(ps, tl, remaining, w.place) && PlacesAfter(w, remaining, place)
    ensures forall d | 0 <= d < m :: -1 <= w.on[d] < |ps|
    ensures Accounts(ps, tl + [Row(ps, w.on)], After(w, remaining), place)
  {
    hide Executed, Valid;
    CoresInRange(w, |ps|, m);
    forall i: nat | i < |ps|
      ensures var tl' := tl + [Row(ps, w.on)]; After(w, remaining)[i] == ps[i].burst - Executed(tl', ps[i].pid, |tl'|)
    {
      ExecutedNext(ps, tl, w, m, i);
    }
  }

  lemma CoresInRange(w: State, n: nat, m: nat)
    requires Valid(w, n, m)
    ensures |w.on| == m && forall d | 0 <= d < m :: -1 <= w.on[d] < n
  {
    forall d | 0 <= d < m
      ensures -1 <= w.on[d] < n
    {
      assert CoreOk(w, n, m, d);
    }
  }

  lemma CleanNext(ps: seq<Process>, tl: Timeline, w: State, m: nat, remaining: seq<int>, place: seq<Place>)
    requires Input(ps) && Valid(w, |ps|, m) && Clean(ps, tl, w.place) && PlacesAfter(w, remaining, place)
    ensures forall d | 0 <= d < m :: -1 <= w.on[d] < |ps|
    ensures Clean(ps, tl + [Row(ps, w.on)], place)
  {
    CoresInRange(w, |ps|, m);
    hide Valid;
    forall i: nat | i < |ps|
      ensures var tl' := tl + [Row(ps, w.on)];
              if place[i] == NotArrived then Executed(tl', ps[i].pid, |tl'|) == 0
              else 0 <= ps[i].arrival <= |tl'| && Executed(tl', ps[i].pid, ps[i].arrival) == 0
    {
      ExecutedNext(ps, tl, w, m, i);
      if place[i] != NotArrived {
        ExecutedPrefix(tl, Row(ps, w.on), ps[i].pid, ps[i].arrival);
      }
    }
  }
}
