/** All processes and threads together: who uses which data page. fork, clone, growing, shrinking and
    reaping keep every live translation on a page that is in use, and lose no page, exactly as long as
    no page is given back that another process or thread still translates to, and no thread is reaped
    that has allocated memory of its own.
 */
module Tenants {
  import opened PageTheory
  import opened PageMoves
  import opened PageFree
  import opened PageTable
  import opened ProcMemory
  import opened PageBudget

  /** What a data page is for: a trapframe, or user memory allocated by root. */
  datatype Use = Frame(root: nat) | User(root: nat)

  datatype Tenant = Tenant(sz: nat, trapframe: nat, thread: bool)

  /** Processes and threads, by the root of their page table. */
  type Table = map<nat, Tenant>

  predicate InUse(s: State, pa: nat) {
    pa in s.owner && s.owner[pa] == Data
  }

  /** Page n of r translates to a page in use; a process's own, or for a thread anyone's. */
  ghost predicate PageOk(s: State, use: map<nat, Use>, r: nat, thread: bool, n: nat) {
    var e := Lookup(s.mem, r, n);
    e.Mapped? ==> InUse(s, e.pa) && e.pa in use && use[e.pa].User? && (thread || use[e.pa].root == r)
  }

  /** No two pages below hi translate to the same page. */
  ghost predicate Distinct(mem: Mem, r: nat, hi: nat) {
    forall m: nat, k: nat | m < k < hi && Lookup(mem, r, m).Mapped? && Lookup(mem, r, k).Mapped? ::
      Lookup(mem, r, m).pa != Lookup(mem, r, k).pa
  }

  ghost predicate TenantOk(s: State, use: map<nat, Use>, r: nat, t: Tenant) {
    && PagesOf(t.sz) <= TRAPFRAME && Vacant(s.mem, r, PagesOf(t.sz), TRAPFRAME)
    && InUse(s, t.trapframe) && t.trapframe in use && use[t.trapframe] == Frame(r)
    && (forall n: nat | n < PagesOf(t.sz) :: PageOk(s, use, r, t.thread, n))
    && Distinct(s.mem, r, PagesOf(t.sz))
  }

  /** Every live translation reaches a page in use; no two processes use the same page. */
  ghost predicate Tenancy(s: State, ts: Table, use: map<nat, Use>) {
    ts.Keys == s.trees.Keys && forall r | r in ts :: TenantOk(s, use, r, ts[r])
  }

  /** r translates some page to pa. */
  ghost predicate Reaches(s: State, r: nat, sz: nat, pa: nat) {
    exists n: nat :: n < PagesOf(sz) && Lookup(s.mem, r, n).Mapped? && Lookup(s.mem, r, n).pa == pa
  }

  ghost predicate Held(s: State, ts: Table, u: Use, pa: nat) {
    u.root in ts && if u.Frame? then ts[u.root].trapframe == pa else Reaches(s, u.root, ts[u.root].sz, pa)
  }

  /** No page is lost: whatever is in use can be given back by someone alive. */
  ghost predicate Accounted(s: State, ts: Table, use: map<nat, Use>) {
    forall pa | InUse(s, pa) :: pa in use && Held(s, ts, use[pa], pa)
  }

  lemma FramesAre(mem: Mem, r: nat, lo: nat, hi: nat, pa: nat)
    ensures pa in Frames(mem, r, lo, hi) <==>
              exists n: nat :: lo <= n < hi && Lookup(mem, r, n).Mapped? && Lookup(mem, r, n).pa == pa
  {
    if pa in Frames(mem, r, lo, hi) {
      InFrames(mem, r, lo, hi, pa);
    }
    if n: nat :| lo <= n < hi && Lookup(mem, r, n).Mapped? && Lookup(mem, r, n).pa == pa {
      FramesHas(mem, r, lo, hi, n);
    }
  }

  lemma OwnsAll(s: State, use: map<nat, Use>, r: nat, t: Tenant, lo: nat)
    requires TenantOk(s, use, r, t)
    ensures OwnsRange(s, r, lo, PagesOf(t.sz))
    ensures t.trapframe !in Frames(s.mem, r, 0, PagesOf(t.sz))
  {
    forall m: nat | lo <= m < PagesOf(t.sz) && Lookup(s.mem, r, m).Mapped?
      ensures Lookup(s.mem, r, m).pa in s.owner && s.owner[Lookup(s.mem, r, m).pa] == Data
    {
      assert PageOk(s, use, r, t.thread, m);
    }
    forall m: nat | m < PagesOf(t.sz) && Lookup(s.mem, r, m).Mapped?
      ensures Lookup(s.mem, r, m).pa != t.trapframe
    {
      assert PageOk(s, use, r, t.thread, m);
    }
    FramesAre(s.mem, r, 0, PagesOf(t.sz), t.trapframe);
  }

  // --- what a step does to the others ---

  /** Pages in use stay so and keep their use, but for those of gone. */
  ghost predicate UseKept(s: State, s': State, use: map<nat, Use>, use': map<nat, Use>, gone: set<nat>) {
    forall pa | InUse(s, pa) && pa in use && pa !in gone :: InUse(s', pa) && pa in use' && use'[pa] == use[pa]
  }

  /** r neither translates to a page of gone nor has its trapframe there. */
  ghost predicate Spared(s: State, r: nat, t: Tenant, gone: set<nat>) {
    t.trapframe !in gone && forall n: nat | n < PagesOf(t.sz) && Lookup(s.mem, r, n).Mapped? :: Lookup(s.mem, r, n).pa !in gone
  }

  lemma OtherKept(s: State, s': State, use: map<nat, Use>, use': map<nat, Use>, gone: set<nat>, r: nat, t: Tenant)
    requires TenantOk(s, use, r, t) && SameMap(s.mem, s'.mem, r) && UseKept(s, s', use, use', gone) && Spared(s, r, t, gone)
    ensures TenantOk(s', use', r, t)
  {
    forall n: nat | n < PagesOf(t.sz)
      ensures PageOk(s', use', r, t.thread, n)
    {
      assert PageOk(s, use, r, t.thread, n);
    }
  }

  /** Once a page it translates to is free, r is not all right any more. */
  lemma OtherBroken(s: State, s': State, use: map<nat, Use>, use': map<nat, Use>, gone: set<nat>, r: nat, t: Tenant)
    requires TenantOk(s, use, r, t) && SameMap(s.mem, s'.mem, r) && forall pa | pa in gone :: !InUse(s', pa)
    requires !Spared(s, r, t, gone)
    ensures !TenantOk(s', use', r, t)
  {
    if t.trapframe !in gone {
      var n: nat :| n < PagesOf(t.sz) && Lookup(s.mem, r, n).Mapped? && Lookup(s.mem, r, n).pa in gone;
      assert !PageOk(s', use', r, t.thread, n);
    }
  }

  /** Who came into use was free before. */
  lemma UseMoved(s: State, s': State, root: nat, got: set<nat>, use: map<nat, Use>, given: map<nat, Use>)
    requires s'.owner.Keys == s.owner.Keys && got <= s.owner.Keys && given.Keys == got
    requires forall pa | pa in s.owner :: Moved(s, s', root, got, pa)
    ensures UseKept(s, s', use, use + given, {})
    ensures forall pa | InUse(s', pa) :: pa in got || (InUse(s, pa) && pa !in given)
    ensures forall pa | pa in got :: InUse(s', pa) && !InUse(s, pa)
  {
    forall pa | InUse(s, pa)
      ensures InUse(s', pa) && pa !in got
    {
      assert Moved(s, s', root, got, pa);
    }
    forall pa | InUse(s', pa)
      ensures pa in got || InUse(s, pa)
    {
      assert Moved(s, s', root, got, pa);
    }
    forall pa | pa in got
      ensures InUse(s', pa) && !InUse(s, pa)
    {
      assert Moved(s, s', root, got, pa);
    }
  }

  lemma NoneGone(s: State, r: nat, t: Tenant)
    ensures Spared(s, r, t, {})
  {
  }

  lemma HeldStill(s: State, s': State, ts: Table, ts': Table, u: Use, pa: nat)
    requires Held(s, ts, u, pa) && u.root in ts' && ts'[u.root] == ts[u.root] && PagesOf(ts[u.root].sz) <= MAXPAGES
    requires SameMap(s.mem, s'.mem, u.root)
    ensures Held(s', ts', u, pa)
  {
    if u.User? {
      var n: nat :| n < PagesOf(ts[u.root].sz) && Lookup(s.mem, u.root, n).Mapped? && Lookup(s.mem, u.root, n).pa == pa;
      assert Lookup(s'.mem, u.root, n) == Lookup(s.mem, u.root, n);
    }
  }

  /** A new process or thread. */
  lemma SpawnKeeps(s: State, s': State, ts: Table, use: map<nat, Use>, root: nat, t: Tenant, got: set<nat>, given: map<nat, Use>)
    requires Tenancy(s, ts, use) && Accounted(s, ts, use) && Spawned(s, s', root, got) && given.Keys == got
    requires TenantOk(s', use + given, root, t) && forall pa | pa in got :: Held(s', map[root := t], given[pa], pa)
    ensures root !in ts && Tenancy(s', ts[root := t], use + given) && Accounted(s', ts[root := t], use + given)
  {
    hide TenantOk, Held, Moved, DataKept;
    UseMoved(s, s', root, got, use, given);
    assert s'.trees.Keys == s.trees.Keys + {root};
    forall r | r in ts
      ensures TenantOk(s', use + given, r, ts[r]) && SameMap(s.mem, s'.mem, r)
    {
      SpawnedLookup(s, s', root, got, r);
      NoneGone(s, r, ts[r]);
      OtherKept(s, s', use, use + given, {}, r, ts[r]);
    }
    forall pa | InUse(s', pa)
      ensures pa in use + given && Held(s', ts[root := t], (use + given)[pa], pa)
    {
      if pa in got {
        HeldByNew(s', ts, root, t, given[pa], pa);
      } else {
        HeldRoot(s, ts, use[pa], pa);
        TenantFits(s, use, use[pa].root, ts[use[pa].root]);
        HeldStill(s, s', ts, ts[root := t], use[pa], pa);
      }
    }
  }

  lemma HeldByNew(s: State, ts: Table, root: nat, t: Tenant, u: Use, pa: nat)
    requires Held(s, map[root := t], u, pa)
    ensures Held(s, ts[root := t], u, pa)
  {
  }

  lemma HeldRoot(s: State, ts: Table, u: Use, pa: nat)
    requires Held(s, ts, u, pa)
    ensures u.root in ts
  {
  }

  lemma TenantFits(s: State, use: map<nat, Use>, r: nat, t: Tenant)
    requires TenantOk(s, use, r, t)
    ensures PagesOf(t.sz) <= TRAPFRAME
  {
  }

  /** A failed attempt leaves everything as it was. */
  lemma SameKeeps(s: State, s': State, ts: Table, use: map<nat, Use>)
    requires Tenancy(s, ts, use) && Accounted(s, ts, use) && s'.trees.Keys == s.trees.Keys
    requires forall pa :: InUse(s', pa) <==> InUse(s, pa)
    requires forall r | r in s.trees :: SameMap(s.mem, s'.mem, r)
    ensures Tenancy(s', ts, use) && Accounted(s', ts, use)
  {
    hide TenantOk, Held, InUse;
    forall r | r in ts
      ensures TenantOk(s', use, r, ts[r])
    {
      NoneGone(s, r, ts[r]);
      OtherKept(s, s', use, use, {}, r, ts[r]);
    }
    forall pa | InUse(s', pa)
      ensures pa in use && Held(s', ts, use[pa], pa)
    {
      HeldRoot(s, ts, use[pa], pa);
      TenantFits(s, use, use[pa].root, ts[use[pa].root]);
      HeldStill(s, s', ts, ts, use[pa], pa);
    }
  }

  // --- giving pages back ---

  /** Another process or thread translates to memory that r allocated. */
  ghost predicate Shared(s: State, ts: Table, use: map<nat, Use>, r: nat) {
    exists q, n: nat :: SharesAt(s, ts, use, r, q, n)
  }

  ghost predicate SharesAt(s: State, ts: Table, use: map<nat, Use>, r: nat, q: nat, n: nat) {
    && q in ts && q != r && n < PagesOf(ts[q].sz)
    && var e := Lookup(s.mem, q, n); e.Mapped? && e.pa in use && use[e.pa] == User(r)
  }

  /** r has allocated user memory. */
  ghost predicate Allocated(s: State, use: map<nat, Use>, r: nat) {
    exists pa :: InUse(s, pa) && pa in use && use[pa] == User(r)
  }

  /** Of pages given back, the others are all right exactly if they are spared. */
  lemma OthersExactly(s: State, s': State, ts: Table, use: map<nat, Use>, r: nat, gone: set<nat>)
    requires Tenancy(s, ts, use) && r in ts
    requires forall q | q in ts && q != r :: SameMap(s.mem, s'.mem, q)
    requires forall pa :: InUse(s', pa) <==> InUse(s, pa) && pa !in gone
    ensures (forall q | q in ts && q != r :: TenantOk(s', use, q, ts[q])) <==> forall q | q in ts && q != r :: Spared(s, q, ts[q], gone)
  {
    hide TenantOk, Spared, InUse;
    forall q | q in ts && q != r
      ensures TenantOk(s', use, q, ts[q]) <==> Spared(s, q, ts[q], gone)
    {
      if Spared(s, q, ts[q], gone) {
        OtherKept(s, s', use, use, gone, q, ts[q]);
      } else {
        OtherBroken(s, s', use, use, gone, q, ts[q]);
      }
    }
  }

  /** The pages that reaping r gives back are those whose use is r's; or just the trapframe, for a thread. */
  lemma OwnPagesAre(s: State, ts: Table, use: map<nat, Use>, r: nat, pa: nat)
    requires Tenancy(s, ts, use) && Accounted(s, ts, use) && r in ts && InUse(s, pa)
    ensures pa in use
    ensures pa in OwnPages(s.mem, r, ts[r].trapframe, ts[r].sz, ts[r].thread) <==>
              use[pa] == Frame(r) || (!ts[r].thread && use[pa] == User(r))
  {
    var t := ts[r];
    assert TenantOk(s, use, r, t) && Held(s, ts, use[pa], pa);
    FramesAre(s.mem, r, 0, PagesOf(t.sz), pa);
    if n: nat :| n < PagesOf(t.sz) && Lookup(s.mem, r, n).Mapped? && Lookup(s.mem, r, n).pa == pa {
      assert PageOk(s, use, r, t.thread, n);
    }
  }

  lemma SparedExactly(s: State, ts: Table, use: map<nat, Use>, r: nat, q: nat)
    requires Tenancy(s, ts, use) && Accounted(s, ts, use) && r in ts && q in ts && q != r
    ensures Spared(s, q, ts[q], OwnPages(s.mem, r, ts[r].trapframe, ts[r].sz, ts[r].thread)) <==>
              ts[r].thread || forall n: nat :: !SharesAt(s, ts, use, r, q, n)
  {
    hide OwnPages, Held;
    var t, gone := ts[q], OwnPages(s.mem, r, ts[r].trapframe, ts[r].sz, ts[r].thread);
    assert TenantOk(s, use, q, t);
    OwnPagesAre(s, ts, use, r, t.trapframe);
    forall n: nat | n < PagesOf(t.sz) && Lookup(s.mem, q, n).Mapped?
      ensures Lookup(s.mem, q, n).pa in gone <==> !ts[r].thread && SharesAt(s, ts, use, r, q, n)
    {
      assert PageOk(s, use, q, t.thread, n);
      OwnPagesAre(s, ts, use, r, Lookup(s.mem, q, n).pa);
    }
  }

  /** Reaping keeps all translations on pages in use exactly if a thread is reaped, or a process whose
      memory no one shares; and it loses no page exactly if no thread with memory of its own is reaped. */
  lemma ReapExactly(s: State, s': State, ts: Table, use: map<nat, Use>, r: nat)
    requires Tenancy(s, ts, use) && Accounted(s, ts, use) && r in ts
    requires Reaped(s, s', r, OwnPages(s.mem, r, ts[r].trapframe, ts[r].sz, ts[r].thread))
    ensures Tenancy(s', ts - {r}, use) <==> ts[r].thread || !Shared(s, ts, use, r)
    ensures Accounted(s', ts - {r}, use) <==> !ts[r].thread || !Allocated(s, use, r)
  {
    hide TenantOk, Held, OwnPages, Spared, SharesAt;
    var gone := OwnPages(s.mem, r, ts[r].trapframe, ts[r].sz, ts[r].thread);
    ReapedUse(s, s', r, gone);
    OthersExactly(s, s', ts, use, r, gone);
    forall q | q in ts && q != r
      ensures Spared(s, q, ts[q], gone) <==> ts[r].thread || forall n: nat :: !SharesAt(s, ts, use, r, q, n)
    {
      SparedExactly(s, ts, use, r, q);
    }
    TenancyWithout(s', ts, use, r);
    SharedMeans(s, ts, use, r);
    forall pa | InUse(s', pa)
      ensures pa in use && (use[pa].root != r || (ts[r].thread && use[pa] == User(r)))
      ensures use[pa].root != r ==> Held(s', ts - {r}, use[pa], pa)
    {
      OwnPagesAre(s, ts, use, r, pa);
      if use[pa].root != r {
        HeldRoot(s, ts, use[pa], pa);
        TenantFits(s, use, use[pa].root, ts[use[pa].root]);
        HeldStill(s, s', ts, ts - {r}, use[pa], pa);
      }
    }
    forall pa | InUse(s, pa) && pa in use && use[pa] == User(r) && ts[r].thread
      ensures InUse(s', pa) && !Held(s', ts - {r}, use[pa], pa)
    {
      OwnPagesAre(s, ts, use, r, pa);
      NotHeld(s', ts - {r}, use[pa], pa);
    }
  }

  lemma TenancyWithout(s: State, ts: Table, use: map<nat, Use>, r: nat)
    requires s.trees.Keys == ts.Keys - {r}
    ensures Tenancy(s, ts - {r}, use) <==> forall q | q in ts && q != r :: TenantOk(s, use, q, ts[q])
  {
    hide TenantOk;
    var ts' := ts - {r};
    assert ts'.Keys == s.trees.Keys;
    if Tenancy(s, ts', use) {
      forall q | q in ts && q != r
        ensures TenantOk(s, use, q, ts[q])
      {
        assert q in ts' && ts'[q] == ts[q];
      }
    }
  }

  lemma NotHeld(s: State, ts: Table, u: Use, pa: nat)
    requires u.root !in ts
    ensures !Held(s, ts, u, pa)
  {
  }

  lemma SharedMeans(s: State, ts: Table, use: map<nat, Use>, r: nat)
    ensures Shared(s, ts, use, r) <==> exists q, n: nat :: q in ts && q != r && SharesAt(s, ts, use, r, q, n)
  {
    if q, n: nat :| SharesAt(s, ts, use, r, q, n) {
    }
  }

  lemma ReapedUse(s: State, s': State, r: nat, gone: set<nat>)
    requires Reaped(s, s', r, gone)
    ensures forall pa :: InUse(s', pa) <==> InUse(s, pa) && pa !in gone
    ensures forall q | q in s.trees && q != r :: SameMap(s.mem, s'.mem, q)
    ensures s'.trees.Keys == s.trees.Keys - {r}
  {
  }

  // --- growing and shrinking ---

  /** Fresh pages of r's own after its old ones. */
  lemma GrowSelf(s: State, s': State, use: map<nat, Use>, r: nat, t: Tenant, sz: nat, got: set<nat>, given: map<nat, Use>)
    requires TenantOk(s, use, r, t) && PagesOf(t.sz) <= PagesOf(sz) <= TRAPFRAME
    requires ProvidedRange(s, s', r, PagesOf(t.sz), PagesOf(sz), got) && given == map pa | pa in got :: User(r)
    ensures TenantOk(s', use + given, r, t.(sz := sz))
  {
    hide Shift, DataKept;
    var use', lo, hi := use + given, PagesOf(t.sz), PagesOf(sz);
    ShiftUse(s, s', r, got, use, given);
    forall n: nat | n < hi
      ensures PageOk(s', use', r, t.thread, n)
    {
      GrowPage(s, s', use, r, t, sz, got, given, n);
    }
    forall m: nat, k: nat | m < k < hi && Lookup(s'.mem, r, m).Mapped? && Lookup(s'.mem, r, k).Mapped?
      ensures Lookup(s'.mem, r, m).pa != Lookup(s'.mem, r, k).pa
    {
      if m < lo <= k {
        assert PageOk(s, use, r, t.thread, m);
        FramesHas(s'.mem, r, lo, hi, k);
      }
    }
  }

  lemma ShiftUse(s: State, s': State, r: nat, got: set<nat>, use: map<nat, Use>, given: map<nat, Use>)
    requires Shift(s, s', r, got) && given.Keys == got
    ensures UseKept(s, s', use, use + given, {})
    ensures forall pa | InUse(s', pa) :: pa in got || (InUse(s, pa) && pa !in given)
    ensures forall pa | pa in got :: InUse(s', pa) && !InUse(s, pa)
    ensures s'.trees.Keys == s.trees.Keys
  {
    hide Moved;
    UseMoved(s, s', r, got, use, given);
  }

  lemma GrowPage(s: State, s': State, use: map<nat, Use>, r: nat, t: Tenant, sz: nat, got: set<nat>, given: map<nat, Use>, n: nat)
    requires TenantOk(s, use, r, t) && n < PagesOf(sz) <= TRAPFRAME && given == map pa | pa in got :: User(r)
    requires OnlyRange(s, s', r, PagesOf(t.sz), PagesOf(sz)) && got == Frames(s'.mem, r, PagesOf(t.sz), PagesOf(sz))
    requires UseKept(s, s', use, use + given, {}) && forall pa | pa in got :: InUse(s', pa)
    ensures PageOk(s', use + given, r, t.thread, n)
  {
    if n < PagesOf(t.sz) {
      assert PageOk(s, use, r, t.thread, n);
    } else if Lookup(s'.mem, r, n).Mapped? {
      FramesHas(s'.mem, r, PagesOf(t.sz), PagesOf(sz), n);
    }
  }

  lemma GrowKeeps(s: State, s': State, ts: Table, use: map<nat, Use>, r: nat, sz: nat, got: set<nat>, given: map<nat, Use>)
    requires Tenancy(s, ts, use) && Accounted(s, ts, use) && r in ts && PagesOf(ts[r].sz) <= PagesOf(sz) <= TRAPFRAME
    requires ProvidedRange(s, s', r, PagesOf(ts[r].sz), PagesOf(sz), got) && given == map pa | pa in got :: User(r)
    ensures Tenancy(s', ts[r := ts[r].(sz := sz)], use + given) && Accounted(s', ts[r := ts[r].(sz := sz)], use + given)
  {
    hide TenantOk, Held, Shift, DataKept, OwnsRange, InUse;
    var ts', use' := ts[r := ts[r].(sz := sz)], use + given;
    ShiftUse(s, s', r, got, use, given);
    GrowSelf(s, s', use, r, ts[r], sz, got, given);
    forall q | q in ts && q != r
      ensures TenantOk(s', use', q, ts[q])
    {
      NoneGone(s, q, ts[q]);
      OtherKept(s, s', use, use', {}, q, ts[q]);
    }
    forall pa | InUse(s', pa)
      ensures pa in use' && Held(s', ts', use'[pa], pa)
    {
      if pa in got {
        FramesAre(s'.mem, r, PagesOf(ts[r].sz), PagesOf(sz), pa);
        ReachesNow(s', ts', r, pa);
      } else {
        HeldRoot(s, ts, use[pa], pa);
        TenantFits(s, use, use[pa].root, ts[use[pa].root]);
        HeldLonger(s, s', ts, r, sz, use[pa], pa);
      }
    }
  }

  lemma ReachesNow(s: State, ts: Table, r: nat, pa: nat)
    requires r in ts && exists n: nat :: n < PagesOf(ts[r].sz) && Lookup(s.mem, r, n).Mapped? && Lookup(s.mem, r, n).pa == pa
    ensures Held(s, ts, User(r), pa)
  {
  }

  lemma HeldLonger(s: State, s': State, ts: Table, r: nat, sz: nat, u: Use, pa: nat)
    requires r in ts && Held(s, ts, u, pa) && PagesOf(ts[r].sz) <= PagesOf(sz) && PagesOf(ts[u.root].sz) <= TRAPFRAME
    requires OnlyRange(s, s', r, PagesOf(ts[r].sz), PagesOf(sz)) && u.root in s.trees
    ensures Held(s', ts[r := ts[r].(sz := sz)], u, pa)
  {
    if u.User? {
      var n: nat :| n < PagesOf(ts[u.root].sz) && Lookup(s.mem, u.root, n).Mapped? && Lookup(s.mem, u.root, n).pa == pa;
      assert u.root != r ==> SameMap(s.mem, s'.mem, u.root);
      assert Lookup(s'.mem, u.root, n) == Lookup(s.mem, u.root, n);
    }
  }

  /** Shrinking gives back the pages above the new size, whoever else translates to them: the others
      are all right exactly if none does. No page is lost. */
  lemma ShrinkExactly(s: State, s': State, ts: Table, use: map<nat, Use>, r: nat, sz: nat, gone: set<nat>)
    requires Tenancy(s, ts, use) && Accounted(s, ts, use) && r in ts && PagesOf(sz) <= PagesOf(ts[r].sz)
    requires gone == Frames(s.mem, r, PagesOf(sz), PagesOf(ts[r].sz)) && Freed(s, s', gone)
    requires OnlyRange(s, s', r, PagesOf(sz), PagesOf(ts[r].sz)) && Vacant(s'.mem, r, PagesOf(sz), PagesOf(ts[r].sz))
    ensures Tenancy(s', ts[r := ts[r].(sz := sz)], use) <==> forall q | q in ts && q != r :: Spared(s, q, ts[q], gone)
    ensures Accounted(s', ts[r := ts[r].(sz := sz)], use)
  {
    hide TenantOk, Held, Spared;
    var ts' := ts[r := ts[r].(sz := sz)];
    OthersExactly(s, s', ts, use, r, gone);
    ShrinkSelf(s, s', use, r, ts[r], sz, gone);
    TenantFits(s, use, r, ts[r]);
    forall pa | InUse(s', pa)
      ensures pa in use && Held(s', ts', use[pa], pa)
    {
      HeldRoot(s, ts, use[pa], pa);
      TenantFits(s, use, use[pa].root, ts[use[pa].root]);
      HeldShorter(s, s', ts, r, sz, use[pa], pa);
    }
    assert ts'.Keys == s'.trees.Keys;
    if Tenancy(s', ts', use) {
      forall q | q in ts && q != r
        ensures TenantOk(s', use, q, ts[q])
      {
        assert q in ts' && ts'[q] == ts[q];
      }
    }
  }

  lemma ShrinkSelf(s: State, s': State, use: map<nat, Use>, r: nat, t: Tenant, sz: nat, gone: set<nat>)
    requires TenantOk(s, use, r, t) && PagesOf(sz) <= PagesOf(t.sz)
    requires gone == Frames(s.mem, r, PagesOf(sz), PagesOf(t.sz)) && Freed(s, s', gone)
    requires OnlyRange(s, s', r, PagesOf(sz), PagesOf(t.sz)) && Vacant(s'.mem, r, PagesOf(sz), PagesOf(t.sz))
    ensures TenantOk(s', use, r, t.(sz := sz))
  {
    FramesAre(s.mem, r, PagesOf(sz), PagesOf(t.sz), t.trapframe);
    forall n: nat | n < PagesOf(t.sz) && Lookup(s.mem, r, n).Mapped?
      ensures Lookup(s.mem, r, n).pa != t.trapframe
    {
      assert PageOk(s, use, r, t.thread, n);
    }
    forall n: nat | n < PagesOf(sz)
      ensures PageOk(s', use, r, t.thread, n)
    {
      assert PageOk(s, use, r, t.thread, n);
      var e := Lookup(s.mem, r, n);
      if e.Mapped? {
        FramesAre(s.mem, r, PagesOf(sz), PagesOf(t.sz), e.pa);
      }
    }
  }

  lemma HeldShorter(s: State, s': State, ts: Table, r: nat, sz: nat, u: Use, pa: nat)
    requires r in ts && Held(s, ts, u, pa) && PagesOf(sz) <= PagesOf(ts[r].sz) <= TRAPFRAME && PagesOf(ts[u.root].sz) <= TRAPFRAME
    requires OnlyRange(s, s', r, PagesOf(sz), PagesOf(ts[r].sz)) && u.root in s.trees
    requires pa !in Frames(s.mem, r, PagesOf(sz), PagesOf(ts[r].sz))
    ensures Held(s', ts[r := ts[r].(sz := sz)], u, pa)
  {
    if u.User? {
      var n: nat :| n < PagesOf(ts[u.root].sz) && Lookup(s.mem, u.root, n).Mapped? && Lookup(s.mem, u.root, n).pa == pa;
      FramesAre(s.mem, r, PagesOf(sz), PagesOf(ts[r].sz), pa);
      assert u.root != r ==> SameMap(s.mem, s'.mem, u.root);
      assert Lookup(s'.mem, u.root, n) == Lookup(s.mem, u.root, n);
    }
  }

  // --- the operations ---

  lemma StartOk(s: State)
    requires s.trees == map[] && forall pa | pa in s.owner :: s.owner[pa] == Free
    ensures Tenancy(s, map[], map[]) && Accounted(s, map[], map[])
  {
  }

  /** Mapped pages below the size can be read: they are whole pages in use. */
  lemma ReadableAll(s: State, use: map<nat, Use>, r: nat, t: Tenant)
    requires Valid(s) && TenantOk(s, use, r, t)
    ensures Readable(s, r, PagesOf(t.sz))
  {
    forall m: nat | m < PagesOf(t.sz) && Lookup(s.mem, r, m).Mapped?
      ensures Steady(s, Lookup(s.mem, r, m).pa) && |s.mem[Lookup(s.mem, r, m).pa]| == 512
    {
      assert PageOk(s, use, r, t.thread, m);
    }
  }

  /** A process just made: its pages and trapframe are its own. */
  lemma NewProcess(s: State, use: map<nat, Use>, root: nat, t: Tenant)
    requires !t.thread && PagesOf(t.sz) <= TRAPFRAME && Vacant(s.mem, root, PagesOf(t.sz), TRAPFRAME) && InUse(s, t.trapframe)
    requires OwnsRange(s, root, 0, PagesOf(t.sz)) && t.trapframe !in Frames(s.mem, root, 0, PagesOf(t.sz))
    ensures var given := GivenTo(s.mem, root, t);
            && given.Keys == OwnPages(s.mem, root, t.trapframe, t.sz, false) && TenantOk(s, use + given, root, t)
            && forall pa | pa in given :: Held(s, map[root := t], given[pa], pa)
  {
    var given := GivenTo(s.mem, root, t);
    forall n: nat | n < PagesOf(t.sz)
      ensures PageOk(s, use + given, root, false, n)
    {
      if Lookup(s.mem, root, n).Mapped? {
        FramesHas(s.mem, root, 0, PagesOf(t.sz), n);
      }
    }
    forall pa | pa in given
      ensures Held(s, map[root := t], given[pa], pa)
    {
      FramesAre(s.mem, root, 0, PagesOf(t.sz), pa);
    }
  }

  ghost function GivenTo(mem: Mem, root: nat, t: Tenant): (given: map<nat, Use>) {
    map pa | pa in OwnPages(mem, root, t.trapframe, t.sz, t.thread) :: if pa == t.trapframe then Frame(root) else User(root)
  }

  /** A thread just made translates as its creator does, and has a trapframe. */
  lemma NewThread(s: State, s': State, use: map<nat, Use>, src: nat, root: nat, t: Tenant, c: Tenant)
    requires TenantOk(s, use, src, c) && t == Tenant(c.sz, t.trapframe, true) && InUse(s', t.trapframe)
    requires Vacant(s'.mem, root, PagesOf(t.sz), TRAPFRAME) && !InUse(s, t.trapframe)
    requires forall n: nat | n < PagesOf(t.sz) :: Lookup(s'.mem, root, n) == Lookup(s.mem, src, n)
    requires forall pa | InUse(s, pa) :: InUse(s', pa)
    ensures var given := GivenTo(s'.mem, root, t);
            && given.Keys == {t.trapframe} && TenantOk(s', use + given, root, t)
            && forall pa | pa in given :: Held(s', map[root := t], given[pa], pa)
  {
    var given := GivenTo(s'.mem, root, t);
    assert OwnPages(s'.mem, root, t.trapframe, t.sz, true) == {t.trapframe};
    forall n: nat | n < PagesOf(t.sz)
      ensures PageOk(s', use + given, root, true, n)
    {
      assert PageOk(s, use, src, c.thread, n);
    }
  }

  lemma SpawnedUse(s: State, s': State, root: nat, got: set<nat>)
    requires Spawned(s, s', root, got)
    ensures forall pa | InUse(s, pa) :: InUse(s', pa) && pa !in got
  {
    forall pa | InUse(s, pa)
      ensures InUse(s', pa) && pa !in got
    {
      assert Moved(s, s', root, got, pa);
    }
  }

  lemma RestoredKeeps(s: State, s': State, ts: Table, use: map<nat, Use>)
    requires Tenancy(s, ts, use) && Accounted(s, ts, use) && Restored(s, s')
    ensures Tenancy(s', ts, use) && Accounted(s', ts, use)
  {
    SameKeeps(s, s', ts, use);
  }

  lemma GrewKeeps(s: State, s': State, ts: Table, use: map<nat, Use>, r: nat)
    requires Tenancy(s, ts, use) && Accounted(s, ts, use) && Grew(s, s', r)
    ensures Tenancy(s', ts, use) && Accounted(s', ts, use)
  {
    hide TenantOk, Held;
    forall pa
      ensures InUse(s', pa) <==> InUse(s, pa)
    {
      assert pa in s.owner ==> Moved(s, s', r, {}, pa);
    }
    SameKeeps(s, s', ts, use);
  }

  class Kernel {
    const m: Machine
    const trampoline: nat
    var table: Table
    ghost var use: map<nat, Use>

    ghost predicate Ok()
      reads this, m
    {
      m.Ok() && trampoline % PGSIZE == 0 && Tenancy(m.Now(), table, use) && Accounted(m.Now(), table, use)
    }

    constructor (m: Machine, trampoline: nat)
      requires m.Ok() && m.trees == map[] && trampoline % PGSIZE == 0 && forall pa | pa in m.owner :: m.owner[pa] == Free
      ensures Ok() && this.m == m && table == map[]
    {
      this.m, this.trampoline, table, use := m, trampoline, map[], map[];
      new;
      StartOk(m.Now());
    }

    /** The memory of the first process. */
    method Userinit() returns (root: nat)
      requires Ok()
      modifies this`table, this`use, m
      ensures Ok() && (root == 0 ==> table == old(table))
      ensures root != 0 ==> root !in old(table) && root in table && table == old(table)[root := table[root]]
      ensures root == 0 <==> |old(m.free)| < 4
    {
      hide Valid, Spawned, Restored, Tenancy, Accounted, TenantOk, OwnsRange, Frames, Lookup;
      ghost var s := m.Now();
      var tf;
      root, tf := AllocProc(m, trampoline);
      if root == 0 {
        RestoredKeeps(s, m.Now(), table, use);
      } else {
        NothingOwned(m.Now(), root);
        Enter(s, root, Tenant(0, tf, false), {tf});
      }
    }

    /** The table entry of a new process. */
    method Enter(ghost s: State, root: nat, t: Tenant, ghost got: set<nat>)
      requires m.Ok() && trampoline % PGSIZE == 0 && Tenancy(s, table, use) && Accounted(s, table, use)
      requires Spawned(s, m.Now(), root, got) && got == OwnPages(m.mem, root, t.trapframe, t.sz, false)
      requires !t.thread && PagesOf(t.sz) <= TRAPFRAME && Vacant(m.mem, root, PagesOf(t.sz), TRAPFRAME) && InUse(m.Now(), t.trapframe)
      requires OwnsRange(m.Now(), root, 0, PagesOf(t.sz)) && t.trapframe !in Frames(m.mem, root, 0, PagesOf(t.sz))
      modifies this`table, this`use
      ensures Ok() && root !in old(table) && table == old(table)[root := t]
    {
      hide Valid, Spawned, Tenancy, Accounted, TenantOk, OwnsRange, Frames, Lookup, Held;
      NewProcess(m.Now(), use, root, t);
      ghost var given := GivenTo(m.mem, root, t);
      SpawnKeeps(s, m.Now(), table, use, root, t, got, given);
      table := table[root := t];
      use := use + given;
    }

    /** kfork: the child has copies of its own; nothing else changes hands. It fails exactly when
        the child's trapframe, tables and copies are more than the free pages. */
    method Fork(src: nat) returns (root: nat)
      requires Ok() && src in table
      modifies this`table, this`use, m
      ensures Ok() && (root == 0 ==> table == old(table))
      ensures root != 0 ==> root !in old(table) && root in table && table == old(table)[root := table[root]]
      ensures root != 0 ==> !table[root].thread && table[root].sz == table[src].sz
      ensures root != 0 ==> forall n: nat | n < PagesOf(table[src].sz) :: Copied(old(m.Now()), m.Now(), src, root, n)
      ensures var pages := MappedBelow(old(m.mem), src, PagesOf(old(table)[src].sz));
              root == 0 <==> |old(m.free)| < 1 + |AllTables(pages)| + |pages|
    {
      hide Valid, Spawned, Restored, Tenancy, Accounted, TenantOk, OwnsRange, Frames, Lookup, Copied, Readable;
      hide MappedBelow, AllTables;
      ghost var s := m.Now();
      var sz := table[src].sz;
      TenantAt(s, table, use, src);
      ReadableAll(s, use, src, table[src]);
      var tf;
      root, tf := ProcMemory.Fork(m, src, sz, trampoline);
      if root == 0 {
        RestoredKeeps(s, m.Now(), table, use);
      } else {
        Enter(s, root, Tenant(sz, tf, false), OwnPages(m.mem, root, tf, sz, false));
      }
    }

    /** clone of a process or thread without holes below its size: the memory is shared from now on. */
    method Clone(src: nat) returns (root: nat)
      requires Ok() && src in table && forall n: nat | n < PagesOf(table[src].sz) :: Lookup(m.mem, src, n).Mapped?
      modifies this`table, this`use, m
      ensures Ok() && (root == 0 ==> table == old(table))
      ensures root != 0 ==> root !in old(table) && root in table && table == old(table)[root := table[root]]
      ensures root != 0 ==> table[root].thread && table[root].sz == table[src].sz
      ensures root != 0 && PagesOf(table[src].sz) > 0 && !table[src].thread ==> Shared(m.Now(), table, use, src)
      ensures root != 0 ==> forall n: nat | n < PagesOf(table[src].sz) :: Lookup(m.mem, root, n) == Lookup(old(m.mem), src, n)
      ensures root == 0 <==> |old(m.free)| < 1 + |AllTables(PageRange(0, PagesOf(old(table)[src].sz)))|
    {
      hide AllTables, PageRange;
      hide Valid, Spawned, Restored, Tenancy, Accounted, TenantOk, Lookup, Held;
      ghost var s := m.Now();
      var sz := table[src].sz;
      TenantAt(s, table, use, src);
      var tf;
      root, tf := ProcMemory.Clone(m, src, sz, trampoline);
      if root == 0 {
        RestoredKeeps(s, m.Now(), table, use);
      } else {
        ghost var s' := m.Now();
        var t := Tenant(sz, tf, true);
        SpawnedUse(s, s', root, {tf});
        NewThread(s, s', use, src, root, t, table[src]);
        ghost var given := GivenTo(m.mem, root, t);
        SpawnKeeps(s, s', table, use, root, t, {tf}, given);
        ShareAt(s, s', table, use, src, root, t, given);
        table := table[root := t];
        use := use + given;
      }
    }

    /** growproc with n > 0. It fails exactly at the trapframe, or when fewer pages are free than the
        new ones and their missing tables. */
    method Grow(r: nat, n: nat) returns (ok: bool)
      requires Ok() && r in table && n > 0
      modifies this`table, this`use, m
      ensures Ok() && table == if ok then old(table)[r := old(table)[r].(sz := old(table)[r].sz + n)] else old(table)
      ensures r in old(m.Now()).trees
      ensures var sz := old(table)[r].sz;
              var pages := PageRange(PagesOf(sz), PagesOf(sz + n));
              ok <==> sz + n <= TRAPFRAME * PGSIZE && !Short(old(m.Now()), r, Paths(pages), |pages|)
    {
      hide Valid, Tenancy, Accounted, TenantOk, Lookup, Held, ProvidedRange, Grew, Holds;
      hide Short, Spent, Paths, PageRange;
      ghost var s := m.Now();
      var old_ := table[r].sz;
      TenantAt(s, table, use, r);
      if old_ + n > TRAPFRAME * PGSIZE {
        return false;
      }
      VacantUpTo(s, use, r, table[r], PagesOf(old_ + n));
      var sz;
      ghost var done;
      sz, done := m.Uvmalloc(r, old_, old_ + n, RW);
      ok := sz != 0;
      if ok {
        ghost var got := Frames(m.mem, r, PagesOf(old_), PagesOf(old_ + n));
        ghost var given := map pa | pa in got :: User(r);
        GrowKeeps(s, m.Now(), table, use, r, sz, got, given);
        table := table[r := table[r].(sz := sz)];
        use := use + given;
      } else {
        GrewKeeps(s, m.Now(), table, use, r);
      }
    }

    /** sbrk without allocation: the new pages are holes, to be filled on first use. */
    method GrowLazily(r: nat, n: nat) returns (ok: bool)
      requires Ok() && r in table
      modifies this`table
      ensures Ok() && table == if ok then old(table)[r := old(table)[r].(sz := old(table)[r].sz + n)] else old(table)
      ensures ok <==> old(table)[r].sz + n <= TRAPFRAME * PGSIZE
    {
      hide Valid, Tenancy, Accounted;
      if table[r].sz + n > TRAPFRAME * PGSIZE {
        return false;
      }
      LazyKeeps(m.Now(), table, use, r, table[r].sz + n);
      table := table[r := table[r].(sz := table[r].sz + n)];
      ok := true;
    }

    /** growproc with n < 0. The pages above the new size are freed whoever allocated them. */
    method Shrink(r: nat, n: nat)
      requires Ok() && r in table && n <= table[r].sz
      modifies this`table, m
      ensures m.Ok() && table == old(table)[r := old(table)[r].(sz := old(table)[r].sz - n)]
      ensures Accounted(m.Now(), table, use)
      ensures Tenancy(m.Now(), table, use) <==>
                forall q | q in old(table) && q != r ::
                  Spared(old(m.Now()), q, old(table)[q], Frames(old(m.mem), r, PagesOf(table[r].sz), PagesOf(old(table)[r].sz)))
    {
      hide Valid, Tenancy, Accounted, TenantOk, Lookup, Held, Freed, OnlyRange, DataKept, Spared, Frames;
      ghost var s := m.Now();
      var old_ := table[r].sz;
      TenantAt(s, table, use, r);
      OwnsAll(s, use, r, table[r], PagesOf(old_ - n));
      var sz := m.Uvmdealloc(r, old_, old_ - n);
      ShrinkExactly(s, m.Now(), table, use, r, old_ - n, Frames(s.mem, r, PagesOf(old_ - n), PagesOf(old_)));
      table := table[r := table[r].(sz := old_ - n)];
    }

    /** freeproc. */
    method Reap(r: nat)
      requires Ok() && r in table
      modifies this`table, m
      ensures m.Ok() && table == old(table) - {r}
      ensures Tenancy(m.Now(), table, use) <==> old(table)[r].thread || !Shared(old(m.Now()), old(table), use, r)
      ensures Accounted(m.Now(), table, use) <==> !old(table)[r].thread || !Allocated(old(m.Now()), use, r)
    {
      hide Valid, Tenancy, Accounted, TenantOk, Lookup, Reaped, Frames, OwnsRange, Shared, Allocated;
      ghost var s := m.Now();
      var t := table[r];
      TenantAt(s, table, use, r);
      OwnsAll(s, use, r, t, 0);
      FreeProc(m, r, t.trapframe, t.sz, t.thread);
      ReapExactly(s, m.Now(), table, use, r);
      table := table - {r};
    }
  }

  lemma LazyKeeps(s: State, ts: Table, use: map<nat, Use>, r: nat, sz: nat)
    requires Tenancy(s, ts, use) && Accounted(s, ts, use) && r in ts && ts[r].sz <= sz && PagesOf(sz) <= TRAPFRAME
    ensures Tenancy(s, ts[r := ts[r].(sz := sz)], use) && Accounted(s, ts[r := ts[r].(sz := sz)], use)
  {
    hide Held;
    var ts' := ts[r := ts[r].(sz := sz)];
    assert TenantOk(s, use, r, ts[r]);
    forall n: nat | n < PagesOf(sz)
      ensures PageOk(s, use, r, ts[r].thread, n)
    {
      assert n < PagesOf(ts[r].sz) ==> PageOk(s, use, r, ts[r].thread, n);
    }
    forall pa | InUse(s, pa)
      ensures Held(s, ts', use[pa], pa)
    {
      HeldAlso(s, ts, r, sz, use[pa], pa);
    }
  }

  lemma HeldAlso(s: State, ts: Table, r: nat, sz: nat, u: Use, pa: nat)
    requires Held(s, ts, u, pa) && r in ts && ts[r].sz <= sz
    ensures Held(s, ts[r := ts[r].(sz := sz)], u, pa)
  {
    if u.User? {
      var n: nat :| n < PagesOf(ts[u.root].sz) && Lookup(s.mem, u.root, n).Mapped? && Lookup(s.mem, u.root, n).pa == pa;
      assert u.root == r ==> PagesOf(ts[r].sz) <= PagesOf(sz);
    }
  }

  /** The order of reaping matters: once cloned, a process that is reaped before its thread leaves the
      thread with translations to free pages. */
  method CreatorFirst(k: Kernel, src: nat) returns (root: nat)
    requires k.Ok() && src in k.table && !k.table[src].thread && PagesOf(k.table[src].sz) > 0
    requires forall n: nat | n < PagesOf(k.table[src].sz) :: Lookup(k.m.mem, src, n).Mapped?
    modifies k`table, k`use, k.m
    ensures root != 0 ==> !Tenancy(k.m.Now(), k.table, k.use)
  {
    hide Tenancy, Accounted, Shared, Valid, Lookup;
    root := k.Clone(src);
    if root != 0 {
      k.Reap(src);
    }
  }

  lemma TenantAt(s: State, ts: Table, use: map<nat, Use>, r: nat)
    requires Tenancy(s, ts, use) && r in ts
    ensures r in s.trees && TenantOk(s, use, r, ts[r]) && PagesOf(ts[r].sz) <= TRAPFRAME
    ensures Vacant(s.mem, r, PagesOf(ts[r].sz), TRAPFRAME) && InUse(s, ts[r].trapframe)
  {
  }

  lemma VacantUpTo(s: State, use: map<nat, Use>, r: nat, t: Tenant, hi: nat)
    requires TenantOk(s, use, r, t) && hi <= TRAPFRAME
    ensures Vacant(s.mem, r, PagesOf(t.sz), hi)
  {
  }

  lemma ShareAt(s: State, s': State, ts: Table, use: map<nat, Use>, src: nat, root: nat, t: Tenant, given: map<nat, Use>)
    requires src in ts && TenantOk(s, use, src, ts[src]) && t.sz == ts[src].sz && root != src
    requires forall n: nat | n < PagesOf(t.sz) :: Lookup(s.mem, src, n).Mapped? && Lookup(s'.mem, root, n) == Lookup(s.mem, src, n)
    requires forall pa | pa in given :: !InUse(s, pa)
    ensures PagesOf(t.sz) > 0 && !ts[src].thread ==> Shared(s', ts[root := t], use + given, src)
  {
    if PagesOf(t.sz) > 0 && !ts[src].thread {
      assert PageOk(s, use, src, false, 0);
      assert SharesAt(s', ts[root := t], use + given, src, root, 0);
    }
  }
}
