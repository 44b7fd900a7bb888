/** The memory of processes and threads: what proc_pagetable, clone, kfork and freeproc take from
    the page allocator and give back. Trapframe contents are not modelled.
 */
module ProcMemory {
  import opened PageTheory
  import opened PageMoves
  import opened PageFree
  import opened PageTable
  import opened PageBudget

  const TRAMPOLINE: nat := MAXPAGES - 1
  const TRAPFRAME: nat := MAXPAGES - 2
  const RX := ZERO.flags.(r := true, x := true)
  const RW := ZERO.flags.(r := true, w := true)

  /** The tables of an address space that maps the given pages besides trampoline and trapframe. */
  ghost function AllTables(pages: set<nat>): set<Pos> {
    {Top} + Path(TRAMPOLINE) + Paths(pages)
  }

  lemma TopTables()
    ensures Path(TRAPFRAME) == Path(TRAMPOLINE) == {Mid(255), Low(255, 511)}
    ensures |{Top} + Path(TRAMPOLINE)| == 3 && |Path(TRAMPOLINE) - {Top}| == 2
  {
    assert TRAMPOLINE / 512 == 131071 == TRAPFRAME / 512;
    assert 131071 % 512 == 511 && TRAMPOLINE / 262144 == 255 == TRAPFRAME / 262144;
    assert Path(TRAMPOLINE) - {Top} == {Mid(255), Low(255, 511)};
    assert {Top} + Path(TRAMPOLINE) == {Top, Mid(255), Low(255, 511)};
  }

  lemma TopShort(s: State, root: nat)
    requires root in s.trees && Tables(s, root) == {Top}
    ensures Short(s, root, Path(TRAMPOLINE), 0) <==> |s.free| < 2
  {
    TopTables();
  }

  lemma TopSpent(s: State, s': State, root: nat)
    requires root in s.trees && root in s'.trees && Tables(s, root) == {Top} && Spent(s, s', root, Path(TRAMPOLINE), 0)
    ensures Tables(s', root) == {Top} + Path(TRAMPOLINE) && |s.free| == |s'.free| + 2
  {
    TopTables();
  }

  /** The trapframe needs no table the trampoline has not got. */
  lemma TopAgain(s: State, s': State, root: nat)
    requires root in s.trees && Tables(s, root) == {Top} + Path(TRAMPOLINE)
    ensures !Short(s, root, Path(TRAPFRAME), 0)
    ensures root in s'.trees && Spent(s, s', root, Path(TRAPFRAME), 0) ==> Tables(s', root) == Tables(s, root) && |s'.free| == |s.free|
  {
    TopTables();
    var none: set<Pos> := {};
    assert Path(TRAPFRAME) - Tables(s, root) == none;
    assert Tables(s, root) + Path(TRAPFRAME) == Tables(s, root);
  }

  /** What a new address space lacks of the tables for pages, counted from before it was made. */
  lemma SpaceShort(s: State, s1: State, root: nat, pages: set<nat>, data: nat)
    requires root in s1.trees && Tables(s1, root) == {Top} + Path(TRAMPOLINE) && |s.free| == |s1.free| + 4
    ensures Short(s1, root, Paths(pages), data) <==> |s.free| < 1 + |AllTables(pages)| + data
  {
    TopTables();
    var have := {Top} + Path(TRAMPOLINE);
    assert AllTables(pages) == have + (Paths(pages) - have);
  }

  lemma SpaceSpent(s: State, s1: State, s2: State, root: nat, pages: set<nat>, data: nat)
    requires root in s1.trees && Tables(s1, root) == {Top} + Path(TRAMPOLINE) && |s.free| == |s1.free| + 4
    requires root in s2.trees && Spent(s1, s2, root, Paths(pages), data)
    ensures Tables(s2, root) == AllTables(pages) && |s.free| == |s2.free| + 1 + |AllTables(pages)| + data
  {
    TopTables();
    var have := {Top} + Path(TRAMPOLINE);
    assert AllTables(pages) == have + (Paths(pages) - have);
  }

  lemma BelowStays(s: State, s1: State, root: nat, got: set<nat>, src: nat, hi: nat)
    requires Spawned(s, s1, root, got) && src in s.trees && hi <= MAXPAGES
    ensures MappedBelow(s1.mem, src, hi) == MappedBelow(s.mem, src, hi)
  {
    SpawnedLookup(s, s1, root, got, src);
    assert SameMap(s.mem, s1.mem, src);
  }

  lemma SpaceAtLeast(pages: set<nat>)
    ensures 3 <= |AllTables(pages)|
  {
    TopTables();
    var have := {Top} + Path(TRAMPOLINE);
    assert AllTables(pages) == have + (Paths(pages) - have);
  }

  /** Some data pages were freed, without effect on trees other than root. */
  ghost predicate Trimmed(s: State, s': State, root: nat, gone: set<nat>) {
    Freed(s, s', gone) && DataKept(s, s', gone) && OthersSame(s, s', root)
  }

  lemma TrimmedMore(s: State, s1: State, s2: State, root: nat, gone: set<nat>, more: set<nat>)
    requires Trimmed(s, s1, root, gone) && Trimmed(s1, s2, root, more)
    ensures Trimmed(s, s2, root, gone + more)
  {
    FreedMore(s, s1, s2, gone, more);
    DataGone(s, s1, s2, gone, more);
    OthersTwice(s, s1, s2, root);
  }

  lemma OthersTwice(s: State, s1: State, s2: State, root: nat)
    requires OthersSame(s, s1, root) && OthersSame(s1, s2, root) && s1.trees.Keys == s.trees.Keys
    ensures OthersSame(s, s2, root)
  {
    forall r | r in s.trees && r != root
      ensures SameMap(s.mem, s2.mem, r)
    {
      assert SameMap(s.mem, s1.mem, r) && r in s1.trees && SameMap(s1.mem, s2.mem, r);
    }
  }

  lemma RangeOthers(s: State, s': State, root: nat, lo: nat, hi: nat)
    requires OnlyRange(s, s', root, lo, hi)
    ensures OthersSame(s, s', root)
  {
  }

  lemma SpawnedGrew(s: State, s1: State, s2: State, root: nat, got: set<nat>)
    requires Spawned(s, s1, root, got) && Grew(s1, s2, root)
    ensures Spawned(s, s2, root, got)
    ensures forall m: nat | m < MAXPAGES :: Lookup(s2.mem, root, m) == Lookup(s1.mem, root, m)
  {
    assert got + {} == got;
    assert SameMap(s1.mem, s2.mem, root);
    forall r | r in s1.trees && r != root
      ensures SameMap(s1.mem, s2.mem, r)
    {
    }
    SpawnedThenShifted(s, s1, s2, root, got, {});
  }

  lemma SpawnedMapped(s: State, s1: State, s2: State, root: nat, got: set<nat>, n: nat, e: Translation)
    requires Spawned(s, s1, root, got) && Shift(s1, s2, root, {}) && DataKept(s1, s2, {}) && Remapped(s1, s2, root, n, e)
    ensures Spawned(s, s2, root, got) && Lookup(s2.mem, root, n) == e
    ensures forall m: nat | m < MAXPAGES && m != n :: Lookup(s2.mem, root, m) == Lookup(s1.mem, root, m)
  {
    assert got + {} == got;
    SpawnedThenShifted(s, s1, s2, root, got, {});
  }

  lemma SpawnedTrimmed(s: State, s1: State, s2: State, root: nat)
    requires Spawned(s, s1, root, {}) && Trimmed(s1, s2, root, {})
    ensures Spawned(s, s2, root, {})
  {
    forall pa | pa in s.owner
      ensures Moved(s, s2, root, {}, pa)
    {
      assert Moved(s, s1, root, {}, pa);
    }
    forall r | r in s.trees && r != root
      ensures SameMap(s.mem, s2.mem, r)
    {
      assert SameMap(s.mem, s1.mem, r) && r in s1.trees && SameMap(s1.mem, s2.mem, r);
    }
    forall q | Steady(s, q)
      ensures q in s2.mem && s2.mem[q] == s.mem[q]
    {
      assert q in s.owner ==> Moved(s, s1, root, {}, q);
      assert Steady(s1, q);
    }
  }

  lemma SpawnedMeans(s: State, s': State, root: nat, got: set<nat>)
    requires Spawned(s, s', root, got)
    ensures root !in s.trees && root in s'.trees
  {
  }

  /** proc_pagetable: an address space with only the trampoline and the trapframe in it, on three
      pages; or, exactly when fewer are free, nothing at all taken. */
  method ProcPagetable(m: Machine, trapframe: nat, trampoline: nat) returns (root: nat)
    requires m.Ok() && trapframe % PGSIZE == 0 && trampoline % PGSIZE == 0
    modifies m
    ensures m.Ok()
    ensures root == 0 ==> Restored(old(m.Now()), m.Now())
    ensures root != 0 ==> Spawned(old(m.Now()), m.Now(), root, {}) && root in m.trees && Vacant(m.mem, root, 0, TRAPFRAME)
    ensures root != 0 ==> Lookup(m.mem, root, TRAMPOLINE) == Mapped(trampoline, RX.(v := true))
    ensures root != 0 ==> Lookup(m.mem, root, TRAPFRAME) == Mapped(trapframe, RW.(v := true))
    ensures root == 0 <==> |old(m.free)| < 3
    ensures root != 0 ==> Tables(m.Now(), root) == {Top} + Path(TRAMPOLINE) && |old(m.free)| == |m.free| + 3
  {
    hide Short, Spent, Path, Tables;
    hide Valid, Spawned, Restored, Grew, Shift, DataKept, Remapped, Freed, Reaped, OwnsRange, Frames, Trimmed, Lookup, SameMaps;
    ghost var s := m.Now();
    RestoredNot(s);
    root := m.Uvmcreate();
    if root == 0 {
      return 0;
    }
    ghost var s1 := m.Now();
    ghost var root1 := root;
    TopShort(s1, root);
    var ok := m.MapOne(root, TRAMPOLINE, trampoline, RX);
    ghost var s2 := m.Now();
    NothingOwned(s2, root);
    if !ok {
      SpawnedGrew(s, s1, s2, root, {});
      ghost var gone := m.Uvmfree(root, 0);
      SpawnedThenReaped(s, s2, m.Now(), root, {});
      return 0;
    }
    SpawnedMapped(s, s1, s2, root, {}, TRAMPOLINE, Mapped(trampoline, RX.(v := true)));
    TopSpent(s1, s2, root);
    ok := m.MapOne(root, TRAPFRAME, trapframe, RW);
    ghost var s3 := m.Now();
    if !ok {
      SpawnedGrew(s, s2, s3, root, {});
      ghost var gone := m.Uvmunmap(root, TRAMPOLINE, 1, false);
      ghost var s4 := m.Now();
      RangeOthers(s3, s4, root, TRAMPOLINE, TRAMPOLINE + 1);
      TrimmedIs(s3, s4, root, {});
      SpawnedTrimmed(s, s3, s4, root);
      SpawnedMeans(s, s4, root, {});
      NothingOwned(s4, root);
      gone := m.Uvmfree(root, 0);
      SpawnedThenReaped(s, s4, m.Now(), root, {});
      root := 0;
      TopAgain(s2, s3, root1);
      assert false; // never here: the trapframe needs no further table
      return;
    }
    SpawnedMapped(s, s2, s3, root, {}, TRAPFRAME, Mapped(trapframe, RW.(v := true)));
    TopAgain(s2, s3, root);
  }

  lemma RestoredNot(s: State)
    ensures Restored(s, s)
  {
  }

  lemma TrimmedIs(s: State, s': State, root: nat, gone: set<nat>)
    requires Freed(s, s', gone) && DataKept(s, s', gone) && OthersSame(s, s', root)
    ensures Trimmed(s, s', root, gone)
  {
  }

  lemma NothingOwned(s: State, root: nat)
    ensures OwnsRange(s, root, 0, 0) && Frames(s.mem, root, 0, 0) == {} && PagesOf(0) == 0
  {
  }

  lemma {:induction false} FramesHas(mem: Mem, root: nat, lo: nat, hi: nat, n: nat)
    requires lo <= n < hi && Lookup(mem, root, n).Mapped?
    ensures Lookup(mem, root, n).pa in Frames(mem, root, lo, hi)
    decreases hi
  {
    if n < hi - 1 {
      FramesHas(mem, root, lo, hi - 1, n);
    }
  }

  /** Freeing pages outside an owned range leaves it owned. */
  lemma OwnsStays(s: State, s1: State, root: nat, hi: nat, gone: set<nat>)
    requires OwnsRange(s, root, 0, hi) && Freed(s, s1, gone) && gone !! Frames(s.mem, root, 0, hi)
    requires forall m: nat | m < hi :: Lookup(s1.mem, root, m) == Lookup(s.mem, root, m)
    ensures OwnsRange(s1, root, 0, hi) && Frames(s1.mem, root, 0, hi) == Frames(s.mem, root, 0, hi)
  {
    FramesSame(s.mem, s1.mem, root, 0, hi);
    forall m: nat | m < hi && Lookup(s1.mem, root, m).Mapped?
      ensures Lookup(s1.mem, root, m).pa in s1.owner && s1.owner[Lookup(s1.mem, root, m).pa] == Data
    {
      FramesHas(s.mem, root, 0, hi, m);
    }
  }

  lemma GivenTrims(s: State, s1: State, root: nat, pa: nat)
    requires Freed(s, s1, {pa}) && DataKept(s, s1, {pa}) && SameMaps(s.mem, s1.mem, s.trees) && root in s.trees
    ensures Trimmed(s, s1, root, {pa}) && s1.trees == s.trees
    ensures forall m: nat | m < MAXPAGES :: Lookup(s1.mem, root, m) == Lookup(s.mem, root, m)
  {
    assert SameMap(s.mem, s1.mem, root);
  }

  lemma RangeTrims(s: State, s1: State, root: nat, lo: nat, hi: nat)
    requires Freed(s, s1, {}) && DataKept(s, s1, {}) && OnlyRange(s, s1, root, lo, hi)
    ensures Trimmed(s, s1, root, {})
    ensures forall m: nat | m < MAXPAGES && !(lo <= m < hi) :: Lookup(s1.mem, root, m) == Lookup(s.mem, root, m)
  {
  }

  lemma TrimmedThenReaped(s: State, s1: State, s2: State, root: nat, gone: set<nat>, more: set<nat>)
    requires Trimmed(s, s1, root, gone) && Reaped(s1, s2, root, more)
    ensures Reaped(s, s2, root, gone + more)
  {
    FreedThenReaped(s, s1, s2, root, gone, more);
  }

  /** Takes the trampoline and the trapframe out of an address space. */
  method UnmapTop(m: Machine, root: nat)
    requires m.Ok() && root in m.trees
    modifies m
    ensures m.Ok() && m.trees == old(m.trees) && Trimmed(old(m.Now()), m.Now(), root, {})
    ensures Vacant(m.mem, root, TRAPFRAME, MAXPAGES)
    ensures forall n: nat | n < TRAPFRAME :: Lookup(m.mem, root, n) == Lookup(old(m.mem), root, n)
  {
    hide Valid, Freed, DataKept, Trimmed, OnlyRange, Lookup;
    ghost var s := m.Now();
    ghost var gone := m.Uvmunmap(root, TRAMPOLINE, 1, false);
    ghost var s1 := m.Now();
    RangeTrims(s, s1, root, TRAMPOLINE, TRAMPOLINE + 1);
    gone := m.Uvmunmap(root, TRAPFRAME, 1, false);
    RangeTrims(s1, m.Now(), root, TRAPFRAME, TRAPFRAME + 1);
    TrimmedMore(s, s1, m.Now(), root, {}, {});
    ghost var none: set<nat> := {};
    assert none + none == none;
  }

  /** What reaping gives back besides the tables: the trapframe, and the user pages unless they
      are another process's. */
  ghost function OwnPages(mem: Mem, root: nat, trapframe: nat, sz: nat, isThread: bool): (pages: set<nat>) {
    {trapframe} + (if isThread then {} else Frames(mem, root, 0, PagesOf(sz)))
  }

  /** The user part of freeproc's work, for a thread: nothing of it is freed. */
  method FreeThreadSpace(m: Machine, root: nat, sz: nat)
    requires m.Ok() && root in m.trees && PagesOf(sz) <= TRAPFRAME && Vacant(m.mem, root, PagesOf(sz), TRAPFRAME)
    modifies m
    ensures m.Ok() && Reaped(old(m.Now()), m.Now(), root, {})
  {
    hide Valid, Freed, DataKept, Trimmed, OnlyRange, Reaped, OwnsRange, Frames, Lookup;
    ghost var s := m.Now();
    ghost var gone := m.Uvmunmap(root, 0, PagesOf(sz), false);
    ghost var s1 := m.Now();
    RangeTrims(s, s1, root, 0, PagesOf(sz));
    UnmapTop(m, root);
    ghost var s2 := m.Now();
    ghost var none: set<nat> := {};
    assert none + none == none;
    TrimmedMore(s, s1, s2, root, none, none);
    NothingOwned(s2, root);
    gone := m.Uvmfree(root, 0);
    TrimmedThenReaped(s, s2, m.Now(), root, none, none);
  }

  /** proc_freepagetable: the user pages go back too. */
  method FreePagetable(m: Machine, root: nat, sz: nat)
    requires m.Ok() && root in m.trees && PagesOf(sz) <= TRAPFRAME && Vacant(m.mem, root, PagesOf(sz), TRAPFRAME)
    requires OwnsRange(m.Now(), root, 0, PagesOf(sz))
    modifies m
    ensures m.Ok() && Reaped(old(m.Now()), m.Now(), root, Frames(old(m.mem), root, 0, PagesOf(sz)))
  {
    hide Valid, Freed, DataKept, Trimmed, OnlyRange, Reaped, OwnsRange, Frames, Lookup;
    ghost var s := m.Now();
    UnmapTop(m, root);
    ghost var s1 := m.Now();
    ghost var none: set<nat> := {};
    TrimmedFreed(s, s1, root, none);
    OwnsStays(s, s1, root, PagesOf(sz), none);
    ghost var gone := m.Uvmfree(root, sz);
    TrimmedThenReaped(s, s1, m.Now(), root, none, gone);
    assert none + gone == gone;
  }

  lemma TrimmedFreed(s: State, s': State, root: nat, gone: set<nat>)
    requires Trimmed(s, s', root, gone)
    ensures Freed(s, s', gone)
  {
  }

  /** freeproc, as far as memory goes. */
  method FreeProc(m: Machine, root: nat, trapframe: nat, sz: nat, isThread: bool)
    requires m.Ok() && root in m.trees && PagesOf(sz) <= TRAPFRAME && Vacant(m.mem, root, PagesOf(sz), TRAPFRAME)
    requires trapframe in m.owner && m.owner[trapframe] == Data
    requires !isThread ==> OwnsRange(m.Now(), root, 0, PagesOf(sz)) && trapframe !in Frames(m.mem, root, 0, PagesOf(sz))
    modifies m
    ensures m.Ok() && Reaped(old(m.Now()), m.Now(), root, OwnPages(old(m.mem), root, trapframe, sz, isThread))
  {
    hide Valid, Freed, DataKept, Trimmed, SameMaps, Reaped, OwnsRange, Frames, Lookup;
    ghost var s := m.Now();
    PageFacts(s, trapframe);
    GiveMoves(s, trapframe, FreeJunk());
    m.Kfree(trapframe);
    ghost var s1 := m.Now();
    GivenTrims(s, s1, root, trapframe);
    if isThread {
      FreeThreadSpace(m, root, sz);
      TrimmedThenReaped(s, s1, m.Now(), root, {trapframe}, {});
    } else {
      OwnsStays(s, s1, root, PagesOf(sz), {trapframe});
      FreePagetable(m, root, sz);
      TrimmedThenReaped(s, s1, m.Now(), root, {trapframe}, Frames(s1.mem, root, 0, PagesOf(sz)));
    }
  }

  lemma TakenThenSpawned(s: State, s1: State, s2: State, root: nat, pa: nat)
    requires pa in s.owner && s.owner[pa] == Free && s1.owner == s.owner[pa := Data] && s1.trees == s.trees
    requires SameMaps(s.mem, s1.mem, s.trees) && DataKept(s, s1, {}) && Spawned(s1, s2, root, {})
    ensures Spawned(s, s2, root, {pa}) && pa in s2.owner && s2.owner[pa] == Data
  {
    assert Moved(s1, s2, root, {}, pa);
    forall q | q in s.owner
      ensures Moved(s, s2, root, {pa}, q)
    {
      assert Moved(s1, s2, root, {}, q);
    }
    forall r | r in s.trees && r != root
      ensures SameMap(s.mem, s2.mem, r)
    {
      assert SameMap(s.mem, s1.mem, r) && SameMap(s1.mem, s2.mem, r);
    }
    forall q | Steady(s, q)
      ensures q in s2.mem && s2.mem[q] == s.mem[q]
    {
      assert Steady(s1, q);
    }
  }

  lemma TakenThenRestored(s: State, s1: State, s2: State, s3: State, pa: nat)
    requires pa in s.owner && s.owner[pa] == Free && s1.owner == s.owner[pa := Data] && s1.trees == s.trees
    requires SameMaps(s.mem, s1.mem, s.trees) && DataKept(s, s1, {}) && Restored(s1, s2)
    requires Freed(s2, s3, {pa}) && DataKept(s2, s3, {pa}) && SameMaps(s2.mem, s3.mem, s2.trees)
    ensures Restored(s, s3)
  {
    SameMapsTwice(s.mem, s1.mem, s2.mem, s.trees);
    SameMapsTwice(s.mem, s2.mem, s3.mem, s.trees);
    forall q | Steady(s, q)
      ensures q in s3.mem && s3.mem[q] == s.mem[q]
    {
      assert Steady(s1, q) && Steady(s2, q);
    }
  }

  /** allocproc: a trapframe page and an address space; or, exactly when fewer than four pages are
      free, nothing taken. */
  method AllocProc(m: Machine, trampoline: nat) returns (root: nat, trapframe: nat)
    requires m.Ok() && trampoline % PGSIZE == 0
    modifies m
    ensures m.Ok()
    ensures root == 0 ==> Restored(old(m.Now()), m.Now())
    ensures root != 0 ==> Spawned(old(m.Now()), m.Now(), root, {trapframe}) && root in m.trees && root !in old(m.trees)
    ensures root != 0 ==> trapframe in m.owner && m.owner[trapframe] == Data && Vacant(m.mem, root, 0, TRAPFRAME)
    ensures root != 0 ==> Lookup(m.mem, root, TRAPFRAME) == Mapped(trapframe, RW.(v := true))
    ensures root == 0 <==> |old(m.free)| < 4
    ensures root != 0 ==> Tables(m.Now(), root) == {Top} + Path(TRAMPOLINE) && |old(m.free)| == |m.free| + 4
  {
    hide Path, Tables;
    hide Valid, Spawned, Restored, SameMaps, DataKept, Freed, Lookup;
    ghost var s := m.Now();
    RestoredNot(s);
    trapframe := m.KallocWith(Filled(AllocJunk()));
    if trapframe == 0 {
      return 0, 0;
    }
    ghost var s1 := m.Now();
    PageFacts(s1, trapframe);
    TakenData(s, s1, trapframe, Filled(AllocJunk()));
    root := ProcPagetable(m, trapframe, trampoline);
    ghost var s2 := m.Now();
    if root == 0 {
      RestoredOwner(s1, s2);
      PageFacts(s2, trapframe);
      GiveMoves(s2, trapframe, FreeJunk());
      m.Kfree(trapframe);
      TakenThenRestored(s, s1, s2, m.Now(), trapframe);
    } else {
      TakenThenSpawned(s, s1, s2, root, trapframe);
      SpawnedMeans(s, s2, root, {trapframe});
    }
  }

  lemma TakenData(s: State, s1: State, pa: nat, page: seq<Word>)
    requires pa in s.owner && s.owner[pa] == Free && s1.mem == s.mem[pa := page]
    ensures DataKept(s, s1, {})
  {
  }

  lemma RestoredOwner(s: State, s': State)
    requires Restored(s, s')
    ensures s'.owner == s.owner && s'.trees == s.trees
  {
  }

  lemma SpawnedLookup(s: State, s': State, root: nat, got: set<nat>, r: nat)
    requires Spawned(s, s', root, got) && r in s.trees
    ensures r != root && r in s'.trees && SameMap(s.mem, s'.mem, r)
  {
    assert r in s'.trees - {root};
  }

  lemma SpawnedMirrored(s: State, s1: State, s2: State, src: nat, root: nat, got: set<nat>, n: nat)
    requires Spawned(s, s1, root, got) && Mirrored(s1, s2, src, root, n)
    ensures Spawned(s, s2, root, got)
    ensures forall m: nat | m < n :: Lookup(s2.mem, root, m) == Lookup(s1.mem, src, m)
    ensures forall m: nat | n <= m < MAXPAGES :: Lookup(s2.mem, root, m) == Lookup(s1.mem, root, m)
  {
    assert got + {} == got;
    SpawnedThenShifted(s, s1, s2, root, got, {});
  }

  lemma SpawnedOwner(s: State, s1: State, s2: State, root: nat, got: set<nat>, pa: nat)
    requires Spawned(s, s1, root, got) && Spawned(s, s2, root, got) && pa in got
    ensures pa in s2.owner && s2.owner[pa] == Data
  {
    assert Moved(s, s2, root, got, pa);
  }

  /** clone's memory: the thread has tables and a trapframe of its own and translates every page
      below sz as its creator does. It fails exactly when fewer pages are free than the trapframe and
      the tables, and has then taken nothing. */
  method Clone(m: Machine, src: nat, sz: nat, trampoline: nat) returns (root: nat, trapframe: nat)
    requires m.Ok() && src in m.trees && trampoline % PGSIZE == 0 && PagesOf(sz) <= TRAPFRAME
    requires forall n: nat | n < PagesOf(sz) :: Lookup(m.mem, src, n).Mapped?
    modifies m
    ensures m.Ok()
    ensures root == 0 ==> Restored(old(m.Now()), m.Now())
    ensures root != 0 ==> Spawned(old(m.Now()), m.Now(), root, {trapframe}) && root in m.trees
    ensures root != 0 ==> trapframe in m.owner && m.owner[trapframe] == Data
    ensures root != 0 ==> forall n: nat | n < PagesOf(sz) :: Lookup(m.mem, root, n) == Lookup(old(m.mem), src, n)
    ensures root != 0 ==> Vacant(m.mem, root, PagesOf(sz), TRAPFRAME)
    ensures root != 0 ==> Lookup(m.mem, root, TRAPFRAME) == Mapped(trapframe, RW.(v := true))
    ensures root == 0 <==> |old(m.free)| < 1 + |AllTables(PageRange(0, PagesOf(sz)))|
    ensures root != 0 ==> var all := AllTables(PageRange(0, PagesOf(sz)));
              Tables(m.Now(), root) == all && |old(m.free)| == |m.free| + 1 + |all|
  {
    hide Short, Spent, Path, Paths, PageRange, Tables, AllTables;
    hide Valid, Spawned, Restored, Mirrored, Grew, Reaped, OwnsRange, Frames, Lookup;
    ghost var s := m.Now();
    root, trapframe := AllocProc(m, trampoline);
    ghost var pages := PageRange(0, PagesOf(sz));
    SpaceAtLeast(pages);
    if root == 0 {
      return;
    }
    ghost var s1 := m.Now();
    SpawnedLookup(s, s1, root, {trapframe}, src);
    SpaceShort(s, s1, root, pages, 0);
    var ok := m.Uvmmirror(src, root, sz);
    ghost var s2 := m.Now();
    if ok {
      SpaceSpent(s, s1, s2, root, pages, 0);
      SpawnedMirrored(s, s1, s2, src, root, {trapframe}, PagesOf(sz));
      SpawnedOwner(s, s1, s2, root, {trapframe}, trapframe);
    } else {
      SpawnedGrew(s, s1, s2, root, {trapframe});
      SpawnedOwner(s, s1, s2, root, {trapframe}, trapframe);
      NothingOwned(s2, root);
      FreeProc(m, root, trapframe, 0, false);
      assert OwnPages(s2.mem, root, trapframe, 0, false) == {trapframe};
      SpawnedThenReaped(s, s2, m.Now(), root, {trapframe});
      root := 0;
    }
  }

  /** Creating a thread and reaping it leaves every page with the owner it had, and every
      translation and data page of every other process as it was. */
  method CloneThenReap(m: Machine, src: nat, sz: nat, trampoline: nat)
    requires m.Ok() && src in m.trees && trampoline % PGSIZE == 0 && PagesOf(sz) <= TRAPFRAME
    requires forall n: nat | n < PagesOf(sz) :: Lookup(m.mem, src, n).Mapped?
    modifies m
    ensures m.Ok() && Restored(old(m.Now()), m.Now())
  {
    hide Valid, Spawned, Restored, Reaped, Lookup;
    ghost var s := m.Now();
    var root, trapframe := Clone(m, src, sz, trampoline);
    if root != 0 {
      ghost var s1 := m.Now();
      FreeProc(m, root, trapframe, sz, true);
      assert OwnPages(s1.mem, root, trapframe, sz, true) == {trapframe};
      SpawnedThenReaped(s, s1, m.Now(), root, {trapframe});
    }
  }

  lemma SpawnedProvided(s: State, s1: State, s2: State, root: nat, pa: nat, n: nat, got: set<nat>)
    requires Spawned(s, s1, root, {pa}) && ProvidedRange(s1, s2, root, 0, n, got)
    ensures Spawned(s, s2, root, {pa} + got) && pa !in got && pa in s2.owner && s2.owner[pa] == Data
    ensures forall m: nat | n <= m < MAXPAGES :: Lookup(s2.mem, root, m) == Lookup(s1.mem, root, m)
    ensures OwnsRange(s2, root, 0, n) && got == Frames(s2.mem, root, 0, n)
  {
    assert Moved(s, s1, root, {pa}, pa) && Moved(s1, s2, root, got, pa);
    SpawnedThenShifted(s, s1, s2, root, {pa}, got);
  }

  /** kfork's memory: the child owns a copy of every page its parent has below sz, with the same
      flags. It fails exactly when fewer pages are free than the trapframe, the tables and the
      copies, and has then taken nothing. */
  method Fork(m: Machine, src: nat, sz: nat, trampoline: nat) returns (root: nat, trapframe: nat)
    requires m.Ok() && src in m.trees && trampoline % PGSIZE == 0 && PagesOf(sz) <= TRAPFRAME
    requires Readable(m.Now(), src, PagesOf(sz))
    modifies m
    ensures m.Ok()
    ensures root == 0 ==> Restored(old(m.Now()), m.Now())
    ensures root != 0 ==> Spawned(old(m.Now()), m.Now(), root, OwnPages(m.mem, root, trapframe, sz, false)) && root in m.trees
    ensures root != 0 ==> trapframe in m.owner && m.owner[trapframe] == Data
    ensures root != 0 ==> OwnsRange(m.Now(), root, 0, PagesOf(sz)) && trapframe !in Frames(m.mem, root, 0, PagesOf(sz))
    ensures root != 0 ==> forall n: nat | n < PagesOf(sz) :: Copied(old(m.Now()), m.Now(), src, root, n)
    ensures root != 0 ==> Vacant(m.mem, root, PagesOf(sz), TRAPFRAME)
    ensures var pages := MappedBelow(old(m.mem), src, PagesOf(sz));
            && (root == 0 <==> |old(m.free)| < 1 + |AllTables(pages)| + |pages|)
            && (root != 0 ==> Tables(m.Now(), root) == AllTables(pages) && |old(m.free)| == |m.free| + 1 + |AllTables(pages)| + |pages|)
  {
    hide Short, Spent, Path, Paths, MappedBelow, Tables, AllTables;
    hide Valid, Spawned, Restored, ProvidedRange, Copied, Readable, Grew, Reaped, OwnsRange, Frames, Lookup;
    ghost var s := m.Now();
    ghost var pages := MappedBelow(m.mem, src, PagesOf(sz));
    root, trapframe := AllocProc(m, trampoline);
    SpaceAtLeast(pages);
    if root == 0 {
      return;
    }
    ghost var s1 := m.Now();
    SpawnedLookup(s, s1, root, {trapframe}, src);
    BelowStays(s, s1, root, {trapframe}, src, PagesOf(sz));
    SpaceShort(s, s1, root, pages, |pages|);
    ReadableStill(s, s1, src, root, {trapframe}, PagesOf(sz));
    var ok := m.Uvmcopy(src, root, sz);
    ghost var s2 := m.Now();
    if ok {
      SpaceSpent(s, s1, s2, root, pages, |pages|);
      SpawnedProvided(s, s1, s2, root, trapframe, PagesOf(sz), Frames(s2.mem, root, 0, PagesOf(sz)));
      forall n: nat | n < PagesOf(sz)
        ensures Copied(s, s2, src, root, n)
      {
        CopiedSince(s, s1, s2, src, root, {trapframe}, n, PagesOf(sz));
      }
    } else {
      SpawnedGrew(s, s1, s2, root, {trapframe});
      SpawnedOwner(s, s1, s2, root, {trapframe}, trapframe);
      NothingOwned(s2, root);
      FreeProc(m, root, trapframe, 0, false);
      assert OwnPages(s2.mem, root, trapframe, 0, false) == {trapframe};
      SpawnedThenReaped(s, s2, m.Now(), root, {trapframe});
      root := 0;
    }
  }

  lemma ReadableStill(s: State, s1: State, src: nat, root: nat, got: set<nat>, hi: nat)
    requires Readable(s, src, hi) && Spawned(s, s1, root, got) && src in s.trees && hi <= MAXPAGES
    ensures Readable(s1, src, hi)
  {
    SpawnedLookup(s, s1, root, got, src);
    forall n: nat | n < hi && Lookup(s1.mem, src, n).Mapped?
      ensures Steady(s1, Lookup(s1.mem, src, n).pa) && |s1.mem[Lookup(s1.mem, src, n).pa]| == 512
    {
      var pa := Lookup(s.mem, src, n).pa;
      assert Steady(s, pa);
      assert pa in s.owner ==> Moved(s, s1, root, got, pa);
    }
  }

  lemma CopiedSince(s: State, s1: State, s2: State, src: nat, root: nat, got: set<nat>, n: nat, hi: nat)
    requires Spawned(s, s1, root, got) && src in s.trees && Readable(s, src, hi) && n < hi <= MAXPAGES
    requires Copied(s1, s2, src, root, n)
    ensures Copied(s, s2, src, root, n)
  {
    SpawnedLookup(s, s1, root, got, src);
    var e := Lookup(s.mem, src, n);
    assert e.Mapped? ==> Steady(s, e.pa);
  }

  /** The same for a child process: its copied pages go back as well. */
  method ForkThenReap(m: Machine, src: nat, sz: nat, trampoline: nat)
    requires m.Ok() && src in m.trees && trampoline % PGSIZE == 0 && PagesOf(sz) <= TRAPFRAME
    requires Readable(m.Now(), src, PagesOf(sz))
    modifies m
    ensures m.Ok() && Restored(old(m.Now()), m.Now())
  {
    hide Valid, Spawned, Restored, Reaped, Lookup, OwnsRange, Frames, Copied, Readable;
    ghost var s := m.Now();
    var root, trapframe := Fork(m, src, sz, trampoline);
    if root != 0 {
      ghost var s1 := m.Now();
      FreeProc(m, root, trapframe, sz, false);
      SpawnedThenReaped(s, s1, m.Now(), root, OwnPages(s1.mem, root, trapframe, sz, false));
    }
  }
}
