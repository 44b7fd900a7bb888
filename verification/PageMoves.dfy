/** What the operations of vm.c do to owners and translations, as relations between states, and
    how those relations compose.
 */
module PageMoves {
  import opened PageTheory

  /** A page whose contents the allocator and the trees leave alone. */
  predicate Steady(s: State, pa: nat) {
    pa in s.mem && (pa in s.owner ==> s.owner[pa] == Data)
  }

  ghost predicate DataKept(s: State, s': State, gone: set<nat>) {
    forall pa | Steady(s, pa) && pa !in gone :: pa in s'.mem && s'.mem[pa] == s.mem[pa]
  }

  /** root's tree may have got more tables, the other trees are as they were. */
  ghost predicate TreesGrew(s: State, s': State, root: nat) {
    && root in s.trees && root in s'.trees && s'.trees.Keys == s.trees.Keys
    && (forall r | r in s.trees && r != root :: s'.trees[r] == s.trees[r])
    && (forall p | p in s.trees[root] :: p in s'.trees[root] && s'.trees[root][p] == s.trees[root][p])
  }

  /** The pages of got went from the free list to data, some other free pages became tables of
      root, and nothing else changed hands. */
  predicate Moved(s: State, s': State, root: nat, got: set<nat>, pa: nat)
    requires pa in s.owner && pa in s'.owner
  {
    if pa in got then s.owner[pa] == Free && s'.owner[pa] == Data
    else s'.owner[pa] == s.owner[pa] || (s.owner[pa] == Free && s'.owner[pa].Table? && s'.owner[pa].root == root)
  }

  ghost predicate Shift(s: State, s': State, root: nat, got: set<nat>) {
    && s'.owner.Keys == s.owner.Keys && got <= s.owner.Keys
    && (forall pa | pa in s.owner :: Moved(s, s', root, got, pa))
    && TreesGrew(s, s', root)
  }

  /** The data pages of gone went back to the free list, and nothing else changed hands. */
  ghost predicate Freed(s: State, s': State, gone: set<nat>) {
    && s'.owner.Keys == s.owner.Keys && s'.trees == s.trees
    && (forall pa | pa in gone :: pa in s.owner && s.owner[pa] == Data)
    && (forall pa | pa in s.owner :: s'.owner[pa] == if pa in gone then Free else s.owner[pa])
  }

  /** Tables were added to root's tree, without effect on any translation or any data page. */
  ghost predicate Grew(s: State, s': State, root: nat) {
    Shift(s, s', root, {}) && DataKept(s, s', {}) && SameMaps(s.mem, s'.mem, s.trees)
  }

  lemma GrewNot(s: State, root: nat)
    requires root in s.trees
    ensures Grew(s, s, root)
  {
  }

  lemma GrewTwice(s: State, s1: State, s2: State, root: nat)
    requires Grew(s, s1, root) && Grew(s1, s2, root)
    ensures Grew(s, s2, root)
  {
    var none: set<nat> := {};
    assert none + none == none;
    ShiftMore(s, s1, s2, root, none, none);
    forall pa | Steady(s, pa)
      ensures pa in s2.mem && s2.mem[pa] == s.mem[pa]
    {
      assert pa in s1.mem && s1.mem[pa] == s.mem[pa];
      assert pa in s.owner ==> Moved(s, s1, root, {}, pa);
      assert Steady(s1, pa);
    }
    forall r | r in s.trees
      ensures SameMap(s.mem, s2.mem, r)
    {
      assert SameMap(s.mem, s1.mem, r) && SameMap(s1.mem, s2.mem, r);
    }
  }

  /** A page taken from the free list, zeroed and hung into the tree. */
  lemma HangGrew(s: State, s1: State, root: nat, p: Pos, i: nat, pa: nat)
    requires Valid(s1) && root in s1.trees && p in s1.trees[root] && !p.Low? && i < 512
    requires IsPage(s1.mem, s1.trees[root][p]) && Child(p, i) !in s1.trees[root] && InTree(Child(p, i))
    requires pa in s.owner && s.owner[pa] == Free && s1.owner == s.owner[pa := Data] && s1.trees == s.trees
    requires s1.mem == s.mem[pa := Filled(ZERO)] && SameMaps(s.mem, s1.mem, s.trees)
    ensures Valid(Hang(s1, root, p, i, pa)) && Grew(s, Hang(s1, root, p, i, pa), root)
  {
    HangKeeps(s1, root, p, i, pa);
    HangMoves(s, s1, root, p, i, pa);
    var s' := Hang(s1, root, p, i, pa);
    forall r | r in s.trees
      ensures SameMap(s.mem, s'.mem, r)
    {
      assert SameMap(s.mem, s1.mem, r) && SameMap(s1.mem, s'.mem, r);
    }
  }

  lemma HangMoves(s: State, s1: State, root: nat, p: Pos, i: nat, pa: nat)
    requires Labels(s1.owner, s1.trees) && root in s1.trees && p in s1.trees[root] && !p.Low? && i < 512
    requires IsPage(s1.mem, s1.trees[root][p]) && Child(p, i) !in s1.trees[root]
    requires pa in s.owner && s.owner[pa] == Free && s1.owner == s.owner[pa := Data] && s1.trees == s.trees
    requires s1.mem == s.mem[pa := Filled(ZERO)]
    ensures Shift(s, Hang(s1, root, p, i, pa), root, {}) && DataKept(s, Hang(s1, root, p, i, pa), {})
  {
    var s' := Hang(s1, root, p, i, pa);
    assert Labelled(s1.owner, s1.trees[root], root);
    assert s'.owner.Keys == s.owner.Keys;
    assert s'.trees.Keys == s.trees.Keys;
    assert forall q | q in s.owner :: Moved(s, s', root, {}, q);
  }

  lemma ShiftMore(s: State, s1: State, s2: State, root: nat, got: set<nat>, more: set<nat>)
    requires Shift(s, s1, root, got) && Shift(s1, s2, root, more)
    ensures Shift(s, s2, root, got + more)
  {
    forall pa | pa in s.owner
      ensures Moved(s, s2, root, got + more, pa)
    {
      assert Moved(s, s1, root, got, pa) && Moved(s1, s2, root, more, pa);
    }
  }

  /** Taking data pages and freeing them again leaves at most new tables. */
  lemma ShiftBack(s: State, s1: State, s2: State, root: nat, got: set<nat>)
    requires Shift(s, s1, root, got) && Freed(s1, s2, got)
    ensures Shift(s, s2, root, {})
  {
    forall pa | pa in s.owner
      ensures Moved(s, s2, root, {}, pa)
    {
      assert Moved(s, s1, root, got, pa);
    }
  }

  lemma FreedMore(s: State, s1: State, s2: State, gone: set<nat>, more: set<nat>)
    requires Freed(s, s1, gone) && Freed(s1, s2, more)
    ensures Freed(s, s2, gone + more)
  {
  }

  /** Pages lo..hi under root translate as given by new, every other page of every tree as before. */
  ghost predicate OnlyRange(s: State, s': State, root: nat, lo: nat, hi: nat) {
    && (forall m: nat | m < MAXPAGES && !(lo <= m < hi) :: Lookup(s'.mem, root, m) == Lookup(s.mem, root, m))
    && (forall r | r in s.trees && r != root :: SameMap(s.mem, s'.mem, r))
  }

  /** What reading entry i of table p of a valid tree yields. */
  lemma ReadTable(s: State, root: nat, p: Pos, i: nat)
    requires Valid(s) && root in s.trees && p in s.trees[root] && i < 512
    ensures IsPage(s.mem, s.trees[root][p])
    ensures !p.Low? ==> EntryOk(s.mem, s.trees[root], p, i)
  {
    assert Labelled(s.owner, s.trees[root], root);
    assert TreeOk(s.mem, s.trees[root], root);
    assert TableOk(s.mem, s.trees[root], p);
  }

  lemma RootTable(s: State, root: nat)
    requires Valid(s) && root in s.trees
    ensures Top in s.trees[root] && s.trees[root][Top] == root
  {
    assert TreeOk(s.mem, s.trees[root], root);
  }

  /** With a table missing on the path there is no leaf table. */
  lemma MissingTable(s: State, root: nat, level: nat, n: nat)
    requires Valid(s) && root in s.trees && 0 < level <= 2 && PosAt(level - 1, n) !in s.trees[root]
    ensures PosAt(0, n) !in s.trees[root]
  {
    assert TreeOk(s.mem, s.trees[root], root);
    if level == 2 {
      assert Parent(PosAt(0, n)) == PosAt(1, n);
    }
  }

  /** The pages that lo..hi translate to. */
  ghost function Frames(mem: Mem, root: nat, lo: nat, hi: nat): (f: set<nat>)
    decreases hi
  {
    if hi <= lo then {}
    else
      var e := Lookup(mem, root, hi - 1);
      Frames(mem, root, lo, hi - 1) + (if e.Mapped? then {e.pa} else {})
  }

  lemma {:induction false} FramesSame(mem: Mem, mem': Mem, root: nat, lo: nat, hi: nat)
    requires forall m | lo <= m < hi :: Lookup(mem', root, m) == Lookup(mem, root, m)
    ensures Frames(mem', root, lo, hi) == Frames(mem, root, lo, hi)
    decreases hi
  {
    if hi > lo {
      FramesSame(mem, mem', root, lo, hi - 1);
    }
  }

  lemma {:induction false} InFrames(mem: Mem, root: nat, lo: nat, hi: nat, pa: nat)
    requires pa in Frames(mem, root, lo, hi)
    ensures exists m: nat | lo <= m < hi :: Lookup(mem, root, m).Mapped? && Lookup(mem, root, m).pa == pa
    decreases hi
  {
    if hi > lo {
      var e := Lookup(mem, root, hi - 1);
      if !(e.Mapped? && e.pa == pa) {
        InFrames(mem, root, lo, hi - 1, pa);
      }
    }
  }

  /** Each mapped page of lo..hi is a data page, and no two share one: freeing them is sound. */
  ghost predicate OwnsRange(s: State, root: nat, lo: nat, hi: nat) {
    && (forall m: nat | lo <= m < hi && Lookup(s.mem, root, m).Mapped? ::
          Lookup(s.mem, root, m).pa in s.owner && s.owner[Lookup(s.mem, root, m).pa] == Data)
    && (forall m: nat, k: nat | lo <= m < k < hi && Lookup(s.mem, root, m).Mapped? && Lookup(s.mem, root, k).Mapped? ::
          Lookup(s.mem, root, m).pa != Lookup(s.mem, root, k).pa)
  }

  /** lo..hi translate to nothing. */
  ghost predicate Vacant(mem: Mem, root: nat, lo: nat, hi: nat) {
    forall m: nat | lo <= m < hi :: Lookup(mem, root, m) == Unmapped
  }

  // --- what the walking methods use ---

  lemma GrewMeans(s: State, s': State, root: nat)
    requires Grew(s, s', root)
    ensures Shift(s, s', root, {}) && DataKept(s, s', {})
  {
  }

  lemma SameAt(s: State, s': State, root: nat, n: nat)
    requires Grew(s, s', root) && n < MAXPAGES
    ensures Lookup(s'.mem, root, n) == Lookup(s.mem, root, n)
  {
    assert SameMap(s.mem, s'.mem, root);
  }

  lemma LookupIn(s: State, root: nat, n: nat)
    requires Valid(s) && root in s.trees
    ensures Lookup(s.mem, root, n)
         == if PosAt(0, n) in s.trees[root] then LeafOf(Read(s.mem, s.trees[root][PosAt(0, n)], PX(0, n))) else Unmapped
  {
    LookupAt(s.mem, s.trees[root], root, n);
  }

  lemma ShiftNot(s: State, root: nat)
    requires root in s.trees
    ensures Shift(s, s, root, {}) && DataKept(s, s, {})
  {
  }

  lemma ShiftTrees(s: State, s': State, root: nat, got: set<nat>)
    requires Shift(s, s', root, got)
    ensures TreesGrew(s, s', root) && root in s'.trees
  {
  }

  lemma DataTwice(s: State, s1: State, s2: State, root: nat)
    requires Shift(s, s1, root, {}) && DataKept(s, s1, {}) && DataKept(s1, s2, {})
    ensures DataKept(s, s2, {})
  {
    forall pa | Steady(s, pa)
      ensures pa in s2.mem && s2.mem[pa] == s.mem[pa]
    {
      assert pa in s1.mem && s1.mem[pa] == s.mem[pa];
      assert pa in s.owner ==> Moved(s, s1, root, {}, pa);
      assert Steady(s1, pa);
    }
  }

  lemma ShiftTwice(s: State, s1: State, s2: State, root: nat)
    requires Shift(s, s1, root, {}) && DataKept(s, s1, {})
    requires Shift(s1, s2, root, {}) && DataKept(s1, s2, {})
    ensures Shift(s, s2, root, {}) && DataKept(s, s2, {})
  {
    var none: set<nat> := {};
    assert none + none == none;
    ShiftMore(s, s1, s2, root, none, none);
    DataTwice(s, s1, s2, root);
  }

  /** Storing a leaf entry after the tree grew. */
  lemma StoreMoves(s: State, s1: State, root: nat, n: nat, w: Word)
    requires Grew(s, s1, root) && Valid(s1) && n < MAXPAGES && root in s1.trees && PosAt(0, n) in s1.trees[root]
    requires IsPage(s1.mem, s1.trees[root][PosAt(0, n)])
    requires Remapped(s1, Store(s1, root, n, w), root, n, LeafOf(w))
    ensures Shift(s, Store(s1, root, n, w), root, {}) && DataKept(s, Store(s1, root, n, w), {})
    ensures Remapped(s, Store(s1, root, n, w), root, n, LeafOf(w))
  {
    var s2 := Store(s1, root, n, w);
    StoreShift(s1, root, n, w);
    ShiftTwice(s, s1, s2, root);
    assert SameMap(s.mem, s1.mem, root);
    forall r | r in s.trees && r != root
      ensures SameMap(s.mem, s2.mem, r)
    {
      assert SameMap(s.mem, s1.mem, r) && SameMap(s1.mem, s2.mem, r);
    }
  }

  lemma StoreShift(s: State, root: nat, n: nat, w: Word)
    requires Labels(s.owner, s.trees) && root in s.trees && PosAt(0, n) in s.trees[root]
    requires IsPage(s.mem, s.trees[root][PosAt(0, n)])
    ensures Shift(s, Store(s, root, n, w), root, {}) && DataKept(s, Store(s, root, n, w), {})
  {
    assert Labelled(s.owner, s.trees[root], root);
  }

  lemma GrewRange(s: State, s1: State, s2: State, root: nat, lo: nat, hi: nat)
    requires OnlyRange(s, s1, root, lo, hi) && Grew(s1, s2, root) && TreesGrew(s, s1, root)
    ensures OnlyRange(s, s2, root, lo, hi)
    ensures forall m: nat | m < MAXPAGES :: Lookup(s2.mem, root, m) == Lookup(s1.mem, root, m)
  {
    assert SameMap(s1.mem, s2.mem, root);
    forall r | r in s.trees && r != root
      ensures SameMap(s.mem, s2.mem, r)
    {
      assert SameMap(s.mem, s1.mem, r) && SameMap(s1.mem, s2.mem, r);
    }
  }

  lemma RemappedRange(s: State, s1: State, s2: State, root: nat, lo: nat, n: nat, e: Translation)
    requires OnlyRange(s, s1, root, lo, n) && Remapped(s1, s2, root, n, e) && TreesGrew(s, s1, root)
    requires lo <= n < MAXPAGES
    ensures OnlyRange(s, s2, root, lo, n + 1) && Lookup(s2.mem, root, n) == e
    ensures forall m: nat | m < MAXPAGES && m != n :: Lookup(s2.mem, root, m) == Lookup(s1.mem, root, m)
  {
    forall r | r in s.trees && r != root
      ensures SameMap(s.mem, s2.mem, r)
    {
      assert SameMap(s.mem, s1.mem, r) && SameMap(s1.mem, s2.mem, r);
    }
  }

  lemma GiveMoves(s: State, pa: nat, junk: Word)
    requires pa in s.owner && s.owner[pa] == Data
    ensures Freed(s, Give(s, pa, junk), {pa}) && DataKept(s, Give(s, pa, junk), {pa})
  {
  }

  lemma StoreFreed(s: State, root: nat, n: nat, w: Word)
    requires Labels(s.owner, s.trees) && root in s.trees && PosAt(0, n) in s.trees[root]
    requires IsPage(s.mem, s.trees[root][PosAt(0, n)])
    ensures Freed(s, Store(s, root, n, w), {}) && DataKept(s, Store(s, root, n, w), {})
  {
    assert Labelled(s.owner, s.trees[root], root);
  }

  lemma RangeNot(s: State, root: nat, lo: nat, hi: nat)
    ensures OnlyRange(s, s, root, lo, hi)
  {
  }

  lemma FreedNot(s: State, root: nat)
    ensures Freed(s, s, {}) && DataKept(s, s, {}) && SameMaps(s.mem, s.mem, s.trees)
  {
  }

  lemma DataGone(s: State, s1: State, s2: State, gone: set<nat>, more: set<nat>)
    requires Freed(s, s1, gone) && DataKept(s, s1, gone) && DataKept(s1, s2, more)
    ensures DataKept(s, s2, gone + more)
  {
    forall pa | Steady(s, pa) && pa !in gone + more
      ensures pa in s2.mem && s2.mem[pa] == s.mem[pa]
    {
      assert Steady(s1, pa);
    }
  }

  lemma RemappedLater(s: State, s1: State, s2: State, root: nat, n: nat, e: Translation)
    requires SameMaps(s.mem, s1.mem, s.trees) && s1.trees.Keys == s.trees.Keys && root in s.trees
    requires Remapped(s1, s2, root, n, e)
    ensures Remapped(s, s2, root, n, e)
  {
    assert SameMap(s.mem, s1.mem, root);
    forall r | r in s.trees && r != root
      ensures SameMap(s.mem, s2.mem, r)
    {
      assert SameMap(s.mem, s1.mem, r) && SameMap(s1.mem, s2.mem, r);
    }
  }

  lemma RemappedNot(s: State, root: nat, n: nat)
    requires Lookup(s.mem, root, n) == Unmapped
    ensures Remapped(s, s, root, n, Unmapped)
  {
  }

  /** What one round of uvmunmap frees. */
  ghost function FreedAt(mem: Mem, root: nat, n: nat, doFree: bool): (gone: set<nat>) {
    var e := Lookup(mem, root, n);
    if doFree && e.Mapped? then {e.pa} else {}
  }

  ghost predicate OwnsAt(s: State, root: nat, n: nat) {
    var e := Lookup(s.mem, root, n);
    e.Mapped? ==> e.pa in s.owner && s.owner[e.pa] == Data
  }

  /** Freeing the first pages of an owned range leaves the next one owned. */
  lemma StillOwned(s: State, s1: State, root: nat, lo: nat, n: nat, hi: nat)
    requires OwnsRange(s, root, lo, hi) && lo <= n < hi && Freed(s, s1, Frames(s.mem, root, lo, n))
    requires Lookup(s1.mem, root, n) == Lookup(s.mem, root, n)
    ensures OwnsAt(s1, root, n)
  {
    var e := Lookup(s.mem, root, n);
    if e.Mapped? && e.pa in Frames(s.mem, root, lo, n) {
      InFrames(s.mem, root, lo, n, e.pa);
    }
  }

  /** A fresh page holding the given words, out of the free list. */
  lemma TakenMoves(s: State, s1: State, root: nat, pa: nat, page: seq<Word>)
    requires pa in s.owner && s.owner[pa] == Free && s1.owner == s.owner[pa := Data] && s1.trees == s.trees
    requires s1.mem == s.mem[pa := page] && root in s.trees
    ensures Shift(s, s1, root, {pa}) && DataKept(s, s1, {})
  {
    assert s1.owner.Keys == s.owner.Keys;
  }

  /** Page n of root was given the fresh page pa with these flags and contents. */
  ghost predicate Provided(s: State, s': State, root: nat, n: nat, pa: nat, flags: Flags, page: seq<Word>) {
    && Shift(s, s', root, {pa}) && DataKept(s, s', {}) && Remapped(s, s', root, n, Mapped(pa, flags))
    && pa in s'.mem && s'.mem[pa] == page
  }

  lemma TakenThenMapped(s: State, s1: State, s2: State, root: nat, n: nat, pa: nat, flags: Flags, page: seq<Word>)
    requires Shift(s, s1, root, {pa}) && DataKept(s, s1, {}) && SameMaps(s.mem, s1.mem, s.trees)
    requires Shift(s1, s2, root, {}) && DataKept(s1, s2, {}) && Remapped(s1, s2, root, n, Mapped(pa, flags))
    requires pa in s1.mem && s1.mem[pa] == page && pa in s1.owner && s1.owner[pa] == Data
    ensures Provided(s, s2, root, n, pa, flags, page)
  {
    assert {pa} + {} == {pa};
    ShiftMore(s, s1, s2, root, {pa}, {});
    RemappedLater(s, s1, s2, root, n, Mapped(pa, flags));
    assert Steady(s1, pa);
    forall q | Steady(s, q)
      ensures q in s2.mem && s2.mem[q] == s.mem[q]
    {
      assert q in s.owner ==> Moved(s, s1, root, {pa}, q);
      assert Steady(s1, q);
    }
  }

  lemma TakenThenGiven(s: State, s1: State, s2: State, s3: State, root: nat, pa: nat)
    requires Shift(s, s1, root, {pa}) && DataKept(s, s1, {}) && SameMaps(s.mem, s1.mem, s.trees)
    requires Grew(s1, s2, root) && Freed(s2, s3, {pa}) && DataKept(s2, s3, {pa}) && SameMaps(s2.mem, s3.mem, s2.trees)
    ensures Grew(s, s3, root)
  {
    assert {pa} + {} == {pa};
    ShiftMore(s, s1, s2, root, {pa}, {});
    ShiftBack(s, s2, s3, root, {pa});
    forall q | Steady(s, q)
      ensures q in s3.mem && s3.mem[q] == s.mem[q]
    {
      assert q in s.owner ==> Moved(s, s1, root, {pa}, q) && Moved(s1, s2, root, {}, q);
      assert Steady(s1, q) && Steady(s2, q) && q != pa;
    }
    forall r | r in s.trees
      ensures SameMap(s.mem, s3.mem, r)
    {
      assert SameMap(s.mem, s1.mem, r) && SameMap(s1.mem, s2.mem, r) && SameMap(s2.mem, s3.mem, r);
    }
  }

  lemma SameAtMaps(s: State, s': State, root: nat, n: nat)
    requires SameMaps(s.mem, s'.mem, s.trees) && root in s.trees && n < MAXPAGES
    ensures Lookup(s'.mem, root, n) == Lookup(s.mem, root, n)
  {
    assert SameMap(s.mem, s'.mem, root);
  }

  lemma DataStays(s: State, s': State, root: nat, pa: nat)
    requires Grew(s, s', root) && pa in s.owner && s.owner[pa] == Data
    ensures pa in s'.owner && s'.owner[pa] == Data
  {
    assert Moved(s, s', root, {}, pa);
  }

  lemma EmptyValid(ram: Mem)
    ensures Valid(State(ram, 0, [], map[], map[]))
  {
  }

  lemma PageFacts(s: State, pa: nat)
    requires Valid(s) && pa in s.owner
    ensures IsPage(s.mem, pa)
  {
  }

  lemma StoreFreedIn(s: State, root: nat, n: nat, w: Word)
    requires Valid(s) && root in s.trees && PosAt(0, n) in s.trees[root]
    requires IsPage(s.mem, s.trees[root][PosAt(0, n)])
    ensures Freed(s, Store(s, root, n, w), {}) && DataKept(s, Store(s, root, n, w), {})
  {
    StoreFreed(s, root, n, w);
  }

  lemma SameTrees(s: State, s': State, root: nat)
    requires root in s.trees && s'.trees == s.trees
    ensures TreesGrew(s, s', root)
  {
  }

  // --- ranges of fresh pages ---

  /** lo..n of root, vacant before, hold fresh pages, got being exactly those. */
  ghost predicate ProvidedRange(s: State, s': State, root: nat, lo: nat, n: nat, got: set<nat>) {
    && Shift(s, s', root, got) && DataKept(s, s', {}) && OnlyRange(s, s', root, lo, n)
    && got == Frames(s'.mem, root, lo, n) && OwnsRange(s', root, lo, n)
  }

  lemma ProvidedNone(s: State, root: nat, lo: nat)
    requires root in s.trees
    ensures ProvidedRange(s, s, root, lo, lo, {})
  {
  }

  lemma ProvidedNext(s: State, s1: State, s2: State, root: nat, lo: nat, n: nat, got: set<nat>,
                     pa: nat, flags: Flags, page: seq<Word>)
    requires ProvidedRange(s, s1, root, lo, n, got) && Provided(s1, s2, root, n, pa, flags, page)
    requires lo <= n < MAXPAGES
    ensures ProvidedRange(s, s2, root, lo, n + 1, got + {pa})
  {
    ShiftMore(s, s1, s2, root, got, {pa});
    RemappedRange(s, s1, s2, root, lo, n, Mapped(pa, flags));
    FramesSame(s1.mem, s2.mem, root, lo, n);
    OwnsNext(s1, s2, root, lo, n, pa, flags);
    DataShift(s, s1, s2, root, got);
  }

  lemma DataShift(s: State, s1: State, s2: State, root: nat, got: set<nat>)
    requires Shift(s, s1, root, got) && DataKept(s, s1, {}) && DataKept(s1, s2, {})
    ensures DataKept(s, s2, {})
  {
    forall q | Steady(s, q)
      ensures q in s2.mem && s2.mem[q] == s.mem[q]
    {
      assert q in s1.mem;
      assert q in s.owner ==> Moved(s, s1, root, got, q);
      assert Steady(s1, q);
    }
  }

  lemma OwnsNext(s1: State, s2: State, root: nat, lo: nat, n: nat, pa: nat, flags: Flags)
    requires OwnsRange(s1, root, lo, n) && Shift(s1, s2, root, {pa})
    requires Remapped(s1, s2, root, n, Mapped(pa, flags)) && lo <= n < MAXPAGES
    ensures OwnsRange(s2, root, lo, n + 1)
  {
    forall m: nat | lo <= m < n && Lookup(s2.mem, root, m).Mapped?
      ensures Lookup(s2.mem, root, m).pa in s2.owner && s2.owner[Lookup(s2.mem, root, m).pa] == Data
      ensures Lookup(s2.mem, root, m).pa != pa
    {
      var e := Lookup(s1.mem, root, m);
      assert Lookup(s2.mem, root, m) == e;
      assert Moved(s1, s2, root, {pa}, e.pa) && Moved(s1, s2, root, {pa}, pa);
    }
    assert Moved(s1, s2, root, {pa}, pa);
  }

  /** A page of the range left vacant. */
  lemma ProvidedSkip(s: State, s1: State, root: nat, lo: nat, n: nat, got: set<nat>)
    requires ProvidedRange(s, s1, root, lo, n, got) && lo <= n && Lookup(s1.mem, root, n) == Unmapped
    ensures ProvidedRange(s, s1, root, lo, n + 1, got)
  {
  }

  lemma ProvidedGrew(s: State, s1: State, s2: State, root: nat, lo: nat, n: nat, got: set<nat>)
    requires ProvidedRange(s, s1, root, lo, n, got) && Grew(s1, s2, root) && n <= MAXPAGES
    ensures ProvidedRange(s, s2, root, lo, n, got)
  {
    assert got + {} == got;
    ShiftMore(s, s1, s2, root, got, {});
    GrewRange(s, s1, s2, root, lo, n);
    FramesSame(s1.mem, s2.mem, root, lo, n);
    DataShift(s, s1, s2, root, got);
    forall m: nat | lo <= m < n && Lookup(s2.mem, root, m).Mapped?
      ensures Lookup(s2.mem, root, m).pa in s2.owner && s2.owner[Lookup(s2.mem, root, m).pa] == Data
    {
      assert Moved(s1, s2, root, {}, Lookup(s1.mem, root, m).pa);
    }
  }

  /** Unmapping and freeing what was provided. */
  lemma ProvidedUndone(s: State, s1: State, s2: State, root: nat, lo: nat, n: nat, got: set<nat>)
    requires ProvidedRange(s, s1, root, lo, n, got) && Vacant(s.mem, root, lo, n)
    requires Freed(s1, s2, got) && DataKept(s1, s2, got) && OnlyRange(s1, s2, root, lo, n) && Vacant(s2.mem, root, lo, n)
    ensures Grew(s, s2, root)
  {
    ShiftBack(s, s1, s2, root, got);
    forall q | Steady(s, q)
      ensures q in s2.mem && s2.mem[q] == s.mem[q]
    {
      assert q in s1.mem;
      assert q in s.owner ==> Moved(s, s1, root, got, q);
      assert Steady(s1, q) && q !in got;
    }
    forall r | r in s.trees
      ensures SameMap(s.mem, s2.mem, r)
    {
      if r != root {
        assert SameMap(s.mem, s1.mem, r) && SameMap(s1.mem, s2.mem, r);
      }
    }
  }

  /** Page m of root has these flags and contents. */
  ghost predicate Holds(s: State, root: nat, m: nat, flags: Flags, page: seq<Word>) {
    var e := Lookup(s.mem, root, m);
    e.Mapped? && e.flags == flags && e.pa in s.mem && s.mem[e.pa] == page
  }

  lemma HoldsStill(s: State, s': State, root: nat, m: nat, n: nat, pa: nat, f: Flags, page: seq<Word>, flags: Flags, words: seq<Word>)
    requires Provided(s, s', root, n, pa, f, page) && Holds(s, root, m, flags, words) && OwnsAt(s, root, m)
    requires m != n && m < MAXPAGES
    ensures Holds(s', root, m, flags, words)
  {
    assert Steady(s, Lookup(s.mem, root, m).pa);
  }

  lemma ProvidedMeans(s: State, s': State, root: nat, lo: nat, n: nat, got: set<nat>)
    requires ProvidedRange(s, s', root, lo, n, got)
    ensures OnlyRange(s, s', root, lo, n) && OwnsRange(s', root, lo, n) && got == Frames(s'.mem, root, lo, n)
    ensures root in s'.trees
  {
  }

  /** An empty range, however it is written. */
  lemma NoRange(s: State, root: nat, lo: nat, hi: nat)
    requires root in s.trees && hi <= lo
    ensures ProvidedRange(s, s, root, lo, hi, Frames(s.mem, root, lo, hi))
  {
  }

  lemma StillVacant(s: State, s': State, root: nat, lo: nat, n: nat)
    requires OnlyRange(s, s', root, lo, n) && n < MAXPAGES && Lookup(s.mem, root, n) == Unmapped
    ensures Lookup(s'.mem, root, n) == Unmapped
  {
  }

  lemma HoldAll(s: State, s': State, root: nat, lo: nat, n: nat, pa: nat, flags: Flags, page: seq<Word>)
    requires Provided(s, s', root, n, pa, flags, page) && OwnsRange(s, root, lo, n) && lo <= n < MAXPAGES
    requires forall m: nat | lo <= m < n :: Holds(s, root, m, flags, page)
    ensures forall m: nat | lo <= m < n + 1 :: Holds(s', root, m, flags, page)
  {
    hide Shift, DataKept;
    forall m: nat | lo <= m < n + 1
      ensures Holds(s', root, m, flags, page)
    {
      if m < n {
        HoldsStill(s, s', root, m, n, pa, flags, page, flags, page);
      }
    }
  }

  // --- copies and mirrors ---

  /** Every mapped page below hi is memory the allocator and the trees leave alone. */
  ghost predicate Readable(s: State, root: nat, hi: nat) {
    forall m: nat | m < hi && Lookup(s.mem, root, m).Mapped? ::
      Steady(s, Lookup(s.mem, root, m).pa) && |s.mem[Lookup(s.mem, root, m).pa]| == 512
  }

  /** Page m of dst now is what page m of src was: absent, or the same flags and words. */
  ghost predicate Copied(s: State, s': State, src: nat, dst: nat, m: nat) {
    match Lookup(s.mem, src, m)
    case Unmapped => Lookup(s'.mem, dst, m) == Unmapped
    case Mapped(pa, flags) => pa in s.mem && Holds(s', dst, m, flags, s.mem[pa])
  }

  lemma SourceStays(s: State, s1: State, src: nat, dst: nat, n: nat, hi: nat, got: set<nat>)
    requires ProvidedRange(s, s1, dst, 0, n, got) && src in s.trees && src != dst && n < hi <= MAXPAGES
    requires Readable(s, src, hi)
    ensures src in s1.trees && Lookup(s1.mem, src, n) == Lookup(s.mem, src, n)
    ensures var e := Lookup(s.mem, src, n);
            e.Mapped? ==> e.pa in s.mem && e.pa in s1.mem && s1.mem[e.pa] == s.mem[e.pa] && |s.mem[e.pa]| == 512
  {
    assert SameMap(s.mem, s1.mem, src);
  }

  lemma CopiedHole(s: State, s1: State, src: nat, dst: nat, n: nat)
    requires Lookup(s.mem, src, n) == Unmapped && Lookup(s1.mem, dst, n) == Unmapped
    ensures Copied(s, s1, src, dst, n)
  {
  }

  lemma CopyAll(s: State, s1: State, s2: State, src: nat, dst: nat, n: nat, pa: nat, flags: Flags, page: seq<Word>)
    requires Provided(s1, s2, dst, n, pa, flags, page) && OwnsRange(s1, dst, 0, n) && n < MAXPAGES
    requires forall m: nat | m < n :: Copied(s, s1, src, dst, m)
    requires var e := Lookup(s.mem, src, n); e.Mapped? && e.flags == flags && e.pa in s.mem && s.mem[e.pa] == page
    ensures forall m: nat | m < n + 1 :: Copied(s, s2, src, dst, m)
  {
    hide Shift, DataKept;
    forall m: nat | m < n + 1
      ensures Copied(s, s2, src, dst, m)
    {
      if m < n {
        assert Copied(s, s1, src, dst, m);
        var e := Lookup(s.mem, src, m);
        if e.Mapped? {
          HoldsStill(s1, s2, dst, m, n, pa, flags, page, e.flags, s.mem[e.pa]);
        }
      }
    }
  }

  /** The pages below n of dst are those of src; no data page changed hands. */
  ghost predicate Mirrored(s: State, s': State, src: nat, dst: nat, n: nat) {
    && Shift(s, s', dst, {}) && DataKept(s, s', {}) && OnlyRange(s, s', dst, 0, n)
    && (forall m: nat | m < n :: Lookup(s'.mem, dst, m) == Lookup(s.mem, src, m))
  }

  lemma MirroredNone(s: State, src: nat, dst: nat)
    requires dst in s.trees
    ensures Mirrored(s, s, src, dst, 0)
  {
  }

  lemma MirroredMeans(s: State, s1: State, src: nat, dst: nat, n: nat)
    requires Mirrored(s, s1, src, dst, n) && src in s.trees && src != dst && n < MAXPAGES
    requires Lookup(s.mem, dst, n) == Unmapped
    ensures Lookup(s1.mem, src, n) == Lookup(s.mem, src, n) && Lookup(s1.mem, dst, n) == Unmapped
    ensures src in s1.trees && dst in s1.trees
  {
    assert SameMap(s.mem, s1.mem, src);
  }

  lemma PageAddress(s: State, root: nat, n: nat)
    ensures Lookup(s.mem, root, n).Mapped? ==> Lookup(s.mem, root, n).pa % PGSIZE == 0 && Lookup(s.mem, root, n).flags.v
  {
  }

  lemma MirroredNext(s: State, s1: State, s2: State, src: nat, dst: nat, n: nat)
    requires Mirrored(s, s1, src, dst, n) && Remapped(s1, s2, dst, n, Lookup(s.mem, src, n)) && n < MAXPAGES
    requires Shift(s1, s2, dst, {}) && DataKept(s1, s2, {})
    ensures Mirrored(s, s2, src, dst, n + 1) && dst in s2.trees
  {
    ShiftTwice(s, s1, s2, dst);
    RemappedRange(s, s1, s2, dst, 0, n, Lookup(s.mem, src, n));
  }

  lemma MirroredGrew(s: State, s1: State, s2: State, src: nat, dst: nat, n: nat)
    requires Mirrored(s, s1, src, dst, n) && Grew(s1, s2, dst) && n <= MAXPAGES
    ensures Mirrored(s, s2, src, dst, n)
  {
    ShiftTwice(s, s1, s2, dst);
    GrewRange(s, s1, s2, dst, 0, n);
  }

  lemma MirroredUndone(s: State, s1: State, s2: State, src: nat, dst: nat, n: nat)
    requires Mirrored(s, s1, src, dst, n) && Vacant(s.mem, dst, 0, n)
    requires Freed(s1, s2, {}) && DataKept(s1, s2, {}) && OnlyRange(s1, s2, dst, 0, n) && Vacant(s2.mem, dst, 0, n)
    ensures Grew(s, s2, dst)
  {
    ShiftBack(s, s1, s2, dst, {});
    DataTwice(s, s1, s2, dst);
    forall r | r in s.trees
      ensures SameMap(s.mem, s2.mem, r)
    {
      if r != dst {
        assert SameMap(s.mem, s1.mem, r) && SameMap(s1.mem, s2.mem, r);
      }
    }
  }
}
