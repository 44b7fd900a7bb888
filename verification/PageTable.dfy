/** kalloc.c and vm.c over one physical memory. The ghost fields say who owns every page; each
    operation is specified by what it does to the translations (Lookup) and to the owners.
    Calls that would panic are ruled out by preconditions, and every inner call is shown to meet
    them. Addresses and sizes that must be page aligned are page numbers.
 */
module PageTable {
  import opened PageTheory
  import opened PageMoves
  import opened PageFree
  import opened PageBudget

  datatype Slot = NoSlot | At(pa: nat, i: nat)

  function FreeJunk(): Word { Decode(0x0101_0101_0101_0101) }

  function AllocJunk(): Word { Decode(0x0505_0505_0505_0505) }

  /** PGROUNDUP(sz) / PGSIZE */
  function PagesOf(sz: nat): nat { (sz + PGSIZE - 1) / PGSIZE }

  /** A whole page between end and limit. */
  predicate Managed(pa: nat, end: nat, limit: nat) {
    pa % PGSIZE == 0 && end <= pa < limit
  }

  lemma NextManaged(pa: nat, end: nat, limit: nat)
    requires limit % PGSIZE == 0 && end <= limit
    ensures Managed(pa, end, limit + PGSIZE) <==> Managed(pa, end, limit) || pa == limit
  {
  }

  class Machine {
    var mem: Mem
    var freelist: nat
    ghost var free: seq<nat>
    ghost var owner: map<nat, Owner>
    ghost var trees: map<nat, Tree>
    const end: nat // first address after the kernel

    ghost function Now(): State
      reads this
    {
      State(mem, freelist, free, owner, trees)
    }

    ghost predicate Ok()
      reads this
    {
      Valid(Now()) && forall pa | pa in owner :: end <= pa
    }

    /** kfree; during kinit the page is not yet the allocator's */
    method Kfree(pa: nat)
      requires Ok() && (pa in owner ==> owner[pa] == Data)
      requires pa % PGSIZE == 0 && end <= pa && 0 < pa < PHYSTOP
      modifies this
      ensures Ok() && Now() == Give(old(Now()), pa, FreeJunk())
      ensures SameMaps(old(mem), mem, trees)
    {
      GiveKeeps(Now(), pa, FreeJunk());
      mem := mem[pa := Filled(FreeJunk())];
      mem := mem[pa := mem[pa][0 := Decode(freelist)]];
      freelist := pa;
      free, owner := [pa] + free, owner[pa := Free];
      assert Now().mem == Give(old(Now()), pa, FreeJunk()).mem;
    }

    /** kalloc: a page no one owns, or 0 exactly when none is free */
    method Kalloc() returns (pa: nat)
      requires Ok()
      modifies this
      ensures Ok()
      ensures pa == 0 <==> old(free) == []
      ensures pa == 0 ==> Now() == old(Now())
      ensures pa != 0 ==> pa == old(free)[0] && pa in old(owner) && old(owner)[pa] == Free
      ensures pa != 0 ==> Now() == Take(old(Now()), AllocJunk()) && SameMaps(old(mem), mem, trees)
    {
      pa := freelist;
      if free != [] {
        assert LinkOk(mem, free, owner, 0);
        assert IsPage(mem, free[0]);
      }
      if pa != 0 {
        TakeKeeps(Now(), AllocJunk());
        freelist := Encode(mem[pa][0]);
        mem := mem[pa := Filled(AllocJunk())];
        free, owner := free[1..], owner[pa := Data];
      }
    }

    /** kalloc, then the page filled with the given words */
    method KallocWith(page: seq<Word>) returns (pa: nat)
      requires Ok() && |page| == 512
      modifies this
      ensures Ok() && trees == old(trees)
      ensures pa == 0 <==> old(free) == []
      ensures pa == 0 ==> Now() == old(Now())
      ensures pa != 0 ==> pa in old(owner) && old(owner)[pa] == Free && owner == old(owner)[pa := Data]
      ensures pa != 0 ==> mem == old(mem)[pa := page] && SameMaps(old(mem), mem, trees)
      ensures pa != 0 ==> |old(free)| == |free| + 1
    {
      pa := Kalloc();
      if pa != 0 {
        DataWriteKeeps(Now(), pa, page);
        mem := mem[pa := page];
      }
    }

    /** walk: the slot of page n in its leaf table; with alloc the missing tables are made, and the
        only reason to fail is then that fewer pages are free than tables are missing. No
        translation changes. */
    method Walk(root: nat, n: nat, alloc: bool) returns (slot: Slot)
      requires Ok() && root in trees && n < MAXPAGES
      modifies this
      ensures Ok() && Grew(old(Now()), Now(), root) && root in trees
      ensures !alloc ==> Now() == old(Now())
      ensures slot.At? <==> PosAt(0, n) in trees[root]
      ensures slot.At? ==> slot == At(trees[root][PosAt(0, n)], PX(0, n)) && IsPage(mem, slot.pa)
      ensures slot.At? ==> Spent(old(Now()), Now(), root, Path(n), 0)
      ensures alloc ==> (slot.NoSlot? <==> Short(old(Now()), root, Path(n), 0))
      ensures slot.NoSlot? && alloc ==> free == []
    {
      hide Valid, Grew, Spent, Short, PathTo, Path;
      var level := 2;
      var table := root;
      ghost var s := Now();
      GrewNot(s, root);
      RootTable(s, root);
      SpentNone(s, root);
      PathEnds(n);
      while level > 0
        invariant 0 <= level <= 2 && Ok() && Grew(s, Now(), root)
        invariant root in trees && PosAt(level, n) in trees[root] && table == trees[root][PosAt(level, n)]
        invariant !alloc ==> Now() == s
        invariant Spent(s, Now(), root, PathTo(level, n), 0)
      {
        var i := PX(level, n);
        ghost var p, s1 := PosAt(level, n), Now();
        ReadTable(s1, root, p, i);
        var pte := mem[table][i];
        if pte.flags.v {
          table := Pa(pte);
          StepThere(s, s1, root, level, n);
        } else {
          MissingTable(s1, root, level, n);
          if !alloc {
            return NoSlot;
          }
          PosInTree(level - 1, n);
          assert Child(p, i) == PosAt(level - 1, n);
          var ok, page := GrowTable(root, p, table, i);
          GrewTwice(s, s1, Now(), root);
          if !ok {
            StepShort(s, s1, root, level, n);
            return NoSlot;
          }
          StepMade(s, s1, Now(), root, level, n);
          table := page;
        }
        assert Child(p, i) == PosAt(level - 1, n);
        level := level - 1;
      }
      ReadTable(Now(), root, PosAt(0, n), 0);
      SpentWasEnough(s, Now(), root, Path(n), 0);
      return At(table, PX(0, n));
    }

    /** A new empty table under entry i of table p. */
    method GrowTable(root: nat, ghost p: Pos, table: nat, i: nat) returns (ok: bool, page: nat)
      requires Ok() && root in trees && p in trees[root] && trees[root][p] == table && !p.Low? && i < 512
      requires IsPage(mem, table) && Child(p, i) !in trees[root] && InTree(Child(p, i))
      modifies this
      ensures Ok() && Grew(old(Now()), Now(), root) && root in trees
      ensures !ok ==> free == [] && Now() == old(Now()) && Short(old(Now()), root, {Child(p, i)}, 0)
      ensures ok ==> Child(p, i) in trees[root] && trees[root][Child(p, i)] == page
      ensures ok ==> Spent(old(Now()), Now(), root, {Child(p, i)}, 0)
    {
      hide Valid, Grew, Spent, Short;
      page := KallocWith(Filled(ZERO));
      if page == 0 {
        GrewNot(Now(), root);
        ShortOfOne(Now(), root, Child(p, i));
        return false, 0;
      }
      HangGrew(old(Now()), Now(), root, p, i, page);
      ghost var s := Hang(Now(), root, p, i, page);
      mem := mem[table := mem[table][i := Word(page / PGSIZE, ZERO.flags.(v := true))]];
      owner, trees := s.owner, s.trees;
      assert Now() == s;
      SpentOne(old(Now()), s, root, Child(p, i));
      ok := true;
    }

    /** walkaddr: the physical address of a user page, or 0 */
    method Walkaddr(root: nat, n: nat) returns (pa: nat)
      requires Ok() && root in trees
      modifies this
      ensures Now() == old(Now())
      ensures n >= MAXPAGES ==> pa == 0
      ensures n < MAXPAGES ==>
                pa == match Lookup(mem, root, n) case Mapped(a, f) => (if f.u then a else 0) case Unmapped => 0
    {
      if n >= MAXPAGES {
        return 0;
      }
      LookupIn(Now(), root, n);
      var slot := Walk(root, n, false);
      if slot.NoSlot? {
        return 0;
      }
      var pte := mem[slot.pa][slot.i];
      if !pte.flags.v {
        return 0;
      }
      if !pte.flags.u {
        return 0;
      }
      return Pa(pte);
    }

    /** One round of mappages: page n, not yet mapped, gets an entry. */
    method MapOne(root: nat, n: nat, pa: nat, perm: Flags) returns (ok: bool)
      requires Ok() && root in trees && n < MAXPAGES && pa % PGSIZE == 0 && Lookup(mem, root, n) == Unmapped
      modifies this
      ensures Ok() && Shift(old(Now()), Now(), root, {}) && DataKept(old(Now()), Now(), {}) && root in trees
      ensures ok ==> Remapped(old(Now()), Now(), root, n, Mapped(pa, perm.(v := true)))
      ensures !ok ==> Grew(old(Now()), Now(), root) && free == []
      ensures ok <==> !Short(old(Now()), root, Path(n), 0)
      ensures ok ==> Spent(old(Now()), Now(), root, Path(n), 0)
    {
      hide Valid, Shift, DataKept, Grew, Remapped, Spent, Short;
      ghost var s := Now();
      var slot := Walk(root, n, true);
      GrewMeans(s, Now(), root);
      if slot.NoSlot? {
        return false;
      }
      ghost var s1 := Now();
      LookupIn(s1, root, n);
      assert !mem[slot.pa][slot.i].flags.v by {
        SameAt(s, s1, root, n);
      }
      var w := Word(pa / PGSIZE, perm.(v := true));
      StoreKeeps(s1, root, n, w);
      mem := mem[slot.pa := mem[slot.pa][slot.i := w]];
      assert Now() == Store(s1, root, n, w);
      StoreMoves(s, s1, root, n, w);
      SpentLater(s, s1, Now(), root, Path(n), 0);
      return true;
    }

    /** mappages: the range gets exactly the translations asked for; if, and only if, fewer pages
        are free than its tables need, just a prefix of it does. */
    method Mappages(root: nat, n: nat, count: nat, pa: nat, perm: Flags) returns (ok: bool, ghost done: nat)
      requires Ok() && root in trees && 0 < count && n + count <= MAXPAGES && pa % PGSIZE == 0
      requires Vacant(mem, root, n, n + count)
      modifies this
      ensures Ok() && Shift(old(Now()), Now(), root, {}) && DataKept(old(Now()), Now(), {}) && root in trees
      ensures if ok then done == count else done < count && free == []
      ensures forall m: nat | n <= m < n + done :: Lookup(mem, root, m) == Mapped(pa + (m - n) * PGSIZE, perm.(v := true))
      ensures OnlyRange(old(Now()), Now(), root, n, n + done)
      ensures ok <==> !Short(old(Now()), root, Paths(PageRange(n, n + count)), 0)
      ensures ok ==> Spent(old(Now()), Now(), root, Paths(PageRange(n, n + count)), 0)
    {
      hide Valid, Shift, DataKept, Grew, TreesGrew, Remapped, Spent, Short, Paths, PageRange, Lookup, Path;
      ghost var s := Now();
      ShiftNot(s, root);
      done := 0;
      var a, last, frame := n, n + count - 1, pa;
      SpentNone(s, root);
      PathsNone();
      RangeNone(n, n);
      while true
        invariant a == n + done <= last && frame == pa + done * PGSIZE && frame % PGSIZE == 0 && done < count
        invariant Ok() && Shift(s, Now(), root, {}) && DataKept(s, Now(), {}) && root in trees
        invariant forall m: nat | n <= m < n + done :: Lookup(mem, root, m) == Mapped(pa + (m - n) * PGSIZE, perm.(v := true))
        invariant OnlyRange(s, Now(), root, n, n + done)
        invariant Spent(s, Now(), root, Paths(PageRange(n, a)), 0)
        decreases last - a
      {
        ghost var s1 := Now();
        ShiftTrees(s, s1, root, {});
        ok := MapOne(root, a, frame, perm);
        ShiftTwice(s, s1, Now(), root);
        RangeAdd(n, a);
        if !ok {
          GrewRange(s, s1, Now(), root, n, n + done);
          RangeMore(n, a + 1, n + count);
          NextShort(s, s1, root, PageRange(n, a), 0, a, 0, PageRange(n, n + count), 0);
          return;
        }
        NextSpent(s, s1, Now(), root, PageRange(n, a), 0, a, 0);
        RemappedRange(s, s1, Now(), root, n, a, Mapped(frame, perm.(v := true)));
        done := done + 1;
        if a == last {
          break;
        }
        a := a + 1;
        frame := frame + PGSIZE;
      }
      SpentWasEnough(s, Now(), root, Paths(PageRange(n, n + count)), 0);
      ok := true;
    }

    /** One round of uvmunmap. */
    method UnmapOne(root: nat, n: nat, doFree: bool) returns (ghost gone: set<nat>)
      requires Ok() && root in trees && n < MAXPAGES && (doFree ==> OwnsAt(Now(), root, n))
      modifies this
      ensures Ok() && Remapped(old(Now()), Now(), root, n, Unmapped) && trees == old(trees)
      ensures gone == FreedAt(old(mem), root, n, doFree)
      ensures Freed(old(Now()), Now(), gone) && DataKept(old(Now()), Now(), gone)
    {
      hide Valid, Freed, DataKept, Remapped, SameMaps, Grew;
      ghost var s := Now();
      LookupIn(s, root, n);
      FreedNot(s, root);
      gone := FreedAt(mem, root, n, doFree);
      var slot := Walk(root, n, false);
      if slot.NoSlot? {
        RemappedNot(s, root, n);
        return;
      }
      var pte := mem[slot.pa][slot.i];
      if !pte.flags.v {
        RemappedNot(s, root, n);
        return;
      }
      if doFree {
        PageFacts(s, Pa(pte));
        GiveMoves(s, Pa(pte), FreeJunk());
        Kfree(Pa(pte));
      }
      ghost var s1 := Now();
      ReadTable(s1, root, PosAt(0, n), 0);
      StoreKeeps(s1, root, n, ZERO);
      StoreFreedIn(s1, root, n, ZERO);
      mem := mem[slot.pa := mem[slot.pa][slot.i := ZERO]];
      assert Now() == Store(s1, root, n, ZERO);
      FreedMore(s, s1, Now(), gone, {});
      DataGone(s, s1, Now(), gone, {});
      assert gone + {} == gone;
      RemappedLater(s, s1, Now(), root, n, Unmapped);
    }

    /** uvmunmap: exactly the range loses its translations; with doFree its pages are freed. */
    method Uvmunmap(root: nat, n: nat, npages: nat, doFree: bool) returns (ghost gone: set<nat>)
      requires Ok() && root in trees && n + npages <= MAXPAGES
      requires doFree ==> OwnsRange(Now(), root, n, n + npages)
      modifies this
      ensures Ok() && Vacant(mem, root, n, n + npages) && OnlyRange(old(Now()), Now(), root, n, n + npages)
      ensures gone == if doFree then Frames(old(mem), root, n, n + npages) else {}
      ensures Freed(old(Now()), Now(), gone) && DataKept(old(Now()), Now(), gone) && trees == old(trees)
    {
      hide Valid, Freed, DataKept, Remapped, OwnsRange, OwnsAt;
      ghost var s := Now();
      FreedNot(s, root);
      gone := {};
      var a := n;
      while a < n + npages
        invariant n <= a <= n + npages && Ok() && trees == s.trees
        invariant Vacant(mem, root, n, a) && OnlyRange(s, Now(), root, n, a)
        invariant gone == if doFree then Frames(s.mem, root, n, a) else {}
        invariant Freed(s, Now(), gone) && DataKept(s, Now(), gone)
      {
        ghost var s1 := Now();
        if doFree {
          StillOwned(s, s1, root, n, a, n + npages);
        }
        ghost var more := UnmapOne(root, a, doFree);
        FreedMore(s, s1, Now(), gone, more);
        DataGone(s, s1, Now(), gone, more);
        SameTrees(s, s1, root);
        RemappedRange(s, s1, Now(), root, n, a, Unmapped);
        gone := gone + more;
        a := a + 1;
      }
    }

    /** uvmdealloc: from oldsz down to newsz bytes */
    method Uvmdealloc(root: nat, oldsz: nat, newsz: nat) returns (r: nat)
      requires Ok() && root in trees && PagesOf(oldsz) <= MAXPAGES
      requires OwnsRange(Now(), root, PagesOf(newsz), PagesOf(oldsz))
      modifies this
      ensures Ok() && r == (if newsz >= oldsz then oldsz else newsz) && trees == old(trees)
      ensures Vacant(mem, root, PagesOf(newsz), PagesOf(oldsz))
      ensures OnlyRange(old(Now()), Now(), root, PagesOf(newsz), PagesOf(oldsz))
      ensures var gone := Frames(old(mem), root, PagesOf(newsz), PagesOf(oldsz));
              Freed(old(Now()), Now(), gone) && DataKept(old(Now()), Now(), gone)
    {
      hide Valid, Freed, DataKept, OwnsRange, OnlyRange;
      FreedNot(Now(), root);
      RangeNot(Now(), root, PagesOf(newsz), PagesOf(oldsz));
      if newsz >= oldsz {
        assert PagesOf(oldsz) <= PagesOf(newsz);
        return oldsz;
      }
      if PagesOf(newsz) < PagesOf(oldsz) {
        var npages := PagesOf(oldsz) - PagesOf(newsz);
        ghost var gone := Uvmunmap(root, PagesOf(newsz), npages, true);
      }
      return newsz;
    }

    /** A fresh page with the given contents, mapped at n; or, when memory runs out, nothing but
        perhaps more tables. */
    method AllocPage(root: nat, n: nat, page: seq<Word>, perm: Flags) returns (ok: bool, ghost pa: nat)
      requires Ok() && root in trees && n < MAXPAGES && |page| == 512 && Lookup(mem, root, n) == Unmapped
      modifies this
      ensures Ok() && root in trees
      ensures ok ==> Provided(old(Now()), Now(), root, n, pa, perm.(v := true), page)
      ensures !ok ==> Grew(old(Now()), Now(), root) && |free| <= 1
      ensures ok <==> !Short(old(Now()), root, Path(n), 1)
      ensures ok ==> Spent(old(Now()), Now(), root, Path(n), 1)
    {
      hide Valid, Shift, DataKept, Remapped, SameMaps, Grew, Freed, Provided, Spent, Short;
      ghost var s := Now();
      var mem0 := KallocWith(page);
      pa := mem0;
      if mem0 == 0 {
        GrewNot(s, root);
        ShortOfData(s, root, Path(n));
        return false, pa;
      }
      ghost var s1 := Now();
      SpentData(s, s1, root);
      assert {} + Path(n) == Path(n);
      TakenMoves(s, s1, root, pa, page);
      SameAtMaps(s, s1, root, n);
      PageFacts(s1, pa);
      ok := MapOne(root, n, mem0, perm);
      ghost var s2 := Now();
      if ok {
        TakenThenMapped(s, s1, s2, root, n, pa, perm.(v := true), page);
        SpentTwice(s, s1, s2, root, {}, 1, Path(n), 0);
        SpentWasEnough(s, s2, root, Path(n), 1);
      } else {
        SpentThenShort(s, s1, root, {}, 1, Path(n), 0);
        DataStays(s1, s2, root, pa);
        PageFacts(s2, pa);
        GiveMoves(s2, pa, FreeJunk());
        Kfree(mem0);
        TakenThenGiven(s, s1, s2, Now(), root, pa);
      }
    }

    /** uvmalloc: from oldsz up to newsz bytes, on zeroed pages. It fails exactly when fewer pages
        are free than the range and its missing tables need; every data page taken is then given
        back and no translation has changed. */
    method Uvmalloc(root: nat, oldsz: nat, newsz: nat, xperm: Flags) returns (r: nat, ghost ok: bool)
      requires Ok() && root in trees && PagesOf(newsz) <= MAXPAGES
      requires Vacant(mem, root, PagesOf(oldsz), PagesOf(newsz))
      modifies this
      ensures Ok() && root in trees && r == if newsz < oldsz then oldsz else if ok then newsz else 0
      ensures ok ==> ProvidedRange(old(Now()), Now(), root, PagesOf(oldsz), PagesOf(newsz),
                                   Frames(mem, root, PagesOf(oldsz), PagesOf(newsz)))
      ensures ok ==> forall m: nat | PagesOf(oldsz) <= m < PagesOf(newsz) ::
                Holds(Now(), root, m, xperm.(r := true, u := true, v := true), Filled(ZERO))
      ensures !ok ==> newsz >= oldsz && Grew(old(Now()), Now(), root)
      ensures var pages := PageRange(PagesOf(oldsz), PagesOf(newsz));
              && (ok <==> !Short(old(Now()), root, Paths(pages), |pages|))
              && (ok ==> Spent(old(Now()), Now(), root, Paths(pages), |pages|))
    {
      hide Valid, Provided, ProvidedRange, Holds, Grew, OwnsRange, Frames, Freed, DataKept, OnlyRange, Spent, Short, Paths, PageRange, Path, Tables, Lookup;
      ghost var s := Now();
      var lo := PagesOf(oldsz);
      ok := true;
      ProvidedNone(s, root, lo);
      ProvidedMeans(s, s, root, lo, lo, {});
      SpentNone(s, root);
      PathsNone();
      RangeNone(lo, lo);
      if newsz < oldsz {
        RangeNone(lo, PagesOf(newsz));
        NoRange(s, root, lo, PagesOf(newsz));
        return oldsz, true;
      }
      var perm := xperm.(r := true, u := true);
      var n := lo;
      ghost var got: set<nat> := {};
      while n * PGSIZE < newsz
        invariant lo <= n <= PagesOf(newsz) && Ok() && root in trees
        invariant ProvidedRange(s, Now(), root, lo, n, got)
        invariant Spent(s, Now(), root, Paths(PageRange(lo, n)), |PageRange(lo, n)|)
        invariant forall m: nat | lo <= m < n :: Holds(Now(), root, m, perm.(v := true), Filled(ZERO))
      {
        ghost var s1 := Now();
        ProvidedMeans(s, s1, root, lo, n, got);
        StillVacant(s, s1, root, lo, n);
        var more, pa := AllocPage(root, n, Filled(ZERO), perm);
        RangeAdd(lo, n);
        if !more {
          RangeMore(lo, n + 1, PagesOf(newsz));
          PathsMore(PageRange(lo, n + 1), PageRange(lo, PagesOf(newsz)));
          NextShort(s, s1, root, PageRange(lo, n), |PageRange(lo, n)|, n, 1,
                    PageRange(lo, PagesOf(newsz)), |PageRange(lo, PagesOf(newsz))|);
          ProvidedGrew(s, s1, Now(), root, lo, n, got);
          ghost var s2 := Now();
          ProvidedMeans(s, s2, root, lo, n, got);
          var ignored := Uvmdealloc(root, n * PGSIZE, lo * PGSIZE);
          ProvidedUndone(s, s2, Now(), root, lo, n, got);
          return 0, false;
        }
        ProvidedNext(s, s1, Now(), root, lo, n, got, pa, perm.(v := true), Filled(ZERO));
        got := got + {pa};
        HoldAll(s1, Now(), root, lo, n, pa, perm.(v := true), Filled(ZERO));
        NextSpent(s, s1, Now(), root, PageRange(lo, n), |PageRange(lo, n)|, n, 1);
        n := n + 1;
      }
      ProvidedMeans(s, Now(), root, lo, n, got);
      SpentWasEnough(s, Now(), root, Paths(PageRange(lo, n)), |PageRange(lo, n)|);
      return newsz, true;
    }

    /** uvmcopy: the child gets, at the same addresses and with the same flags, fresh pages with
        the parent's contents. It fails exactly when fewer pages are free than the parent's pages and
        the tables they need; nothing then stays mapped and every data page is given back. */
    method Uvmcopy(src: nat, dst: nat, sz: nat) returns (ok: bool)
      requires Ok() && src in trees && dst in trees && src != dst && PagesOf(sz) <= MAXPAGES
      requires Vacant(mem, dst, 0, PagesOf(sz)) && Readable(Now(), src, PagesOf(sz))
      modifies this
      ensures Ok() && dst in trees
      ensures ok ==> ProvidedRange(old(Now()), Now(), dst, 0, PagesOf(sz), Frames(mem, dst, 0, PagesOf(sz)))
      ensures ok ==> forall m: nat | m < PagesOf(sz) :: Copied(old(Now()), Now(), src, dst, m)
      ensures !ok ==> Grew(old(Now()), Now(), dst)
      ensures var pages := MappedBelow(old(mem), src, PagesOf(sz));
              && (ok <==> !Short(old(Now()), dst, Paths(pages), |pages|))
              && (ok ==> Spent(old(Now()), Now(), dst, Paths(pages), |pages|))
    {
      hide Valid, Provided, ProvidedRange, Holds, Grew, OwnsRange, Frames, Freed, DataKept, OnlyRange, Copied, Readable;
      hide Spent, Short, Paths, MappedBelow, Path, Tables, Lookup;
      ghost var s := Now();
      ProvidedNone(s, dst, 0);
      SpentNone(s, dst);
      PathsNone();
      BelowNone(mem, src);
      var n := 0;
      ghost var got: set<nat> := {};
      while n * PGSIZE < sz
        invariant n <= PagesOf(sz) && Ok() && dst in trees
        invariant ProvidedRange(s, Now(), dst, 0, n, got)
        invariant forall m: nat | m < n :: Copied(s, Now(), src, dst, m)
        invariant var pages := MappedBelow(s.mem, src, n); Spent(s, Now(), dst, Paths(pages), |pages|)
      {
        ghost var s1 := Now();
        BelowAdd(s.mem, src, n);
        ProvidedMeans(s, s1, dst, 0, n, got);
        StillVacant(s, s1, dst, 0, n);
        SourceStays(s, s1, src, dst, n, PagesOf(sz), got);
        LookupIn(s1, src, n);
        var slot := Walk(src, n, false);
        if slot.NoSlot? || !mem[slot.pa][slot.i].flags.v {
          ProvidedSkip(s, s1, dst, 0, n, got);
          CopiedHole(s, s1, src, dst, n);
          n := n + 1;
          continue;
        }
        var pte := mem[slot.pa][slot.i];
        var more, pa := AllocPage(dst, n, mem[Pa(pte)], pte.flags);
        ghost var done, all := MappedBelow(s.mem, src, n), MappedBelow(s.mem, src, PagesOf(sz));
        if !more {
          BelowMore(s.mem, src, n + 1, PagesOf(sz));
          PathsMore(done + {n}, all);
          NextShort(s, s1, dst, done, |done|, n, 1, all, |all|);
          ProvidedGrew(s, s1, Now(), dst, 0, n, got);
          ghost var s2 := Now();
          ProvidedMeans(s, s2, dst, 0, n, got);
          ghost var gone := Uvmunmap(dst, 0, n, true);
          ProvidedUndone(s, s2, Now(), dst, 0, n, got);
          return false;
        }
        ProvidedNext(s, s1, Now(), dst, 0, n, got, pa, pte.flags, s1.mem[Pa(pte)]);
        got := got + {pa};
        CopyAll(s, s1, Now(), src, dst, n, pa, pte.flags, s1.mem[Pa(pte)]);
        ProvidedMeans(s, Now(), dst, 0, n + 1, got);
        NextSpent(s, s1, Now(), dst, done, |done|, n, 1);
        n := n + 1;
      }
      ProvidedMeans(s, Now(), dst, 0, n, got);
      SpentWasEnough(s, Now(), dst, Paths(MappedBelow(s.mem, src, n)), |MappedBelow(s.mem, src, n)|);
      return true;
    }

    /** uvmmirror: the thread maps the very pages of its creator, unless fewer pages are free than
        the tables it needs for them. */
    method Uvmmirror(src: nat, dst: nat, sz: nat) returns (ok: bool)
      requires Ok() && src in trees && dst in trees && src != dst && PagesOf(sz) <= MAXPAGES
      requires Vacant(mem, dst, 0, PagesOf(sz))
      requires forall m: nat | m < PagesOf(sz) :: Lookup(mem, src, m).Mapped?
      modifies this
      ensures Ok() && dst in trees
      ensures ok ==> Mirrored(old(Now()), Now(), src, dst, PagesOf(sz))
      ensures !ok ==> Grew(old(Now()), Now(), dst)
      ensures ok <==> !Short(old(Now()), dst, Paths(PageRange(0, PagesOf(sz))), 0)
      ensures ok ==> Spent(old(Now()), Now(), dst, Paths(PageRange(0, PagesOf(sz))), 0)
    {
      hide Valid, Grew, Mirrored, Remapped, Shift, DataKept, OnlyRange, Freed, Spent, Short, Paths, PageRange;
      ghost var s := Now();
      MirroredNone(s, src, dst);
      SpentNone(s, dst);
      PathsNone();
      RangeNone(0, 0);
      var n := 0;
      while n * PGSIZE < sz
        invariant n <= PagesOf(sz) && Ok() && Mirrored(s, Now(), src, dst, n) && dst in trees
        invariant Spent(s, Now(), dst, Paths(PageRange(0, n)), 0)
      {
        ghost var s1 := Now();
        MirroredMeans(s, s1, src, dst, n);
        LookupIn(s1, src, n);
        PageAddress(s1, src, n);
        var slot := Walk(src, n, false);
        var pte := mem[slot.pa][slot.i];
        var more := MapOne(dst, n, Pa(pte), pte.flags);
        RangeAdd(0, n);
        if !more {
          RangeMore(0, n + 1, PagesOf(sz));
          NextShort(s, s1, dst, PageRange(0, n), 0, n, 0, PageRange(0, PagesOf(sz)), 0);
          MirroredGrew(s, s1, Now(), src, dst, n);
          ghost var s2 := Now();
          ghost var gone := Uvmunmap(dst, 0, n, false);
          MirroredUndone(s, s2, Now(), src, dst, n);
          return false;
        }
        MirroredNext(s, s1, Now(), src, dst, n);
        NextSpent(s, s1, Now(), dst, PageRange(0, n), 0, n, 0);
        n := n + 1;
      }
      SpentWasEnough(s, Now(), dst, Paths(PageRange(0, n)), 0);
      return true;
    }

    /** freewalk below position p of a detached tree: its tables are freed, and no other page. */
    method FreewalkAt(pa: nat, ghost own: map<nat, Owner>, ghost root: nat, ghost t: Tree, ghost p: Pos)
      requires Ok() && Consistent(own, t, root) && p in t && t[p] == pa && Hanging(Now(), t, p)
      modifies this
      ensures Ok() && SameMaps(old(mem), mem, old(trees))
      ensures Freed(old(Now()), Now(), SubPages(own, root, p)) && DataKept(old(Now()), Now(), SubPages(own, root, p))
      decreases Height(p), 1
    {
      hide Valid, Consistent, Hanging, Freed, DataKept, SameMaps, SubPages, SubBefore;
      ghost var s := Now();
      FreedNot(s, root);
      BeforeNone(own, root, p);
      HangingEntry(s, t, p, 0);
      PageFacts(s, pa);
      DataMore(s, s, {}, pa);
      var i := 0;
      while i < 512
        invariant 0 <= i <= 512 && Ok() && SameMaps(s.mem, mem, s.trees)
        invariant Freed(s, Now(), SubBefore(own, root, p, i))
        invariant DataKept(s, Now(), SubBefore(own, root, p, i) + {pa})
        invariant pa in mem && |mem[pa]| == 512 && forall j | i <= j < 512 :: mem[pa][j] == s.mem[pa][j]
      {
        var pte := mem[pa][i];
        HangingEntry(s, t, p, i);
        if p.Low? {
          BeforeLow(own, root, p, i);
          BeforeLow(own, root, p, i + 1);
        } else {
          BeforeNext(own, root, t, p, i);
        }
        if Branch(pte) {
          FreeEntry(s, pa, own, root, t, p, i, pte);
        } else if pte.flags.v {
          assert false; // panic: leaf
        }
        i := i + 1;
      }
      ghost var s1 := Now();
      BeforeAll(own, root, t, p);
      StillData(s, s1, SubBefore(own, root, p, 512), pa);
      PageFacts(s1, pa);
      GiveMoves(s1, pa, FreeJunk());
      Kfree(pa);
      LastGiven(s, s1, Now(), SubBefore(own, root, p, 512), pa);
      FreedTrees(s, s1, SubBefore(own, root, p, 512));
      SameMapsTwice(s.mem, s1.mem, mem, s.trees);
    }

    /** The turn of a valid entry in freewalk. */
    method FreeEntry(ghost s: State, pa: nat, ghost own: map<nat, Owner>, ghost root: nat, ghost t: Tree, ghost p: Pos, i: nat, pte: Word)
      requires Ok() && Valid(s) && Consistent(own, t, root) && p in t && t[p] == pa && Hanging(s, t, p) && !p.Low? && i < 512
      requires SameMaps(s.mem, mem, s.trees) && Freed(s, Now(), SubBefore(own, root, p, i))
      requires DataKept(s, Now(), SubBefore(own, root, p, i) + {pa})
      requires Child(p, i) in t && t[Child(p, i)] == Pa(pte) && pa in mem && |mem[pa]| == 512
      requires pa in s.owner && s.owner[pa] == Data
      modifies this
      ensures Ok() && SameMaps(s.mem, mem, s.trees) && pa in mem && mem[pa] == old(mem)[pa][i := ZERO]
      ensures var gone := SubBefore(own, root, p, i) + SubPages(own, root, Child(p, i));
              Freed(s, Now(), gone) && DataKept(s, Now(), gone + {pa})
      decreases Height(p), 0
    {
      hide Valid, Consistent, Hanging, Freed, DataKept, SameMaps, SubPages, SubBefore;
      ghost var s1 := Now();
      ValidPages(s);
      HangingChild(s, s1, own, root, t, p, i);
      FreewalkAt(Pa(pte), own, root, t, Child(p, i));
      ghost var s2 := Now();
      BeforeNotTop(own, root, t, p, i);
      StillData(s, s1, SubBefore(own, root, p, i), pa);
      StillData(s1, s2, SubPages(own, root, Child(p, i)), pa);
      KeptPage(s1, s2, SubPages(own, root, Child(p, i)), pa);
      DataWriteKeeps(s2, pa, mem[pa][i := ZERO]);
      mem := mem[pa := mem[pa][i := ZERO]];
      EntryDone(s, s1, s2, Now(), SubBefore(own, root, p, i), SubPages(own, root, Child(p, i)), pa, mem[pa]);
      FreedTrees(s, s1, SubBefore(own, root, p, i));
      FreedTrees(s1, s2, SubPages(own, root, Child(p, i)));
      SameMapsTwice(s1.mem, s2.mem, mem, s.trees);
      SameMapsTwice(s.mem, s1.mem, mem, s.trees);
    }

    /** freewalk of a whole table from which every leaf has been removed */
    method Freewalk(root: nat)
      requires Ok() && root in trees && Vacant(mem, root, 0, MAXPAGES)
      modifies this
      ensures Ok() && Torn(old(Now()), Now(), root)
    {
      hide Valid, Hanging, Vacant, Consistent, SameMaps, Freed, DataKept, SubPages, Torn;
      ghost var s := Now();
      DetachKeeps(s, root);
      DetachHanging(s, root);
      RootTable(s, root);
      owner, trees := Detach(s, root).owner, Detach(s, root).trees;
      FreewalkAt(root, s.owner, root, s.trees[root], Top);
      FreedTrees(Detach(s, root), Now(), SubPages(s.owner, root, Top));
      TornDown(s, Now(), root);
    }

    /** uvmcreate: a tree of one empty root table, or 0 exactly when no page is free */
    method Uvmcreate() returns (root: nat)
      requires Ok()
      modifies this
      ensures Ok()
      ensures root == 0 <==> old(free) == []
      ensures root == 0 ==> Now() == old(Now())
      ensures root != 0 ==> root in trees && Tables(Now(), root) == {Top} && |old(free)| == |free| + 1
      ensures root != 0 ==> Spawned(old(Now()), Now(), root, {}) && Vacant(mem, root, 0, MAXPAGES) && root in trees
    {
      hide Valid, SameMaps, Spawned, Vacant;
      ghost var s := Now();
      root := KallocWith(Filled(ZERO));
      if root != 0 {
        RootNew(s, root);
        ghost var s1 := Now();
        CreateKeeps(s1, root);
        SpawnedNew(s, s1, root);
        owner, trees := Create(s1, root).owner, Create(s1, root).trees;
      }
    }

    /** uvmfree: the user pages below sz, then the tables */
    method Uvmfree(root: nat, sz: nat) returns (ghost gone: set<nat>)
      requires Ok() && root in trees && PagesOf(sz) <= MAXPAGES && OwnsRange(Now(), root, 0, PagesOf(sz))
      requires Vacant(mem, root, PagesOf(sz), MAXPAGES)
      modifies this
      ensures Ok() && gone == Frames(old(mem), root, 0, PagesOf(sz)) && Reaped(old(Now()), Now(), root, gone)
    {
      hide Valid, OwnsRange, Frames, Freed, DataKept, Torn, Reaped;
      ghost var s := Now();
      FreedNot(s, root);
      RangeNot(s, root, 0, 0);
      gone := {};
      NoFrames(mem, root);
      if sz > 0 {
        gone := Uvmunmap(root, 0, PagesOf(sz), true);
      }
      ghost var s1 := Now();
      assert Vacant(mem, root, 0, MAXPAGES);
      Freewalk(root);
      FreedThenTorn(s, s1, Now(), root, gone);
    }

    /** kinit and freerange: every whole page between end and PHYSTOP becomes free. */
    constructor (ram: Mem, end: nat)
      requires 0 < end <= PHYSTOP
      ensures Ok() && this.end == end && trees == map[]
      ensures forall pa :: pa in owner <==> Managed(pa, end, PHYSTOP)
      ensures forall pa | pa in owner :: owner[pa] == Free
    {
      this.end := end;
      mem, freelist := ram, 0;
      free, owner, trees := [], map[], map[];
      EmptyValid(ram);
      hide Valid, SameMaps;
      new;
      var p := PagesOf(end);
      while p * PGSIZE + PGSIZE <= PHYSTOP
        invariant PagesOf(end) * PGSIZE <= p * PGSIZE <= PHYSTOP
        invariant Ok() && trees == map[]
        invariant forall pa :: pa in owner <==> Managed(pa, end, p * PGSIZE)
        invariant forall pa | pa in owner :: owner[pa] == Free
        decreases PHYSTOP - p * PGSIZE
      {
        ghost var pages := owner;
        Kfree(p * PGSIZE);
        forall pa
          ensures pa in owner <==> Managed(pa, end, p * PGSIZE + PGSIZE)
        {
          NextManaged(pa, end, p * PGSIZE);
        }
        p := p + 1;
      }
    }
  }
}
