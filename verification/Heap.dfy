/** malloc, free and morecore over a circular, address-ordered free list. sbrk is an oracle that
    either fails or grants fresh memory.
 */
module Heap {
  import opened Basics
  import opened CInt
  import opened HeapTheory

  const MIN_CORE: nat := 4096

  /** Units for a request of nbytes, its header included. */
  function UnitsFor(nbytes: nat): (n: nat)
    ensures n >= 1 && 16 * (n - 1) >= nbytes && 16 * (n - 2) < nbytes
  {
    (nbytes + 15) / 16 + 1
  }

  function CoreUnits(units: nat): (n: nat)
    ensures n >= units && n >= MIN_CORE
  {
    if units < MIN_CORE then MIN_CORE else units
  }

  /** morecore passes the byte count to sbrk as an int; it arrives unchanged only below 2^27 units. */
  lemma SbrkRequestExact(units: nat)
    ensures Int32(16 * units) == 16 * units <==> units < 0x800_0000
  {
    Int32Exact(16 * units);
  }

  /** What sbrk answers: no memory, or the address of as many units as asked for. */
  datatype Grant = Refused | Granted(addr: nat)

  /** Index i lies after start and before k on the way around the list. */
  predicate PassedOver(i: nat, start: nat, k: nat) {
    if k > start then start < i < k else i > start || i < k
  }

  /** No block of the list is large enough. */
  predicate NoRoom(size: map<nat, nat>, f: seq<nat>, units: nat) {
    forall i | 0 <= i < |f| && f[i] in size :: size[f[i]] < units
  }

  /** The blocks after start and before k are too small. */
  ghost predicate Passed(size: map<nat, nat>, f: seq<nat>, start: nat, k: nat, units: nat) {
    forall i: nat | i < |f| && PassedOver(i, start, k) :: f[i] in size && size[f[i]] < units
  }

  /** Block k of the list is the first one after freep that is large enough. */
  ghost predicate FirstAfter(size: map<nat, nat>, f: seq<nat>, freep: nat, k: nat, units: nat) {
    && 1 <= k < |f| && f[k] in size && size[f[k]] >= units
    && exists start: nat :: start < |f| && f[start] == freep && Passed(size, f, start, k, units)
  }

  lemma PassNone(size: map<nat, nat>, f: seq<nat>, start: nat, units: nat)
    requires start < |f|
    ensures Passed(size, f, start, if start + 1 < |f| then start + 1 else 0, units)
  {
  }

  lemma PassOne(size: map<nat, nat>, f: seq<nat>, start: nat, k: nat, units: nat)
    requires start < |f| && k < |f| && k != start && Passed(size, f, start, k, units) && f[k] in size && size[f[k]] < units
    ensures Passed(size, f, start, if k + 1 < |f| then k + 1 else 0, units)
  {
  }

  lemma AroundLess(k: nat, start: nat, n: nat)
    requires k < n && start < n && k != start
    ensures Around(if k + 1 < n then k + 1 else 0, start, n) < Around(k, start, n)
  {
  }

  lemma IsFirst(size: map<nat, nat>, f: seq<nat>, start: nat, k: nat, units: nat)
    requires 1 <= k < |f| && start < |f| && f[k] in size && size[f[k]] >= units
    requires Passed(size, f, start, k, units)
    ensures FirstAfter(size, f, f[start], k, units) && !NoRoom(size, f, units)
  {
  }

  lemma SomeRoom(size: map<nat, nat>, f: seq<nat>, base: nat, got: nat, units: nat)
    requires units <= got && exists a :: a in f && a != base && a in size && size[a] >= got
    ensures !NoRoom(size, f, units)
  {
    var a :| a in f && a in size && size[a] >= got;
    var i :| 0 <= i < |f| && f[i] == a;
  }

  lemma IsNone(size: map<nat, nat>, f: seq<nat>, start: nat, units: nat)
    requires start < |f| && f[start] in size && size[f[start]] < units
    requires Passed(size, f, start, start, units)
    ensures NoRoom(size, f, units)
  {
  }

  class Allocator {
    /** Address of the static header `base`; the heap lies above it. */
    const base: nat
    var mem: Mem
    /** Null before the first call. */
    var freep: nat
    /** The free list in address order, the blocks handed out, the units sbrk has granted and their number. */
    ghost var free: seq<nat>
    ghost var live: set<nat>
    ghost var owned: set<nat>
    ghost var obtained: nat

    ghost predicate Accounted()
      reads this`mem, this`free, this`live, this`owned, this`obtained
    {
      Accounts(mem.size, base, free, live, owned, obtained)
    }

    ghost predicate Ready()
      reads this`mem, this`freep, this`free, this`live, this`owned, this`obtained
    {
      && base > 0 && freep in free && FreeList(mem, base, free) && Accounted()
    }

    ghost predicate Valid()
      reads this
    {
      base > 0 && if freep == 0 then live == {} && owned == {} && obtained == 0 else Ready()
    }

    constructor (base: nat)
      requires base > 0
      ensures Valid() && this.base == base && freep == 0 && live == {} && owned == {} && obtained == 0
    {
      this.base := base;
      mem, freep, free, live, owned, obtained := Mem(map[], map[]), 0, [], {}, {}, 0;
    }

    /** The search of free: walks from freep to the list member that bp belongs after. */
    method FindPlace(bp: nat) returns (p: nat, ghost j: nat)
      requires Ready() && bp > base && bp !in free
      ensures j < |free| && p == free[j] && p < bp && (j + 1 < |free| ==> bp < free[j + 1])
    {
      hide Accounts, FreeList, Around;
      BaseFirst(mem, base, free);
      j := Place(free, bp);
      p := freep;
      ghost var k: nat :| k < |free| && free[k] == p;
      while true
        invariant k < |free| && p == free[k]
        decreases Around(k, j, |free|)
      {
        NextInList(mem, base, free, k);
        AtPlace(mem, base, free, bp, j, k);
        if bp > p && bp < mem.next[p] {
          break;
        }
        if p >= mem.next[p] && (bp > p || bp < mem.next[p]) {
          break;
        }
        AroundLess(k, j, |free|);
        p := mem.next[p];
        k := if k + 1 < |free| then k + 1 else 0;
      }
    }

    /** Every live block other than bp keeps its recorded size. */
    twostate predicate OthersKept(bp: nat)
      reads this`mem, this`live
    {
      forall a :: a in live && a != bp ==>
        a in old(mem.size) && a in mem.size && mem.size[a] == old(mem.size)[a]
    }

    /** bp belongs right after list index j. */
    ghost predicate Between(bp: nat, j: nat)
      reads this`free
    {
      j < |free| && free[j] < bp && (j + 1 < |free| ==> bp < free[j + 1])
    }

    method AbsorbNext(p: nat, bp: nat, nx: nat, ghost j: nat)
      requires Ready() && bp in live && Between(bp, j) && p == free[j] && bp in mem.size && mem.size[bp] >= 1
      requires free[j] + mem.size[free[j]] <= bp && bp !in free
      requires j + 1 < |free| && nx == free[j + 1] && bp + mem.size[bp] == nx && LinkedAt(mem, free, j + 1)
      modifies this`mem, this`free
      ensures FitsAfter(mem, base, free, j, bp) && Accounted() && free[j] == p
      ensures OthersKept(bp) && mem.size[bp] >= old(mem.size)[bp]
    {
      hide Accounts;
      var m := Mem(mem.next[bp := mem.next[nx]], mem.size[bp := mem.size[bp] + mem.size[nx]]);
      ghost var f := Without(free, j + 1);
      AccountRight(mem.size, base, free, live, owned, obtained, j + 1, bp, m.size, f);
      AbsorbRight(mem, base, free, j, bp, m);
      mem := m;
      free := f;
      assert OthersKept(bp) by {
        forall a | a in live ensures a in old(mem.size) { AccountOf(old(mem.size), base, old(free), live, owned, obtained, a); }
      }
    }

    /** First half of free: absorb the next free block if bp touches it, else point at it. */
    method JoinRight(p: nat, bp: nat, ghost j: nat)
      requires Ready() && bp in live && Between(bp, j) && p == free[j]
      modifies this`mem, this`free
      ensures FitsAfter(mem, base, free, j, bp) && Accounted() && free[j] == p
      ensures OthersKept(bp) && mem.size[bp] >= old(mem.size)[bp]
    {
      AccountOf(mem.size, base, free, live, owned, obtained, bp);
      assert LinkedAt(mem, free, j);
      var nx := mem.next[p];
      if bp + mem.size[bp] == nx {
        assert LinkedAt(mem, free, j + 1);
        AbsorbNext(p, bp, nx, j);
      } else {
        assert j + 1 < |free| ==> free[0] < free[j + 1] && free[j + 1] in free && nx == free[j + 1];
        var m := Mem(mem.next[bp := nx], mem.size);
        LinkForward(mem, base, free, j, bp, m);
        mem := m;
      }
    }

    /** Second half of free: be absorbed by the previous free block if it touches bp, else follow it. */
    method JoinLeft(p: nat, bp: nat, ghost j: nat)
      requires base > 0 && FitsAfter(mem, base, free, j, bp) && Accounted() && free[j] == p && bp in live
      modifies this`mem, this`free, this`live
      ensures FreeList(mem, base, free) && Accounted() && p in free
      ensures live == old(live) - {bp} && OthersKept(bp)
      ensures exists a :: a in free && a != base && a in mem.size && mem.size[a] >= old(mem.size)[bp]
    {
      hide Accounts, FreeList;
      AccountOf(mem.size, base, free, live, owned, obtained, bp);
      AccountLive(mem.size, base, free, live, owned, obtained);
      if p + mem.size[p] == bp {
        var m := Mem(mem.next[p := mem.next[bp]], mem.size[p := mem.size[p] + mem.size[bp]]);
        AccountLeft(mem.size, base, free, live, owned, obtained, p, bp, m.size);
        AbsorbedLeft(mem, base, free, j, bp, m);
        mem := m;
        live := live - {bp};
        assert mem.size[p] >= old(mem.size)[bp];
      } else {
        FollowLeft(p, bp, j);
      }
    }

    method FollowLeft(p: nat, bp: nat, ghost j: nat)
      requires base > 0 && FitsAfter(mem, base, free, j, bp) && Accounted() && free[j] == p && bp in live
      requires p + mem.size[p] != bp && bp != base
      modifies this`mem, this`free, this`live
      ensures FreeList(mem, base, free) && Accounted() && p in free && bp in free
      ensures live == old(live) - {bp} && mem.size == old(mem.size)
    {
      ghost var g := free[..j + 1] + [bp] + free[j + 1..];
      assert Inserts(free, j + 1, bp, g);
      hide Accounts, FreeList, Inserts, OpenAt;
      var m := Mem(mem.next[p := bp], mem.size);
      LinkIn(mem, base, free, j, bp, m, g);
      AccountInsert(mem.size, base, free, live, owned, obtained, j + 1, bp, g);
      mem := m;
      live := live - {bp};
      free := g;
    }

    /** free(bp + 1): the block returns to the list and nothing else changes hands. */
    method Free(bp: nat)
      requires Ready() && bp in live
      modifies this`mem, this`freep, this`free, this`live
      ensures Ready() && freep != 0 && live == old(live) - {bp} && OthersKept(bp)
      ensures exists a :: a in free && a != base && a in mem.size && mem.size[a] >= old(mem.size)[bp]
      ensures freep in old(free) && freep < bp && forall i | 0 <= i < |old(free)| :: old(free)[i] <= freep || bp < old(free)[i]
    {
      AccountOf(mem.size, base, free, live, owned, obtained, bp);
      var p, j := FindPlace(bp);
      PlaceIs(mem, base, free, j, bp);
      hide FreeList, Accounts, FitsAfter;
      JoinRight(p, bp, j);
      JoinLeft(p, bp, j);
      freep := p;
    }

    /** One turn around the list from the block after freep to freep itself: the first block that
        is large enough, with its predecessor, or none. */
    method Search(units: nat) returns (found: bool, prevp: nat, p: nat, ghost k: nat)
      requires Ready() && units >= 1
      ensures found ==> 1 <= k < |free| && p == free[k] && prevp == free[k - 1] && p in mem.size && mem.size[p] >= units
      ensures found ==> FirstAfter(mem.size, free, freep, k, units)
      ensures found <==> !NoRoom(mem.size, free, units)
    {
      hide Accounts, FreeList, NoRoom, FirstAfter, Passed, Around;
      ghost var n := |free|;
      ghost var start: nat :| start < n && free[start] == freep;
      NextInList(mem, base, free, start);
      NextInList(mem, base, free, if start + 1 < n then start + 1 else 0);
      PassNone(mem.size, free, start, units);
      prevp, p := freep, mem.next[freep];
      k := if start + 1 < n then start + 1 else 0;
      while mem.size[p] < units
        invariant k < n && p == free[k] && p in mem.size && prevp == (if k > 0 then free[k - 1] else free[n - 1])
        invariant Passed(mem.size, free, start, k, units)
        decreases Around(k, start, n)
      {
        if p == freep {
          IndexInList(mem, base, free, k, start);
          IsNone(mem.size, free, start, units);
          return false, prevp, p, k;
        }
        NextInList(mem, base, free, k);
        NextInList(mem, base, free, if k + 1 < n then k + 1 else 0);
        PassOne(mem.size, free, start, k, units);
        AroundLess(k, start, n);
        prevp, p := p, mem.next[p];
        k := if k + 1 < n then k + 1 else 0;
      }
      found := true;
      EmptyBase(mem, base, free);
      IsFirst(mem.size, free, start, k, units);
    }

    /** Hand out the whole of the found block. */
    method TakeAll(prevp: nat, p: nat, ghost k: nat)
      requires Ready() && 1 <= k < |free| && p == free[k] && prevp == free[k - 1]
      modifies this`mem, this`freep, this`free, this`live
      ensures Ready() && freep != 0 && p !in old(live) && live == old(live) + {p} && OthersKept(p)
      ensures mem.size == old(mem.size) && freep == prevp
    {
      assert LinkedAt(mem, free, k);
      assert free[0] < free[k];
      var m := Mem(mem.next[prevp := mem.next[p]], mem.size);
      ghost var f := Without(free, k);
      Unlink(mem, base, free, k, m);
      SortedWithout(free, k);
      AccountMove(mem.size, base, free, live, owned, obtained, f, live + {p});
      mem := m;
      free := f;
      live := live + {p};
      freep := prevp;
      assert f[k - 1] == prevp;
    }

    /** Hand out the last `units` units of the found block. */
    method TakeTail(units: nat, prevp: nat, p: nat, ghost k: nat) returns (h: nat)
      requires Ready() && units >= 1 && 1 <= k < |free| && p == free[k] && prevp == free[k - 1]
      requires p in mem.size && mem.size[p] > units
      modifies this`mem, this`freep, this`live
      ensures Ready() && freep != 0 && h !in old(live) && live == old(live) + {h} && OthersKept(h)
      ensures h in mem.size && mem.size[h] == units && h == p + (old(mem.size)[p] - units) && freep == prevp
    {
      hide Tiles, Total;
      assert free[0] < free[k];
      var left := mem.size[p] - units;
      var m := Mem(mem.next, mem.size[p := left][p + left := units]);
      Shrink(mem, base, free, k, units, m);
      AccountCarve(mem.size, base, free, live, owned, obtained, p, units);
      mem := m;
      h := p + left;
      live := live + {h};
      freep := prevp;
    }

    /** malloc(nbytes), sbrk answering `grant` if it is asked. Returns the block's header, or 0. */
    method Malloc(nbytes: nat, grant: Grant, ghost region: set<nat>) returns (h: nat, asked: nat)
      requires Valid()
      requires grant.Granted? ==>
        && grant.addr > base && region !! owned
        && forall u :: u in region <==> grant.addr <= u < grant.addr + CoreUnits(UnitsFor(nbytes))
      modifies this
      ensures Valid() && freep != 0
      ensures asked <= 1 && (h == 0 ==> asked == 1 && grant.Refused?)
      ensures h != 0 ==> h !in old(live) && live == old(live) + {h} && h in mem.size && mem.size[h] == UnitsFor(nbytes)
      ensures h == 0 ==> live == old(live)
      ensures owned == (if asked == 1 && grant.Granted? then old(owned) + region else old(owned))
      ensures obtained == old(obtained) + (if asked == 1 && grant.Granted? then CoreUnits(UnitsFor(nbytes)) else 0)
      ensures forall a :: a in old(live) ==> a in old(mem.size) && a in mem.size && mem.size[a] == old(mem.size)[a]
      ensures asked == 1 <==> old(freep) == 0 || NoRoom(old(mem.size), old(free), UnitsFor(nbytes))
      ensures asked == 0 ==>
                exists k: nat :: && FirstAfter(old(mem.size), old(free), old(freep), k, UnitsFor(nbytes))
                                 && h == old(free)[k] + (old(mem.size)[old(free)[k]] - UnitsFor(nbytes)) && freep == old(free)[k - 1]
    {
      var units := UnitsFor(nbytes);
      if freep == 0 {
        InitList();
      }
      var found, prevp, p, k, calls := FindRoom(units, grant, region);
      asked := calls;
      if !found {
        return 0, asked;
      }
      h := Take(units, prevp, p, k);
    }

    /** Search the list; if nothing is large enough ask sbrk, once, and search again. */
    method FindRoom(units: nat, grant: Grant, ghost region: set<nat>)
        returns (found: bool, prevp: nat, p: nat, ghost k: nat, asked: nat)
      requires Ready() && units >= 1
      requires grant.Granted? ==>
        && grant.addr > base && region !! owned
        && forall u :: u in region <==> grant.addr <= u < grant.addr + CoreUnits(units)
      modifies this`mem, this`freep, this`free, this`live, this`owned, this`obtained
      ensures Ready() && asked <= 1 && live == old(live) && (!found ==> asked == 1 && grant.Refused? && freep == old(freep))
      ensures found ==> 1 <= k < |free| && p == free[k] && prevp == free[k - 1] && p in mem.size && mem.size[p] >= units
      ensures owned == (if asked == 1 && grant.Granted? then old(owned) + region else old(owned))
      ensures obtained == old(obtained) + (if asked == 1 && grant.Granted? then CoreUnits(units) else 0)
      ensures forall a :: a in live ==> a in old(mem.size) && a in mem.size && mem.size[a] == old(mem.size)[a]
      ensures asked == 1 <==> NoRoom(old(mem.size), old(free), units)
      ensures found ==> FirstAfter(mem.size, free, freep, k, units)
      ensures asked == 0 ==> mem == old(mem) && free == old(free) && freep == old(freep)
    {
      hide NoRoom, FirstAfter, FreeList, Accounts;
      asked := 0;
      forall a | a in live ensures a in mem.size {
        AccountOf(mem.size, base, free, live, owned, obtained, a);
      }
      found, prevp, p, k := Search(units);
      if !found {
        asked := 1;
        if grant.Granted? {
          AddCore(grant.addr, CoreUnits(units), region);
          SomeRoom(mem.size, free, base, CoreUnits(units), units);
          found, prevp, p, k := Search(units);
        }
      }
    }

    method Take(units: nat, prevp: nat, p: nat, ghost k: nat) returns (h: nat)
      requires Ready() && units >= 1 && 1 <= k < |free| && p == free[k] && prevp == free[k - 1]
      requires p in mem.size && mem.size[p] >= units
      modifies this`mem, this`freep, this`free, this`live
      ensures Ready() && freep != 0 && h > base && h !in old(live) && live == old(live) + {h} && OthersKept(h)
      ensures h in mem.size && mem.size[h] == units && h == p + (old(mem.size)[p] - units) && freep == prevp
    {
      if mem.size[p] == units {
        TakeAll(prevp, p, k);
        h := p;
      } else {
        h := TakeTail(units, prevp, p, k);
      }
      AccountOf(mem.size, base, free, live, owned, obtained, h);
    }

    /** First call: the list holds only the empty block base. */
    method InitList()
      requires Valid() && freep == 0
      modifies this`mem, this`freep, this`free
      ensures Ready() && freep == base && free == [base] && base in mem.size && mem.size[base] == 0
      ensures forall a :: a in live ==> a in mem.size && a in old(mem.size)
    {
      mem := Mem(mem.next[base := base], mem.size[base := 0]);
      freep := base;
      free := [base];
      assert LinkedAt(mem, free, 0);
      assert live + FreeBlocks(free, base) == {};
    }

    /** morecore with the memory sbrk granted: it joins the free list through free. */
    method AddCore(addr: nat, units: nat, ghost region: set<nat>)
      requires Ready() && units >= 1
      requires forall u :: u in region <==> addr <= u < addr + units
      requires region !! owned && addr > base
      modifies this`mem, this`freep, this`free, this`live, this`owned, this`obtained
      ensures Ready() && freep != 0 && live == old(live) && owned == old(owned) + region && obtained == old(obtained) + units
      ensures exists a :: a in free && a != base && a in mem.size && mem.size[a] >= units
      ensures forall a :: a in live ==> a in old(mem.size) && a in mem.size && mem.size[a] == old(mem.size)[a]
    {
      assert addr !in free by {
        if addr in free {
          AccountOf(mem.size, base, free, live, owned, obtained, addr);
          InOwned(addr);
        }
      }
      AccountAdd(mem.size, base, free, live, owned, obtained, addr, units, owned + region);
      KeepList(mem, base, free, addr, units);
      mem := Mem(mem.next, mem.size[addr := units]);
      live, owned, obtained := live + {addr}, owned + region, obtained + units;
      Free(addr);
    }

    lemma InOwned(a: nat)
      requires Ready() && a in free && a != base
      ensures a in owned
    {
      assert a in live + FreeBlocks(free, base);
      assert BlockOk(mem.size, owned, a);
    }
  }

  lemma BaseFirst(m: Mem, base: nat, f: seq<nat>)
    requires FreeList(m, base, f)
    ensures |f| >= 1 && f[0] == base && Sorted(f)
  {
  }

  /** The test of free's loop succeeds at the place of bp and nowhere else. */
  lemma AtPlace(m: Mem, base: nat, f: seq<nat>, bp: nat, j: nat, k: nat)
    requires FreeList(m, base, f) && j < |f| && k < |f| && f[j] < bp && (j + 1 < |f| ==> bp < f[j + 1]) && bp > base && bp !in f
    ensures var nx := f[if k + 1 < |f| then k + 1 else 0];
            (bp > f[k] && bp < nx) || (f[k] >= nx && (bp > f[k] || bp < nx)) <==> k == j
  {
  }

  lemma PlaceIs(m: Mem, base: nat, f: seq<nat>, j: nat, bp: nat)
    requires FreeList(m, base, f) && j < |f| && (j + 1 < |f| ==> bp < f[j + 1])
    ensures forall i | 0 <= i < |f| :: f[i] <= f[j] || bp < f[i]
  {
  }

  /** Writing the size of a header outside the list leaves the list alone. */
  lemma KeepList(m: Mem, base: nat, f: seq<nat>, a: nat, n: nat)
    requires FreeList(m, base, f) && a !in f
    ensures FreeList(Mem(m.next, m.size[a := n]), base, f)
  {
    var m' := Mem(m.next, m.size[a := n]);
    forall i | 0 <= i < |f| ensures LinkedAt(m', f, i) {
      assert LinkedAt(m, f, i);
    }
  }
}
