/** The free list and the blocks of the user-level heap, as values. Addresses count header-sized
    units; a block is its header address and its size in units.
 */
module HeapTheory {
  import opened Basics

  /** Header fields s.ptr and s.size of every header written so far. */
  datatype Mem = Mem(next: map<nat, nat>, size: map<nat, nat>)

  // ----- The free list -----

  /** The element after index i of a circular list. */
  function Succ(f: seq<nat>, i: nat): nat
    requires i < |f|
  {
    if i + 1 < |f| then f[i + 1] else f[0]
  }

  predicate Sorted(f: seq<nat>) {
    forall i, j :: 0 <= i < j < |f| ==> f[i] < f[j]
  }

  predicate LinkedAt(m: Mem, f: seq<nat>, i: nat)
    requires i < |f|
  {
    f[i] in m.next && m.next[f[i]] == Succ(f, i)
  }

  /** Free blocks are in address order and no two of them touch; base is first and empty. */
  ghost predicate Spaced(m: Mem, base: nat, f: seq<nat>) {
    && |f| >= 1 && f[0] == base && Sorted(f)
    && (forall i :: 0 <= i < |f| ==> f[i] in m.size)
    && m.size[base] == 0
    && (forall i :: 1 <= i < |f| ==> m.size[f[i]] >= 1)
    && (forall i :: 1 <= i < |f| - 1 ==> f[i] + m.size[f[i]] < f[i + 1])
  }

  /** The free list f: circular from any member, address-ordered, fully coalesced. */
  ghost predicate FreeList(m: Mem, base: nat, f: seq<nat>) {
    Spaced(m, base, f) && forall i :: 0 <= i < |f| ==> LinkedAt(m, f, i)
  }

  /** Following a list member's link. */
  lemma NextInList(m: Mem, base: nat, f: seq<nat>, k: nat)
    requires FreeList(m, base, f) && k < |f|
    ensures f[k] in m.next && f[k] in m.size && m.next[f[k]] == f[if k + 1 < |f| then k + 1 else 0]
  {
    assert LinkedAt(m, f, k);
  }

  lemma EmptyBase(m: Mem, base: nat, f: seq<nat>)
    requires FreeList(m, base, f)
    ensures f[0] in m.size && m.size[f[0]] == 0
  {
  }

  lemma IndexInList(m: Mem, base: nat, f: seq<nat>, j: nat, k: nat)
    requires FreeList(m, base, f) && j < |f| && k < |f|
    ensures f[j] == f[k] ==> j == k
  {
  }

  /** A free list with the link out of index j not (yet) to be relied on. */
  ghost predicate OpenAt(m: Mem, base: nat, f: seq<nat>, j: nat) {
    Spaced(m, base, f) && forall i :: 0 <= i < |f| && i != j ==> LinkedAt(m, f, i)
  }

  /** bp belongs in the list right after index j, without touching what follows. */
  ghost predicate FitsAfter(m: Mem, base: nat, f: seq<nat>, j: nat, bp: nat) {
    && j < |f| && OpenAt(m, base, f, j) && bp in m.size && m.size[bp] >= 1
    && f[j] + m.size[f[j]] <= bp && f[j] < bp
    && (j + 1 < |f| ==> bp + m.size[bp] < f[j + 1])
    && bp in m.next && m.next[bp] == Succ(f, j)
  }

  lemma SortedWithout(f: seq<nat>, k: nat)
    requires Sorted(f) && k < |f|
    ensures Sorted(Without(f, k)) && f[k] !in Without(f, k)
    ensures forall i :: 0 <= i < |Without(f, k)| ==> Without(f, k)[i] == if i < k then f[i] else f[i + 1]
    ensures forall x :: x in Without(f, k) <==> x in f && x != f[k]
  {
    var g := Without(f, k);
    forall x | x in f && x != f[k] ensures x in g {
      var i :| 0 <= i < |f| && f[i] == x;
      assert g[if i < k then i else i - 1] == x;
    }
  }

  /** g is f with x inserted at index k. */
  ghost predicate Inserts(f: seq<nat>, k: nat, x: nat, g: seq<nat>) {
    && k <= |f| && |g| == |f| + 1 && g[k] == x
    && (forall i :: 0 <= i < k ==> g[i] == f[i]) && (forall i :: k < i < |g| ==> g[i] == f[i - 1])
  }

  lemma InsertsMembers(f: seq<nat>, k: nat, x: nat, g: seq<nat>)
    requires Inserts(f, k, x, g)
    ensures forall y :: y in g <==> y in f || y == x
  {
    forall y | y in f ensures y in g {
      var i :| 0 <= i < |f| && f[i] == y;
      assert g[if i < k then i else i + 1] == y;
    }
  }

  lemma SpacedWithout(m: Mem, m': Mem, base: nat, f: seq<nat>, k: nat)
    requires Spaced(m, base, f) && 1 <= k < |f|
    requires forall i :: 0 <= i < |f| && i != k ==> f[i] in m'.size && m'.size[f[i]] == m.size[f[i]]
    ensures Spaced(m', base, Without(f, k))
  {
    var g := Without(f, k);
    SortedWithout(f, k);
    forall i | 1 <= i < |g| - 1 ensures g[i] + m'.size[g[i]] < g[i + 1] {
      var i' := if i < k then i else i + 1;
      assert g[i] == f[i'] && f[i'] + m.size[f[i']] < f[i' + 1] <= g[i + 1];
    }
  }

  lemma SpacedInserts(m: Mem, base: nat, f: seq<nat>, k: nat, x: nat, g: seq<nat>)
    requires Spaced(m, base, f) && 1 <= k && x in m.size && m.size[x] >= 1 && Inserts(f, k, x, g)
    requires f[k - 1] < x && (f[k - 1] == base || f[k - 1] + m.size[f[k - 1]] < x)
    requires k < |f| ==> x + m.size[x] < f[k]
    ensures Spaced(m, base, g)
  {
    assert Sorted(g) by {
      forall i, j | 0 <= i < j < |g| ensures g[i] < g[j] {
        var i', j' := if i <= k then i else i - 1, if j <= k then j else j - 1;
        if i == k {
          assert k < |f| && f[k] <= f[j'];
        } else if j == k {
          assert f[i'] <= f[k - 1];
        }
      }
    }
    forall i | 1 <= i < |g| - 1 ensures g[i] + m.size[g[i]] < g[i + 1] {
      if i < k - 1 {
        assert f[i] + m.size[f[i]] < f[i + 1];
      } else if i > k {
        assert f[i - 1] + m.size[f[i - 1]] < f[i];
      } else if i == k - 1 {
        assert f[0] == base && f[0] < f[i];
      }
    }
  }

  /** Step 1 of free when the freed block touches the one after it: absorb that block. */
  lemma AbsorbRight(m: Mem, base: nat, f: seq<nat>, j: nat, bp: nat, m': Mem)
    requires FreeList(m, base, f) && j + 1 < |f| && bp in m.size && m.size[bp] >= 1 && bp !in f
    requires f[j] < bp && f[j] + m.size[f[j]] <= bp && bp + m.size[bp] == f[j + 1]
    requires LinkedAt(m, f, j + 1)
    requires m' == Mem(m.next[bp := m.next[f[j + 1]]], m.size[bp := m.size[bp] + m.size[f[j + 1]]])
    ensures FitsAfter(m', base, Without(f, j + 1), j, bp)
  {
    var g := Without(f, j + 1);
    assert forall i :: 0 <= i < |f| ==> f[i] != bp;
    SpacedWithout(m, m', base, f, j + 1);
    SortedWithout(f, j + 1);
    forall i | 0 <= i < |g| && i != j ensures LinkedAt(m', g, i) {
      AbsorbLinkAt(m, base, f, j, bp, m', i);
    }
    if j + 2 < |f| {
      assert f[j + 1] + m.size[f[j + 1]] < f[j + 2] == g[j + 1];
    }
  }

  lemma AbsorbLinkAt(m: Mem, base: nat, f: seq<nat>, j: nat, bp: nat, m': Mem, i: nat)
    requires FreeList(m, base, f) && j + 1 < |f| && bp !in f && bp in m'.next && m'.next == m.next[bp := m'.next[bp]]
    requires i < |Without(f, j + 1)| && i != j
    ensures LinkedAt(m', Without(f, j + 1), i)
  {
    hide Spaced;
    var k := if i < j + 1 then i else i + 1;
    assert LinkedAt(m, f, k) && f[k] in f;
  }

  /** Step 1 of free when it does not: just link forward. */
  lemma LinkForward(m: Mem, base: nat, f: seq<nat>, j: nat, bp: nat, m': Mem)
    requires FreeList(m, base, f) && j < |f| && bp in m.size && m.size[bp] >= 1 && bp !in f
    requires f[j] < bp && f[j] + m.size[f[j]] <= bp && (j + 1 < |f| ==> bp + m.size[bp] < f[j + 1])
    requires LinkedAt(m, f, j) && m' == Mem(m.next[bp := m.next[f[j]]], m.size)
    ensures FitsAfter(m', base, f, j, bp)
  {
    assert LinkedAt(m, f, j);
    forall i | 0 <= i < |f| && i != j ensures LinkedAt(m', f, i) {
      assert LinkedAt(m, f, i);
    }
  }

  /** Step 2 of free when the freed block touches the one before it: be absorbed. */
  lemma AbsorbedLeft(m: Mem, base: nat, f: seq<nat>, j: nat, bp: nat, m': Mem)
    requires FitsAfter(m, base, f, j, bp) && f[j] != base && f[j] + m.size[f[j]] == bp
    requires m' == Mem(m.next[f[j] := m.next[bp]], m.size[f[j] := m.size[f[j]] + m.size[bp]])
    ensures FreeList(m', base, f)
  {
    forall i | 0 <= i < |f| ensures LinkedAt(m', f, i) {
      assert i != j ==> LinkedAt(m, f, i) && f[i] != f[j];
    }
  }

  /** Step 2 of free when it does not: take its place in the list. */
  lemma LinkIn(m: Mem, base: nat, f: seq<nat>, j: nat, bp: nat, m': Mem, g: seq<nat>)
    requires FitsAfter(m, base, f, j, bp) && (f[j] + m.size[f[j]] < bp || f[j] == base)
    requires m' == Mem(m.next[f[j] := bp], m.size) && Inserts(f, j + 1, bp, g)
    ensures FreeList(m', base, g)
  {
    SpacedInserts(m, base, f, j + 1, bp, g);
    assert Spaced(m', base, g);
    forall i | 0 <= i < |g| ensures LinkedAt(m', g, i) {
      LinkInAt(m, base, f, j, bp, m', g, i);
    }
  }

  lemma LinkInAt(m: Mem, base: nat, f: seq<nat>, j: nat, bp: nat, m': Mem, g: seq<nat>, i: nat)
    requires FitsAfter(m, base, f, j, bp) && m' == Mem(m.next[f[j] := bp], m.size) && Inserts(f, j + 1, bp, g)
    requires Spaced(m', base, g) && i < |g|
    ensures LinkedAt(m', g, i)
  {
    hide Spaced;
    DistinctAt(m', base, g, i, j);
    if i < j {
      assert LinkedAt(m, f, i);
    } else if i > j + 1 {
      assert LinkedAt(m, f, i - 1);
    }
  }

  lemma DistinctAt(m: Mem, base: nat, g: seq<nat>, i: nat, j: nat)
    requires Spaced(m, base, g) && i < |g| && j < |g|
    ensures i != j ==> g[i] != g[j]
  {
  }

  /** malloc takes a block of exactly the right size out of the list. */
  lemma Unlink(m: Mem, base: nat, f: seq<nat>, k: nat, m': Mem)
    requires FreeList(m, base, f) && 1 <= k < |f|
    requires LinkedAt(m, f, k) && m' == Mem(m.next[f[k - 1] := m.next[f[k]]], m.size)
    ensures FreeList(m', base, Without(f, k))
  {
    var g := Without(f, k);
    SpacedWithout(m, m', base, f, k);
    SortedWithout(f, k);
    forall i | 0 <= i < |g| ensures LinkedAt(m', g, i) {
      assert i != k - 1 ==> g[i] != g[k - 1];
      assert LinkedAt(m, f, if i < k then i else i + 1);
    }
  }

  /** malloc carves its block from the end of a larger one. */
  lemma Shrink(m: Mem, base: nat, f: seq<nat>, k: nat, units: nat, m': Mem)
    requires FreeList(m, base, f) && 1 <= k < |f| && 1 <= units < m.size[f[k]]
    requires var left := m.size[f[k]] - units; m' == Mem(m.next, m.size[f[k] := left][f[k] + left := units])
    ensures FreeList(m', base, f) && f[k] + (m.size[f[k]] - units) !in f
  {
    var q := f[k] + (m.size[f[k]] - units);
    forall i | 0 <= i < |f| ensures f[i] != q {
      if i > k {
        assert f[k] + m.size[f[k]] < f[k + 1] <= f[i];
      }
    }
    forall i | 0 <= i < |f| ensures LinkedAt(m', f, i) {
      assert LinkedAt(m, f, i);
    }
  }

  // ----- Blocks, live and free -----

  /** Block a is nonempty and lies inside the memory obtained from sbrk. */
  predicate BlockOk(size: map<nat, nat>, owned: set<nat>, a: nat) {
    a in size && size[a] >= 1 && forall u :: a <= u < a + size[a] ==> u in owned
  }

  predicate Apart(size: map<nat, nat>, a: nat, b: nat) {
    a in size && a < b ==> a + size[a] <= b
  }

  /** The blocks lie inside the obtained memory and no two of them overlap. */
  ghost predicate Tiles(size: map<nat, nat>, blocks: set<nat>, owned: set<nat>) {
    && (forall a :: a in blocks ==> BlockOk(size, owned, a))
    && (forall a, b :: a in blocks && b in blocks ==> Apart(size, a, b))
  }

  lemma TilesMerge(size: map<nat, nat>, blocks: set<nat>, owned: set<nat>, a: nat, b: nat)
    requires Tiles(size, blocks, owned) && a in blocks && b in blocks && a in size && b in size && a + size[a] == b
    ensures Tiles(size[a := size[a] + size[b]], blocks - {b}, owned)
  {
    var size' := size[a := size[a] + size[b]];
    assert BlockOk(size, owned, a) && BlockOk(size, owned, b);
    forall c | c in blocks - {b} ensures BlockOk(size', owned, c) {
      assert BlockOk(size, owned, c);
    }
    forall c, d | c in blocks - {b} && d in blocks - {b} ensures Apart(size', c, d) {
      assert Apart(size, c, d) && Apart(size, b, d) && Apart(size, a, d);
    }
  }

  lemma TilesSplit(size: map<nat, nat>, blocks: set<nat>, owned: set<nat>, a: nat, units: nat)
    requires Tiles(size, blocks, owned) && a in blocks && a in size && 1 <= units < size[a]
    ensures
      var b := a + (size[a] - units);
      b !in blocks && Tiles(size[a := size[a] - units][b := units], blocks + {b}, owned)
  {
    var b := a + (size[a] - units);
    var size' := size[a := size[a] - units][b := units];
    assert BlockOk(size, owned, a);
    assert b in blocks ==> Apart(size, a, b);
    forall c | c in blocks + {b} ensures BlockOk(size', owned, c) {
      if c != b {
        assert BlockOk(size, owned, c);
      }
    }
    forall c, d | c in blocks + {b} && d in blocks + {b} ensures Apart(size', c, d) {
      assert c != b && d != b ==> Apart(size, c, d);
      assert c != b ==> Apart(size, c, a);
      assert d != b ==> Apart(size, a, d);
    }
  }

  /** Memory fresh from sbrk becomes a block of its own. */
  lemma TilesAdd(size: map<nat, nat>, blocks: set<nat>, owned: set<nat>, a: nat, n: nat, owned': set<nat>)
    requires Tiles(size, blocks, owned) && n >= 1
    requires owned <= owned' && forall u :: a <= u < a + n ==> u !in owned && u in owned'
    ensures a !in blocks && Tiles(size[a := n], blocks + {a}, owned')
  {
    var size' := size[a := n];
    assert a !in owned;
    assert a in blocks ==> BlockOk(size, owned, a);
    forall c | c in blocks + {a} ensures BlockOk(size', owned', c) {
      if c != a {
        assert BlockOk(size, owned, c);
      }
    }
    forall c, d | c in blocks + {a} && d in blocks + {a} ensures Apart(size', c, d) {
      assert c != a ==> BlockOk(size, owned, c);
      assert d != a ==> BlockOk(size, owned, d);
      assert c != a && d != a ==> Apart(size, c, d);
      assert d != a ==> d in owned;
    }
  }

  /** Total size of a set of blocks. */
  ghost function Total(size: map<nat, nat>, blocks: set<nat>): (t: nat)
    requires forall a :: a in blocks ==> a in size
  {
    if blocks == {} then 0 else var a :| a in blocks; size[a] + Total(size, blocks - {a})
  }

  lemma {:induction false} TotalRemove(size: map<nat, nat>, x: set<nat>, a: nat)
    requires (forall b :: b in x ==> b in size) && a in x
    ensures Total(size, x) == size[a] + Total(size, x - {a})
    decreases |x|
  {
    var b :| b in x && Total(size, x) == size[b] + Total(size, x - {b});
    if b != a {
      TotalRemove(size, x - {b}, a);
      TotalRemove(size, x - {a}, b);
      assert x - {b} - {a} == x - {a} - {b};
    }
  }

  lemma {:induction false} TotalFrame(size: map<nat, nat>, size': map<nat, nat>, x: set<nat>)
    requires forall b :: b in x ==> b in size && b in size' && size[b] == size'[b]
    ensures Total(size, x) == Total(size', x)
    decreases |x|
  {
    if x != {} {
      var a :| a in x;
      TotalRemove(size, x, a);
      TotalRemove(size', x, a);
      TotalFrame(size, size', x - {a});
    }
  }

  lemma TotalUpdate(size: map<nat, nat>, x: set<nat>, a: nat, n: nat)
    requires (forall b :: b in x ==> b in size) && a in x
    ensures Total(size[a := n], x) == Total(size, x) - size[a] + n
  {
    TotalRemove(size, x, a);
    TotalRemove(size[a := n], x, a);
    TotalFrame(size, size[a := n], x - {a});
  }

  lemma TotalInsert(size: map<nat, nat>, x: set<nat>, a: nat)
    requires (forall b :: b in x ==> b in size) && a in size && a !in x
    ensures Total(size, x + {a}) == Total(size, x) + size[a]
  {
    TotalRemove(size, x + {a}, a);
    assert x + {a} - {a} == x;
  }

  lemma {:induction false} TotalSplit(size: map<nat, nat>, x: set<nat>, y: set<nat>)
    requires (forall a :: a in x ==> a in size) && (forall a :: a in y ==> a in size) && x !! y
    ensures Total(size, x + y) == Total(size, x) + Total(size, y)
    decreases |x|
  {
    if x == {} {
      assert x + y == y;
    } else {
      var a :| a in x;
      TotalRemove(size, x, a);
      TotalRemove(size, x + y, a);
      assert (x + y) - {a} == (x - {a}) + y;
      TotalSplit(size, x - {a}, y);
    }
  }

  lemma TotalMerge(size: map<nat, nat>, x: set<nat>, a: nat, b: nat)
    requires (forall c :: c in x ==> c in size) && a in x && b in x && a != b
    ensures Total(size[a := size[a] + size[b]], x - {b}) == Total(size, x)
  {
    TotalRemove(size, x, b);
    TotalUpdate(size, x - {b}, a, size[a] + size[b]);
  }

  lemma TotalCarve(size: map<nat, nat>, x: set<nat>, a: nat, b: nat, units: nat)
    requires (forall c :: c in x ==> c in size) && a in x && b !in x && units <= size[a]
    ensures Total(size[a := size[a] - units][b := units], x + {b}) == Total(size, x)
  {
    var size' := size[a := size[a] - units][b := units];
    TotalInsert(size', x, b);
    TotalFrame(size', size[a := size[a] - units], x);
    TotalUpdate(size, x, a, size[a] - units);
  }

  // ----- The whole account -----

  function FreeBlocks(f: seq<nat>, base: nat): (s: set<nat>) {
    set x | x in f && x != base
  }

  /** Live and free blocks are disjoint, tile part of the memory granted by sbrk, which all lies
      above base, and together amount to all that was obtained. */
  ghost predicate Accounts(size: map<nat, nat>, base: nat, f: seq<nat>, live: set<nat>, owned: set<nat>, obtained: nat) {
    && Tiles(size, live + FreeBlocks(f, base), owned)
    && (forall a :: a in live + FreeBlocks(f, base) ==> a in size)
    && obtained == Total(size, live + FreeBlocks(f, base))
    && (forall a :: a in live ==> a !in f)
    && (forall u :: u in owned ==> u > base)
  }

  lemma AccountOf(size: map<nat, nat>, base: nat, f: seq<nat>, live: set<nat>, owned: set<nat>, obtained: nat, a: nat)
    requires Accounts(size, base, f, live, owned, obtained) && (a in live || (a in f && a != base))
    ensures a in size && size[a] >= 1 && a > base
    ensures a in live ==> a !in f
    ensures forall b :: (b in live || (b in f && b != base)) && a < b ==> a + size[a] <= b
    ensures forall b :: (b in live || (b in f && b != base)) && b < a ==> b in size && b + size[b] <= a
  {
    var blocks := live + FreeBlocks(f, base);
    assert a in blocks && BlockOk(size, owned, a);
    assert a in owned;
    forall b | b in blocks ensures Apart(size, a, b) && Apart(size, b, a) { }
  }

  lemma AccountRight(size: map<nat, nat>, base: nat, f: seq<nat>, live: set<nat>, owned: set<nat>, obtained: nat,
                     k: nat, bp: nat, size': map<nat, nat>, f': seq<nat>)
    requires Accounts(size, base, f, live, owned, obtained) && Sorted(f) && |f| > 0 && f[0] == base
    requires bp in live && 1 <= k < |f| && bp in size && f[k] in size && bp + size[bp] == f[k]
    requires size' == size[bp := size[bp] + size[f[k]]] && f' == Without(f, k)
    ensures Accounts(size', base, f', live, owned, obtained)
  {
    hide Tiles, Total;
    var blocks := live + FreeBlocks(f, base);
    SortedWithout(f, k);
    assert f[0] < f[k];
    TilesMerge(size, blocks, owned, bp, f[k]);
    TotalMerge(size, blocks, bp, f[k]);
    assert live + FreeBlocks(Without(f, k), base) == blocks - {f[k]};
  }

  lemma AccountLeft(size: map<nat, nat>, base: nat, f: seq<nat>, live: set<nat>, owned: set<nat>, obtained: nat,
                    p: nat, bp: nat, size': map<nat, nat>)
    requires Accounts(size, base, f, live, owned, obtained)
    requires bp in live && p in f && p != base && p in size && bp in size && p + size[p] == bp
    requires size' == size[p := size[p] + size[bp]]
    ensures Accounts(size', base, f, live - {bp}, owned, obtained)
  {
    var blocks := live + FreeBlocks(f, base);
    assert BlockOk(size, owned, p) by { assert p in blocks; }
    TilesMerge(size, blocks, owned, p, bp);
    TotalMerge(size, blocks, p, bp);
    assert (live - {bp}) + FreeBlocks(f, base) == blocks - {bp};
  }

  /** A block moves between the live set and the free list. */
  lemma AccountMove(size: map<nat, nat>, base: nat, f: seq<nat>, live: set<nat>, owned: set<nat>, obtained: nat,
                    f': seq<nat>, live': set<nat>)
    requires Accounts(size, base, f, live, owned, obtained)
    requires live' + FreeBlocks(f', base) == live + FreeBlocks(f, base) && (forall a :: a in live' ==> a !in f')
    ensures Accounts(size, base, f', live', owned, obtained)
  {
  }

  /** A live block takes its place in the free list. */
  lemma AccountInsert(size: map<nat, nat>, base: nat, f: seq<nat>, live: set<nat>, owned: set<nat>, obtained: nat,
                      k: nat, bp: nat, g: seq<nat>)
    requires Accounts(size, base, f, live, owned, obtained) && bp in live && bp != base && Inserts(f, k, bp, g)
    ensures Accounts(size, base, g, live - {bp}, owned, obtained) && bp in g && forall y | y in f :: y in g
  {
    hide Tiles, Total;
    InsertsMembers(f, k, bp, g);
    assert (live - {bp}) + FreeBlocks(g, base) == live + FreeBlocks(f, base);
    AccountMove(size, base, f, live, owned, obtained, g, live - {bp});
  }

  lemma AccountLive(size: map<nat, nat>, base: nat, f: seq<nat>, live: set<nat>, owned: set<nat>, obtained: nat)
    requires Accounts(size, base, f, live, owned, obtained)
    ensures forall a | a in live :: a in size
  {
  }

  lemma AccountCarve(size: map<nat, nat>, base: nat, f: seq<nat>, live: set<nat>, owned: set<nat>, obtained: nat,
                     a: nat, units: nat)
    requires Accounts(size, base, f, live, owned, obtained) && a in f && a != base && a in size && 1 <= units < size[a]
    requires a + (size[a] - units) !in f
    ensures
      var b := a + (size[a] - units);
      b !in live && Accounts(size[a := size[a] - units][b := units], base, f, live + {b}, owned, obtained)
  {
    var b := a + (size[a] - units);
    var blocks := live + FreeBlocks(f, base);
    assert a in blocks;
    TilesSplit(size, blocks, owned, a, units);
    TotalCarve(size, blocks, a, b, units);
    assert live + {b} + FreeBlocks(f, base) == blocks + {b};
  }

  lemma AccountAdd(size: map<nat, nat>, base: nat, f: seq<nat>, live: set<nat>, owned: set<nat>, obtained: nat,
                   a: nat, n: nat, owned': set<nat>)
    requires Accounts(size, base, f, live, owned, obtained) && n >= 1 && a !in f
    requires owned <= owned' && (forall u :: a <= u < a + n ==> u !in owned && u in owned')
    requires forall u :: u in owned' ==> u > base
    ensures a !in live && Accounts(size[a := n], base, f, live + {a}, owned', obtained + n)
  {
    var blocks := live + FreeBlocks(f, base);
    TilesAdd(size, blocks, owned, a, n, owned');
    assert live + {a} + FreeBlocks(f, base) == blocks + {a};
    TotalInsert(size[a := n], blocks, a);
    TotalFrame(size, size[a := n], blocks);
  }

  /** Conservation: free units plus live units are the units obtained from sbrk. */
  lemma Conservation(size: map<nat, nat>, base: nat, f: seq<nat>, live: set<nat>, owned: set<nat>, obtained: nat)
    requires Accounts(size, base, f, live, owned, obtained)
    ensures (forall a :: a in live ==> a in size) && (forall a :: a in FreeBlocks(f, base) ==> a in size)
    ensures Total(size, live) + Total(size, FreeBlocks(f, base)) == obtained
  {
    assert forall a :: a in live ==> a in live + FreeBlocks(f, base);
    TotalSplit(size, live, FreeBlocks(f, base));
  }

  // ----- Where a block belongs in the list -----

  /** The last index whose address is below bp. */
  ghost function Place(f: seq<nat>, bp: nat): (j: nat)
    requires |f| > 0 && f[0] < bp
    ensures j < |f| && f[j] < bp
    ensures Sorted(f) && bp !in f && j + 1 < |f| ==> bp < f[j + 1]
  {
    if f[|f| - 1] < bp then |f| - 1 else Place(f[..|f| - 1], bp)
  }

  /** Steps from index k forward to index j around a circle of n. */
  function Around(k: nat, j: nat, n: nat): nat
    requires k < n && j < n
  {
    if k <= j then j - k else j + n - k
  }
}
