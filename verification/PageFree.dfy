/** Taking a page table apart: which pages freewalk frees, and why it meets no leaf. */
module PageFree {
  import opened PageTheory
  import opened PageMoves

  predicate TableOf(own: map<nat, Owner>, root: nat, x: nat) {
    x in own && own[x].Table? && own[x].root == root
  }

  /** The tables of root at or under position p. */
  ghost function SubPages(own: map<nat, Owner>, root: nat, p: Pos): (pages: set<nat>) {
    set x | x in own && TableOf(own, root, x) && Under(own[x].pos, p)
  }

  /** q lies under an entry of p before the i-th. */
  predicate Before(q: Pos, p: Pos, i: nat) {
    match p
    case Top => !q.Top? && q.i2 < i
    case Mid(a) => q.Low? && q.i2 == a && q.i1 < i
    case Low(_, _) => false
  }

  ghost function SubBefore(own: map<nat, Owner>, root: nat, p: Pos, i: nat): (pages: set<nat>) {
    set x | x in own && TableOf(own, root, x) && Before(own[x].pos, p, i)
  }

  /** own labels exactly the tables of t. */
  ghost predicate Consistent(own: map<nat, Owner>, t: Tree, root: nat) {
    && Labelled(own, t, root)
    && (forall x | TableOf(own, root, x) :: own[x].pos in t && t[own[x].pos] == x)
    && (forall q | q in t :: InTree(q) && (q.Top? || Parent(q) in t))
  }

  ghost predicate NoLeaf(mem: Mem, pa: nat) {
    forall i: nat | i < 512 :: !Read(mem, pa, i).flags.v
  }

  ghost predicate Loose(s: State, t: Tree, q: Pos)
    requires q in t
  {
    && t[q] in s.owner && s.owner[t[q]] == Data && TableOk(s.mem, t, q)
    && (q.Low? ==> NoLeaf(s.mem, t[q]))
  }

  /** The tables at and under p still hang together as in t, without a leaf, but belong to no tree. */
  ghost predicate Hanging(s: State, t: Tree, p: Pos) {
    forall q | q in t && Under(q, p) :: Loose(s, t, q)
  }

  /** The ghost step before freewalk: the tables of root become mere pages. */
  ghost function Detach(s: State, root: nat): (s': State) {
    s.(owner := map x | x in s.owner :: if TableOf(s.owner, root, x) then Data else s.owner[x], trees := s.trees - {root})
  }

  lemma DetachFree(s: State, root: nat)
    requires Valid(s)
    ensures var s' := Detach(s, root); FreeOk(s'.mem, s'.freelist, s'.free, s'.owner)
  {
    var s' := Detach(s, root);
    forall i: nat | i < |s'.free|
      ensures LinkOk(s'.mem, s'.free, s'.owner, i)
    {
      assert LinkOk(s.mem, s.free, s.owner, i);
    }
  }

  lemma DetachLabels(s: State, root: nat)
    requires Labels(s.owner, s.trees)
    ensures Labels(Detach(s, root).owner, Detach(s, root).trees)
  {
    var s' := Detach(s, root);
    forall r | r in s'.trees
      ensures Labelled(s'.owner, s'.trees[r], r)
    {
      assert Labelled(s.owner, s.trees[r], r);
    }
    forall x | x in s'.owner
      ensures InItsTree(s'.owner, s'.trees, x)
    {
      assert InItsTree(s.owner, s.trees, x);
    }
  }

  lemma DetachKeeps(s: State, root: nat)
    requires Valid(s) && root in s.trees
    ensures Valid(Detach(s, root)) && Consistent(s.owner, s.trees[root], root)
  {
    hide FreeOk, TableOk;
    DetachFree(s, root);
    DetachLabels(s, root);
    TreeConsistent(s, root);
    assert Labelled(s.owner, s.trees[root], root);
  }

  lemma TreeConsistent(s: State, root: nat)
    requires Valid(s) && root in s.trees
    ensures Consistent(s.owner, s.trees[root], root)
  {
    hide FreeOk, TableOk;
    assert Labelled(s.owner, s.trees[root], root) && TreeOk(s.mem, s.trees[root], root);
    forall x | TableOf(s.owner, root, x)
      ensures s.owner[x].pos in s.trees[root] && s.trees[root][s.owner[x].pos] == x
    {
      assert InItsTree(s.owner, s.trees, x);
    }
  }

  lemma DetachHanging(s: State, root: nat)
    requires Valid(s) && root in s.trees && Vacant(s.mem, root, 0, MAXPAGES)
    ensures Hanging(Detach(s, root), s.trees[root], Top)
  {
    hide FreeOk, Vacant, Lookup;
    var s', t := Detach(s, root), s.trees[root];
    assert Labelled(s.owner, t, root) && TreeOk(s.mem, t, root);
    forall q | q in t
      ensures Loose(s', t, q)
    {
      assert TableOk(s.mem, t, q) && TableOf(s.owner, root, t[q]);
      if q.Low? {
        BareTable(s.mem, t, root, q);
      }
    }
  }

  /** With nothing translated the leaf tables are empty. */
  lemma BareTable(mem: Mem, t: Tree, root: nat, q: Pos)
    requires TreeOk(mem, t, root) && q in t && q.Low? && Vacant(mem, root, 0, MAXPAGES)
    ensures NoLeaf(mem, t[q])
  {
    forall i: nat | i < 512
      ensures !Read(mem, t[q], i).flags.v
    {
      var n := q.i2 * 262144 + q.i1 * 512 + i;
      assert InTree(q);
      IndexOf(q.i2, q.i1, i);
      LookupAt(mem, t, root, n);
      assert Lookup(mem, root, n) == Unmapped;
    }
  }

  lemma IndexOf(a: nat, b: nat, i: nat)
    requires a < 256 && b < 512 && i < 512
    ensures var n := a * 262144 + b * 512 + i; n < MAXPAGES && PX(2, n) == a && PX(1, n) == b && PX(0, n) == i
  {
    var n := a * 262144 + b * 512 + i;
    assert n / 512 == a * 512 + b;
    assert n / 262144 == a;
  }

  /** The part of the subtree below entry i, when its turn comes. */
  lemma HangingChild(s: State, s1: State, own: map<nat, Owner>, root: nat, t: Tree, p: Pos, i: nat)
    requires Consistent(own, t, root) && p in t && !p.Low? && i < 512 && Hanging(s, t, p) && PagesOk(s.mem, s.owner)
    requires Freed(s, s1, SubBefore(own, root, p, i)) && DataKept(s, s1, SubBefore(own, root, p, i) + {t[p]})
    requires Child(p, i) in t
    ensures Hanging(s1, t, Child(p, i))
  {
    assert Labelled(own, t, root);
    forall q | q in t && Under(q, Child(p, i))
      ensures Loose(s1, t, q)
    {
      assert Under(q, p) && Loose(s, t, q);
      assert t[q] !in SubBefore(own, root, p, i) && t[q] != t[p];
      assert IsPage(s.mem, t[q]) && Steady(s, t[q]);
      LooseFrame(s, s1, t, q);
    }
  }

  lemma LooseFrame(s: State, s1: State, t: Tree, q: Pos)
    requires q in t && Loose(s, t, q) && t[q] in s1.owner && s1.owner[t[q]] == Data
    requires t[q] in s.mem && t[q] in s1.mem && s1.mem[t[q]] == s.mem[t[q]]
    ensures Loose(s1, t, q)
  {
    if !q.Low? {
      forall i: nat | i < 512
        ensures EntryOk(s1.mem, t, q, i)
      {
        assert EntryOk(s.mem, t, q, i);
      }
    } else {
      forall i: nat | i < 512
        ensures !Read(s1.mem, t[q], i).flags.v
      {
        assert !Read(s.mem, t[q], i).flags.v;
      }
    }
  }

  lemma BeforeNext(own: map<nat, Owner>, root: nat, t: Tree, p: Pos, i: nat)
    requires Consistent(own, t, root) && p in t && !p.Low?
    ensures Child(p, i) in t ==>
              SubBefore(own, root, p, i + 1) == SubBefore(own, root, p, i) + SubPages(own, root, Child(p, i))
    ensures Child(p, i) !in t ==> SubBefore(own, root, p, i + 1) == SubBefore(own, root, p, i)
  {
    forall x | TableOf(own, root, x)
      ensures Before(own[x].pos, p, i + 1) <==> Before(own[x].pos, p, i) || Under(own[x].pos, Child(p, i))
      ensures Under(own[x].pos, Child(p, i)) ==> Child(p, i) in t
    {
      var q := own[x].pos;
      assert q in t && (q.Top? || Parent(q) in t);
    }
  }

  lemma BeforeNone(own: map<nat, Owner>, root: nat, p: Pos)
    ensures SubBefore(own, root, p, 0) == {}
  {
  }

  lemma BeforeLow(own: map<nat, Owner>, root: nat, p: Pos, i: nat)
    requires p.Low?
    ensures SubBefore(own, root, p, i) == {}
  {
  }

  lemma BeforeAll(own: map<nat, Owner>, root: nat, t: Tree, p: Pos)
    requires Consistent(own, t, root) && p in t
    ensures SubPages(own, root, p) == SubBefore(own, root, p, 512) + {t[p]}
    ensures t[p] !in SubBefore(own, root, p, 512)
  {
    assert Labelled(own, t, root);
    forall x | TableOf(own, root, x)
      ensures Under(own[x].pos, p) <==> Before(own[x].pos, p, 512) || x == t[p]
    {
      var q := own[x].pos;
      assert q in t && InTree(q);
    }
    assert TableOf(own, root, t[p]);
  }

  /** The entries of table p while nothing below it has been touched. */
  lemma HangingEntry(s: State, t: Tree, p: Pos, i: nat)
    requires p in t && Hanging(s, t, p) && i < 512
    ensures t[p] in s.owner && s.owner[t[p]] == Data
    ensures p.Low? ==> !Read(s.mem, t[p], i).flags.v
    ensures !p.Low? ==> EntryOk(s.mem, t, p, i)
  {
    assert Under(p, p) && Loose(s, t, p);
  }

  /** One entry's subtree freed and the entry cleared. */
  lemma EntryDone(s: State, s1: State, s2: State, s3: State, before: set<nat>, sub: set<nat>, pa: nat, page: seq<Word>)
    requires Freed(s, s1, before) && DataKept(s, s1, before + {pa}) && Freed(s1, s2, sub) && DataKept(s1, s2, sub)
    requires s3 == s2.(mem := s2.mem[pa := page])
    requires pa in s.owner && s.owner[pa] == Data
    ensures Freed(s, s3, before + sub) && DataKept(s, s3, before + sub + {pa})
  {
    forall q | Steady(s, q) && q !in before + sub + {pa}
      ensures q in s3.mem && s3.mem[q] == s.mem[q]
    {
      assert Steady(s1, q);
    }
  }

  lemma LastGiven(s: State, s1: State, s2: State, before: set<nat>, pa: nat)
    requires Freed(s, s1, before) && DataKept(s, s1, before + {pa}) && pa !in before
    requires Freed(s1, s2, {pa}) && DataKept(s1, s2, {pa})
    ensures Freed(s, s2, before + {pa}) && DataKept(s, s2, before + {pa})
  {
    forall q | Steady(s, q) && q !in before + {pa}
      ensures q in s2.mem && s2.mem[q] == s.mem[q]
    {
      assert Steady(s1, q);
    }
  }

  lemma SameMapsTwice(mem: Mem, mem1: Mem, mem2: Mem, trees: map<nat, Tree>)
    requires SameMaps(mem, mem1, trees) && SameMaps(mem1, mem2, trees)
    ensures SameMaps(mem, mem2, trees)
  {
    forall r | r in trees
      ensures SameMap(mem, mem2, r)
    {
      assert SameMap(mem, mem1, r) && SameMap(mem1, mem2, r);
    }
  }

  /** root's tables were freed and root is no tree any more; the rest is as it was. */
  ghost predicate Torn(s: State, s': State, root: nat) {
    && s'.owner.Keys == s.owner.Keys && s'.trees == s.trees - {root}
    && (forall x | x in s.owner :: s'.owner[x] == if TableOf(s.owner, root, x) then Free else s.owner[x])
    && SameMaps(s.mem, s'.mem, s'.trees) && DataKept(s, s', {})
  }

  lemma TornDown(s: State, s2: State, root: nat)
    requires Freed(Detach(s, root), s2, SubPages(s.owner, root, Top)) && SameMaps(s.mem, s2.mem, s2.trees)
    requires DataKept(Detach(s, root), s2, SubPages(s.owner, root, Top))
    ensures Torn(s, s2, root)
  {
    var s1 := Detach(s, root);
    forall q | Steady(s, q)
      ensures q in s2.mem && s2.mem[q] == s.mem[q]
    {
      assert Steady(s1, q);
    }
  }

  // --- small facts for the methods ---

  lemma DataMore(s: State, s': State, gone: set<nat>, pa: nat)
    requires DataKept(s, s', gone)
    ensures DataKept(s, s', gone + {pa})
  {
  }

  lemma StillData(s: State, s': State, gone: set<nat>, pa: nat)
    requires Freed(s, s', gone) && pa in s.owner && s.owner[pa] == Data && pa !in gone
    ensures pa in s'.owner && s'.owner[pa] == Data
  {
  }

  lemma KeptPage(s: State, s': State, gone: set<nat>, pa: nat)
    requires DataKept(s, s', gone) && pa in s.owner && s.owner[pa] == Data && pa !in gone && pa in s.mem
    ensures pa in s'.mem && s'.mem[pa] == s.mem[pa]
  {
    assert Steady(s, pa);
  }

  lemma FreedTrees(s: State, s': State, gone: set<nat>)
    requires Freed(s, s', gone)
    ensures s'.trees == s.trees
  {
  }

  lemma ValidPages(s: State)
    requires Valid(s)
    ensures PagesOk(s.mem, s.owner)
  {
  }

  lemma BeforeNotTop(own: map<nat, Owner>, root: nat, t: Tree, p: Pos, i: nat)
    requires Consistent(own, t, root) && p in t && !p.Low?
    ensures t[p] !in SubBefore(own, root, p, i) && t[p] !in SubPages(own, root, Child(p, i))
  {
    assert Labelled(own, t, root);
  }

  function Height(p: Pos): nat {
    match p case Top => 2 case Mid(_) => 1 case Low(_, _) => 0
  }

  // --- the life of a tree ---

  ghost predicate OthersSame(s: State, s': State, root: nat) {
    forall r | r in s.trees && r != root :: SameMap(s.mem, s'.mem, r)
  }

  /** root is a new tree on free pages, got are new data pages, and the rest is as it was. */
  ghost predicate Spawned(s: State, s': State, root: nat, got: set<nat>) {
    && root !in s.trees && root in s'.trees && s'.trees - {root} == s.trees
    && s'.owner.Keys == s.owner.Keys && got <= s.owner.Keys
    && (forall pa | pa in s.owner :: Moved(s, s', root, got, pa))
    && OthersSame(s, s', root) && DataKept(s, s', {})
  }

  /** root's tables and the data pages of gone were freed, and the rest is as it was. */
  ghost predicate Reaped(s: State, s': State, root: nat, gone: set<nat>) {
    && s'.owner.Keys == s.owner.Keys && s'.trees == s.trees - {root}
    && (forall pa | pa in gone :: pa in s.owner && s.owner[pa] == Data)
    && (forall x | x in s.owner ::
          s'.owner[x] == if TableOf(s.owner, root, x) || x in gone then Free else s.owner[x])
    && OthersSame(s, s', root) && DataKept(s, s', gone)
  }

  /** Owners, trees, translations and data are as they were; only the free list may be in another order. */
  ghost predicate Restored(s: State, s': State) {
    s'.owner == s.owner && s'.trees == s.trees && SameMaps(s.mem, s'.mem, s.trees) && DataKept(s, s', {})
  }

  lemma NotItsTable(s: State, root: nat, pa: nat)
    requires Valid(s) && root !in s.trees
    ensures !TableOf(s.owner, root, pa)
  {
    assert pa in s.owner ==> InItsTree(s.owner, s.trees, pa);
  }

  /** Whatever a new tree took, reaping it gives back. */
  lemma SpawnedThenReaped(s: State, s1: State, s2: State, root: nat, got: set<nat>)
    requires Valid(s) && Spawned(s, s1, root, got) && Reaped(s1, s2, root, got)
    ensures Restored(s, s2)
  {
    hide Valid;
    forall pa | pa in s.owner
      ensures s2.owner[pa] == s.owner[pa]
    {
      assert Moved(s, s1, root, got, pa);
      NotItsTable(s, root, pa);
    }
    forall r | r in s.trees
      ensures SameMap(s.mem, s2.mem, r)
    {
      assert SameMap(s.mem, s1.mem, r) && r in s1.trees && SameMap(s1.mem, s2.mem, r);
    }
    forall q | Steady(s, q)
      ensures q in s2.mem && s2.mem[q] == s.mem[q]
    {
      assert q in s1.mem;
      assert q in s.owner ==> Moved(s, s1, root, got, q);
      assert Steady(s1, q);
    }
  }

  /** What happens to a new tree while it stays a tree. */
  lemma SpawnedThenShifted(s: State, s1: State, s2: State, root: nat, got: set<nat>, more: set<nat>)
    requires Spawned(s, s1, root, got) && Shift(s1, s2, root, more) && DataKept(s1, s2, {}) && OthersSame(s1, s2, root)
    ensures Spawned(s, s2, root, got + more)
  {
    forall pa | pa in s.owner
      ensures Moved(s, s2, root, got + more, pa)
    {
      assert Moved(s, s1, root, got, pa) && Moved(s1, s2, root, more, pa);
    }
    forall r | r in s.trees && r != root
      ensures SameMap(s.mem, s2.mem, r)
    {
      assert SameMap(s.mem, s1.mem, r) && r in s1.trees && SameMap(s1.mem, s2.mem, r);
    }
    forall q | Steady(s, q)
      ensures q in s2.mem && s2.mem[q] == s.mem[q]
    {
      assert q in s1.mem;
      assert q in s.owner ==> Moved(s, s1, root, got, q);
      assert Steady(s1, q);
    }
    forall r | r in s.trees
      ensures r in s2.trees && s2.trees[r] == s.trees[r]
    {
      assert r in s1.trees - {root};
    }
    assert s2.trees - {root} == s.trees;
  }

  lemma FreedThenTorn(s: State, s1: State, s2: State, root: nat, gone: set<nat>)
    requires Freed(s, s1, gone) && DataKept(s, s1, gone) && OthersSame(s, s1, root) && Torn(s1, s2, root)
    ensures Reaped(s, s2, root, gone)
  {
    forall r | r in s.trees && r != root
      ensures SameMap(s.mem, s2.mem, r)
    {
      assert r in s2.trees;
      assert SameMap(s.mem, s1.mem, r) && SameMap(s1.mem, s2.mem, r);
    }
    forall q | Steady(s, q) && q !in gone
      ensures q in s2.mem && s2.mem[q] == s.mem[q]
    {
      assert Steady(s1, q);
    }
  }

  lemma FreedThenReaped(s: State, s1: State, s2: State, root: nat, gone: set<nat>, more: set<nat>)
    requires Freed(s, s1, gone) && DataKept(s, s1, gone) && OthersSame(s, s1, root) && Reaped(s1, s2, root, more)
    ensures Reaped(s, s2, root, gone + more)
  {
    forall r | r in s.trees && r != root
      ensures SameMap(s.mem, s2.mem, r)
    {
      assert SameMap(s.mem, s1.mem, r) && SameMap(s1.mem, s2.mem, r);
    }
    forall q | Steady(s, q) && q !in gone + more
      ensures q in s2.mem && s2.mem[q] == s.mem[q]
    {
      assert Steady(s1, q);
    }
  }

  /** A zeroed data page as the root of a new tree. */
  ghost function Create(s: State, root: nat): (s': State) {
    var t: Tree := map[Top := root];
    s.(owner := s.owner[root := Table(root, Top)], trees := s.trees[root := t])
  }

  /** A free page is the root of no tree. */
  lemma RootNew(s: State, root: nat)
    requires Valid(s) && root in s.owner && s.owner[root] == Free
    ensures root !in s.trees
  {
    forall r | r in s.trees
      ensures s.owner[r] == Table(r, Top)
    {
      assert Labelled(s.owner, s.trees[r], r) && TreeOk(s.mem, s.trees[r], r);
    }
  }

  lemma CreateTree(mem: Mem, root: nat)
    requires root in mem && mem[root] == Filled(ZERO)
    ensures TreeOk(mem, map[Top := root], root) && Vacant(mem, root, 0, MAXPAGES)
  {
    var t: Tree := map[Top := root];
    forall i: nat | i < 512
      ensures EntryOk(mem, t, Top, i)
    {
    }
    assert TableOk(mem, t, Top);
  }

  lemma CreateLabels(owner: map<nat, Owner>, trees: map<nat, Tree>, root: nat, t: Tree)
    requires Labels(owner, trees) && root in owner && owner[root] == Data && root !in trees && t == map[Top := root]
    ensures Labels(owner[root := Table(root, Top)], trees[root := t])
  {
    var owner', trees' := owner[root := Table(root, Top)], trees[root := t];
    forall r | r in trees'
      ensures Labelled(owner', trees'[r], r)
    {
      assert r != root ==> Labelled(owner, trees[r], r);
    }
    forall x | x in owner'
      ensures InItsTree(owner', trees', x)
    {
      assert InItsTree(owner, trees, x);
    }
  }

  lemma CreateKeeps(s: State, root: nat)
    requires Valid(s) && root in s.owner && s.owner[root] == Data && s.mem[root] == Filled(ZERO) && root !in s.trees
    ensures Valid(Create(s, root)) && Vacant(s.mem, root, 0, MAXPAGES)
  {
    hide FreeOk, TreeOk;
    var t: Tree := map[Top := root];
    assert IsPage(s.mem, root);
    CreateTree(s.mem, root);
    CreateLabels(s.owner, s.trees, root, t);
    HangFree(s.mem, s.freelist, s.free, s.owner, root, Table(root, Top));
  }

  lemma SpawnedNew(s: State, s1: State, root: nat)
    requires root in s.owner && s.owner[root] == Free && s1.owner == s.owner[root := Data] && s1.trees == s.trees
    requires s1.mem == s.mem[root := Filled(ZERO)] && SameMaps(s.mem, s1.mem, s.trees) && root !in s.trees
    ensures Spawned(s, Create(s1, root), root, {})
  {
    var s' := Create(s1, root);
    assert s'.owner.Keys == s.owner.Keys;
    assert s'.trees - {root} == s.trees;
  }

  lemma NoFrames(mem: Mem, root: nat)
    ensures Frames(mem, root, 0, 0) == {}
  {
  }
}
