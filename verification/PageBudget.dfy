/** How many free pages an operation of vm.c needs: the tables its tree still lacks for the pages
    it is to map, and the data pages. Needs of successive steps add up.
 */
module PageBudget {
  import opened PageTheory
  import opened Sets

  /** The tables a walk to page n passes below the root. */
  function Path(n: nat): set<Pos> { {PosAt(1, n), PosAt(0, n)} }

  ghost function Paths(pages: set<nat>): set<Pos> {
    (set n | n in pages :: PosAt(1, n)) + (set n | n in pages :: PosAt(0, n))
  }

  /** Those of them from the given level up. */
  function PathTo(level: nat, n: nat): set<Pos> {
    if level == 0 then Path(n) else if level == 1 then {PosAt(1, n)} else {}
  }

  ghost function PageRange(lo: nat, hi: nat): set<nat> { Indices(hi) - Indices(lo) }

  ghost function MappedBelow(mem: Mem, root: nat, hi: nat): set<nat> {
    set n: nat | n < hi && Lookup(mem, root, n).Mapped?
  }

  ghost function Tables(s: State, root: nat): set<Pos>
    requires root in s.trees
  {
    s.trees[root].Keys
  }

  /** Too few pages are free for the tables of more that root has not got yet, and data pages. */
  ghost predicate Short(s: State, root: nat, more: set<Pos>, data: nat)
    requires root in s.trees
  {
    |s.free| < |more - Tables(s, root)| + data
  }

  /** root has got the tables of more, and exactly those it lacked and data pages were taken. */
  ghost predicate Spent(s: State, s': State, root: nat, more: set<Pos>, data: nat)
    requires root in s.trees && root in s'.trees
  {
    Tables(s', root) == Tables(s, root) + more && |s.free| == |s'.free| + |more - Tables(s, root)| + data
  }

  // --- counting ---

  lemma LackedTwice(have: set<Pos>, more: set<Pos>, next: set<Pos>)
    ensures |more + next - have| == |more - have| + |next - (have + more)|
  {
    assert more + next - have == (more - have) + (next - (have + more));
  }

  // --- needs add up ---

  lemma SpentNone(s: State, root: nat)
    requires root in s.trees
    ensures Spent(s, s, root, {}, 0) && !Short(s, root, {}, 0)
  {
    var none: set<Pos> := {};
    assert none - Tables(s, root) == none;
  }

  lemma SpentTwice(s: State, s1: State, s2: State, root: nat, more: set<Pos>, data: nat, more': set<Pos>, data': nat)
    requires root in s.trees && root in s1.trees && root in s2.trees
    requires Spent(s, s1, root, more, data) && Spent(s1, s2, root, more', data')
    ensures Spent(s, s2, root, more + more', data + data')
  {
    LackedTwice(Tables(s, root), more, more');
  }

  /** Running short later is having been short of the whole from the start. */
  lemma SpentThenShort(s: State, s1: State, root: nat, more: set<Pos>, data: nat, more': set<Pos>, data': nat)
    requires root in s.trees && root in s1.trees
    requires Spent(s, s1, root, more, data) && Short(s1, root, more', data')
    ensures Short(s, root, more + more', data + data')
  {
    LackedTwice(Tables(s, root), more, more');
  }

  lemma ShortOfMore(s: State, root: nat, more: set<Pos>, data: nat, more': set<Pos>, data': nat)
    requires root in s.trees && Short(s, root, more, data) && more <= more' && data <= data'
    ensures Short(s, root, more', data')
  {
    SubsetCard(more - Tables(s, root), more' - Tables(s, root));
  }

  lemma SpentWasEnough(s: State, s': State, root: nat, more: set<Pos>, data: nat)
    requires root in s.trees && root in s'.trees && Spent(s, s', root, more, data)
    ensures !Short(s, root, more, data)
  {
  }

  /** A table that is there costs nothing more. */
  lemma SpentHas(s: State, s': State, root: nat, more: set<Pos>, p: Pos)
    requires root in s.trees && root in s'.trees && Spent(s, s', root, more, 0) && p in Tables(s', root)
    ensures Spent(s, s', root, more + {p}, 0)
  {
    assert more + {p} - Tables(s, root) == more - Tables(s, root);
  }

  /** One page taken for one missing table. */
  lemma SpentOne(s: State, s': State, root: nat, p: Pos)
    requires root in s.trees && root in s'.trees && p !in Tables(s, root)
    requires Tables(s', root) == Tables(s, root) + {p} && |s.free| == |s'.free| + 1
    ensures Spent(s, s', root, {p}, 0)
  {
    assert {p} - Tables(s, root) == {p};
  }

  lemma ShortOfOne(s: State, root: nat, p: Pos)
    requires root in s.trees && p !in Tables(s, root) && s.free == []
    ensures Short(s, root, {p}, 0)
  {
    assert {p} - Tables(s, root) == {p};
  }

  lemma SpentData(s: State, s': State, root: nat)
    requires root in s.trees && s'.trees == s.trees && |s.free| == |s'.free| + 1
    ensures Spent(s, s', root, {}, 1)
  {
    var none: set<Pos> := {};
    assert none - Tables(s, root) == none;
  }

  lemma ShortOfData(s: State, root: nat, more: set<Pos>)
    requires root in s.trees && s.free == []
    ensures Short(s, root, more, 1)
  {
  }

  lemma SpentLater(s: State, s1: State, s2: State, root: nat, more: set<Pos>, data: nat)
    requires root in s.trees && root in s1.trees && Spent(s, s1, root, more, data)
    requires s2.trees == s1.trees && s2.free == s1.free
    ensures Spent(s, s2, root, more, data)
  {
  }

  // --- pages and their paths ---

  lemma PathsAdd(pages: set<nat>, n: nat)
    ensures Paths(pages + {n}) == Paths(pages) + Path(n)
  {
  }

  lemma PathGrows(level: nat, n: nat)
    requires 0 < level <= 2
    ensures PathTo(level - 1, n) == PathTo(level, n) + {PosAt(level - 1, n)} && PathTo(level - 1, n) <= Path(n)
  {
  }

  lemma PathEnds(n: nat)
    ensures PathTo(2, n) == {} && PathTo(0, n) == Path(n)
  {
  }

  lemma PathsNone()
    ensures Paths({}) == {}
  {
  }

  lemma PathsMore(pages: set<nat>, more: set<nat>)
    requires pages <= more
    ensures Paths(pages) <= Paths(more) && |pages| <= |more|
  {
    SubsetCard(pages, more);
  }

  lemma RangeNone(lo: nat, hi: nat)
    requires hi <= lo
    ensures PageRange(lo, hi) == {}
  {
  }

  lemma RangeMore(lo: nat, n: nat, hi: nat)
    requires n <= hi
    ensures PageRange(lo, n) <= PageRange(lo, hi)
  {
  }

  lemma RangeAdd(lo: nat, n: nat)
    requires lo <= n
    ensures PageRange(lo, n + 1) == PageRange(lo, n) + {n}
    ensures |PageRange(lo, n + 1)| == |PageRange(lo, n)| + 1
  {
    assert PageRange(lo, n + 1) == PageRange(lo, n) + {n};
  }

  lemma BelowAdd(mem: Mem, root: nat, n: nat)
    ensures var now := MappedBelow(mem, root, n);
            if Lookup(mem, root, n).Mapped?
            then MappedBelow(mem, root, n + 1) == now + {n} && |now + {n}| == |now| + 1
            else MappedBelow(mem, root, n + 1) == now
  {
    var now := MappedBelow(mem, root, n);
    if Lookup(mem, root, n).Mapped? {
      assert MappedBelow(mem, root, n + 1) == now + {n};
    } else {
      assert MappedBelow(mem, root, n + 1) == now;
    }
  }

  lemma BelowNone(mem: Mem, root: nat)
    ensures MappedBelow(mem, root, 0) == {}
  {
  }

  lemma BelowMore(mem: Mem, root: nat, n: nat, hi: nat)
    requires n <= hi
    ensures MappedBelow(mem, root, n) <= MappedBelow(mem, root, hi)
  {
  }

  // --- one step of a walk ---

  lemma StepThere(s: State, s': State, root: nat, level: nat, n: nat)
    requires root in s.trees && root in s'.trees && 0 < level <= 2
    requires Spent(s, s', root, PathTo(level, n), 0) && PosAt(level - 1, n) in Tables(s', root)
    ensures Spent(s, s', root, PathTo(level - 1, n), 0)
  {
    hide Spent;
    PathGrows(level, n);
    SpentHas(s, s', root, PathTo(level, n), PosAt(level - 1, n));
  }

  lemma StepMade(s: State, s1: State, s2: State, root: nat, level: nat, n: nat)
    requires root in s.trees && root in s1.trees && root in s2.trees && 0 < level <= 2
    requires Spent(s, s1, root, PathTo(level, n), 0) && Spent(s1, s2, root, {PosAt(level - 1, n)}, 0)
    ensures Spent(s, s2, root, PathTo(level - 1, n), 0)
  {
    hide Spent;
    PathGrows(level, n);
    SpentTwice(s, s1, s2, root, PathTo(level, n), 0, {PosAt(level - 1, n)}, 0);
  }

  lemma StepShort(s: State, s1: State, root: nat, level: nat, n: nat)
    requires root in s.trees && root in s1.trees && 0 < level <= 2
    requires Spent(s, s1, root, PathTo(level, n), 0) && Short(s1, root, {PosAt(level - 1, n)}, 0)
    ensures Short(s, root, Path(n), 0)
  {
    hide Spent, Short;
    PathGrows(level, n);
    SpentThenShort(s, s1, root, PathTo(level, n), 0, {PosAt(level - 1, n)}, 0);
    ShortOfMore(s, root, PathTo(level - 1, n), 0, Path(n), 0);
  }

  // --- one more page ---

  /** After the pages of done, page n was mapped too, with data pages of its own. */
  lemma NextSpent(s: State, s1: State, s2: State, root: nat, done: set<nat>, data: nat, n: nat, data': nat)
    requires root in s.trees && root in s1.trees && root in s2.trees
    requires Spent(s, s1, root, Paths(done), data) && Spent(s1, s2, root, Path(n), data')
    ensures Spent(s, s2, root, Paths(done + {n}), data + data')
  {
    hide Spent;
    PathsAdd(done, n);
    SpentTwice(s, s1, s2, root, Paths(done), data, Path(n), data');
  }

  /** After the pages of done, page n could not be mapped: all of the pages were too many. */
  lemma NextShort(s: State, s1: State, root: nat, done: set<nat>, data: nat, n: nat, data': nat, all: set<nat>, total: nat)
    requires root in s.trees && root in s1.trees && done + {n} <= all && data + data' <= total
    requires Spent(s, s1, root, Paths(done), data) && Short(s1, root, Path(n), data')
    ensures Short(s, root, Paths(all), total)
  {
    hide Spent, Short, Paths;
    PathsAdd(done, n);
    SpentThenShort(s, s1, root, Paths(done), data, Path(n), data');
    PathsMore(done + {n}, all);
    ShortOfMore(s, root, Paths(done + {n}), data + data', Paths(all), total);
  }
}
