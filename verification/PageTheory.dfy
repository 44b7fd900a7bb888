/** Sv39 page tables as a pointer tree in physical pages, and the ownership of those pages.
    A memory word is seen through its page-table-entry fields; PteCodec below says that this loses
    nothing. Virtual addresses are page numbers, below MAXVA / PGSIZE.
 */
module PageTheory {

  const PGSIZE := 4096
  const MAXPAGES := 0x400_0000 // MAXVA / PGSIZE
  const PHYSTOP := 0x8800_0000

  datatype Flags = Flags(v: bool, r: bool, w: bool, x: bool, u: bool, rest: nat)

  datatype Word = Word(ppn: nat, flags: Flags)

  const ZERO := Word(0, Flags(false, false, false, false, false, 0))

  // --- page-table entries as 64-bit integers ---

  function Bit(b: bool): nat { if b then 1 else 0 }

  function FlagBits(f: Flags): nat {
    Bit(f.v) + 2 * Bit(f.r) + 4 * Bit(f.w) + 8 * Bit(f.x) + 16 * Bit(f.u) + 32 * f.rest
  }

  function Encode(w: Word): nat { w.ppn * 1024 + FlagBits(w.flags) }

  function Decode(x: nat): Word {
    var x1 := x / 2;
    var x2 := x1 / 2;
    var x3 := x2 / 2;
    var x4 := x3 / 2;
    var x5 := x4 / 2;
    Word(x5 / 32, Flags(x % 2 == 1, x1 % 2 == 1, x2 % 2 == 1, x3 % 2 == 1, x4 % 2 == 1, x5 % 32))
  }

  /** PA2PTE and PTE2PA */
  function Pa2Pte(pa: nat): nat { pa / 4096 * 1024 }

  function Pte2Pa(pte: nat): nat { pte / 1024 * 4096 % 0x1_0000_0000_0000_0000 }

  function Pa(w: Word): nat { w.ppn * 4096 }

  lemma Halve(x: nat, y: nat, b: bool)
    requires x == 2 * y + Bit(b)
    ensures x / 2 == y && (x % 2 == 1 <==> b)
  {
  }

  lemma DecodeEncode(w: Word)
    requires w.flags.rest < 32
    ensures Decode(Encode(w)) == w
  {
    var f := w.flags;
    var x5 := w.ppn * 32 + f.rest;
    var x4 := 2 * x5 + Bit(f.u);
    var x3 := 2 * x4 + Bit(f.x);
    var x2 := 2 * x3 + Bit(f.w);
    var x1 := 2 * x2 + Bit(f.r);
    Halve(Encode(w), x1, f.v);
    Halve(x1, x2, f.r);
    Halve(x2, x3, f.w);
    Halve(x3, x4, f.x);
    Halve(x4, x5, f.u);
    assert x5 / 32 == w.ppn && x5 % 32 == f.rest;
  }

  lemma EncodeDecode(x: nat)
    ensures Encode(Decode(x)) == x
  {
    var x1 := x / 2;
    assert x == 2 * x1 + Bit(x % 2 == 1);
    var x2 := x1 / 2;
    assert x1 == 2 * x2 + Bit(x1 % 2 == 1);
    var x3 := x2 / 2;
    assert x2 == 2 * x3 + Bit(x2 % 2 == 1);
    var x4 := x3 / 2;
    assert x3 == 2 * x4 + Bit(x3 % 2 == 1);
    var x5 := x4 / 2;
    assert x4 == 2 * x5 + Bit(x4 % 2 == 1);
    assert x5 == 32 * (x5 / 32) + x5 % 32;
  }

  lemma FieldsSplit(ppn: nat, bits: nat)
    requires bits < 1024
    ensures (ppn * 1024 + bits) / 1024 == ppn && (ppn * 1024 + bits) % 1024 == bits
  {
  }

  /** The entry mappages stores, PA2PTE(pa) | perm | PTE_V, gives back the address and the flags,
      for every page address of Sv39. So entries for different pages or permissions differ. */
  lemma PteCodec(pa: nat, perm: Flags)
    requires pa % 4096 == 0 && pa < 0x100_0000_0000_0000 && perm.rest < 32
    ensures var w := Word(pa / 4096, perm);
            && Encode(w) == Pa2Pte(pa) + FlagBits(perm) < 0x1_0000_0000_0000_0000
            && Pte2Pa(Encode(w)) == pa == Pa(w) && Encode(w) % 1024 == FlagBits(perm)
            && Decode(Encode(w)) == w
  {
    var w := Word(pa / 4096, perm);
    DecodeEncode(w);
    FieldsSplit(pa / 4096, FlagBits(perm));
  }

  // --- positions in the tree ---

  /** PX(level, va) for page number n */
  function PX(level: nat, n: nat): nat
    requires level <= 2
  {
    if level == 0 then n % 512 else if level == 1 then n / 512 % 512 else n / 262144 % 512
  }

  /** The indices are the digits of the page number. */
  lemma IndexDigits(n: nat)
    requires n < MAXPAGES
    ensures n == PX(2, n) * 262144 + PX(1, n) * 512 + PX(0, n)
    ensures PX(2, n) < 256 && PX(1, n) < 512 && PX(0, n) < 512
  {
    assert n / 262144 == n / 512 / 512;
    assert n / 512 == n / 512 / 512 * 512 + n / 512 % 512;
  }

  /** Different pages below MAXVA differ in some index. */
  lemma IndexInjective(n: nat, m: nat)
    requires n < MAXPAGES && m < MAXPAGES && n != m
    ensures PX(2, n) != PX(2, m) || PX(1, n) != PX(1, m) || PX(0, n) != PX(0, m)
  {
    IndexDigits(n);
    IndexDigits(m);
  }

  /** Where a page-table page hangs: the root, under one index, or under two. */
  datatype Pos = Top | Mid(i2: nat) | Low(i2: nat, i1: nat)

  function PosAt(level: nat, n: nat): Pos
    requires level <= 2
  {
    if level == 2 then Top else if level == 1 then Mid(PX(2, n)) else Low(PX(2, n), PX(1, n))
  }

  /** MAXVA leaves the upper half of the root table unused. */
  predicate InTree(p: Pos) {
    match p
    case Top => true
    case Mid(a) => a < 256
    case Low(a, b) => a < 256 && b < 512
  }

  lemma PosInTree(level: nat, n: nat)
    requires level <= 2 && n < MAXPAGES
    ensures InTree(PosAt(level, n))
  {
    assert n / 262144 < 256;
  }

  function Child(p: Pos, i: nat): Pos
    requires !p.Low?
  {
    if p.Top? then Mid(i) else Low(p.i2, i)
  }

  function Parent(p: Pos): Pos
    requires !p.Top?
  {
    if p.Mid? then Top else Mid(p.i2)
  }

  predicate Under(q: Pos, p: Pos) {
    match p
    case Top => true
    case Mid(a) => !q.Top? && q.i2 == a
    case Low(_, _) => q == p
  }

  // --- memory and translation ---

  type Mem = map<nat, seq<Word>>

  function Read(mem: Mem, pa: nat, i: nat): Word {
    if pa in mem && i < |mem[pa]| then mem[pa][i] else ZERO
  }

  function Write(mem: Mem, pa: nat, i: nat, w: Word): Mem
    requires pa in mem && i < |mem[pa]|
  {
    mem[pa := mem[pa][i := w]]
  }

  datatype Translation = Unmapped | Mapped(pa: nat, flags: Flags)

  function LeafOf(w: Word): Translation {
    if w.flags.v then Mapped(Pa(w), w.flags) else Unmapped
  }

  /** The hardware's reading of the tree: three dependent loads. */
  function Lookup(mem: Mem, root: nat, n: nat): Translation {
    var e2 := Read(mem, root, PX(2, n));
    if !e2.flags.v then Unmapped else
    var e1 := Read(mem, Pa(e2), PX(1, n));
    if !e1.flags.v then Unmapped else
    LeafOf(Read(mem, Pa(e1), PX(0, n)))
  }

  ghost predicate SameMap(mem: Mem, mem': Mem, root: nat) {
    forall n: nat | n < MAXPAGES :: Lookup(mem', root, n) == Lookup(mem, root, n)
  }

  // --- one tree ---

  type Tree = map<Pos, nat>

  predicate Branch(w: Word) {
    w.flags.v && !w.flags.r && !w.flags.w && !w.flags.x
  }

  predicate EntryOk(mem: Mem, t: Tree, p: Pos, i: nat)
    requires p in t && !p.Low?
  {
    var w := Read(mem, t[p], i);
    && (Child(p, i) in t <==> w.flags.v)
    && (Child(p, i) in t ==> Branch(w) && Pa(w) == t[Child(p, i)])
  }

  ghost predicate TableOk(mem: Mem, t: Tree, p: Pos)
    requires p in t
  {
    !p.Low? ==> forall i: nat | i < 512 :: EntryOk(mem, t, p, i)
  }

  ghost predicate TreeOk(mem: Mem, t: Tree, root: nat) {
    && Top in t && t[Top] == root
    && (forall p | p in t :: InTree(p) && (p.Top? || Parent(p) in t))
    && (forall p | p in t :: TableOk(mem, t, p))
  }

  /** In a well-formed tree the three loads end in the leaf table of the page, if there is one. */
  lemma LookupAt(mem: Mem, t: Tree, root: nat, n: nat)
    requires TreeOk(mem, t, root)
    ensures Lookup(mem, root, n)
         == if PosAt(0, n) in t then LeafOf(Read(mem, t[PosAt(0, n)], PX(0, n))) else Unmapped
  {
    assert TableOk(mem, t, Top);
    assert EntryOk(mem, t, Top, PX(2, n));
    if Mid(PX(2, n)) in t {
      assert TableOk(mem, t, Mid(PX(2, n)));
      assert EntryOk(mem, t, Mid(PX(2, n)), PX(1, n));
    } else {
      assert Parent(PosAt(0, n)) !in t;
    }
  }

  /** Only the tree's own pages matter. */
  lemma TreeFrame(mem: Mem, mem': Mem, t: Tree, root: nat)
    requires TreeOk(mem, t, root)
    requires forall p | p in t :: t[p] in mem && t[p] in mem' && mem'[t[p]] == mem[t[p]]
    ensures TreeOk(mem', t, root) && SameMap(mem, mem', root)
  {
    forall p | p in t
      ensures TableOk(mem', t, p)
    {
      if !p.Low? {
        forall i: nat | i < 512
          ensures EntryOk(mem', t, p, i)
        {
          assert TableOk(mem, t, p);
          assert EntryOk(mem, t, p, i);
        }
      }
    }
    forall n: nat | n < MAXPAGES
      ensures Lookup(mem', root, n) == Lookup(mem, root, n)
    {
      LookupAt(mem, t, root, n);
      LookupAt(mem', t, root, n);
    }
  }

  // --- ownership of pages ---

  datatype Owner = Free | Table(root: nat, pos: Pos) | Data

  /** Memory, the free list and who owns each allocator page. */
  datatype State = State(mem: Mem, freelist: nat, free: seq<nat>, owner: map<nat, Owner>, trees: map<nat, Tree>)

  function FreeFrom(free: seq<nat>, i: nat): nat {
    if i < |free| then free[i] else 0
  }

  predicate IsPage(mem: Mem, pa: nat) {
    0 < pa < PHYSTOP && pa % PGSIZE == 0 && pa in mem && |mem[pa]| == 512
  }

  predicate LinkOk(mem: Mem, free: seq<nat>, owner: map<nat, Owner>, i: nat)
    requires i < |free|
  {
    free[i] in owner && owner[free[i]] == Free && Encode(Read(mem, free[i], 0)) == FreeFrom(free, i + 1)
  }

  /** The list linked through the first word of each free page holds exactly the free pages. */
  ghost predicate FreeOk(mem: Mem, freelist: nat, free: seq<nat>, owner: map<nat, Owner>) {
    && freelist == FreeFrom(free, 0)
    && (forall i: nat | i < |free| :: LinkOk(mem, free, owner, i))
    && (forall i, j | 0 <= i < j < |free| :: free[i] != free[j])
    && (forall pa | pa in owner && owner[pa] == Free :: pa in free)
  }

  ghost predicate Labelled(owner: map<nat, Owner>, t: Tree, root: nat) {
    forall p | p in t :: t[p] in owner && owner[t[p]] == Table(root, p)
  }

  /** A page owned as a table is that table of that tree. */
  predicate InItsTree(owner: map<nat, Owner>, trees: map<nat, Tree>, pa: nat)
    requires pa in owner
  {
    match owner[pa]
    case Table(r, p) => r in trees && p in trees[r] && trees[r][p] == pa
    case _ => true
  }

  ghost predicate Labels(owner: map<nat, Owner>, trees: map<nat, Tree>) {
    && (forall r | r in trees :: Labelled(owner, trees[r], r))
    && (forall pa | pa in owner :: InItsTree(owner, trees, pa))
  }

  ghost predicate TreesOk(mem: Mem, trees: map<nat, Tree>) {
    forall r | r in trees :: TreeOk(mem, trees[r], r)
  }

  ghost predicate PagesOk(mem: Mem, owner: map<nat, Owner>) {
    forall pa | pa in owner :: IsPage(mem, pa)
  }

  ghost predicate Valid(s: State) {
    && PagesOk(s.mem, s.owner) && FreeOk(s.mem, s.freelist, s.free, s.owner)
    && Labels(s.owner, s.trees) && TreesOk(s.mem, s.trees)
  }

  ghost predicate SameMaps(mem: Mem, mem': Mem, trees: map<nat, Tree>) {
    forall r | r in trees :: SameMap(mem, mem', r)
  }

  predicate IsTable(owner: map<nat, Owner>, pa: nat) {
    pa in owner && owner[pa].Table?
  }

  lemma TreesFrame(mem: Mem, mem': Mem, owner: map<nat, Owner>, trees: map<nat, Tree>)
    requires Labels(owner, trees) && TreesOk(mem, trees)
    requires forall pa | IsTable(owner, pa) :: pa in mem && pa in mem' && mem'[pa] == mem[pa]
    ensures TreesOk(mem', trees) && SameMaps(mem, mem', trees)
  {
    forall r | r in trees
      ensures TreeOk(mem', trees[r], r) && SameMap(mem, mem', r)
    {
      assert Labelled(owner, trees[r], r);
      assert forall p | p in trees[r] :: IsTable(owner, trees[r][p]);
      TreeFrame(mem, mem', trees[r], r);
    }
  }

  /** Writing one page that is no table. */
  lemma WriteElsewhere(mem: Mem, owner: map<nat, Owner>, trees: map<nat, Tree>, pa: nat, page: seq<Word>)
    requires PagesOk(mem, owner) && Labels(owner, trees) && TreesOk(mem, trees) && !IsTable(owner, pa)
    ensures TreesOk(mem[pa := page], trees) && SameMaps(mem, mem[pa := page], trees)
  {
    forall q | IsTable(owner, q)
      ensures q in mem && mem[pa := page][q] == mem[q]
    {
      assert IsPage(mem, q);
    }
    TreesFrame(mem, mem[pa := page], owner, trees);
  }

  /** Relabelling one page that is not a table and does not become one. */
  lemma Relabel(owner: map<nat, Owner>, trees: map<nat, Tree>, pa: nat, o: Owner)
    requires Labels(owner, trees) && !IsTable(owner, pa) && !o.Table?
    ensures Labels(owner[pa := o], trees)
  {
    var owner' := owner[pa := o];
    forall r | r in trees
      ensures Labelled(owner', trees[r], r)
    {
      assert Labelled(owner, trees[r], r);
    }
    forall q | q in owner'
      ensures InItsTree(owner', trees, q)
    {
      assert q != pa ==> InItsTree(owner, trees, q);
    }
  }

  // --- kalloc and kfree ---

  function Filled(w: Word): seq<Word> { seq(512, _ => w) }

  function Take(s: State, junk: Word): State
    requires s.free != []
  {
    State(s.mem[s.free[0] := Filled(junk)], FreeFrom(s.free, 1), s.free[1..], s.owner[s.free[0] := Data], s.trees)
  }

  lemma TakeFree(mem: Mem, freelist: nat, free: seq<nat>, owner: map<nat, Owner>, page: seq<Word>)
    requires FreeOk(mem, freelist, free, owner) && free != []
    ensures FreeOk(mem[free[0] := page], FreeFrom(free, 1), free[1..], owner[free[0] := Data])
  {
    var mem', free', owner' := mem[free[0] := page], free[1..], owner[free[0] := Data];
    forall pa | pa in owner' && owner'[pa] == Free
      ensures pa in free'
    {
      assert pa in free && pa != free[0];
    }
    forall i: nat | i < |free'|
      ensures LinkOk(mem', free', owner', i)
    {
      assert LinkOk(mem, free, owner, i + 1);
      assert free'[i] == free[i + 1] != free[0];
    }
  }

  lemma TakeKeeps(s: State, junk: Word)
    requires Valid(s) && s.free != []
    ensures Valid(Take(s, junk)) && SameMaps(s.mem, Take(s, junk).mem, s.trees)
  {
    assert LinkOk(s.mem, s.free, s.owner, 0);
    TakeFree(s.mem, s.freelist, s.free, s.owner, Filled(junk));
    WriteElsewhere(s.mem, s.owner, s.trees, s.free[0], Filled(junk));
    Relabel(s.owner, s.trees, s.free[0], Data);
    assert PagesOk(Take(s, junk).mem, Take(s, junk).owner) by {
      assert forall pa | pa in s.owner :: IsPage(s.mem, pa);
    }
  }

  function Give(s: State, pa: nat, junk: Word): State {
    State(s.mem[pa := Filled(junk)[0 := Decode(s.freelist)]], pa, [pa] + s.free, s.owner[pa := Free], s.trees)
  }

  lemma GiveFree(mem: Mem, freelist: nat, free: seq<nat>, owner: map<nat, Owner>, pa: nat, page: seq<Word>)
    requires FreeOk(mem, freelist, free, owner) && (pa in owner ==> owner[pa] == Data)
    requires page != [] && Encode(page[0]) == freelist
    ensures FreeOk(mem[pa := page], pa, [pa] + free, owner[pa := Free])
  {
    var mem', free', owner' := mem[pa := page], [pa] + free, owner[pa := Free];
    forall k: nat | k < |free|
      ensures free[k] != pa
    {
      assert LinkOk(mem, free, owner, k);
    }
    forall i: nat | i < |free'|
      ensures LinkOk(mem', free', owner', i)
    {
      if i > 0 {
        assert LinkOk(mem, free, owner, i - 1);
        assert free'[i] == free[i - 1];
      }
    }
  }

  lemma GiveKeeps(s: State, pa: nat, junk: Word)
    requires Valid(s) && (pa in s.owner ==> s.owner[pa] == Data)
    requires 0 < pa < PHYSTOP && pa % PGSIZE == 0
    ensures Valid(Give(s, pa, junk)) && SameMaps(s.mem, Give(s, pa, junk).mem, s.trees)
  {
    var page := Filled(junk)[0 := Decode(s.freelist)];
    EncodeDecode(s.freelist);
    GiveFree(s.mem, s.freelist, s.free, s.owner, pa, page);
    WriteElsewhere(s.mem, s.owner, s.trees, pa, page);
    Relabel(s.owner, s.trees, pa, Free);
    assert PagesOk(Give(s, pa, junk).mem, Give(s, pa, junk).owner) by {
      assert forall q | q in s.owner :: IsPage(s.mem, q);
    }
  }

  /** Writing a page that is not free leaves the free list alone. */
  lemma FreeFrame(mem: Mem, freelist: nat, free: seq<nat>, owner: map<nat, Owner>, pa: nat, page: seq<Word>)
    requires FreeOk(mem, freelist, free, owner) && pa in owner && owner[pa] != Free
    ensures FreeOk(mem[pa := page], freelist, free, owner)
  {
    var mem' := mem[pa := page];
    forall i: nat | i < |free|
      ensures LinkOk(mem', free, owner, i)
    {
      assert LinkOk(mem, free, owner, i);
    }
  }

  /** Rewriting a data page. */
  lemma DataWriteKeeps(s: State, pa: nat, page: seq<Word>)
    requires Valid(s) && pa in s.owner && s.owner[pa] == Data && |page| == 512
    ensures var s' := s.(mem := s.mem[pa := page]); Valid(s') && SameMaps(s.mem, s'.mem, s.trees)
  {
    FreeFrame(s.mem, s.freelist, s.free, s.owner, pa, page);
    WriteElsewhere(s.mem, s.owner, s.trees, pa, page);
    assert PagesOk(s.mem[pa := page], s.owner) by {
      assert forall q | q in s.owner :: IsPage(s.mem, q);
    }
  }

  // --- tree updates ---

  /** Hanging the zeroed data page pa under entry i of table p. */
  function Hang(s: State, root: nat, p: Pos, i: nat, pa: nat): State
    requires root in s.trees && p in s.trees[root] && !p.Low?
    requires IsPage(s.mem, s.trees[root][p]) && i < 512
  {
    var w := Word(pa / PGSIZE, ZERO.flags.(v := true));
    var t: Tree := s.trees[root][Child(p, i) := pa];
    State(Write(s.mem, s.trees[root][p], i, w), s.freelist, s.free, s.owner[pa := Table(root, Child(p, i))], s.trees[root := t])
  }

  lemma HangTree(mem: Mem, mem': Mem, t: Tree, root: nat, p: Pos, i: nat, pa: nat)
    requires TreeOk(mem, t, root) && p in t && !p.Low? && i < 512 && Child(p, i) !in t && InTree(Child(p, i))
    requires t[p] in mem && |mem[t[p]]| == 512
    requires pa in mem && mem[pa] == Filled(ZERO) && pa % PGSIZE == 0 && (forall q | q in t :: t[q] != pa)
    requires forall q | q in t && q != p :: t[q] != t[p]
    requires mem' == Write(mem, t[p], i, Word(pa / PGSIZE, ZERO.flags.(v := true)))
    ensures TreeOk(mem', t[Child(p, i) := pa], root) && SameMap(mem, mem', root)
  {
    var t' := t[Child(p, i) := pa];
    forall q | q in t'
      ensures TableOk(mem', t', q)
    {
      if !q.Low? {
        forall j: nat | j < 512
          ensures EntryOk(mem', t', q, j)
        {
          if q in t {
            assert TableOk(mem, t, q);
            assert EntryOk(mem, t, q, j);
          } else {
            assert Child(q, j) in t ==> Parent(Child(q, j)) in t;
          }
        }
      }
    }
    forall n: nat | n < MAXPAGES
      ensures Lookup(mem', root, n) == Lookup(mem, root, n)
    {
      LookupAt(mem, t, root, n);
      LookupAt(mem', t', root, n);
    }
  }

  /** A tree other than the one whose table pa is written keeps its form and its mappings. */
  lemma OtherTree(s: State, root: nat, p: Pos, page: seq<Word>, r: nat)
    requires Valid(s) && root in s.trees && p in s.trees[root] && r in s.trees && r != root
    ensures TreeOk(s.mem[s.trees[root][p] := page], s.trees[r], r)
    ensures SameMap(s.mem, s.mem[s.trees[root][p] := page], r)
  {
    assert Labelled(s.owner, s.trees[root], root) && Labelled(s.owner, s.trees[r], r);
    forall q | q in s.trees[r]
      ensures s.trees[r][q] in s.mem && s.trees[r][q] != s.trees[root][p]
    {
      assert IsPage(s.mem, s.trees[r][q]);
    }
    TreeFrame(s.mem, s.mem[s.trees[root][p] := page], s.trees[r], r);
  }

  lemma HangLabels(owner: map<nat, Owner>, trees: map<nat, Tree>, root: nat, q: Pos, pa: nat, t: Tree)
    requires Labels(owner, trees) && root in trees && q !in trees[root] && t == trees[root][q := pa]
    requires pa in owner && owner[pa] == Data
    ensures Labels(owner[pa := Table(root, q)], trees[root := t])
  {
    var owner', trees' := owner[pa := Table(root, q)], trees[root := t];
    forall r | r in trees'
      ensures Labelled(owner', trees'[r], r)
    {
      assert Labelled(owner, trees[r], r);
    }
    forall x | x in owner'
      ensures InItsTree(owner', trees', x)
    {
      assert InItsTree(owner, trees, x);
    }
  }

  lemma HangFree(mem: Mem, freelist: nat, free: seq<nat>, owner: map<nat, Owner>, pa: nat, o: Owner)
    requires FreeOk(mem, freelist, free, owner) && pa in owner && owner[pa] != Free && o != Free
    ensures FreeOk(mem, freelist, free, owner[pa := o])
  {
    var owner' := owner[pa := o];
    forall i: nat | i < |free|
      ensures LinkOk(mem, free, owner', i)
    {
      assert LinkOk(mem, free, owner, i);
    }
  }

  lemma HangKeeps(s: State, root: nat, p: Pos, i: nat, pa: nat)
    requires Valid(s) && root in s.trees && p in s.trees[root] && !p.Low? && i < 512
    requires Child(p, i) !in s.trees[root] && InTree(Child(p, i))
    requires pa in s.owner && s.owner[pa] == Data && s.mem[pa] == Filled(ZERO)
    requires IsPage(s.mem, s.trees[root][p])
    ensures Valid(Hang(s, root, p, i, pa)) && SameMaps(s.mem, Hang(s, root, p, i, pa).mem, s.trees)
  {
    hide TreeOk, SameMap, FreeOk;
    var s' := Hang(s, root, p, i, pa);
    var t := s.trees[root];
    var page := s'.mem[t[p]];
    assert Labelled(s.owner, t, root) && IsPage(s.mem, pa);
    HangTree(s.mem, s'.mem, t, root, p, i, pa);
    HangLabels(s.owner, s.trees, root, Child(p, i), pa, s'.trees[root]);
    FreeFrame(s.mem, s.freelist, s.free, s.owner, t[p], page);
    HangFree(s'.mem, s.freelist, s.free, s.owner, pa, Table(root, Child(p, i)));
    var mem' := s'.mem;
    forall r | r in s.trees && r != root
      ensures TreeOk(mem', s.trees[r], r) && SameMap(s.mem, mem', r)
    {
      OtherTree(s, root, p, page, r);
    }
    assert PagesOk(s'.mem, s'.owner) by {
      assert forall q | q in s.owner :: IsPage(s.mem, q);
    }
  }

  /** Storing an entry for page n in its leaf table. */
  function Store(s: State, root: nat, n: nat, w: Word): State
    requires root in s.trees && PosAt(0, n) in s.trees[root] && IsPage(s.mem, s.trees[root][PosAt(0, n)])
  {
    s.(mem := Write(s.mem, s.trees[root][PosAt(0, n)], PX(0, n), w))
  }

  /** s' maps n under root as given and every other page of every tree as before. */
  ghost predicate Remapped(s: State, s': State, root: nat, n: nat, entry: Translation) {
    && Lookup(s'.mem, root, n) == entry
    && (forall m: nat | m < MAXPAGES && m != n :: Lookup(s'.mem, root, m) == Lookup(s.mem, root, m))
    && (forall r | r in s.trees && r != root :: SameMap(s.mem, s'.mem, r))
  }

  lemma StoreTree(mem: Mem, mem': Mem, t: Tree, root: nat, n: nat, w: Word)
    requires TreeOk(mem, t, root) && PosAt(0, n) in t && n < MAXPAGES
    requires t[PosAt(0, n)] in mem && |mem[t[PosAt(0, n)]]| == 512
    requires forall q | q in t && q != PosAt(0, n) :: t[q] != t[PosAt(0, n)]
    requires mem' == Write(mem, t[PosAt(0, n)], PX(0, n), w)
    ensures TreeOk(mem', t, root) && Lookup(mem', root, n) == LeafOf(w)
    ensures forall m: nat | m < MAXPAGES && m != n :: Lookup(mem', root, m) == Lookup(mem, root, m)
  {
    forall q | q in t
      ensures TableOk(mem', t, q)
    {
      if !q.Low? {
        forall j: nat | j < 512
          ensures EntryOk(mem', t, q, j)
        {
          assert TableOk(mem, t, q);
          assert EntryOk(mem, t, q, j);
        }
      }
    }
    LookupAt(mem', t, root, n);
    forall m: nat | m < MAXPAGES && m != n
      ensures Lookup(mem', root, m) == Lookup(mem, root, m)
    {
      IndexInjective(n, m);
      LookupAt(mem, t, root, m);
      LookupAt(mem', t, root, m);
    }
  }

  lemma StoreKeeps(s: State, root: nat, n: nat, w: Word)
    requires Valid(s) && root in s.trees && PosAt(0, n) in s.trees[root] && n < MAXPAGES
    requires IsPage(s.mem, s.trees[root][PosAt(0, n)])
    ensures Valid(Store(s, root, n, w)) && Remapped(s, Store(s, root, n, w), root, n, LeafOf(w))
  {
    hide TreeOk, SameMap, FreeOk;
    var s' := Store(s, root, n, w);
    var t := s.trees[root];
    var page := s'.mem[t[PosAt(0, n)]];
    assert Labelled(s.owner, t, root);
    StoreTree(s.mem, s'.mem, t, root, n, w);
    FreeFrame(s.mem, s.freelist, s.free, s.owner, t[PosAt(0, n)], page);
    var mem' := s'.mem;
    forall r | r in s.trees && r != root
      ensures TreeOk(mem', s.trees[r], r) && SameMap(s.mem, mem', r)
    {
      OtherTree(s, root, PosAt(0, n), page, r);
    }
    assert PagesOk(s'.mem, s'.owner) by {
      assert forall q | q in s.owner :: IsPage(s.mem, q);
    }
  }
}
