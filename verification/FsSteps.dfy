/** The single changes that balloc, bfree, bmap, itrunc and writei make, each shown to keep the
    block ownership and to change no file it should not.
 */
module FsSteps {
  import opened FsBytes
  import opened FsTheory

  /** Nothing about the files changed: same inodes, same mapping, same blocks. */
  ghost predicate Untouched(fs: Fs, fs': Fs) {
    && fs'.inodes == fs.inodes && fs'.owner == fs.owner && Extends(fs, fs')
    && forall i, k: nat | i in fs.inodes :: BlockOf(fs'.disk, fs.inodes[i], k) == BlockOf(fs.disk, fs.inodes[i], k)
  }

  // --- the free map ---

  /** The disk with a's bit changed. */
  function Flip(g: Geometry, disk: seq<Block>, a: nat, on: bool): (disk': seq<Block>)
    requires g.bmapstart + a / BPB < |disk|
  {
    var bb := g.bmapstart + a / BPB;
    disk[bb := SetBitAt(disk[bb], a % BPB, on)]
  }

  lemma FlipGet(g: Geometry, disk: seq<Block>, a: nat, on: bool, c: nat)
    requires g.bmapstart + a / BPB < |disk|
    ensures InUse(g, Flip(g, disk, a, on), c) <==> if c == a then on else InUse(g, disk, c)
  {
    if c / BPB == a / BPB {
      SetBitGet(disk[g.bmapstart + a / BPB], a % BPB, on, c % BPB);
    }
  }

  lemma BitmapBlock(g: Geometry, a: nat)
    requires GeometryOk(g) && a < g.size
    ensures 0 < g.bmapstart + a / BPB < g.datastart
  {
  }

  lemma ReservedUnowned(g: Geometry, fs: Fs, b: nat)
    requires RefsOk(g, fs) && b < g.datastart
    ensures b !in fs.owner
  {
    assert b in fs.owner ==> SlotOk(g, fs, b);
  }

  /** Setting a free block's bit, or clearing a pending block's. */
  lemma FlipKeeps(g: Geometry, fs: Fs, pending: set<nat>, a: nat, on: bool)
    requires Valid(g, fs, pending) && g.datastart <= a < g.size
    requires if on then !InUse(g, fs.disk, a) else a in pending
    ensures g.bmapstart + a / BPB < |fs.disk|
    ensures var fs' := fs.(disk := Flip(g, fs.disk, a, on));
            Valid(g, fs', if on then pending + {a} else pending - {a}) && Untouched(fs, fs')
  {
    BitmapBlock(g, a);
    ReservedUnowned(g, fs, g.bmapstart + a / BPB);
    var fs' := fs.(disk := Flip(g, fs.disk, a, on));
    UnownedKeeps(g, fs, g.bmapstart + a / BPB, fs'.disk[g.bmapstart + a / BPB]);
    var pending' := if on then pending + {a} else pending - {a};
    assert BitOk(g, fs, pending, a);
    forall c: nat | c < g.size
      ensures BitOk(g, fs', pending', c)
    {
      assert BitOk(g, fs, pending, c);
      FlipGet(g, fs.disk, a, on, c);
    }
  }

  /** The bits do not change with a block outside the free map. */
  lemma BitsFrame(g: Geometry, fs: Fs, fs': Fs, pending: set<nat>)
    requires GeometryOk(g) && BitsOk(g, fs, pending) && |fs'.disk| == |fs.disk| && fs'.owner == fs.owner
    requires forall b: nat | b < g.datastart && b < |fs.disk| :: fs'.disk[b] == fs.disk[b]
    ensures BitsOk(g, fs', pending)
  {
    forall a: nat | a < g.size
      ensures BitOk(g, fs', pending, a)
    {
      assert BitOk(g, fs, pending, a);
      BitmapBlock(g, a);
    }
  }

  /** Writing a pending block. */
  lemma PendingKeeps(g: Geometry, fs: Fs, pending: set<nat>, a: nat, blk: Block)
    requires Valid(g, fs, pending) && a in pending
    ensures var fs' := fs.(disk := fs.disk[a := blk]); Valid(g, fs', pending) && Untouched(fs, fs')
  {
    UnownedKeeps(g, fs, a, blk);
    BitsFrame(g, fs, fs.(disk := fs.disk[a := blk]), pending);
  }

  // --- giving a pending block to a slot ---

  /** Moving a from pending to the owner map. */
  lemma BitsAssigned(g: Geometry, fs: Fs, fs': Fs, pending: set<nat>, a: nat, slot: Slot)
    requires GeometryOk(g) && BitsOk(g, fs, pending) && a in pending && fs'.owner == fs.owner[a := slot]
    requires |fs'.disk| == |fs.disk| && forall b: nat | b < g.datastart && b < |fs.disk| :: fs'.disk[b] == fs.disk[b]
    ensures BitsOk(g, fs', pending - {a})
  {
    forall c: nat | c < g.size
      ensures BitOk(g, fs', pending - {a}, c)
    {
      assert BitOk(g, fs, pending, c);
      BitmapBlock(g, c);
    }
  }

  /** i's mapping gets a at bn and is otherwise as it was. */
  ghost predicate MapsNew(fs: Fs, fs': Fs, i: nat, bn: nat, a: nat) {
    && Extends(fs, fs') && i in fs.inodes
    && BlockOf(fs'.disk, fs'.inodes[i], bn) == a
    && (forall k: nat | k != bn :: BlockOf(fs'.disk, fs'.inodes[i], k) == BlockOf(fs.disk, fs.inodes[i], k))
    && (forall j | j in fs.inodes && j != i :: fs'.inodes[j] == fs.inodes[j])
  }

  /** Giving the pending block a to block bn of file i, when nothing but i's mapping changes. */
  lemma AssignRefs(g: Geometry, fs: Fs, fs': Fs, i: nat, bn: nat, a: nat)
    requires GeometryOk(g) && RefsOk(g, fs) && i in fs.inodes && bn < MAXFILE && a != 0
    requires g.datastart <= a < g.size && a !in fs.owner && fs'.owner == fs.owner[a := Data(i, bn)]
    requires BlockOf(fs.disk, fs.inodes[i], bn) == 0 && |fs'.disk| == |fs.disk|
    requires fs'.inodes.Keys == fs.inodes.Keys && fs'.inodes[i].size == fs.inodes[i].size
    requires |fs'.inodes[i].addrs| == NDIRECT + 1 && fs'.inodes[i].addrs[NDIRECT] == fs.inodes[i].addrs[NDIRECT]
    requires BlockOf(fs'.disk, fs'.inodes[i], bn) == a
    requires forall k: nat | k != bn :: BlockOf(fs'.disk, fs'.inodes[i], k) == BlockOf(fs.disk, fs.inodes[i], k)
    requires forall j | j in fs.inodes && j != i :: fs'.inodes[j] == fs.inodes[j]
    requires forall j, k: nat | j in fs.inodes && j != i :: BlockOf(fs'.disk, fs.inodes[j], k) == BlockOf(fs.disk, fs.inodes[j], k)
    ensures RefsOk(g, fs')
  {
    forall j | j in fs'.inodes
      ensures InodeOk(fs', j)
    {
      assert InodeOk(fs, j);
      forall k: nat | k < MAXFILE
        ensures RefOk(fs', j, k)
      {
        assert RefOk(fs, j, k);
      }
    }
    forall c | c in fs'.owner
      ensures SlotOk(g, fs', c)
    {
      assert c != a ==> SlotOk(g, fs, c);
    }
  }

  /** Direct slot bn of inode i gets block a. */
  function WithAddr(fs: Fs, i: nat, k: nat, a: nat, slot: Slot): (fs': Fs)
    requires i in fs.inodes && k < |fs.inodes[i].addrs|
  {
    var ip := fs.inodes[i];
    Fs(fs.disk, fs.inodes[i := ip.(addrs := ip.addrs[k := a])], fs.owner[a := slot])
  }

  lemma AssignDirect(g: Geometry, fs: Fs, pending: set<nat>, i: nat, bn: nat, a: nat)
    requires Valid(g, fs, pending) && a in pending && a != 0 && i in fs.inodes && bn < NDIRECT
    requires |fs.inodes[i].addrs| == NDIRECT + 1 && fs.inodes[i].addrs[bn] == 0
    ensures var fs' := WithAddr(fs, i, bn, a, Data(i, bn)); Valid(g, fs', pending - {a}) && MapsNew(fs, fs', i, bn, a)
  {
    var fs' := WithAddr(fs, i, bn, a, Data(i, bn));
    AssignRefs(g, fs, fs', i, bn, a);
    BitsAssigned(g, fs, fs', pending, a, Data(i, bn));
    assert fs'.inodes.Keys == fs.inodes.Keys;
    forall j, k: nat | j in fs.inodes
      ensures KeptAt(fs, fs', j, k)
    {
      RefOnDisk(g, fs, j, k);
    }
  }

  /** Inode i gets the zeroed block a as its indirect block. */
  lemma AssignIndirect(g: Geometry, fs: Fs, pending: set<nat>, i: nat, a: nat)
    requires Valid(g, fs, pending) && a in pending && a != 0 && i in fs.inodes && fs.disk[a] == ZERO_BLOCK
    requires |fs.inodes[i].addrs| == NDIRECT + 1 && fs.inodes[i].addrs[NDIRECT] == 0
    ensures var fs' := WithAddr(fs, i, NDIRECT, a, Ind(i));
            && Valid(g, fs', pending - {a}) && Extends(fs, fs')
            && (forall k: nat :: BlockOf(fs'.disk, fs'.inodes[i], k) == BlockOf(fs.disk, fs.inodes[i], k))
  {
    var fs' := WithAddr(fs, i, NDIRECT, a, Ind(i));
    assert forall k: nat :: BlockOf(fs'.disk, fs'.inodes[i], k) == BlockOf(fs.disk, fs.inodes[i], k);
    IndirectRefs(g, fs, fs', i, a);
    BitsAssigned(g, fs, fs', pending, a, Ind(i));
    assert fs'.inodes.Keys == fs.inodes.Keys;
    forall j, k: nat | j in fs.inodes
      ensures KeptAt(fs, fs', j, k)
    {
      RefOnDisk(g, fs, j, k);
    }
  }

  lemma IndirectRefs(g: Geometry, fs: Fs, fs': Fs, i: nat, a: nat)
    requires GeometryOk(g) && RefsOk(g, fs) && i in fs.inodes && a != 0 && g.datastart <= a < g.size && a !in fs.owner
    requires |fs.inodes[i].addrs| == NDIRECT + 1 && fs.inodes[i].addrs[NDIRECT] == 0
    requires fs' == WithAddr(fs, i, NDIRECT, a, Ind(i))
    requires forall k: nat :: BlockOf(fs'.disk, fs'.inodes[i], k) == BlockOf(fs.disk, fs.inodes[i], k)
    ensures RefsOk(g, fs')
  {
    forall j | j in fs'.inodes
      ensures InodeOk(fs', j)
    {
      assert InodeOk(fs, j);
      forall k: nat | k < MAXFILE
        ensures RefOk(fs', j, k)
      {
        assert RefOk(fs, j, k);
      }
    }
    forall c | c in fs'.owner
      ensures SlotOk(g, fs', c)
    {
      assert c != a ==> SlotOk(g, fs, c);
    }
  }

  /** Entry bn - NDIRECT of i's indirect block gets block a. */
  function WithEntry(fs: Fs, i: nat, bn: nat, a: nat): (fs': Fs)
    requires i in fs.inodes && |fs.inodes[i].addrs| == NDIRECT + 1 && NDIRECT <= bn < MAXFILE && a < 0x1_0000_0000
    requires fs.inodes[i].addrs[NDIRECT] < |fs.disk|
  {
    var ind := fs.inodes[i].addrs[NDIRECT];
    Fs(fs.disk[ind := SetWord(fs.disk[ind], bn - NDIRECT, a)], fs.inodes, fs.owner[a := Data(i, bn)])
  }

  lemma EntryMaps(g: Geometry, fs: Fs, i: nat, bn: nat, a: nat, fs': Fs)
    requires GeometryOk(g) && RefsOk(g, fs) && i in fs.inodes && |fs.inodes[i].addrs| == NDIRECT + 1
    requires NDIRECT <= bn < MAXFILE && 0 < a < g.size && 0 < fs.inodes[i].addrs[NDIRECT] < |fs.disk|
    requires fs' == WithEntry(fs, i, bn, a)
    ensures BlockOf(fs'.disk, fs'.inodes[i], bn) == a
    ensures forall k: nat | k != bn :: BlockOf(fs'.disk, fs'.inodes[i], k) == BlockOf(fs.disk, fs.inodes[i], k)
    ensures forall j, k: nat | j in fs.inodes && j != i :: BlockOf(fs'.disk, fs.inodes[j], k) == BlockOf(fs.disk, fs.inodes[j], k)
  {
    var ind := fs.inodes[i].addrs[NDIRECT];
    assert InodeOk(fs, i);
    forall k: nat | k < MAXFILE
      ensures BlockOf(fs'.disk, fs'.inodes[i], k) == if k == bn then a else BlockOf(fs.disk, fs.inodes[i], k)
    {
      if k >= NDIRECT {
        SetWordGet(fs.disk[ind], bn - NDIRECT, a, k - NDIRECT);
      }
    }
    forall j, k: nat | j in fs.inodes && j != i
      ensures BlockOf(fs'.disk, fs.inodes[j], k) == BlockOf(fs.disk, fs.inodes[j], k)
    {
      assert InodeOk(fs, j);
      MapFrame(fs.disk, fs.inodes[j], ind, fs'.disk[ind], k);
    }
  }

  /** An indirect block holds no file's bytes. */
  lemma IndirectHoldsNoData(g: Geometry, fs: Fs, i: nat, j: nat, k: nat)
    requires RefsOk(g, fs) && i in fs.inodes && j in fs.inodes && |fs.inodes[i].addrs| == NDIRECT + 1
    requires fs.inodes[i].addrs[NDIRECT] != 0
    ensures BlockOf(fs.disk, fs.inodes[j], k) != fs.inodes[i].addrs[NDIRECT]
  {
    assert InodeOk(fs, i) && InodeOk(fs, j);
    assert k < MAXFILE ==> RefOk(fs, j, k);
  }

  lemma AssignEntry(g: Geometry, fs: Fs, pending: set<nat>, i: nat, bn: nat, a: nat)
    requires Valid(g, fs, pending) && a in pending && a != 0 && i in fs.inodes && NDIRECT <= bn < MAXFILE
    requires |fs.inodes[i].addrs| == NDIRECT + 1 && 0 < fs.inodes[i].addrs[NDIRECT] < |fs.disk|
    requires BlockOf(fs.disk, fs.inodes[i], bn) == 0
    ensures var fs' := WithEntry(fs, i, bn, a); Valid(g, fs', pending - {a}) && MapsNew(fs, fs', i, bn, a)
  {
    var fs', ind := WithEntry(fs, i, bn, a), fs.inodes[i].addrs[NDIRECT];
    assert InodeOk(fs, i) && SlotOk(g, fs, ind);
    EntryMaps(g, fs, i, bn, a, fs');
    AssignRefs(g, fs, fs', i, bn, a);
    BitsAssigned(g, fs, fs', pending, a, Data(i, bn));
    forall j, k: nat | j in fs.inodes
      ensures KeptAt(fs, fs', j, k)
    {
      RefOnDisk(g, fs, j, k);
      IndirectHoldsNoData(g, fs, i, j, k);
    }
  }

  // --- writing a file's block ---

  /** Block bn of file i gets new contents; every other block of every file keeps its own. */
  ghost predicate Rewritten(fs: Fs, fs': Fs, i: nat, bn: nat, blk: Block) {
    && fs'.inodes == fs.inodes && i in fs.inodes
    && (forall j, k: nat | j in fs.inodes :: BlockOf(fs'.disk, fs.inodes[j], k) == BlockOf(fs.disk, fs.inodes[j], k))
    && BlockOf(fs.disk, fs.inodes[i], bn) < |fs'.disk| && fs'.disk[BlockOf(fs.disk, fs.inodes[i], bn)] == blk
    && (forall j, k: nat | j in fs.inodes && !(j == i && k == bn) :: KeptAt(fs, fs', j, k))
  }

  lemma WriteKeeps(g: Geometry, fs: Fs, i: nat, bn: nat, blk: Block)
    requires Valid(g, fs, {}) && i in fs.inodes && bn < MAXFILE
    requires 0 < BlockOf(fs.disk, fs.inodes[i], bn) < |fs.disk|
    ensures var fs' := fs.(disk := fs.disk[BlockOf(fs.disk, fs.inodes[i], bn) := blk]);
            Valid(g, fs', {}) && Rewritten(fs, fs', i, bn, blk)
  {
    var a := BlockOf(fs.disk, fs.inodes[i], bn);
    var fs' := fs.(disk := fs.disk[a := blk]);
    assert InodeOk(fs, i) && RefOk(fs, i, bn) && SlotOk(g, fs, a);
    forall j, k: nat | j in fs.inodes
      ensures BlockOf(fs'.disk, fs.inodes[j], k) == BlockOf(fs.disk, fs.inodes[j], k)
      ensures !(j == i && k == bn) ==> KeptAt(fs, fs', j, k)
    {
      assert InodeOk(fs, j);
      assert k < MAXFILE ==> RefOk(fs, j, k);
      MapFrame(fs.disk, fs.inodes[j], a, blk, k);
      RefOnDisk(g, fs, j, k);
    }
    forall j | j in fs.inodes
      ensures InodeOk(fs', j)
    {
      assert InodeOk(fs, j);
      forall k: nat | k < MAXFILE
        ensures RefOk(fs', j, k)
      {
        assert RefOk(fs, j, k);
      }
    }
    forall c | c in fs.owner
      ensures SlotOk(g, fs', c)
    {
      assert SlotOk(g, fs, c);
    }
    BitsFrame(g, fs, fs', {});
  }

  // --- sizes and truncation ---

  function WithInode(fs: Fs, i: nat, ip: Inode): (fs': Fs) {
    fs.(inodes := fs.inodes[i := ip])
  }

  /** A file's size may become anything its blocks cover. */
  lemma ResizeKeeps(g: Geometry, fs: Fs, pending: set<nat>, i: nat, size: nat)
    requires Valid(g, fs, pending) && i in fs.inodes
    requires forall bn: nat | bn * BSIZE < size :: BlockOf(fs.disk, fs.inodes[i], bn) != 0
    ensures Valid(g, WithInode(fs, i, fs.inodes[i].(size := size)), pending)
  {
    var fs' := WithInode(fs, i, fs.inodes[i].(size := size));
    forall j | j in fs.inodes
      ensures NoHoles(fs', j)
    {
      assert InodeOk(fs, j);
      assert forall bn: nat :: BlockOf(fs'.disk, fs'.inodes[j], bn) == BlockOf(fs.disk, fs.inodes[j], bn);
    }
    SameMappingRefs(g, fs, fs');
    assert forall a: nat | a < g.size :: BitOk(g, fs, pending, a) ==> BitOk(g, fs', pending, a);
  }

  lemma SameMappingRefs(g: Geometry, fs: Fs, fs': Fs)
    requires RefsOk(g, fs) && fs'.disk == fs.disk && fs'.owner == fs.owner && fs'.inodes.Keys == fs.inodes.Keys
    requires forall j | j in fs.inodes :: fs'.inodes[j].addrs == fs.inodes[j].addrs && NoHoles(fs', j)
    ensures RefsOk(g, fs')
  {
    forall j | j in fs.inodes
      ensures InodeOk(fs', j)
    {
      assert InodeOk(fs, j);
      forall k: nat | k < MAXFILE
        ensures RefOk(fs', j, k)
      {
        assert RefOk(fs, j, k);
      }
    }
    forall c | c in fs.owner
      ensures SlotOk(g, fs', c)
    {
      assert SlotOk(g, fs, c);
    }
  }

  /** The blocks of file i from block lo on. */
  ghost function Rest(owner: map<nat, Slot>, i: nat, lo: nat): (blocks: set<nat>) {
    set a | a in owner && owner[a].Data? && owner[a].ino == i && owner[a].bn >= lo
  }

  /** Slot k of inode i cleared, its blocks given up. */
  function WithoutAddr(fs: Fs, i: nat, k: nat, gone: set<nat>): (fs': Fs)
    requires i in fs.inodes && k < |fs.inodes[i].addrs|
  {
    var ip := fs.inodes[i];
    Fs(fs.disk, fs.inodes[i := ip.(addrs := ip.addrs[k := 0])], fs.owner - gone)
  }

  lemma ReleaseBits(g: Geometry, fs: Fs, fs': Fs, pending: set<nat>, gone: set<nat>)
    requires BitsOk(g, fs, pending) && fs'.disk == fs.disk && fs'.owner == fs.owner - gone && gone <= fs.owner.Keys
    requires forall a | a in gone :: g.datastart <= a < g.size
    ensures BitsOk(g, fs', pending + gone)
  {
    forall a: nat | a < g.size
      ensures BitOk(g, fs', pending + gone, a)
    {
      assert BitOk(g, fs, pending, a);
    }
  }

  /** An empty file gives up a direct block. */
  lemma ReleaseDirect(g: Geometry, fs: Fs, i: nat, k: nat)
    requires Valid(g, fs, {}) && i in fs.inodes && fs.inodes[i].size == 0 && k < NDIRECT
    requires |fs.inodes[i].addrs| == NDIRECT + 1 && fs.inodes[i].addrs[k] != 0
    ensures var a := fs.inodes[i].addrs[k]; var fs' := WithoutAddr(fs, i, k, {a});
            && Valid(g, fs', {a}) && a in fs.owner && fs.owner[a] == Data(i, k)
  {
    var a := fs.inodes[i].addrs[k];
    var fs' := WithoutAddr(fs, i, k, {a});
    assert InodeOk(fs, i) && RefOk(fs, i, k) && SlotOk(g, fs, a);
    forall j | j in fs'.inodes
      ensures InodeOk(fs', j)
    {
      assert InodeOk(fs, j);
      forall bn: nat | bn < MAXFILE
        ensures RefOk(fs', j, bn)
      {
        assert RefOk(fs, j, bn);
      }
    }
    forall c | c in fs'.owner
      ensures SlotOk(g, fs', c)
    {
      assert SlotOk(g, fs, c);
    }
    ReleaseBits(g, fs, fs', {}, {a});
    assert {} + {a} == {a};
  }

  /** An empty file gives up its indirect block and every block listed there. */
  lemma ReleaseIndirect(g: Geometry, fs: Fs, i: nat)
    requires Valid(g, fs, {}) && i in fs.inodes && fs.inodes[i].size == 0
    requires |fs.inodes[i].addrs| == NDIRECT + 1 && fs.inodes[i].addrs[NDIRECT] != 0
    ensures var ind := fs.inodes[i].addrs[NDIRECT];
            var gone := {ind} + Rest(fs.owner, i, NDIRECT);
            Valid(g, WithoutAddr(fs, i, NDIRECT, gone), gone) && ind in fs.owner && fs.owner[ind] == Ind(i)
  {
    var ind := fs.inodes[i].addrs[NDIRECT];
    var gone := {ind} + Rest(fs.owner, i, NDIRECT);
    var fs' := WithoutAddr(fs, i, NDIRECT, gone);
    assert InodeOk(fs, i) && SlotOk(g, fs, ind);
    forall j | j in fs'.inodes
      ensures InodeOk(fs', j)
    {
      assert InodeOk(fs, j);
      forall bn: nat | bn < MAXFILE
        ensures RefOk(fs', j, bn)
      {
        assert RefOk(fs, j, bn);
      }
    }
    forall c | c in fs.owner
      ensures c in fs'.owner ==> SlotOk(g, fs', c)
      ensures c in gone ==> g.datastart <= c < g.size
    {
      assert SlotOk(g, fs, c);
    }
    ReleaseBits(g, fs, fs', {}, gone);
    assert {} + gone == gone;
  }

  /** The next entry of the indirect block, among those still to be freed. */
  lemma NextEntry(g: Geometry, fs: Fs, i: nat, bn: nat)
    requires GeometryOk(g) && RefsOk(g, fs) && i in fs.inodes && NDIRECT <= bn < MAXFILE
    ensures var a := BlockOf(fs.disk, fs.inodes[i], bn);
            if a == 0 then Rest(fs.owner, i, bn + 1) == Rest(fs.owner, i, bn)
            else a in Rest(fs.owner, i, bn) && Rest(fs.owner, i, bn + 1) == Rest(fs.owner, i, bn) - {a}
  {
    assert InodeOk(fs, i) && RefOk(fs, i, bn);
    forall c | c in fs.owner && fs.owner[c] == Data(i, bn)
      ensures c == BlockOf(fs.disk, fs.inodes[i], bn) != 0
    {
      assert SlotOk(g, fs, c);
    }
  }
}
