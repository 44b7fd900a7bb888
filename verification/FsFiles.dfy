/** What the file operations promise, in terms of bytes and of logged blocks. */
module FsFiles {
  import opened Basics
  import opened Sets
  import opened FsBytes
  import opened FsTheory
  import opened FsSteps

  ghost predicate Full(g: Geometry, disk: seq<Block>) {
    forall c: nat | c < g.size :: InUse(g, disk, c)
  }

  // --- logged blocks ---

  predicate IsBitmap(g: Geometry, b: nat)
    requires g.size > 0
  {
    g.bmapstart <= b <= g.bmapstart + (g.size - 1) / BPB
  }

  /** The blocks of the free map. */
  ghost function BitmapBlocks(g: Geometry): (s: set<nat>)
    requires GeometryOk(g)
  {
    set b: nat | b < g.datastart && IsBitmap(g, b)
  }

  lemma InBitmap(g: Geometry, a: nat)
    requires GeometryOk(g) && a < g.size
    ensures g.bmapstart + a / BPB in BitmapBlocks(g)
  {
    assert a / BPB <= (g.size - 1) / BPB;
    assert IsBitmap(g, g.bmapstart + a / BPB);
  }

  function NonZero(a: nat): (s: set<nat>) { if a == 0 then {} else {a} }

  /** File i may have got block bn and an indirect block; the rest of its mapping and every other
      inode are as they were. */
  ghost predicate Grown(fs: Fs, fs': Fs, i: nat, bn: nat) {
    && Extends(fs, fs') && i in fs.inodes
    && |fs.inodes[i].addrs| == |fs'.inodes[i].addrs| == NDIRECT + 1
    && (forall k: nat | k != bn :: BlockOf(fs'.disk, fs'.inodes[i], k) == BlockOf(fs.disk, fs.inodes[i], k))
    && (forall j | j in fs.inodes && j != i :: fs'.inodes[j] == fs.inodes[j])
    && (fs.inodes[i].addrs[NDIRECT] != 0 ==> fs'.inodes[i].addrs[NDIRECT] == fs.inodes[i].addrs[NDIRECT])
  }

  lemma GrownNot(g: Geometry, fs: Fs, i: nat, bn: nat)
    requires Valid(g, fs, {}) && i in fs.inodes
    ensures Grown(fs, fs, i, bn)
  {
    assert InodeOk(fs, i);
    forall j, k: nat | j in fs.inodes
      ensures KeptAt(fs, fs, j, k)
    {
      RefOnDisk(g, fs, j, k);
    }
  }

  lemma GrownTwice(fs: Fs, fs1: Fs, fs2: Fs, i: nat, bn: nat)
    requires Grown(fs, fs1, i, bn) && Grown(fs1, fs2, i, bn)
    ensures Grown(fs, fs2, i, bn)
  {
    ExtendsTwice(fs, fs1, fs2);
  }

  lemma GrownUntouched(g: Geometry, fs: Fs, fs1: Fs, i: nat, bn: nat)
    requires Valid(g, fs, {}) && i in fs.inodes && Untouched(fs, fs1)
    ensures Grown(fs, fs1, i, bn)
  {
    assert InodeOk(fs, i);
  }

  lemma GrownDirect(g: Geometry, fs: Fs, fs1: Fs, i: nat, bn: nat, a: nat)
    requires Valid(g, fs, {}) && i in fs.inodes && Untouched(fs, fs1) && bn < NDIRECT && |fs1.inodes[i].addrs| == NDIRECT + 1
    requires MapsNew(fs1, WithAddr(fs1, i, bn, a, Data(i, bn)), i, bn, a)
    ensures Grown(fs, WithAddr(fs1, i, bn, a, Data(i, bn)), i, bn)
    ensures BlockOf(fs1.disk, WithAddr(fs1, i, bn, a, Data(i, bn)).inodes[i], bn) == a
  {
    GrownUntouched(g, fs, fs1, i, bn);
    GrownTwice(fs, fs1, WithAddr(fs1, i, bn, a, Data(i, bn)), i, bn);
  }

  lemma GrownEntry(g: Geometry, fs: Fs, fs1: Fs, i: nat, bn: nat, a: nat, fs2: Fs)
    requires Valid(g, fs, {}) && i in fs.inodes && Untouched(fs, fs1) && fs2.inodes == fs1.inodes
    requires MapsNew(fs1, fs2, i, bn, a)
    ensures Grown(fs, fs2, i, bn)
  {
    GrownUntouched(g, fs, fs1, i, bn);
    GrownTwice(fs, fs1, fs2, i, bn);
  }

  lemma GrownIndirect(g: Geometry, fs: Fs, fs1: Fs, i: nat, bn: nat, a: nat)
    requires Valid(g, fs, {}) && i in fs.inodes && Untouched(fs, fs1) && |fs1.inodes[i].addrs| == NDIRECT + 1
    requires fs1.inodes[i].addrs[NDIRECT] == 0
    requires var fs2 := WithAddr(fs1, i, NDIRECT, a, Ind(i));
             && Extends(fs1, fs2)
             && (forall k: nat :: BlockOf(fs2.disk, fs2.inodes[i], k) == BlockOf(fs1.disk, fs1.inodes[i], k))
    ensures Grown(fs, WithAddr(fs1, i, NDIRECT, a, Ind(i)), i, bn)
    ensures BlockOf(fs1.disk, WithAddr(fs1, i, NDIRECT, a, Ind(i)).inodes[i], bn) == BlockOf(fs.disk, fs.inodes[i], bn)
  {
    GrownUntouched(g, fs, fs1, i, bn);
    GrownTwice(fs, fs1, WithAddr(fs1, i, NDIRECT, a, Ind(i)), i, bn);
  }

  // --- small facts ---

  lemma DiskSize(g: Geometry, fs: Fs, pending: set<nat>)
    requires Valid(g, fs, pending)
    ensures |fs.disk| == g.size && GeometryOk(g)
  {
  }

  lemma SplitBit(b: nat, bi: nat)
    requires b % BPB == 0 && bi < BPB
    ensures (b + bi) / BPB == b / BPB && (b + bi) % BPB == bi
  {
  }

  lemma FreeIsData(g: Geometry, fs: Fs, a: nat)
    requires Valid(g, fs, {}) && a < g.size && !InUse(g, fs.disk, a)
    ensures g.datastart <= a && a != 0
  {
    assert BitOk(g, fs, {}, a);
  }

  lemma PendingFacts(g: Geometry, fs: Fs, pending: set<nat>, a: nat)
    requires Valid(g, fs, pending) && a in pending
    ensures g.datastart <= a < g.size && a != 0 && InUse(g, fs.disk, a) && a !in fs.owner
  {
    assert BitOk(g, fs, pending, a);
  }

  lemma UntouchedTwice(fs: Fs, fs1: Fs, fs2: Fs)
    requires Untouched(fs, fs1) && Untouched(fs1, fs2)
    ensures Untouched(fs, fs2)
  {
    ExtendsTwice(fs, fs1, fs2);
  }

  lemma UntouchedMeans(fs: Fs, fs': Fs, i: nat, bn: nat)
    requires Untouched(fs, fs') && i in fs.inodes
    ensures fs'.inodes == fs.inodes && fs'.owner == fs.owner
    ensures BlockOf(fs'.disk, fs.inodes[i], bn) == BlockOf(fs.disk, fs.inodes[i], bn)
  {
  }

  lemma InodeShape(g: Geometry, fs: Fs, i: nat)
    requires Valid(g, fs, {}) && i in fs.inodes
    ensures |fs.inodes[i].addrs| == NDIRECT + 1 && fs.inodes[i].addrs[NDIRECT] < |fs.disk|
    ensures forall bn: nat :: BlockOf(fs.disk, fs.inodes[i], bn) < |fs.disk|
    ensures forall bn: nat | bn * BSIZE < fs.inodes[i].size :: BlockOf(fs.disk, fs.inodes[i], bn) != 0
  {
    assert InodeOk(fs, i);
    var ind := fs.inodes[i].addrs[NDIRECT];
    assert ind != 0 ==> SlotOk(g, fs, ind);
    forall bn: nat
      ensures BlockOf(fs.disk, fs.inodes[i], bn) < |fs.disk|
    {
      RefOnDisk(g, fs, i, bn);
    }
  }

  lemma MapsNewAt(fs: Fs, fs': Fs, i: nat, bn: nat, a: nat)
    requires MapsNew(fs, fs', i, bn, a)
    ensures BlockOf(fs'.disk, fs'.inodes[i], bn) == a
  {
  }

  // --- truncation ---

  /** Every file but i has the blocks it had, with what they held. */
  ghost predicate OthersKept(fs: Fs, fs': Fs, i: nat) {
    && fs'.inodes.Keys == fs.inodes.Keys
    && (forall j | j in fs.inodes && j != i :: fs'.inodes[j] == fs.inodes[j])
    && (forall j, k: nat | j in fs.inodes && j != i :: KeptAt(fs, fs', j, k))
  }

  lemma OthersKeptTwice(fs: Fs, fs1: Fs, fs2: Fs, i: nat)
    requires OthersKept(fs, fs1, i) && OthersKept(fs1, fs2, i)
    ensures OthersKept(fs, fs2, i)
  {
    forall j, k: nat | j in fs.inodes && j != i
      ensures KeptAt(fs, fs2, j, k)
    {
      assert KeptAt(fs, fs1, j, k) && KeptAt(fs1, fs2, j, k);
    }
  }

  /** ... so it reads as before. */
  lemma OthersRead(fs: Fs, fs': Fs, i: nat, j: nat)
    requires OthersKept(fs, fs', i) && j in fs.inodes && j != i && NoHoles(fs, j)
    ensures Contents(fs'.disk, fs'.inodes[j]) == Contents(fs.disk, fs.inodes[j])
  {
    forall off: nat | off < fs.inodes[j].size
      ensures ByteAt(fs'.disk, fs'.inodes[j], off) == ByteAt(fs.disk, fs.inodes[j], off)
    {
      assert off / BSIZE * BSIZE <= off;
      assert KeptAt(fs, fs', j, off / BSIZE);
      KeptByte(fs, fs', j, off);
    }
  }

  lemma UntouchedKept(fs: Fs, fs': Fs, i: nat)
    requires Untouched(fs, fs')
    ensures OthersKept(fs, fs', i)
  {
  }

  /** Only file i's inode differs. */
  lemma InodeKept(g: Geometry, fs: Fs, fs': Fs, i: nat)
    requires GeometryOk(g) && RefsOk(g, fs) && fs'.disk == fs.disk && fs'.inodes.Keys == fs.inodes.Keys
    requires forall j | j in fs.inodes && j != i :: fs'.inodes[j] == fs.inodes[j]
    ensures OthersKept(fs, fs', i)
  {
    forall j, k: nat | j in fs.inodes && j != i
      ensures KeptAt(fs, fs', j, k)
    {
      RefOnDisk(g, fs, j, k);
    }
  }

  /** Slot s is one of file i that truncation has cleared when direct slots below k are done. */
  predicate Cleared(s: Slot, i: nat, k: nat) {
    s.Data? && s.ino == i && s.bn < k
  }

  ghost predicate OwnersBut(own: map<nat, Slot>, own': map<nat, Slot>, i: nat, k: nat) {
    && (forall a | a in own' :: a in own && own'[a] == own[a])
    && (forall a | a in own :: a in own' <==> !Cleared(own[a], i, k))
  }

  /** A file that holds no more blocks than its direct ones below k, all given up, and the rest. */
  ghost predicate ClearedTo(ip: Inode, ip': Inode, k: nat)
    requires |ip.addrs| == NDIRECT + 1
  {
    && |ip'.addrs| == NDIRECT + 1 && ip'.size == ip.size
    && (forall m | 0 <= m <= NDIRECT :: ip'.addrs[m] == if m < k then 0 else ip.addrs[m])
  }

  lemma ReleaseKept(g: Geometry, fs: Fs, i: nat, k: nat, gone: set<nat>)
    requires GeometryOk(g) && RefsOk(g, fs) && i in fs.inodes && k < |fs.inodes[i].addrs|
    ensures OthersKept(fs, WithoutAddr(fs, i, k, gone), i)
  {
    assert WithoutAddr(fs, i, k, gone).inodes.Keys == fs.inodes.Keys;
    InodeKept(g, fs, WithoutAddr(fs, i, k, gone), i);
  }

  /** The next direct slot cleared. */
  lemma OwnersNext(g: Geometry, fs: Fs, own: map<nat, Slot>, i: nat, k: nat, gone: set<nat>)
    requires GeometryOk(g) && RefsOk(g, fs) && i in fs.inodes && |fs.inodes[i].addrs| == NDIRECT + 1 && k < NDIRECT
    requires OwnersBut(own, fs.owner, i, k) && gone == NonZero(fs.inodes[i].addrs[k])
    ensures OwnersBut(own, fs.owner - gone, i, k + 1)
  {
    assert InodeOk(fs, i) && RefOk(fs, i, k);
    forall a | a in fs.owner && fs.owner[a] == Data(i, k)
      ensures a in gone
    {
      assert SlotOk(g, fs, a);
    }
  }

  lemma RefsOf(g: Geometry, fs: Fs, pending: set<nat>)
    requires Valid(g, fs, pending)
    ensures GeometryOk(g) && RefsOk(g, fs)
  {
  }

  lemma RestEnds(g: Geometry, fs: Fs, i: nat)
    requires RefsOk(g, fs)
    ensures Rest(fs.owner, i, MAXFILE) == {}
  {
    forall a | a in fs.owner && fs.owner[a].Data?
      ensures fs.owner[a].bn < MAXFILE
    {
      assert SlotOk(g, fs, a);
    }
  }

  /** A file without indirect block has nothing beyond its direct blocks. */
  lemma NoRest(g: Geometry, fs: Fs, i: nat)
    requires GeometryOk(g) && RefsOk(g, fs) && i in fs.inodes && |fs.inodes[i].addrs| == NDIRECT + 1
    requires fs.inodes[i].addrs[NDIRECT] == 0
    ensures forall a | a in fs.owner && fs.owner[a].ino == i :: Cleared(fs.owner[a], i, NDIRECT)
  {
    forall a | a in fs.owner && fs.owner[a].ino == i
      ensures Cleared(fs.owner[a], i, NDIRECT)
    {
      assert SlotOk(g, fs, a);
    }
  }

  /** The owners without file i's. */
  ghost predicate OwnersWithout(own: map<nat, Slot>, own': map<nat, Slot>, i: nat) {
    && (forall a | a in own' :: a in own && own'[a] == own[a])
    && (forall a | a in own :: a in own' <==> own[a].ino != i)
  }

  /** With file i's blocks gone from the owners, the free map has lost exactly their bits. */
  lemma FreedExactly(g: Geometry, fs: Fs, fs': Fs, i: nat, a: nat)
    requires Valid(g, fs, {}) && Valid(g, fs', {}) && OwnersWithout(fs.owner, fs'.owner, i) && a < g.size
    ensures InUse(g, fs'.disk, a) <==> InUse(g, fs.disk, a) && !(a in fs.owner && fs.owner[a].ino == i)
  {
    assert BitOk(g, fs, {}, a) && BitOk(g, fs', {}, a);
    assert a in fs.owner ==> SlotOk(g, fs, a);
  }

  lemma OwnersStart(own: map<nat, Slot>, i: nat)
    ensures OwnersBut(own, own, i, 0)
  {
  }

  lemma IndirectFacts(g: Geometry, fs: Fs, i: nat)
    requires GeometryOk(g) && RefsOk(g, fs) && i in fs.inodes && |fs.inodes[i].addrs| == NDIRECT + 1
    requires fs.inodes[i].addrs[NDIRECT] != 0
    ensures fs.inodes[i].addrs[NDIRECT] < |fs.disk|
  {
    assert InodeOk(fs, i) && SlotOk(g, fs, fs.inodes[i].addrs[NDIRECT]);
  }

  /** An entry of the indirect block, as a block of the file; it is not the indirect block. */
  lemma IndirectEntry(g: Geometry, fs: Fs, i: nat, bn: nat)
    requires GeometryOk(g) && RefsOk(g, fs) && i in fs.inodes && |fs.inodes[i].addrs| == NDIRECT + 1
    requires fs.inodes[i].addrs[NDIRECT] != 0 && NDIRECT <= bn < MAXFILE
    ensures var ind := fs.inodes[i].addrs[NDIRECT];
            && ind < |fs.disk| && BlockOf(fs.disk, fs.inodes[i], bn) == Word(fs.disk[ind], bn - NDIRECT) != ind
            && ind !in Rest(fs.owner, i, bn)
  {
    IndirectFacts(g, fs, i);
    IndirectHoldsNoData(g, fs, i, i, bn);
    assert InodeOk(fs, i);
  }

  lemma EmptiedOk(g: Geometry, fs: Fs, i: nat)
    requires Valid(g, fs, {}) && i in fs.inodes
    ensures Valid(g, WithInode(fs, i, fs.inodes[i].(size := 0)), {})
  {
    ResizeKeeps(g, fs, {}, i, 0);
  }

  lemma EmptiedKept(fs: Fs, fs': Fs, i: nat)
    requires i in fs.inodes && OthersKept(WithInode(fs, i, fs.inodes[i].(size := 0)), fs', i)
    ensures OthersKept(fs, fs', i)
  {
    var v := WithInode(fs, i, fs.inodes[i].(size := 0));
    forall j, k: nat | j in fs.inodes && j != i
      ensures KeptAt(fs, fs', j, k)
    {
      assert KeptAt(v, fs', j, k);
    }
  }

  lemma OwnersRest(g: Geometry, fs: Fs, own: map<nat, Slot>, i: nat)
    requires GeometryOk(g) && RefsOk(g, fs) && OwnersBut(own, fs.owner, i, NDIRECT) && i in fs.inodes
    requires |fs.inodes[i].addrs| == NDIRECT + 1 && fs.inodes[i].addrs[NDIRECT] != 0
    ensures OwnersWithout(own, fs.owner - ({fs.inodes[i].addrs[NDIRECT]} + Rest(fs.owner, i, NDIRECT)), i)
  {
    var ind := fs.inodes[i].addrs[NDIRECT];
    assert InodeOk(fs, i);
    forall a | a in fs.owner
      ensures fs.owner[a].ino == i <==> a == ind || a in Rest(fs.owner, i, NDIRECT)
    {
      assert SlotOk(g, fs, a);
    }
  }

  lemma OwnersGone(own: map<nat, Slot>, own': map<nat, Slot>, i: nat)
    requires OwnersBut(own, own', i, NDIRECT)
    requires forall a | a in own' && own'[a].ino == i :: Cleared(own'[a], i, NDIRECT)
    ensures OwnersWithout(own, own', i)
  {
  }

  // --- reading and writing ---

  /** s with w written over it at off, which may be its end. */
  function Splice(s: seq<Byte>, off: nat, w: seq<Byte>): (r: seq<Byte>)
    requires off <= |s|
  {
    s[..off] + w + (if off + |w| < |s| then s[off + |w|..] else [])
  }

  lemma SpliceLength(s: seq<Byte>, off: nat, w: seq<Byte>)
    requires off <= |s|
    ensures |Splice(s, off, w)| == Max(|s|, off + |w|)
  {
  }

  lemma SpliceTwice(s: seq<Byte>, off: nat, u: seq<Byte>, v: seq<Byte>)
    requires off <= |s|
    ensures Splice(Splice(s, off, u), off + |u|, v) == Splice(s, off, u + v)
  {
  }

  /** A block with bytes written over it. */
  function Patch(blk: Block, at: nat, bytes: seq<Byte>): (r: Block)
    requires at + |bytes| <= BSIZE
    ensures forall k | 0 <= k < BSIZE :: r[k] == if at <= k < at + |bytes| then bytes[k - at] else blk[k]
  {
    blk[..at] + bytes + blk[at + |bytes|..]
  }

  /** A stretch of a file inside one block. */
  lemma SliceInBlock(disk: seq<Block>, ip: Inode, off: nat, m: nat)
    requires off % BSIZE + m <= BSIZE && off + m <= ip.size && BlockOf(disk, ip, off / BSIZE) < |disk|
    ensures Contents(disk, ip)[off..off + m] == disk[BlockOf(disk, ip, off / BSIZE)][off % BSIZE..off % BSIZE + m]
  {
    var from, to := disk[BlockOf(disk, ip, off / BSIZE)][off % BSIZE..off % BSIZE + m], Contents(disk, ip)[off..off + m];
    forall k: nat | k < m
      ensures to[k] == from[k]
    {
      SameBlock(off, k);
    }
  }

  lemma SameBlock(off: nat, k: nat)
    requires off % BSIZE + k < BSIZE
    ensures (off + k) / BSIZE == off / BSIZE && (off + k) % BSIZE == off % BSIZE + k
  {
  }

  /** Byte p of file i is there, and is what the first tot bytes of src at off make it. */
  ghost predicate WroteAt(fs: Fs, fs': Fs, i: nat, off: nat, tot: nat, src: seq<Byte>, p: nat)
    requires i in fs.inodes && i in fs'.inodes && tot <= |src|
  {
    && BlockOf(fs'.disk, fs'.inodes[i], p / BSIZE) != 0
    && ByteAt(fs'.disk, fs'.inodes[i], p) == if off <= p < off + tot then src[p - off] else ByteAt(fs.disk, fs.inodes[i], p)
  }

  /** The state of writei after tot bytes, the size not yet updated. */
  ghost predicate Progress(fs: Fs, fs': Fs, i: nat, off: nat, tot: nat, src: seq<Byte>) {
    && OthersKept(fs, fs', i) && i in fs.inodes && tot <= |src| && fs'.inodes[i].size == fs.inodes[i].size
    && (forall p: nat | p < Max(fs.inodes[i].size, off + tot) :: WroteAt(fs, fs', i, off, tot, src, p))
  }

  lemma ProgressStart(g: Geometry, fs: Fs, i: nat, off: nat, src: seq<Byte>)
    requires Valid(g, fs, {}) && i in fs.inodes && off <= fs.inodes[i].size
    ensures Progress(fs, fs, i, off, 0, src)
  {
    InodeKept(g, fs, fs, i);
    assert InodeOk(fs, i);
    forall p: nat | p < fs.inodes[i].size
      ensures WroteAt(fs, fs, i, off, 0, src, p)
    {
      assert p / BSIZE * BSIZE <= p;
    }
  }

  lemma ProgressGrown(fs: Fs, fs1: Fs, fs2: Fs, i: nat, off: nat, tot: nat, src: seq<Byte>, bn: nat)
    requires Progress(fs, fs1, i, off, tot, src) && Grown(fs1, fs2, i, bn)
    ensures Progress(fs, fs2, i, off, tot, src)
  {
    OthersKeptTwice(fs, fs1, fs2, i);
    forall p: nat | p < Max(fs.inodes[i].size, off + tot)
      ensures WroteAt(fs, fs2, i, off, tot, src, p)
    {
      assert WroteAt(fs, fs1, i, off, tot, src, p) && KeptAt(fs1, fs2, i, p / BSIZE);
      KeptByte(fs1, fs2, i, p);
    }
  }

  lemma ProgressWritten(fs: Fs, fs1: Fs, fs2: Fs, i: nat, off: nat, tot: nat, src: seq<Byte>, m: nat, blk: Block)
    requires Progress(fs, fs1, i, off, tot, src) && tot + m <= |src| && (off + tot) % BSIZE + m <= BSIZE
    requires var a := BlockOf(fs1.disk, fs1.inodes[i], (off + tot) / BSIZE);
             0 < a < |fs1.disk| && blk == Patch(fs1.disk[a], (off + tot) % BSIZE, src[tot..tot + m])
    requires Rewritten(fs1, fs2, i, (off + tot) / BSIZE, blk)
    ensures Progress(fs, fs2, i, off, tot + m, src)
  {
    assert OthersKept(fs1, fs2, i);
    OthersKeptTwice(fs, fs1, fs2, i);
    var tot' := tot + m;
    forall p: nat | p < Max(fs.inodes[i].size, off + tot')
      ensures WroteAt(fs, fs2, i, off, tot', src, p)
    {
      WrittenByte(fs, fs1, fs2, i, off, tot, src, m, blk, p);
    }
  }

  lemma WrittenByte(fs: Fs, fs1: Fs, fs2: Fs, i: nat, off: nat, tot: nat, src: seq<Byte>, m: nat, blk: Block, p: nat)
    requires i in fs.inodes && i in fs1.inodes && tot + m <= |src| && (off + tot) % BSIZE + m <= BSIZE
    requires p < Max(fs.inodes[i].size, off + tot) ==> WroteAt(fs, fs1, i, off, tot, src, p)
    requires p < Max(fs.inodes[i].size, off + tot + m)
    requires var a := BlockOf(fs1.disk, fs1.inodes[i], (off + tot) / BSIZE);
             0 < a < |fs1.disk| && blk == Patch(fs1.disk[a], (off + tot) % BSIZE, src[tot..tot + m])
    requires Rewritten(fs1, fs2, i, (off + tot) / BSIZE, blk)
    ensures i in fs2.inodes && WroteAt(fs, fs2, i, off, tot + m, src, p)
  {
    var bn, at := (off + tot) / BSIZE, (off + tot) % BSIZE;
    if p / BSIZE == bn {
      assert p - (off + tot) == p % BSIZE - at;
      assert ByteAt(fs2.disk, fs2.inodes[i], p) == blk[p % BSIZE];
    } else {
      OtherBlock(off + tot, m, p);
      assert KeptAt(fs1, fs2, i, p / BSIZE);
      KeptByte(fs1, fs2, i, p);
    }
  }

  /** A byte in another block is not among the m written. */
  lemma OtherBlock(start: nat, m: nat, p: nat)
    requires start % BSIZE + m <= BSIZE && p / BSIZE != start / BSIZE
    ensures !(start <= p < start + m)
  {
  }

  /** With its size brought up to date the file is its old contents with src spliced in. */
  lemma ProgressEnds(fs: Fs, fs': Fs, i: nat, off: nat, tot: nat, src: seq<Byte>)
    requires Progress(fs, fs', i, off, tot, src) && off <= fs.inodes[i].size
    ensures Contents(fs'.disk, fs'.inodes[i].(size := Max(fs.inodes[i].size, off + tot)))
         == Splice(Contents(fs.disk, fs.inodes[i]), off, src[..tot])
    ensures forall bn: nat | bn * BSIZE < Max(fs.inodes[i].size, off + tot) :: BlockOf(fs'.disk, fs'.inodes[i], bn) != 0
  {
    var ip := fs'.inodes[i].(size := Max(fs.inodes[i].size, off + tot));
    forall p: nat | p < ip.size
      ensures Contents(fs'.disk, ip)[p] == Splice(Contents(fs.disk, fs.inodes[i]), off, src[..tot])[p]
    {
      assert WroteAt(fs, fs', i, off, tot, src, p);
      assert ByteAt(fs'.disk, ip, p) == ByteAt(fs'.disk, fs'.inodes[i], p);
    }
    forall bn: nat | bn * BSIZE < ip.size
      ensures BlockOf(fs'.disk, fs'.inodes[i], bn) != 0
    {
      assert WroteAt(fs, fs', i, off, tot, src, bn * BSIZE);
    }
  }

  // --- how many blocks a write logs ---

  /** The blocks lo..hi of a file that are there. */
  ghost function DataBlocks(disk: seq<Block>, ip: Inode, lo: nat, hi: nat): (s: set<nat>)
    ensures |s| <= if hi <= lo then 0 else hi - lo
    decreases hi
  {
    if hi <= lo then {} else DataBlocks(disk, ip, lo, hi - 1) + NonZero(BlockOf(disk, ip, hi - 1))
  }

  lemma {:induction false} DataBlocksGrow(disk: seq<Block>, ip: Inode, disk': seq<Block>, ip': Inode, lo: nat, hi: nat)
    requires forall k: nat | BlockOf(disk, ip, k) != 0 :: BlockOf(disk', ip', k) == BlockOf(disk, ip, k)
    ensures DataBlocks(disk, ip, lo, hi) <= DataBlocks(disk', ip', lo, hi)
    decreases hi
  {
    hide BlockOf;
    if hi > lo {
      DataBlocksGrow(disk, ip, disk', ip', lo, hi - 1);
    }
  }

  lemma {:induction false} DataBlocksHas(disk: seq<Block>, ip: Inode, lo: nat, hi: nat, bn: nat)
    requires lo <= bn < hi
    ensures NonZero(BlockOf(disk, ip, bn)) <= DataBlocks(disk, ip, lo, hi)
    decreases hi
  {
    if bn < hi - 1 {
      DataBlocksHas(disk, ip, lo, hi - 1, bn);
    }
  }

  /** The blocks that writing blocks lo..hi of file i may log, the inode's own aside. */
  ghost function WriteSet(g: Geometry, fs: Fs, i: nat, lo: nat, hi: nat): (s: set<nat>)
    requires GeometryOk(g) && i in fs.inodes && |fs.inodes[i].addrs| == NDIRECT + 1
  {
    BitmapBlocks(g) + NonZero(fs.inodes[i].addrs[NDIRECT]) + DataBlocks(fs.disk, fs.inodes[i], lo, hi)
  }

  lemma WriteSetGrown(g: Geometry, fs: Fs, fs': Fs, i: nat, lo: nat, hi: nat, bn: nat)
    requires GeometryOk(g) && Grown(fs, fs', i, bn) && lo <= bn < hi
    ensures WriteSet(g, fs, i, lo, hi) <= WriteSet(g, fs', i, lo, hi)
    ensures NonZero(BlockOf(fs'.disk, fs'.inodes[i], bn)) <= WriteSet(g, fs', i, lo, hi)
  {
    forall k: nat
      ensures BlockOf(fs.disk, fs.inodes[i], k) != 0 ==> BlockOf(fs'.disk, fs'.inodes[i], k) == BlockOf(fs.disk, fs.inodes[i], k)
    {
      assert KeptAt(fs, fs', i, k);
    }
    hide BlockOf;
    DataBlocksGrow(fs.disk, fs.inodes[i], fs'.disk, fs'.inodes[i], lo, hi);
    DataBlocksHas(fs'.disk, fs'.inodes[i], lo, hi, bn);
  }

  lemma WriteSetRewritten(g: Geometry, fs: Fs, fs': Fs, i: nat, lo: nat, hi: nat, bn: nat, blk: Block)
    requires GeometryOk(g) && Rewritten(fs, fs', i, bn, blk) && |fs.inodes[i].addrs| == NDIRECT + 1
    ensures WriteSet(g, fs, i, lo, hi) <= WriteSet(g, fs', i, lo, hi)
  {
    DataBlocksGrow(fs.disk, fs.inodes[i], fs'.disk, fs'.inodes[i], lo, hi);
  }

  /** Changing the size logs nothing more. */
  lemma WriteSetResized(g: Geometry, fs: Fs, i: nat, lo: nat, hi: nat, size: nat)
    requires GeometryOk(g) && i in fs.inodes && |fs.inodes[i].addrs| == NDIRECT + 1
    ensures WriteSet(g, fs, i, lo, hi) <= WriteSet(g, WithInode(fs, i, fs.inodes[i].(size := size)), i, lo, hi)
  {
    DataBlocksGrow(fs.disk, fs.inodes[i], fs.disk, fs.inodes[i].(size := size), lo, hi);
  }

  /** With one bitmap block a write touching at most four blocks fits a transaction: those, the
      indirect block, the bitmap block and the inode's block are seven. */
  lemma WriteSetBound(g: Geometry, fs: Fs, i: nat, lo: nat, hi: nat, inodeBlock: nat, logged: set<nat>)
    requires GeometryOk(g) && i in fs.inodes && |fs.inodes[i].addrs| == NDIRECT + 1
    requires g.size <= BPB && hi <= lo + 4 && logged <= WriteSet(g, fs, i, lo, hi) + {inodeBlock}
    ensures |logged| <= 7
  {
    forall b: nat | IsBitmap(g, b)
      ensures b == g.bmapstart
    {
    }
    assert IsBitmap(g, g.bmapstart);
    assert BitmapBlocks(g) == {g.bmapstart};
    var some := {g.bmapstart} + NonZero(fs.inodes[i].addrs[NDIRECT]);
    assert |some| <= 2;
    var more := some + DataBlocks(fs.disk, fs.inodes[i], lo, hi);
    assert |more| <= |some| + 4;
    assert WriteSet(g, fs, i, lo, hi) + {inodeBlock} == more + {inodeBlock};
    SubsetCard(logged, more + {inodeBlock});
  }

  lemma InsideFile(g: Geometry, fs: Fs, i: nat, off: nat)
    requires Valid(g, fs, {}) && i in fs.inodes && off < fs.inodes[i].size
    ensures off / BSIZE < MAXFILE && 0 < BlockOf(fs.disk, fs.inodes[i], off / BSIZE) < |fs.disk|
  {
    assert InodeOk(fs, i);
    assert off / BSIZE * BSIZE <= off;
    RefOnDisk(g, fs, i, off / BSIZE);
  }

  lemma InRange(off: nat, n: nat, tot: nat)
    requires tot < n && off + n <= MAXFILE * BSIZE
    ensures off / BSIZE <= (off + tot) / BSIZE < (off + n + BSIZE - 1) / BSIZE && (off + tot) / BSIZE < MAXFILE
  {
  }

  lemma WriteSetHas(g: Geometry, fs: Fs, i: nat, lo: nat, hi: nat)
    requires GeometryOk(g) && i in fs.inodes && |fs.inodes[i].addrs| == NDIRECT + 1
    ensures BitmapBlocks(g) + NonZero(fs.inodes[i].addrs[NDIRECT]) <= WriteSet(g, fs, i, lo, hi)
  {
  }

  lemma ProgressMeans(fs: Fs, fs': Fs, i: nat, off: nat, tot: nat, src: seq<Byte>)
    requires Progress(fs, fs', i, off, tot, src)
    ensures i in fs'.inodes && fs'.inodes[i].size == fs.inodes[i].size && OthersKept(fs, fs', i)
  {
  }

  lemma ResizedKept(fs: Fs, fs': Fs, i: nat, size: nat)
    requires OthersKept(fs, fs', i) && i in fs'.inodes
    ensures OthersKept(fs, WithInode(fs', i, fs'.inodes[i].(size := size)), i)
  {
    var fs2 := WithInode(fs', i, fs'.inodes[i].(size := size));
    assert fs2.inodes.Keys == fs.inodes.Keys;
    forall j, k: nat | j in fs.inodes && j != i
      ensures KeptAt(fs, fs2, j, k)
    {
      assert KeptAt(fs, fs', j, k);
    }
  }

  // --- filewrite ---

  /** Splicing; an offset past the end takes nothing. */
  function Overwritten(s: seq<Byte>, off: nat, w: seq<Byte>): (r: seq<Byte>) {
    if off <= |s| then Splice(s, off, w) else s
  }

  lemma OverwrittenNone(s: seq<Byte>, off: nat)
    ensures Overwritten(s, off, []) == s
  {
  }

  lemma SpliceNone(s: seq<Byte>, off: nat)
    requires off <= |s|
    ensures Splice(s, off, []) == s
  {
  }

  lemma OverwrittenMore(s: seq<Byte>, off: nat, src: seq<Byte>, i: nat, r: nat)
    requires i + r <= |src| && off + i <= |Overwritten(s, off, src[..i])|
    ensures Splice(Overwritten(s, off, src[..i]), off + i, src[i..i + r]) == Overwritten(s, off, src[..i + r])
  {
    assert src[..i + r] == src[..i] + src[i..i + r];
    if off <= |s| {
      SpliceTwice(s, off, src[..i], src[i..i + r]);
    }
  }

  lemma SizeIs(disk: seq<Block>, ip: Inode)
    ensures |Contents(disk, ip)| == ip.size
  {
  }

  lemma KeptNot(g: Geometry, fs: Fs, i: nat)
    requires Valid(g, fs, {})
    ensures OthersKept(fs, fs, i)
  {
    InodeKept(g, fs, fs, i);
  }

  lemma FourBlocks(off: nat, n: nat)
    requires n <= 3 * BSIZE
    ensures (off + n + BSIZE - 1) / BSIZE <= off / BSIZE + 4
  {
  }
}
