/** Inodes, the blocks they refer to and the free map, with each data block owned by at most one
    slot of one inode.
 */
module FsTheory {
  import opened FsBytes

  const NDIRECT: nat := 12
  const MAXFILE: nat := 268 // NDIRECT + NINDIRECT

  /** addrs[..NDIRECT] are direct blocks, addrs[NDIRECT] the indirect block; 0 is none. */
  datatype Inode = Inode(addrs: seq<nat>, size: nat)

  /** What a block is used for: block bn of a file, or a file's indirect block. */
  datatype Slot = Data(ino: nat, bn: nat) | Ind(ino: nat)

  /** The superblock's layout: bits from bmapstart on, data blocks from datastart on. */
  datatype Geometry = Geometry(size: nat, bmapstart: nat, datastart: nat)

  datatype Fs = Fs(disk: seq<Block>, inodes: map<nat, Inode>, owner: map<nat, Slot>)

  predicate GeometryOk(g: Geometry) {
    0 < g.bmapstart && g.datastart <= g.size < 0x8000_0000 && 0 < g.size && g.bmapstart + (g.size - 1) / BPB < g.datastart
  }

  /** Block a's bit in the free map. */
  predicate InUse(g: Geometry, disk: seq<Block>, a: nat) {
    var bb := g.bmapstart + a / BPB;
    bb < |disk| && BitAt(disk[bb], a % BPB)
  }

  /** The disk block of block bn of a file, 0 if there is none. */
  function BlockOf(disk: seq<Block>, ip: Inode, bn: nat): (a: nat) {
    if |ip.addrs| != NDIRECT + 1 || bn >= MAXFILE then 0
    else if bn < NDIRECT then ip.addrs[bn]
    else if 0 < ip.addrs[NDIRECT] < |disk| then Word(disk[ip.addrs[NDIRECT]], bn - NDIRECT)
    else 0
  }

  function ByteAt(disk: seq<Block>, ip: Inode, off: nat): (b: Byte) {
    var a := BlockOf(disk, ip, off / BSIZE);
    if a < |disk| then disk[a][off % BSIZE] else 0
  }

  /** The file as its users see it. */
  function Contents(disk: seq<Block>, ip: Inode): (bytes: seq<Byte>)
    ensures |bytes| == ip.size
  {
    seq(ip.size, off requires 0 <= off < ip.size => ByteAt(disk, ip, off))
  }

  /** A block number in a slot is owned by that slot. */
  predicate RefOk(fs: Fs, i: nat, bn: nat)
    requires i in fs.inodes
  {
    var a := BlockOf(fs.disk, fs.inodes[i], bn);
    a != 0 ==> a in fs.owner && fs.owner[a] == Data(i, bn)
  }

  ghost predicate NoHoles(fs: Fs, i: nat)
    requires i in fs.inodes
  {
    forall bn: nat | bn * BSIZE < fs.inodes[i].size :: BlockOf(fs.disk, fs.inodes[i], bn) != 0
  }

  ghost predicate InodeOk(fs: Fs, i: nat)
    requires i in fs.inodes
  {
    var ip := fs.inodes[i];
    && |ip.addrs| == NDIRECT + 1
    && (forall bn: nat | bn < MAXFILE :: RefOk(fs, i, bn))
    && (ip.addrs[NDIRECT] != 0 ==> ip.addrs[NDIRECT] in fs.owner && fs.owner[ip.addrs[NDIRECT]] == Ind(i))
    && NoHoles(fs, i)
  }

  /** An owned block is a data block, and its owner does refer to it. */
  predicate SlotOk(g: Geometry, fs: Fs, a: nat)
    requires a in fs.owner
  {
    && g.datastart <= a < g.size && fs.owner[a].ino in fs.inodes
    && var ip := fs.inodes[fs.owner[a].ino];
    match fs.owner[a]
    case Data(_, bn) => bn < MAXFILE && BlockOf(fs.disk, ip, bn) == a
    case Ind(_) => |ip.addrs| == NDIRECT + 1 && ip.addrs[NDIRECT] == a
  }

  /** The bit of a is set exactly if a is reserved, owned, or on its way to or from an owner. */
  predicate BitOk(g: Geometry, fs: Fs, pending: set<nat>, a: nat) {
    InUse(g, fs.disk, a) <==> a < g.datastart || a in fs.owner || a in pending
  }

  ghost predicate BitsOk(g: Geometry, fs: Fs, pending: set<nat>) {
    && (forall a: nat | a < g.size :: BitOk(g, fs, pending, a))
    && (forall a | a in pending :: g.datastart <= a < g.size && a !in fs.owner)
  }

  ghost predicate RefsOk(g: Geometry, fs: Fs) {
    && |fs.disk| == g.size
    && (forall i | i in fs.inodes :: InodeOk(fs, i))
    && (forall a | a in fs.owner :: SlotOk(g, fs, a))
  }

  ghost predicate Valid(g: Geometry, fs: Fs, pending: set<nat>) {
    GeometryOk(g) && RefsOk(g, fs) && BitsOk(g, fs, pending)
  }

  /** Block k of file j, if it is there, stays where it is and holds what it held. */
  predicate KeptAt(fs: Fs, fs': Fs, j: nat, k: nat)
    requires j in fs.inodes && j in fs'.inodes
  {
    var b := BlockOf(fs.disk, fs.inodes[j], k);
    b != 0 ==> && BlockOf(fs'.disk, fs'.inodes[j], k) == b
               && b < |fs.disk| && b < |fs'.disk| && fs'.disk[b] == fs.disk[b]
  }

  /** Files may have got more blocks, and nothing else happened to them. */
  ghost predicate Extends(fs: Fs, fs': Fs) {
    && fs'.inodes.Keys == fs.inodes.Keys
    && (forall j | j in fs.inodes :: fs'.inodes[j].size == fs.inodes[j].size)
    && (forall j, k: nat | j in fs.inodes :: KeptAt(fs, fs', j, k))
  }

  lemma ExtendsTwice(fs: Fs, fs1: Fs, fs2: Fs)
    requires Extends(fs, fs1) && Extends(fs1, fs2)
    ensures Extends(fs, fs2)
  {
    forall j, k: nat | j in fs.inodes
      ensures KeptAt(fs, fs2, j, k)
    {
      assert KeptAt(fs, fs1, j, k) && KeptAt(fs1, fs2, j, k);
    }
  }

  lemma KeptByte(fs: Fs, fs': Fs, j: nat, off: nat)
    requires j in fs.inodes && j in fs'.inodes && KeptAt(fs, fs', j, off / BSIZE)
    requires BlockOf(fs.disk, fs.inodes[j], off / BSIZE) != 0
    ensures ByteAt(fs'.disk, fs'.inodes[j], off) == ByteAt(fs.disk, fs.inodes[j], off)
  {
  }

  /** So every file reads as before. */
  lemma ExtendsContents(fs: Fs, fs': Fs, j: nat)
    requires Extends(fs, fs') && j in fs.inodes && NoHoles(fs, j)
    ensures Contents(fs'.disk, fs'.inodes[j]) == Contents(fs.disk, fs.inodes[j])
  {
    forall off: nat | off < fs.inodes[j].size
      ensures ByteAt(fs'.disk, fs'.inodes[j], off) == ByteAt(fs.disk, fs.inodes[j], off)
    {
      assert off / BSIZE * BSIZE <= off;
      assert KeptAt(fs, fs', j, off / BSIZE);
      KeptByte(fs, fs', j, off);
    }
  }

  // --- writing blocks that no file refers to ---

  /** Writing a block that is not the indirect block leaves the mapping alone. */
  lemma MapFrame(disk: seq<Block>, ip: Inode, b: nat, blk: Block, bn: nat)
    requires b < |disk| && (|ip.addrs| == NDIRECT + 1 ==> ip.addrs[NDIRECT] != b)
    ensures BlockOf(disk[b := blk], ip, bn) == BlockOf(disk, ip, bn)
  {
  }

  lemma UnownedFrame(g: Geometry, fs: Fs, b: nat, blk: Block, i: nat, bn: nat)
    requires GeometryOk(g) && RefsOk(g, fs) && b < g.size && b != 0 && b !in fs.owner && i in fs.inodes
    ensures BlockOf(fs.disk[b := blk], fs.inodes[i], bn) == BlockOf(fs.disk, fs.inodes[i], bn) != b
  {
    assert InodeOk(fs, i);
    MapFrame(fs.disk, fs.inodes[i], b, blk, bn);
    assert bn < MAXFILE ==> RefOk(fs, i, bn);
  }

  /** A block that a slot refers to is on the disk. */
  lemma RefOnDisk(g: Geometry, fs: Fs, i: nat, bn: nat)
    requires GeometryOk(g) && RefsOk(g, fs) && i in fs.inodes
    ensures BlockOf(fs.disk, fs.inodes[i], bn) < |fs.disk|
    ensures BlockOf(fs.disk, fs.inodes[i], bn) != 0 ==> g.datastart <= BlockOf(fs.disk, fs.inodes[i], bn)
  {
    assert InodeOk(fs, i);
    assert bn < MAXFILE ==> RefOk(fs, i, bn);
    var a := BlockOf(fs.disk, fs.inodes[i], bn);
    assert a in fs.owner ==> SlotOk(g, fs, a);
  }

  lemma UnownedKeeps(g: Geometry, fs: Fs, b: nat, blk: Block)
    requires GeometryOk(g) && RefsOk(g, fs) && b < g.size && b != 0 && b !in fs.owner
    ensures var fs' := fs.(disk := fs.disk[b := blk]);
            && RefsOk(g, fs') && Extends(fs, fs')
            && forall i, k: nat | i in fs.inodes :: BlockOf(fs'.disk, fs.inodes[i], k) == BlockOf(fs.disk, fs.inodes[i], k)
  {
    var fs' := fs.(disk := fs.disk[b := blk]);
    forall i, k: nat | i in fs.inodes
      ensures BlockOf(fs'.disk, fs.inodes[i], k) == BlockOf(fs.disk, fs.inodes[i], k)
      ensures KeptAt(fs, fs', i, k)
    {
      UnownedFrame(g, fs, b, blk, i, k);
      RefOnDisk(g, fs, i, k);
    }
    forall i | i in fs.inodes
      ensures InodeOk(fs', i)
    {
      assert InodeOk(fs, i);
      forall bn: nat | bn < MAXFILE
        ensures RefOk(fs', i, bn)
      {
        assert RefOk(fs, i, bn);
      }
    }
    forall a | a in fs.owner
      ensures SlotOk(g, fs', a)
    {
      assert SlotOk(g, fs, a);
    }
  }
}
