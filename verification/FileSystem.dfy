/** balloc, bfree, bmap, itrunc, readi, writei and filewrite. The disk is what bread returns, the
    last contents given to log_write; buffers are kernel memory. `logged` collects the blocks that
    the current transaction has passed to log_write.
 */
module FileSystem {
  import opened Basics
  import opened Params
  import opened FsBytes
  import opened FsTheory
  import opened FsSteps
  import opened FsFiles

  /** struct file, for an inode */
  class OpenFile {
    const ino: nat
    const writable: bool
    var off: nat

    constructor (ino: nat, writable: bool)
      ensures this.ino == ino && this.writable == writable && off == 0
    {
      this.ino, this.writable, off := ino, writable, 0;
    }
  }

  /** filewrite's chunk: (MAXOPBLOCKS - 1 - 1 - 2) / 2 blocks */
  const MAX_CHUNK: nat := (MAXOPBLOCKS - 1 - 1 - 2) / 2 * BSIZE

  class Files {
    const g: Geometry
    const inodestart: nat
    var disk: seq<Block>
    var inodes: map<nat, Inode>
    /** The inodes as last written to their disk blocks. */
    var dinodes: map<nat, Inode>
    ghost var owner: map<nat, Slot>
    ghost var logged: set<nat>

    ghost function Now(): Fs
      reads this`disk, this`inodes, this`owner
    {
      Fs(disk, inodes, owner)
    }

    ghost predicate Ok()
      reads this`disk, this`inodes, this`owner
    {
      Valid(g, Now(), {})
    }

    /** A freshly formatted image with empty inodes: the bits of the blocks before datastart are set. */
    constructor (g: Geometry, inodestart: nat, inums: set<nat>)
      requires GeometryOk(g)
      ensures Ok() && this.g == g && this.inodestart == inodestart && logged == {} && owner == map[]
      ensures inodes.Keys == inums && dinodes == inodes && forall i | i in inodes :: Contents(disk, inodes[i]) == []
    {
      this.g, this.inodestart := g, inodestart;
      inodes := map i | i in inums :: Inode(seq(NDIRECT + 1, _ => 0), 0);
      dinodes := map i | i in inums :: Inode(seq(NDIRECT + 1, _ => 0), 0);
      owner, logged := map[], {};
      disk := seq(g.size, _ => ZERO_BLOCK);
      new;
      hide InUse;
      forall c: nat
        ensures !InUse(g, disk, c)
      {
        BlankBits(g, disk, c);
      }
      var a := 0;
      while a < g.datastart
        invariant a <= g.datastart && |disk| == g.size && inodes.Keys == inums && dinodes == inodes && Blank(inodes)
        invariant owner == map[] && logged == {}
        invariant forall c: nat :: InUse(g, disk, c) <==> c < a
      {
        ghost var was := disk;
        BitmapBlock(g, a);
        disk := Flip(g, disk, a, true);
        forall c: nat
          ensures InUse(g, disk, c) <==> c < a + 1
        {
          FlipGet(g, was, a, true, c);
        }
        a := a + 1;
      }
      BlankOk(g, Now());
    }

    /** Modifying a buffer and logging it. */
    method LogWrite(b: nat, blk: Block)
      requires b < |disk|
      modifies this`disk, this`logged
      ensures disk == old(disk)[b := blk] && logged == old(logged) + {b}
    {
      disk := disk[b := blk];
      logged := logged + {b};
    }

    /** balloc: zeroed, the first block whose bit was clear; 0 exactly when every bit is set */
    method Balloc() returns (b: nat)
      requires Ok() && GeometryOk(g)
      modifies this`disk, this`logged
      ensures b == 0 ==> disk == old(disk) && logged == old(logged) && Full(g, disk)
      ensures b != 0 ==> b < g.size && !InUse(g, old(disk), b) && Valid(g, Now(), {b}) && disk[b] == ZERO_BLOCK
      ensures b != 0 ==> forall c: nat | c < b :: InUse(g, old(disk), c)
      ensures b != 0 ==> Untouched(old(Now()), Now()) && logged <= old(logged) + BitmapBlocks(g) + {b}
    {
      hide Valid, Untouched, BitmapBlocks;
      ghost var fs := Now();
      DiskSize(g, fs, {});
      b := 0;
      while b < g.size
        invariant b % BPB == 0 && disk == fs.disk && logged == old(logged)
        invariant forall c: nat | c < b && c < g.size :: InUse(g, disk, c)
      {
        BitmapBlock(g, b);
        var bp := disk[g.bmapstart + b / BPB];
        var bi := 0;
        while bi < BPB && b + bi < g.size
          invariant 0 <= bi <= BPB && disk == fs.disk && logged == old(logged)
          invariant forall c: nat | c < b + bi && c < g.size :: InUse(g, disk, c)
        {
          SplitBit(b, bi);
          if !BitAt(bp, bi) {
            Claim(b + bi);
            return b + bi;
          }
          bi := bi + 1;
        }
        b := b + BPB;
      }
      return 0;
    }

    /** Marks free block a in use and zeroes it. */
    method Claim(a: nat)
      requires Ok() && GeometryOk(g) && a < g.size && !InUse(g, disk, a)
      modifies this`disk, this`logged
      ensures a != 0 && |disk| == g.size && Valid(g, Now(), {a}) && disk[a] == ZERO_BLOCK
      ensures Untouched(old(Now()), Now()) && logged <= old(logged) + BitmapBlocks(g) + {a}
    {
      hide Valid, Untouched, BitmapBlocks;
      ghost var fs := Now();
      FreeIsData(g, fs, a);
      FlipKeeps(g, fs, {}, a, true);
      assert {} + {a} == {a};
      InBitmap(g, a);
      LogWrite(g.bmapstart + a / BPB, SetBitAt(disk[g.bmapstart + a / BPB], a % BPB, true));
      ghost var fs1 := Now();
      assert fs1 == fs.(disk := Flip(g, fs.disk, a, true));
      DiskSize(g, fs1, {a});
      PendingKeeps(g, fs1, {a}, a, ZERO_BLOCK);
      LogWrite(a, ZERO_BLOCK);
      assert Now() == fs1.(disk := fs1.disk[a := ZERO_BLOCK]);
      UntouchedTwice(fs, fs1, Now());
    }

    /** bfree: the bit of a block that is being given up is set, so it does not panic. */
    method Bfree(b: nat, ghost fs: Fs, ghost pending: set<nat>)
      requires Valid(g, fs, pending) && fs.disk == disk && b in pending
      modifies this`disk, this`logged
      ensures disk == Flip(g, old(disk), b, false) && Valid(g, fs.(disk := disk), pending - {b})
      ensures Untouched(fs, fs.(disk := disk))
    {
      hide Valid, Untouched;
      PendingFacts(g, fs, pending, b);
      FlipKeeps(g, fs, pending, b, false);
      var bp := disk[g.bmapstart + b / BPB];
      var bi := b % BPB;
      if !BitAt(bp, bi) {
        assert false; // panic: freeing free block
      }
      LogWrite(g.bmapstart + b / BPB, SetBitAt(bp, bi, false));
    }

    method AllocDirect(i: nat, bn: nat) returns (a: nat)
      requires Ok() && i in inodes && bn < NDIRECT && |inodes[i].addrs| == NDIRECT + 1 && inodes[i].addrs[bn] == 0
      requires GeometryOk(g)
      modifies this`disk, this`inodes, this`owner, this`logged
      ensures Ok() && Grown(old(Now()), Now(), i, bn) && i in inodes && a == BlockOf(disk, inodes[i], bn)
      ensures a == 0 ==> Full(g, disk)
      ensures logged <= old(logged) + BitmapBlocks(g) + NonZero(a)
    {
      hide Valid, Untouched, Grown, MapsNew, BitmapBlocks, Full;
      ghost var fs := Now();
      GrownNot(g, fs, i, bn);
      a := Balloc();
      if a != 0 {
        ghost var fs1 := Now();
        AssignDirect(g, fs1, {a}, i, bn, a);
        GrownDirect(g, fs, fs1, i, bn, a);
        inodes := inodes[i := inodes[i].(addrs := inodes[i].addrs[bn := a])];
        owner := owner[a := Data(i, bn)];
        assert Now() == WithAddr(fs1, i, bn, a, Data(i, bn));
        assert {a} - {a} == {};
      }
    }

    method AllocIndirect(i: nat, ghost bn: nat) returns (ok: bool)
      requires Ok() && i in inodes && |inodes[i].addrs| == NDIRECT + 1 && inodes[i].addrs[NDIRECT] == 0
      requires GeometryOk(g)
      modifies this`disk, this`inodes, this`owner, this`logged
      ensures Ok() && Grown(old(Now()), Now(), i, bn) && i in inodes && |inodes[i].addrs| == NDIRECT + 1
      ensures BlockOf(disk, inodes[i], bn) == BlockOf(old(disk), old(inodes)[i], bn)
      ensures if ok then inodes[i].addrs[NDIRECT] != 0 else inodes[i].addrs[NDIRECT] == 0 && Full(g, disk)
      ensures logged <= old(logged) + BitmapBlocks(g) + NonZero(inodes[i].addrs[NDIRECT])
    {
      hide Valid, Untouched, Grown, BitmapBlocks, Full, Extends;
      ghost var fs := Now();
      GrownNot(g, fs, i, bn);
      var a := Balloc();
      ok := a != 0;
      if ok {
        ghost var fs1 := Now();
        AssignIndirect(g, fs1, {a}, i, a);
        GrownIndirect(g, fs, fs1, i, bn, a);
        inodes := inodes[i := inodes[i].(addrs := inodes[i].addrs[NDIRECT := a])];
        owner := owner[a := Ind(i)];
        assert Now() == WithAddr(fs1, i, NDIRECT, a, Ind(i));
        assert {a} - {a} == {};
      }
    }

    method AllocEntry(i: nat, bn: nat) returns (a: nat)
      requires Ok() && i in inodes && |inodes[i].addrs| == NDIRECT + 1 && NDIRECT <= bn < MAXFILE && GeometryOk(g)
      requires 0 < inodes[i].addrs[NDIRECT] < |disk| && BlockOf(disk, inodes[i], bn) == 0
      modifies this`disk, this`owner, this`logged
      ensures Ok() && Grown(old(Now()), Now(), i, bn) && i in inodes && a == BlockOf(disk, inodes[i], bn)
      ensures a == 0 ==> Full(g, disk)
      ensures logged <= old(logged) + BitmapBlocks(g) + NonZero(inodes[i].addrs[NDIRECT]) + NonZero(a)
    {
      hide Valid, Untouched, Grown, BitmapBlocks, Full, MapsNew;
      ghost var fs := Now();
      GrownNot(g, fs, i, bn);
      a := Balloc();
      if a != 0 {
        ghost var fs1 := Now();
        DiskSize(g, fs, {});
        DiskSize(g, fs1, {a});
        UntouchedMeans(fs, fs1, i, bn);
        AssignEntry(g, fs1, {a}, i, bn, a);
        var ind := inodes[i].addrs[NDIRECT];
        LogWrite(ind, SetWord(disk[ind], bn - NDIRECT, a));
        owner := owner[a := Data(i, bn)];
        assert Now() == WithEntry(fs1, i, bn, a);
        MapsNewAt(fs1, Now(), i, bn, a);
        GrownEntry(g, fs, fs1, i, bn, a, Now());
        assert {a} - {a} == {};
      }
    }

    /** bmap: the block of block bn of file i, allocated if it was not there. Only a full disk
        yields 0, and no file's contents change. */
    method Bmap(i: nat, bn: nat) returns (a: nat)
      requires Ok() && i in inodes && bn < MAXFILE
      modifies this`disk, this`inodes, this`owner, this`logged
      ensures Ok() && Grown(old(Now()), Now(), i, bn) && i in inodes && GeometryOk(g)
      ensures a == BlockOf(disk, inodes[i], bn) && (a == 0 ==> Full(g, disk))
      ensures BlockOf(old(disk), old(inodes)[i], bn) != 0 ==> Now() == old(Now()) && logged == old(logged)
      ensures |inodes[i].addrs| == NDIRECT + 1
      ensures logged <= old(logged) + BitmapBlocks(g) + NonZero(inodes[i].addrs[NDIRECT]) + NonZero(a)
    {
      hide Valid, Grown, BitmapBlocks, Full;
      ghost var fs := Now();
      InodeShape(g, fs, i);
      DiskSize(g, fs, {});
      GrownNot(g, fs, i, bn);
      if bn < NDIRECT {
        a := inodes[i].addrs[bn];
        if a == 0 {
          a := AllocDirect(i, bn);
          InodeShape(g, Now(), i);
        }
        return;
      }
      if inodes[i].addrs[NDIRECT] == 0 {
        var ok := AllocIndirect(i, bn);
        if !ok {
          return 0;
        }
      }
      ghost var fs1 := Now();
      InodeShape(g, fs1, i);
      a := Word(disk[inodes[i].addrs[NDIRECT]], bn - NDIRECT);
      if a == 0 {
        a := AllocEntry(i, bn);
        GrownTwice(fs, fs1, Now(), i, bn);
      }
    }

    /** File i with its size taken for 0, the view under which truncation gives up blocks. */
    ghost function Emptied(i: nat): Fs
      requires i in inodes
      reads this`disk, this`inodes, this`owner
    {
      WithInode(Now(), i, inodes[i].(size := 0))
    }

    /** itrunc's first loop. */
    method TruncDirect(i: nat)
      requires i in inodes && |inodes[i].addrs| == NDIRECT + 1 && Valid(g, Emptied(i), {})
      modifies this`disk, this`inodes, this`owner, this`logged
      ensures i in inodes && Valid(g, Emptied(i), {}) && ClearedTo(old(inodes)[i], inodes[i], NDIRECT)
      ensures OthersKept(old(Emptied(i)), Emptied(i), i) && OwnersBut(old(owner), owner, i, NDIRECT)
    {
      hide Valid, OthersKept, OwnersBut, RefsOk, WithoutAddr;
      ghost var fs := Emptied(i);
      RefsOf(g, fs, {});
      InodeKept(g, fs, fs, i);
      OwnersStart(owner, i);
      var k := 0;
      while k < NDIRECT
        invariant 0 <= k <= NDIRECT && i in inodes && ClearedTo(old(inodes)[i], inodes[i], k)
        invariant Valid(g, Emptied(i), {}) && OthersKept(fs, Emptied(i), i) && OwnersBut(old(owner), owner, i, k)
      {
        ghost var v := Emptied(i);
        RefsOf(g, v, {});
        OwnersNext(g, v, old(owner), i, k, NonZero(inodes[i].addrs[k]));
        if inodes[i].addrs[k] != 0 {
          FreeDirect(i, k);
          OthersKeptTwice(fs, v, Emptied(i), i);
        } else {
          assert owner - {} == owner;
        }
        k := k + 1;
      }
    }

    method FreeDirect(i: nat, k: nat)
      requires i in inodes && |inodes[i].addrs| == NDIRECT + 1 && Valid(g, Emptied(i), {})
      requires k < NDIRECT && inodes[i].addrs[k] != 0
      modifies this`disk, this`inodes, this`owner, this`logged
      ensures i in inodes && inodes[i] == old(inodes)[i].(addrs := old(inodes)[i].addrs[k := 0])
      ensures Valid(g, Emptied(i), {}) && OthersKept(old(Emptied(i)), Emptied(i), i)
      ensures owner == old(owner) - {old(inodes)[i].addrs[k]}
    {
      hide Valid, OthersKept, RefsOk, Untouched;
      ghost var v := Emptied(i);
      var a := inodes[i].addrs[k];
      RefsOf(g, v, {});
      ReleaseDirect(g, v, i, k);
      ReleaseKept(g, v, i, k, {a});
      ghost var v1 := WithoutAddr(v, i, k, {a});
      Bfree(a, v1, {a});
      assert {a} - {a} == {};
      inodes := inodes[i := inodes[i].(addrs := inodes[i].addrs[k := 0])];
      owner := owner - {a};
      assert Emptied(i) == v1.(disk := disk);
      UntouchedKept(v1, Emptied(i), i);
      OthersKeptTwice(v, v1, Emptied(i), i);
    }

    /** itrunc's second half: every block the indirect block lists, then that block. */
    method TruncIndirect(i: nat)
      requires i in inodes && |inodes[i].addrs| == NDIRECT + 1 && Valid(g, Emptied(i), {})
      requires inodes[i].addrs[NDIRECT] != 0
      modifies this`disk, this`inodes, this`owner, this`logged
      ensures i in inodes && inodes[i] == old(inodes)[i].(addrs := old(inodes)[i].addrs[NDIRECT := 0])
      ensures Valid(g, Emptied(i), {}) && OthersKept(old(Emptied(i)), Emptied(i), i)
      ensures owner == old(owner) - ({old(inodes)[i].addrs[NDIRECT]} + Rest(old(owner), i, NDIRECT))
    {
      hide Valid, OthersKept, RefsOk, Untouched, Rest, BlockOf;
      ghost var v := Emptied(i);
      RefsOf(g, v, {});
      var ind := inodes[i].addrs[NDIRECT];
      ghost var gone := {ind} + Rest(owner, i, NDIRECT);
      ReleaseIndirect(g, v, i);
      ReleaseKept(g, v, i, NDIRECT, gone);
      RestEnds(g, v, i);
      IndirectFacts(g, v, i);
      ghost var v1 := WithoutAddr(v, i, NDIRECT, gone);
      FreeEntries(i, disk[ind], v, v1);
      ghost var v2 := v1.(disk := disk);
      Bfree(ind, v2, {ind});
      assert {ind} - {ind} == {};
      inodes := inodes[i := inodes[i].(addrs := inodes[i].addrs[NDIRECT := 0])];
      owner := owner - gone;
      assert Emptied(i) == v2.(disk := disk);
      UntouchedKept(v2, Emptied(i), i);
      OthersKeptTwice(v1, v2, Emptied(i), i);
      OthersKeptTwice(v, v1, Emptied(i), i);
    }

    /** Frees what the entries a of the indirect block of v refer to; v1 is v without them. */
    method FreeEntries(i: nat, a: Block, ghost v: Fs, ghost v1: Fs)
      requires GeometryOk(g) && RefsOk(g, v) && i in v.inodes && |v.inodes[i].addrs| == NDIRECT + 1
      requires 0 < v.inodes[i].addrs[NDIRECT] < |v.disk| && a == v.disk[v.inodes[i].addrs[NDIRECT]]
      requires Valid(g, v1, {v.inodes[i].addrs[NDIRECT]} + Rest(v.owner, i, NDIRECT)) && v1.disk == disk
      requires Rest(v.owner, i, MAXFILE) == {}
      modifies this`disk, this`logged
      ensures Valid(g, v1.(disk := disk), {v.inodes[i].addrs[NDIRECT]}) && OthersKept(v1, v1.(disk := disk), i)
    {
      hide Valid, OthersKept, RefsOk, Untouched, Rest, BlockOf;
      RefsOf(g, v1, {v.inodes[i].addrs[NDIRECT]} + Rest(v.owner, i, NDIRECT));
      InodeKept(g, v1, v1, i);
      ghost var ind := v.inodes[i].addrs[NDIRECT];
      var j := 0;
      while j < NINDIRECT
        invariant 0 <= j <= NINDIRECT && OthersKept(v1, v1.(disk := disk), i)
        invariant Valid(g, v1.(disk := disk), {ind} + Rest(v.owner, i, NDIRECT + j))
      {
        NextEntry(g, v, i, NDIRECT + j);
        IndirectEntry(g, v, i, NDIRECT + j);
        if Word(a, j) != 0 {
          ghost var pending, v2 := {ind} + Rest(v.owner, i, NDIRECT + j), v1.(disk := disk);
          Bfree(Word(a, j), v2, pending);
          assert pending - {Word(a, j)} == {ind} + Rest(v.owner, i, NDIRECT + j + 1);
          UntouchedKept(v2, v1.(disk := disk), i);
          OthersKeptTwice(v1, v2, v1.(disk := disk), i);
        }
        j := j + 1;
      }
      assert {ind} + Rest(v.owner, i, NDIRECT + j) == {ind};
    }

    /** iupdate */
    method Iupdate(i: nat)
      requires i in inodes
      modifies this`dinodes, this`logged
      ensures dinodes == old(dinodes)[i := inodes[i]] && logged == old(logged) + {inodestart + i / 16}
    {
      dinodes := dinodes[i := inodes[i]];
      logged := logged + {inodestart + i / 16};
    }

    /** itrunc: file i becomes empty, exactly its blocks are freed, and every other file reads as before. */
    method Itrunc(i: nat)
      requires Ok() && i in inodes
      modifies this`disk, this`inodes, this`dinodes, this`owner, this`logged
      ensures Ok() && i in inodes && inodes[i] == Inode(seq(NDIRECT + 1, _ => 0), 0) && i in dinodes && dinodes[i] == inodes[i]
      ensures OwnersWithout(old(owner), owner, i) && OthersKept(old(Now()), Now(), i)
      ensures forall a: nat | a < g.size ::
                InUse(g, disk, a) <==> InUse(g, old(disk), a) && !(a in old(owner) && old(owner)[a].ino == i)
    {
      hide Valid, OthersKept, OwnersBut, OwnersWithout, InUse;
      ghost var fs := Now();
      InodeShape(g, fs, i);
      EmptiedOk(g, fs, i);
      ghost var v := Emptied(i);
      TruncDirect(i);
      ghost var v1 := Emptied(i);
      RefsOf(g, v1, {});
      if inodes[i].addrs[NDIRECT] != 0 {
        TruncIndirect(i);
        OwnersRest(g, v1, old(owner), i);
        OthersKeptTwice(v, v1, Emptied(i), i);
      } else {
        NoRest(g, v1, i);
        OwnersGone(old(owner), owner, i);
      }
      inodes := inodes[i := inodes[i].(size := 0)];
      assert inodes[i].addrs == seq(NDIRECT + 1, _ => 0);
      ghost var fs' := Now();
      assert fs' == Emptied(i);
      Iupdate(i);
      EmptiedKept(fs, fs', i);
      forall a: nat | a < g.size
        ensures InUse(g, disk, a) <==> InUse(g, old(disk), a) && !(a in old(owner) && old(owner)[a].ino == i)
      {
        FreedExactly(g, fs, fs', i, a);
      }
    }

    /** readi: exactly the asked-for slice of the file, without any allocation */
    method Readi(i: nat, off: nat, n: nat) returns (data: seq<Byte>)
      requires Ok() && i in inodes && off < 0x1_0000_0000 && n < 0x1_0000_0000
      modifies this`disk, this`inodes, this`owner, this`logged
      ensures Now() == old(Now()) && logged == old(logged)
      ensures data == if off > inodes[i].size || off + n >= 0x1_0000_0000 then []
                      else Contents(disk, inodes[i])[off..Min(off + n, inodes[i].size)]
    {
      hide Valid, Grown, BitmapBlocks, Full, Contents, BlockOf;
      data := [];
      if off > inodes[i].size || (off + n) % 0x1_0000_0000 < off {
        return;
      }
      ghost var fs := Now();
      InodeShape(g, fs, i);
      var n' := if off + n > inodes[i].size then inodes[i].size - off else n;
      var tot := 0;
      while tot < n'
        invariant 0 <= tot <= n' && Now() == fs && logged == old(logged)
        invariant data == Contents(disk, inodes[i])[off..off + tot]
      {
        var at := off + tot;
        InsideFile(g, fs, i, at);
        var a := Bmap(i, at / BSIZE);
        if a == 0 {
          break;
        }
        var m := Min(n' - tot, BSIZE - at % BSIZE);
        SliceInBlock(disk, inodes[i], at, m);
        data := data + disk[a][at % BSIZE..at % BSIZE + m];
        tot := tot + m;
      }
    }

    /** One round of writei's loop, the block being there. */
    method WriteStep(i: nat, src: seq<Byte>, off: nat, tot: nat, m: nat, a: nat, ghost fs: Fs) returns (ghost blk: Block)
      requires Ok() && Progress(fs, Now(), i, off, tot, src) && i in inodes && (off + tot) / BSIZE < MAXFILE
      requires 0 < a < |disk| && a == BlockOf(disk, inodes[i], (off + tot) / BSIZE)
      requires tot + m <= |src| && (off + tot) % BSIZE + m <= BSIZE
      modifies this`disk, this`logged
      ensures Ok() && Progress(fs, Now(), i, off, tot + m, src) && logged == old(logged) + {a} && |disk| == |old(disk)|
      ensures Rewritten(old(Now()), Now(), i, (off + tot) / BSIZE, blk) && inodes == old(inodes)
    {
      hide Valid, Progress, Rewritten;
      ghost var fs1 := Now();
      var data := Patch(disk[a], (off + tot) % BSIZE, src[tot..tot + m]);
      blk := data;
      WriteKeeps(g, fs1, i, (off + tot) / BSIZE, blk);
      LogWrite(a, data);
      assert Now() == fs1.(disk := fs1.disk[a := blk]);
      ProgressWritten(fs, fs1, Now(), i, off, tot, src, m, blk);
    }

    /** The loop of writei: as many bytes as the disk has room for. */
    method WriteLoop(i: nat, src: seq<Byte>, off: nat, n: nat) returns (tot: nat)
      requires Ok() && i in inodes && n <= |src| && off <= inodes[i].size && off + n <= MAXFILE * BSIZE && GeometryOk(g)
      modifies this`disk, this`inodes, this`owner, this`logged
      ensures Ok() && tot <= n && Progress(old(Now()), Now(), i, off, tot, src) && i in inodes
      ensures tot < n ==> Full(g, disk)
      ensures |inodes[i].addrs| == NDIRECT + 1
      ensures logged <= old(logged) + WriteSet(g, Now(), i, off / BSIZE, (off + n + BSIZE - 1) / BSIZE)
    {
      hide Valid, Progress, Grown, Rewritten, Full, WriteSet, BlockOf, BitmapBlocks;
      ghost var fs := Now();
      ghost var lo, hi := off / BSIZE, (off + n + BSIZE - 1) / BSIZE;
      ProgressStart(g, fs, i, off, src);
      InodeShape(g, fs, i);
      tot := 0;
      while tot < n
        invariant 0 <= tot <= n && Ok() && Progress(fs, Now(), i, off, tot, src) && i in inodes
        invariant |inodes[i].addrs| == NDIRECT + 1
        invariant logged <= old(logged) + WriteSet(g, Now(), i, lo, hi)
      {
        ghost var fs1 := Now();
        var at := off + tot;
        InRange(off, n, tot);
        var a := Bmap(i, at / BSIZE);
        ghost var fs2 := Now();
        ProgressGrown(fs, fs1, fs2, i, off, tot, src, at / BSIZE);
        WriteSetGrown(g, fs1, fs2, i, lo, hi, at / BSIZE);
        WriteSetHas(g, fs2, i, lo, hi);
        if a == 0 {
          break;
        }
        InodeShape(g, fs2, i);
        var m := Min(n - tot, BSIZE - at % BSIZE);
        ghost var blk := WriteStep(i, src, off, tot, m, a, fs);
        WriteSetRewritten(g, fs2, Now(), i, lo, hi, at / BSIZE, blk);
        tot := tot + m;
      }
    }

    /** writei: -1 and nothing changed for a write that starts past the end, wraps around or is too
        large; else the first r bytes of src are spliced in at off, all n of them unless the disk
        filled up, and every other file reads as before. */
    method Writei(i: nat, src: seq<Byte>, off: nat, n: nat) returns (r: int)
      requires Ok() && i in inodes && n <= |src| && off < 0x1_0000_0000 && n < 0x1_0000_0000
      modifies this`disk, this`inodes, this`dinodes, this`owner, this`logged
      ensures Ok() && i in inodes && GeometryOk(g) && |inodes[i].addrs| == NDIRECT + 1
      ensures r == -1 <==> off > old(inodes)[i].size || off + n > MAXFILE * BSIZE
      ensures r == -1 ==> Now() == old(Now()) && dinodes == old(dinodes) && logged == old(logged)
      ensures r != -1 ==> 0 <= r <= n && (r < n ==> Full(g, disk)) && i in dinodes && dinodes[i] == inodes[i]
      ensures r != -1 ==> Contents(disk, inodes[i]) == Splice(Contents(old(disk), old(inodes)[i]), off, src[..r])
      ensures r != -1 ==> OthersKept(old(Now()), Now(), i)
      ensures r != -1 ==> logged <= old(logged) + WriteSet(g, Now(), i, off / BSIZE, (off + n + BSIZE - 1) / BSIZE)
                                    + {inodestart + i / 16}
    {
      hide Valid, Progress, Full, WriteSet, Contents, BlockOf, OthersKept;
      ghost var fs := Now();
      DiskSize(g, fs, {});
      InodeShape(g, fs, i);
      if off > inodes[i].size || (off + n) % 0x1_0000_0000 < off {
        return -1;
      }
      if off + n > MAXFILE * BSIZE {
        return -1;
      }
      var tot := WriteLoop(i, src, off, n);
      ghost var fs1 := Now();
      ProgressMeans(fs, fs1, i, off, tot, src);
      ProgressEnds(fs, fs1, i, off, tot, src);
      ghost var size := Max(fs.inodes[i].size, off + tot);
      ResizeKeeps(g, fs1, {}, i, size);
      WriteSetResized(g, fs1, i, off / BSIZE, (off + n + BSIZE - 1) / BSIZE, size);
      ResizedKept(fs, fs1, i, size);
      if off + tot > inodes[i].size {
        inodes := inodes[i := inodes[i].(size := off + tot)];
      }
      assert Now() == WithInode(fs1, i, fs1.inodes[i].(size := size));
      Iupdate(i);
      return tot;
    }

    /** One transaction of filewrite. With a single bitmap block it logs at most seven blocks, within
        the MAXOPBLOCKS that begin_op reserves. */
    method WriteChunk(f: OpenFile, src: seq<Byte>, n: nat) returns (r: int)
      requires Ok() && f.ino in inodes && n <= |src| && n <= MAX_CHUNK && f.off < 0x1_0000_0000
      modifies this`disk, this`inodes, this`dinodes, this`owner, this`logged, f`off
      ensures Ok() && f.ino in inodes && OthersKept(old(Now()), Now(), f.ino)
      ensures r == -1 <==> old(f.off) > old(inodes)[f.ino].size || old(f.off) + n > MAXFILE * BSIZE
      ensures r == -1 ==> f.off == old(f.off) && Contents(disk, inodes[f.ino]) == Contents(old(disk), old(inodes)[f.ino])
      ensures r != -1 ==> 0 <= r <= n && f.off == old(f.off) + r && (r < n ==> Full(g, disk))
      ensures r != -1 ==> Contents(disk, inodes[f.ino]) == Splice(Contents(old(disk), old(inodes)[f.ino]), old(f.off), src[..r])
      ensures g.size <= BPB ==> |logged| <= 7 <= MAXOPBLOCKS
    {
      hide Valid, Contents, WriteSet, OthersKept, Full, Splice;
      KeptNot(g, Now(), f.ino);
      logged := {}; // begin_op
      r := Writei(f.ino, src, f.off, n);
      if r != -1 && g.size <= BPB {
        FourBlocks(f.off, n);
        WriteSetBound(g, Now(), f.ino, f.off / BSIZE, (f.off + n + BSIZE - 1) / BSIZE, inodestart + f.ino / 16, logged);
      }
      if r > 0 {
        f.off := f.off + r;
      }
    }

    /** filewrite on an inode: what it adds to the offset is what it wrote; n if that is everything,
        else -1, although a prefix may have been written. */
    method Filewrite(f: OpenFile, src: seq<Byte>, n: int) returns (ret: int)
      requires Ok() && f.ino in inodes && n <= |src| && n < 0x8000_0000 && f.off < 0x8000_0000
      modifies this`disk, this`inodes, this`dinodes, this`owner, this`logged, f`off
      ensures Ok() && f.ino in inodes && OthersKept(old(Now()), Now(), f.ino)
      ensures !f.writable ==> ret == -1 && Now() == old(Now()) && f.off == old(f.off)
      ensures f.writable ==> old(f.off) <= f.off <= old(f.off) + (if n > 0 then n else 0)
      ensures f.writable ==> ret == if f.off - old(f.off) == n then n else -1
      ensures f.writable && ret == -1 ==>
                n < 0 || Full(g, disk) || old(f.off) > old(inodes)[f.ino].size || old(f.off) + n > MAXFILE * BSIZE
      ensures f.writable && n > 0 && (old(f.off) > old(inodes)[f.ino].size || old(f.off) + n > MAXFILE * BSIZE) ==> ret == -1
      ensures f.writable ==> Contents(disk, inodes[f.ino]) == Overwritten(Contents(old(disk), old(inodes)[f.ino]), old(f.off),
                                                                        src[..f.off - old(f.off)])
    {
      hide Valid, Contents, OthersKept, Full, Splice;
      ghost var fs := Now();
      KeptNot(g, fs, f.ino);
      if !f.writable {
        return -1;
      }
      var i := 0;
      ghost var done := 0;
      OverwrittenNone(Contents(disk, inodes[f.ino]), f.off);
      assert src[..0] == [];
      while i < n
        invariant 0 <= i && (i == 0 || i <= n) && done == i && f.off == old(f.off) + done && Ok() && f.ino in inodes
        invariant OthersKept(fs, Now(), f.ino)
        invariant Contents(disk, inodes[f.ino]) == Overwritten(Contents(fs.disk, fs.inodes[f.ino]), old(f.off), src[..done])
        invariant done > 0 ==> f.off <= MAXFILE * BSIZE && old(f.off) <= fs.inodes[f.ino].size && f.off <= inodes[f.ino].size
        decreases n - i
      {
        ghost var fs1, off1 := Now(), f.off;
        var n1 := n - i;
        if n1 > MAX_CHUNK {
          n1 := MAX_CHUNK;
        }
        ghost var c := Contents(disk, inodes[f.ino]);
        SizeIs(disk, inodes[f.ino]);
        var r := WriteChunk(f, src[i..i + n1], n1);
        SizeIs(disk, inodes[f.ino]);
        OthersKeptTwice(fs, fs1, Now(), f.ino);
        if r > 0 {
          SpliceLength(c, off1, src[i..i + n1][..r]);
          assert src[i..i + n1][..r] == src[i..i + r];
          OverwrittenMore(Contents(fs.disk, fs.inodes[f.ino]), old(f.off), src, i, r);
          done := done + r;
        } else if r == 0 {
          SpliceNone(c, off1);
          assert src[i..i + n1][..0] == [];
        }
        if r != n1 {
          break;
        }
        i := i + r;
      }
      ret := if i == n then n else -1;
    }
  }

  // --- a formatted image ---

  ghost predicate Blank(inodes: map<nat, Inode>) {
    forall i | i in inodes :: inodes[i] == Inode(seq(NDIRECT + 1, _ => 0), 0)
  }

  lemma {:induction false} NoBit(k: nat)
    ensures !Bit(0, k)
    decreases k
  {
    if k > 0 {
      NoBit(k - 1);
    }
  }

  lemma BlankBits(g: Geometry, disk: seq<Block>, c: nat)
    requires forall b: nat | b < |disk| :: disk[b] == ZERO_BLOCK
    ensures !InUse(g, disk, c)
  {
    NoBit(c % BPB % 8);
  }

  lemma BlankOk(g: Geometry, fs: Fs)
    requires GeometryOk(g) && |fs.disk| == g.size && fs.owner == map[] && Blank(fs.inodes)
    requires forall c: nat :: InUse(g, fs.disk, c) <==> c < g.datastart
    ensures Valid(g, fs, {})
  {
    hide InUse;
    forall i | i in fs.inodes
      ensures InodeOk(fs, i)
    {
      assert forall bn: nat :: BlockOf(fs.disk, fs.inodes[i], bn) == 0;
    }
  }
}
