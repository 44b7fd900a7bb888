/** Disk blocks as bytes, and the two other ways the file system reads them: as little-endian
    32-bit block numbers and as bitmap bits.
 */
module FsBytes {

  const BSIZE: nat := 1024
  const NINDIRECT: nat := 256
  const BPB: nat := 8192

  type Byte = b: nat | b < 256

  type Block = b: seq<Byte> | |b| == BSIZE witness seq(BSIZE, _ => 0)

  const ZERO_BLOCK: Block := seq(BSIZE, _ => 0)

  /** The i-th uint of a block. */
  function Word(b: Block, i: nat): (w: nat)
    requires i < NINDIRECT
    ensures w < 0x1_0000_0000
  {
    var b0: nat, b1: nat, b2: nat, b3: nat := b[4 * i], b[4 * i + 1], b[4 * i + 2], b[4 * i + 3];
    b0 + 256 * b1 + 65536 * b2 + 16777216 * b3
  }

  function SetWord(b: Block, i: nat, w: nat): (r: Block)
    requires i < NINDIRECT && w < 0x1_0000_0000
  {
    var c: seq<Byte> := b[4 * i := w % 256][4 * i + 1 := w / 256 % 256][4 * i + 2 := w / 65536 % 256][4 * i + 3 := w / 16777216];
    c
  }

  lemma SetWordGet(b: Block, i: nat, w: nat, j: nat)
    requires i < NINDIRECT && j < NINDIRECT && w < 0x1_0000_0000
    ensures Word(SetWord(b, i, w), j) == if j == i then w else Word(b, j)
  {
    if j == i {
      var w1 := w / 256;
      var w2 := w1 / 256;
      assert w / 65536 == w2 && w / 16777216 == w2 / 256;
      assert w == w % 256 + 256 * w1 && w1 == w1 % 256 + 256 * w2 && w2 == w2 % 256 + 256 * (w2 / 256);
    }
  }

  function Exp2(m: nat): nat {
    if m == 0 then 1 else 2 * Exp2(m - 1)
  }

  /** x & (1 << k) is not 0 */
  predicate Bit(x: nat, k: nat) {
    if k == 0 then x % 2 == 1 else Bit(x / 2, k - 1)
  }

  /** x | (1 << k), or x & ~(1 << k) */
  function WithBit(x: nat, k: nat, on: bool): (y: nat) {
    if k == 0 then x / 2 * 2 + (if on then 1 else 0)
    else WithBit(x / 2, k - 1, on) * 2 + x % 2
  }

  lemma {:induction false} WithBitGet(x: nat, k: nat, on: bool, j: nat)
    ensures Bit(WithBit(x, k, on), j) <==> if j == k then on else Bit(x, j)
  {
    var y := WithBit(x, k, on);
    if k == 0 {
      assert y / 2 == x / 2;
    } else {
      assert y / 2 == WithBit(x / 2, k - 1, on) && y % 2 == x % 2;
      if j > 0 {
        WithBitGet(x / 2, k - 1, on, j - 1);
      }
    }
  }

  lemma {:induction false} WithBitBound(x: nat, k: nat, on: bool, m: nat)
    requires x < Exp2(m) && k < m
    ensures WithBit(x, k, on) < Exp2(m)
  {
    if k > 0 {
      WithBitBound(x / 2, k - 1, on, m - 1);
    }
  }

  /** Bit bi of a bitmap block. */
  predicate BitAt(b: Block, bi: nat)
    requires bi < BPB
  {
    Bit(b[bi / 8], bi % 8)
  }

  function SetBitAt(b: Block, bi: nat, on: bool): (r: Block)
    requires bi < BPB
  {
    WithBitBound(b[bi / 8], bi % 8, on, 8);
    var y: Byte := WithBit(b[bi / 8], bi % 8, on);
    b[bi / 8 := y]
  }

  lemma SetBitGet(b: Block, bi: nat, on: bool, bj: nat)
    requires bi < BPB && bj < BPB
    ensures BitAt(SetBitAt(b, bi, on), bj) <==> if bj == bi then on else BitAt(b, bj)
  {
    if bj / 8 == bi / 8 {
      WithBitGet(b[bi / 8], bi % 8, on, bj % 8);
    }
  }
}
