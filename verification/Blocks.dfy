/** Disk blocks as byte sequences, with the two ways the kernel looks inside
    them: an array of 32-bit little-endian words (log header, indirect block)
    and an array of bits (free map). */
module Blocks {

  const BSIZE: nat := 1024
  const WORDS: nat := 256            // words per block: BSIZE / sizeof(uint)
  const BPB: nat := 8192             // bits per block: BSIZE * 8
  const UINT_MOD: nat := 0x1_0000_0000

  newtype byte = x: int | 0 <= x < 256

  type Block = b: seq<byte> | |b| == BSIZE witness seq(BSIZE, i => 0)
  type Disk = seq<Block>

  function ZeroBlock(): Block {
    seq(BSIZE, i => 0)
  }

  // ---- 32-bit words -------------------------------------------------------

  /** ((uint*)b->data)[i] */
  function GetWord(b: Block, i: nat): (w: nat)
    requires i < WORDS
    ensures w < UINT_MOD
  {
    b[4*i] as nat + 256 * b[4*i+1] as nat + 65536 * b[4*i+2] as nat + 16777216 * b[4*i+3] as nat
  }

  /** ((uint*)b->data)[i] = w */
  function PutWord(b: Block, i: nat, w: nat): Block
    requires i < WORDS && w < UINT_MOD
  {
    b[4*i := (w % 256) as byte]
     [4*i+1 := (w / 256 % 256) as byte]
     [4*i+2 := (w / 65536 % 256) as byte]
     [4*i+3 := (w / 16777216) as byte]
  }

  lemma SplitWord(w: nat)
    requires w < UINT_MOD
    ensures w == w % 256 + 256 * (w / 256 % 256) + 65536 * (w / 65536 % 256) + 16777216 * (w / 16777216)
  {
    assert w / 65536 == w / 256 / 256;
    assert w / 16777216 == w / 65536 / 256;
  }

  lemma PutThenGet(b: Block, i: nat, w: nat, j: nat)
    requires i < WORDS && j < WORDS && w < UINT_MOD
    ensures GetWord(PutWord(b, i, w), j) == if i == j then w else GetWord(b, j)
  {
    if i == j {
      SplitWord(w);
    } else {
      assert 4*i+3 < 4*j || 4*j+3 < 4*i;
    }
  }

  lemma ZeroWord(i: nat)
    requires i < WORDS
    ensures GetWord(ZeroBlock(), i) == 0
  {
  }

  // ---- bits ---------------------------------------------------------------

  /** (x & (1 << k)) != 0 */
  predicate NatBit(x: nat, k: nat) {
    if k == 0 then x % 2 == 1 else NatBit(x / 2, k - 1)
  }

  /** x | (1 << k) when v, x & ~(1 << k) otherwise */
  function SetNatBit(x: nat, k: nat, v: bool): nat {
    if k == 0 then x / 2 * 2 + (if v then 1 else 0) else SetNatBit(x / 2, k - 1, v) * 2 + x % 2
  }

  lemma {:induction false} NatBitAfterSet(x: nat, k: nat, v: bool, j: nat)
    ensures NatBit(SetNatBit(x, k, v), j) == if j == k then v else NatBit(x, j)
  {
    if k > 0 && j > 0 {
      NatBitAfterSet(x / 2, k - 1, v, j - 1);
    }
  }

  function Pow2(n: nat): nat {
    if n == 0 then 1 else 2 * Pow2(n - 1)
  }

  lemma Halves(x: nat, p: nat)
    ensures x < 2 * p <==> x / 2 < p
  {
  }

  lemma {:induction false} SetNatBitBound(x: nat, k: nat, v: bool, n: nat)
    requires k < n && x < Pow2(n)
    ensures SetNatBit(x, k, v) < Pow2(n)
  {
    var p := Pow2(n - 1);
    assert x < 2 * p;
    if k > 0 {
      Halves(x, p);
      SetNatBitBound(x / 2, k - 1, v, n - 1);
      Halves(SetNatBit(x, k, v), p);
    } else {
      Halves(x, p);
    }
  }

  predicate ByteBit(x: byte, k: nat)
    requires k < 8
  {
    NatBit(x as nat, k)
  }

  function SetByteBit(x: byte, k: nat, v: bool): byte
    requires k < 8
  {
    assert Pow2(8) == 256 by {
      assert Pow2(4) == 16;
    }
    SetNatBitBound(x as nat, k, v, 8);
    SetNatBit(x as nat, k, v) as byte
  }

  predicate GetBit(b: Block, i: nat)
    requires i < BPB
  {
    ByteBit(b[i / 8], i % 8)
  }

  function SetBit(b: Block, i: nat, v: bool): Block
    requires i < BPB
  {
    b[i / 8 := SetByteBit(b[i / 8], i % 8, v)]
  }

  lemma SetThenGetBit(b: Block, i: nat, v: bool, j: nat)
    requires i < BPB && j < BPB
    ensures GetBit(SetBit(b, i, v), j) == if i == j then v else GetBit(b, j)
  {
    if i / 8 == j / 8 {
      NatBitAfterSet(b[i / 8] as nat, i % 8, v, j % 8);
    }
  }
}
