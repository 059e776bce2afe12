/** Raw disk blocks (kernel/fs.h, kernel/types.h): bytes, the little-endian 16- and 32-bit
    fields the kernel overlays on them, and the bits of the free map. */
module Blocks {
  const BSIZE: nat := 512
  const NINDIRECT: nat := 128    // BSIZE / sizeof(uint)
  const BPB: nat := 4096         // bitmap bits per block

  const UINT_LIMIT: nat := 0x1_0000_0000

  type Byte = x: int | 0 <= x < 256
  type Half = x: int | 0 <= x < 0x1_0000
  type Word = x: int | 0 <= x < 0x1_0000_0000
  type Block = s: seq<Byte> | |s| == 512 witness seq(512, _ => 0)

  function ZeroBlock(): (b: Block)
    ensures forall k :: 0 <= k < BSIZE ==> b[k] == 0
  {
    seq(BSIZE, _ => 0)
  }

  // C's unsigned addition.
  function AddU32(x: Word, y: Word): (r: Word) {
    (x + y) % UINT_LIMIT
  }

  // ---- 32-bit words ----

  function WordOf(b0: Byte, b1: Byte, b2: Byte, b3: Byte): (w: Word) {
    b0 + 0x100 * b1 + 0x1_0000 * b2 + 0x100_0000 * b3
  }

  function WordByte(w: Word, k: nat): (b: Byte)
    requires k < 4
  {
    if k == 0 then w % 0x100
    else if k == 1 then w / 0x100 % 0x100
    else if k == 2 then w / 0x100 / 0x100 % 0x100
    else w / 0x100 / 0x100 / 0x100
  }

  lemma WordBytes(w: Word)
    ensures WordOf(WordByte(w, 0), WordByte(w, 1), WordByte(w, 2), WordByte(w, 3)) == w
  {
    var q1 := w / 0x100;
    var q2 := q1 / 0x100;
    assert w == 0x100 * q1 + WordByte(w, 0) && q1 == 0x100 * q2 + WordByte(w, 1);
    assert q2 == 0x100 * WordByte(w, 3) + WordByte(w, 2);
  }

  // ((uint*)data)[i]
  function WordAt(b: Block, i: nat): (w: Word)
    requires i < NINDIRECT
  {
    WordOf(b[4 * i], b[4 * i + 1], b[4 * i + 2], b[4 * i + 3])
  }

  // ((uint*)data)[i] = w
  function PutWord(b: Block, i: nat, w: Word): (r: Block)
    requires i < NINDIRECT
  {
    b[4 * i := WordByte(w, 0)][4 * i + 1 := WordByte(w, 1)][4 * i + 2 := WordByte(w, 2)][4 * i + 3 := WordByte(w, 3)]
  }

  lemma PutWordAt(b: Block, i: nat, w: Word, j: nat)
    requires i < NINDIRECT && j < NINDIRECT
    ensures WordAt(PutWord(b, i, w), j) == if i == j then w else WordAt(b, j)
  {
    WordBytes(w);
  }

  lemma ZeroWordAt(j: nat)
    requires j < NINDIRECT
    ensures WordAt(ZeroBlock(), j) == 0
  {
  }

  // ---- bits ----

  // x & (1 << k)
  predicate Bit(x: nat, k: nat)
    decreases k
  {
    if k == 0 then x % 2 == 1 else Bit(x / 2, k - 1)
  }

  // x | (1 << k) when v, x & ~(1 << k) otherwise
  function WithBit(x: nat, k: nat, v: bool): (r: nat)
    decreases k
  {
    if k == 0 then x - x % 2 + (if v then 1 else 0) else 2 * WithBit(x / 2, k - 1, v) + x % 2
  }

  function Pow2(n: nat): nat {
    if n == 0 then 1 else 2 * Pow2(n - 1)
  }

  lemma {:induction false} WithBitBound(x: nat, k: nat, v: bool, n: nat)
    requires k < n && x < Pow2(n)
    ensures WithBit(x, k, v) < Pow2(n)
    decreases n
  {
    var half := Pow2(n - 1);
    assert Pow2(n) == 2 * half;
    if k > 0 {
      WithBitBound(x / 2, k - 1, v, n - 1);
      var y := WithBit(x / 2, k - 1, v);
      assert y < half && WithBit(x, k, v) == 2 * y + x % 2;
    } else {
      assert x / 2 < half && WithBit(x, k, v) <= 2 * (x / 2) + 1;
    }
  }

  lemma {:induction false} BitWithBit(x: nat, k: nat, v: bool, j: nat)
    ensures Bit(WithBit(x, k, v), j) == if j == k then v else Bit(x, j)
    decreases k
  {
    if k > 0 {
      assert WithBit(x, k, v) / 2 == WithBit(x / 2, k - 1, v);
      if j > 0 {
        BitWithBit(x / 2, k - 1, v, j - 1);
      }
    } else if j > 0 {
      assert WithBit(x, k, v) / 2 == x / 2;
    }
  }

  // The map bit i of a bitmap block: data[i/8] & (1 << i%8).
  predicate BitAt(b: Block, i: nat)
    requires i < BPB
  {
    Bit(b[i / 8], i % 8)
  }

  function PutBit(b: Block, i: nat, v: bool): (r: Block)
    requires i < BPB
    ensures forall j :: 0 <= j < BSIZE && j != i / 8 ==> r[j] == b[j]
  {
    ByteWithBit(b[i / 8], i % 8, v);
    b[i / 8 := WithBit(b[i / 8], i % 8, v)]
  }

  lemma ByteWithBit(x: Byte, k: nat, v: bool)
    requires k < 8
    ensures 0 <= WithBit(x, k, v) < 256
  {
    assert Pow2(8) == 256;
    WithBitBound(x, k, v, 8);
  }

  lemma PutBitAt(b: Block, i: nat, v: bool, j: nat)
    requires i < BPB && j < BPB
    ensures BitAt(PutBit(b, i, v), j) == if i == j then v else BitAt(b, j)
  {
    BitWithBit(b[i / 8], i % 8, v, j % 8);
  }
}
