/** The on-disk layout (kernel/fs.h): superblock, inodes, and the block tree of an inode seen as
    a set of named pointer slots. */
module FsLayout {
  import opened Blocks

  const NDIRECT: nat := 11
  const NDINDIRECT: nat := 16384          // NINDIRECT * NINDIRECT
  const MAXFILE: nat := 16523             // NDIRECT + NINDIRECT + NDINDIRECT
  const IPB: nat := 8                     // inodes per block
  const DINODE_SIZE: nat := 64            // sizeof(struct dinode)
  const T_DIR: Half := 1
  const T_FILE: Half := 2
  const T_DEV: Half := 3

  // [ boot block | super block | log | inode blocks | free bit map | data blocks ]
  datatype Superblock = Superblock(size: nat, ninodes: nat, nlog: nat, logstart: nat, inodestart: nat, bmapstart: nat) {
    // The first block that may hold file data.
    function Nmeta(): nat {
      bmapstart + size / BPB + 1
    }

    predicate Valid() {
      && 2 <= logstart
      && logstart + nlog <= inodestart
      && inodestart + ninodes / IPB + 1 <= bmapstart
      && Nmeta() <= size < UINT_LIMIT
    }

    // Outside the log area.
    predicate Home(b: int) {
      0 <= b < size && !(logstart <= b < logstart + nlog)
    }

    // IBLOCK(i, sb)
    function IBlock(i: nat): nat {
      i / IPB + inodestart
    }

    // BBLOCK(b, sb)
    function BBlock(b: nat): nat {
      b / BPB + bmapstart
    }
  }

  type Addrs = s: seq<Word> | |s| == 13 witness seq(13, _ => 0)

  // struct dinode; the 16-bit fields are kept as their raw bits.
  datatype Inode = Inode(typ: Half, major: Half, minor: Half, nlink: Half, size: Word, addrs: Addrs)

  function NoAddrs(): Addrs {
    seq(13, _ => 0)
  }

  // ---- inode codec ----

  function HalfByte(h: Half, k: nat): Byte
    requires k < 2
  {
    if k == 0 then h % 0x100 else h / 0x100
  }

  function InodeByte(ino: Inode, p: nat): Byte
    requires p < DINODE_SIZE
  {
    if p < 2 then HalfByte(ino.typ, p)
    else if p < 4 then HalfByte(ino.major, p - 2)
    else if p < 6 then HalfByte(ino.minor, p - 4)
    else if p < 8 then HalfByte(ino.nlink, p - 6)
    else if p < 12 then WordByte(ino.size, p - 8)
    else WordByte(ino.addrs[(p - 12) / 4], (p - 12) % 4)
  }

  function InodeBytes(ino: Inode): (s: seq<Byte>)
    ensures |s| == DINODE_SIZE
  {
    seq(DINODE_SIZE, p requires 0 <= p < DINODE_SIZE => InodeByte(ino, p))
  }

  function HalfOf(b0: Byte, b1: Byte): Half {
    b0 + 0x100 * b1
  }

  function HalfIn(b: Block, p: nat): Half
    requires p + 1 < BSIZE
  {
    HalfOf(b[p], b[p + 1])
  }

  function WordIn(b: Block, p: nat): Word
    requires p + 3 < BSIZE
  {
    WordOf(b[p], b[p + 1], b[p + 2], b[p + 3])
  }

  // The k-th dinode of an inode block.
  function DinodeAt(b: Block, k: nat): Inode
    requires k < IPB
  {
    var p := DINODE_SIZE * k;
    Inode(HalfIn(b, p), HalfIn(b, p + 2), HalfIn(b, p + 4), HalfIn(b, p + 6), WordIn(b, p + 8),
          seq(13, a requires 0 <= a < 13 => WordIn(b, p + 12 + 4 * a)))
  }

  function PutDinode(b: Block, k: nat, ino: Inode): Block
    requires k < IPB
  {
    b[..DINODE_SIZE * k] + InodeBytes(ino) + b[DINODE_SIZE * k + DINODE_SIZE..]
  }

  lemma PutDinodeSame(b: Block, k: nat, ino: Inode)
    requires k < IPB
    ensures DinodeAt(PutDinode(b, k, ino), k) == ino
  {
    var r := PutDinode(b, k, ino);
    var d := DinodeAt(r, k);
    var p := DINODE_SIZE * k;
    assert forall q :: 0 <= q < DINODE_SIZE ==> r[p + q] == InodeByte(ino, q);
    WordBytes(ino.size);
    assert d.size == ino.size by {
      assert r[p + 8] == WordByte(ino.size, 0) && r[p + 9] == WordByte(ino.size, 1);
      assert r[p + 10] == WordByte(ino.size, 2) && r[p + 11] == WordByte(ino.size, 3);
    }
    forall a | 0 <= a < 13
      ensures d.addrs[a] == ino.addrs[a]
    {
      AddrField(r, p, ino, a);
    }
    assert d.addrs == ino.addrs;
  }

  lemma AddrField(r: Block, p: nat, ino: Inode, a: nat)
    requires p + DINODE_SIZE <= BSIZE && a < 13
    requires forall q :: 0 <= q < DINODE_SIZE ==> r[p + q] == InodeByte(ino, q)
    ensures WordIn(r, p + 12 + 4 * a) == ino.addrs[a]
  {
    var q := 12 + 4 * a;
    forall c | 0 <= c < 4
      ensures r[p + q + c] == WordByte(ino.addrs[a], c)
    {
      assert r[p + (q + c)] == InodeByte(ino, q + c);
      assert (q + c - 12) / 4 == a && (q + c - 12) % 4 == c;
    }
    assert r[p + q + 0] == WordByte(ino.addrs[a], 0);
    WordBytes(ino.addrs[a]);
  }

  lemma PutDinodeOther(b: Block, k: nat, ino: Inode, j: nat)
    requires k < IPB && j < IPB && j != k
    ensures DinodeAt(PutDinode(b, k, ino), j) == DinodeAt(b, j)
  {
    var r := PutDinode(b, k, ino);
    var p := DINODE_SIZE * j;
    assert forall q :: p <= q < p + DINODE_SIZE ==> r[q] == b[q];
    assert DinodeAt(r, j).addrs == DinodeAt(b, j).addrs;
  }

  // ---- block trees ----

  // The places that can hold the number of an allocated block.
  datatype Slot =
    | Meta                                   // boot, super, log, inode and bitmap blocks
    | Direct(ino: nat, k: nat)               // addrs[k]
    | Ind(ino: nat)                          // addrs[NDIRECT]
    | IndData(ino: nat, k: nat)              // entry k of the indirect block
    | DInd(ino: nat)                         // addrs[NDIRECT+1]
    | Leaf(ino: nat, k: nat)                 // entry k of the double-indirect block
    | LeafData(ino: nat, k: nat, j: nat)     // entry j of the k-th block below it

  predicate ValidSlot(s: Slot, n: nat) {
    match s
    case Meta => false
    case Direct(i, k) => i < n && k < NDIRECT
    case Ind(i) => i < n
    case IndData(i, k) => i < n && k < NINDIRECT
    case DInd(i) => i < n
    case Leaf(i, k) => i < n && k < NINDIRECT
    case LeafData(i, k, j) => i < n && k < NINDIRECT && j < NINDIRECT
  }

  // Everything the tree walk can see: the blocks and the current inode table.
  datatype Image = Image(blocks: seq<Block>, inodes: seq<Inode>)

  function Through(blocks: seq<Block>, p: Word, k: nat): Word
    requires k < NINDIRECT
  {
    if 0 < p < |blocks| then WordAt(blocks[p], k) else 0
  }

  // The block number stored in a slot, 0 when there is none.
  function Ptr(m: Image, s: Slot): Word {
    if !ValidSlot(s, |m.inodes|) then 0 else
    match s
    case Meta => 0
    case Direct(i, k) => m.inodes[i].addrs[k]
    case Ind(i) => m.inodes[i].addrs[NDIRECT]
    case DInd(i) => m.inodes[i].addrs[NDIRECT + 1]
    case IndData(i, k) => Through(m.blocks, m.inodes[i].addrs[NDIRECT], k)
    case Leaf(i, k) => Through(m.blocks, m.inodes[i].addrs[NDIRECT + 1], k)
    case LeafData(i, k, j) => Through(m.blocks, Through(m.blocks, m.inodes[i].addrs[NDIRECT + 1], k), j)
  }

  // Slots whose target is a block of pointers.
  predicate IsIndex(s: Slot) {
    s.Ind? || s.DInd? || s.Leaf?
  }

  function Child(s: Slot, k: nat): Slot
    requires IsIndex(s)
  {
    match s
    case Ind(i) => IndData(i, k)
    case DInd(i) => Leaf(i, k)
    case Leaf(i, j) => LeafData(i, j, k)
  }

  lemma ChildPtr(m: Image, s: Slot, k: nat)
    requires IsIndex(s) && ValidSlot(s, |m.inodes|) && k < NINDIRECT
    ensures ValidSlot(Child(s, k), |m.inodes|) && Ptr(m, Child(s, k)) == Through(m.blocks, Ptr(m, s), k)
  {
  }

  // The slot of the bn-th data block of inode i.
  function DataSlot(i: nat, bn: nat): Slot {
    if bn < NDIRECT then Direct(i, bn)
    else if bn < NDIRECT + NINDIRECT then IndData(i, bn - NDIRECT)
    else LeafData(i, (bn - NDIRECT - NINDIRECT) / NINDIRECT, (bn - NDIRECT - NINDIRECT) % NINDIRECT)
  }

  lemma DataSlotInjective(i: nat, bn: nat, i': nat, bn': nat)
    requires DataSlot(i, bn) == DataSlot(i', bn')
    ensures i == i' && bn == bn'
  {
  }

  lemma DataSlotValid(i: nat, bn: nat, n: nat)
    requires i < n && bn < MAXFILE
    ensures ValidSlot(DataSlot(i, bn), n) && !IsIndex(DataSlot(i, bn)) && DataSlot(i, bn).ino == i
  {
  }

  // ---- file contents ----

  function ByteAt(m: Image, i: nat, k: nat): Byte {
    var a := Ptr(m, DataSlot(i, k / BSIZE));
    if 0 < a < |m.blocks| then m.blocks[a][k % BSIZE] else 0
  }

  // The bytes of file i, as readi would return them.
  function Content(m: Image, i: nat): (c: seq<Byte>)
    requires i < |m.inodes|
    ensures |c| == m.inodes[i].size
    ensures forall k :: 0 <= k < |c| ==> c[k] == ByteAt(m, i, k)
  {
    seq(m.inodes[i].size, k requires 0 <= k => ByteAt(m, i, k))
  }

  function BlocksFor(size: nat): nat {
    (size + BSIZE - 1) / BSIZE
  }
}
