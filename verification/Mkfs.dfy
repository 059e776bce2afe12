/** The image builder (tools/mkfs.c): the base case of the file-system invariants. */
module Mkfs {
  import opened Blocks
  import opened FsLayout
  import opened FsOwnership
  import opened FsState
  import opened FsWrite
  import opened FsTrunc
  import opened FsCommit

  // Blocks below freeblock are in use, the rest and the whole free map are still zero.
  ghost predicate Building(sb: Superblock, m: Image, owner: map<nat, Slot>, freeblock: nat) {
    && Trees(sb, m, owner, {})
    && sb.Nmeta() <= freeblock <= sb.size
    && (forall b :: b in owner <==> 0 <= b < freeblock)
    && (forall b :: freeblock <= b < sb.size ==> m.blocks[b] == ZeroBlock())
    && (forall b :: sb.bmapstart <= b < sb.Nmeta() ==> m.blocks[b] == ZeroBlock())
  }

  // Pointers and the bytes they lead to stay; only inode i may differ.
  ghost predicate Grown(m0: Image, m: Image, i: nat) {
    && |m.blocks| == |m0.blocks| && |m.inodes| == |m0.inodes| && i < |m.inodes|
    && Keeps(m0, m)
    && (forall j :: 0 <= j < |m.inodes| && j != i ==> m.inodes[j] == m0.inodes[j])
    && (forall j, k :: 0 <= j && 0 <= k && Ptr(m0, DataSlot(j, k / BSIZE)) != 0 ==> ByteAt(m, j, k) == ByteAt(m0, j, k))
  }

  // din.addrs[k] = freeblock++
  function WithRoot(m: Image, i: nat, k: nat, b: Word): Image
    requires i < |m.inodes| && k < 13
  {
    Image(m.blocks, m.inodes[i := m.inodes[i].(addrs := m.inodes[i].addrs[k := b])])
  }

  lemma BuildRoot(sb: Superblock, m: Image, owner: map<nat, Slot>, freeblock: Word, i: nat, k: nat)
    requires Building(sb, m, owner, freeblock) && freeblock < sb.size
    requires i < sb.ninodes && k < 13 && m.inodes[i].addrs[k] == 0
    ensures Shape(sb, m)
    ensures var m' := WithRoot(m, i, k, freeblock);
            && Building(sb, m', owner[freeblock := RootSlot(i, k)], freeblock + 1) && Grown(m, m', i)
            && Ptr(m', RootSlot(i, k)) == freeblock
  {
    var m' := WithRoot(m, i, k, freeblock);
    AttachRoot(sb, m, m', owner, i, k, freeblock);
  }

  // indirect[k] = freeblock++
  function WithEntry(m: Image, i: nat, k: nat, b: Word): Image
    requires k < NINDIRECT && Ptr(m, Ind(i)) < |m.blocks|
  {
    var a := Ptr(m, Ind(i));
    Image(m.blocks[a := PutWord(m.blocks[a], k, b)], m.inodes)
  }

  lemma BuildEntry(sb: Superblock, m: Image, owner: map<nat, Slot>, freeblock: Word, i: nat, k: nat)
    requires Building(sb, m, owner, freeblock) && freeblock < sb.size && i < sb.ninodes && k < NINDIRECT
    requires Ptr(m, Ind(i)) != 0 && Ptr(m, IndData(i, k)) == 0
    ensures Shape(sb, m) && sb.Nmeta() <= Ptr(m, Ind(i)) < freeblock
    ensures var m' := WithEntry(m, i, k, freeblock);
            && Building(sb, m', owner[freeblock := IndData(i, k)], freeblock + 1) && Grown(m, m', i)
            && Ptr(m', IndData(i, k)) == freeblock
  {
    hide PutWord, Ptr, Trees;
    BuiltPtr(sb, m, owner, freeblock, Ind(i));
    var m' := WithEntry(m, i, k, freeblock);
    AttachEntry(sb, m, m', owner, Ind(i), k, freeblock);
    forall j, n | 0 <= j && 0 <= n && Ptr(m, DataSlot(j, n / BSIZE)) != 0
      ensures ByteAt(m', j, n) == ByteAt(m, j, n)
    {
      BuiltPtr(sb, m, owner, freeblock, DataSlot(j, n / BSIZE));
    }
  }

  lemma BuiltPtr(sb: Superblock, m: Image, owner: map<nat, Slot>, freeblock: nat, s: Slot)
    requires Building(sb, m, owner, freeblock) && Ptr(m, s) != 0
    ensures Shape(sb, m) && sb.Nmeta() <= Ptr(m, s) < freeblock <= sb.size
    ensures owner[Ptr(m, s)] == s && ValidSlot(s, sb.ninodes)
  {
  }

  // Copying bytes into a mapped data block.
  lemma BuildData(sb: Superblock, m: Image, owner: map<nat, Slot>, freeblock: nat, i: nat, bn: nat, x: Block)
    requires Building(sb, m, owner, freeblock) && i < sb.ninodes && bn < MAXFILE && Ptr(m, DataSlot(i, bn)) != 0
    ensures Shape(sb, m) && sb.Nmeta() <= Ptr(m, DataSlot(i, bn)) < freeblock
    ensures var m' := Image(m.blocks[Ptr(m, DataSlot(i, bn)) := x], m.inodes);
            && Building(sb, m', owner, freeblock) && SamePointers(m, m')
            && forall j, k :: 0 <= j && 0 <= k ==>
                  ByteAt(m', j, k) == if j == i && k / BSIZE == bn then x[k % BSIZE] else ByteAt(m, j, k)
  {
    hide WordAt;
    var a := Ptr(m, DataSlot(i, bn));
    BuiltPtr(sb, m, owner, freeblock, DataSlot(i, bn));
    var m' := Image(m.blocks[a := x], m.inodes);
    DataSlotValid(i, bn, sb.ninodes);
    PtrFrame(m, m');
    hide Ptr;
    forall j, k | 0 <= j && 0 <= k
      ensures ByteAt(m', j, k) == if j == i && k / BSIZE == bn then x[k % BSIZE] else ByteAt(m, j, k)
    {
      if Ptr(m, DataSlot(j, k / BSIZE)) == a {
        Unshared(m, owner, DataSlot(i, bn), DataSlot(j, k / BSIZE));
        DataSlotInjective(j, k / BSIZE, i, bn);
      }
    }
  }

  // ---- appending to a file ----

  // As Grown, except that bytes of file i from its old end on may change.
  ghost predicate Kept(m0: Image, m: Image, i: nat) {
    && |m.blocks| == |m0.blocks| && |m.inodes| == |m0.inodes| && i < |m.inodes|
    && Keeps(m0, m)
    && (forall j :: 0 <= j < |m.inodes| && j != i ==> m.inodes[j] == m0.inodes[j])
    && m.inodes[i] == m0.inodes[i].(addrs := m.inodes[i].addrs)
    && (forall j, k :: 0 <= j && 0 <= k && Ptr(m0, DataSlot(j, k / BSIZE)) != 0 && (j != i || k < m0.inodes[i].size) ==>
          ByteAt(m, j, k) == ByteAt(m0, j, k))
  }

  // After `tot` bytes of p went to the end of file i (whose in-memory copy is not on disk yet).
  ghost predicate Appending(sb: Superblock, m0: Image, m: Image, owner: map<nat, Slot>, freeblock: nat, i: nat,
                            p: seq<Byte>, tot: nat)
  {
    && Building(sb, m, owner, freeblock) && Kept(m0, m, i) && tot <= |p|
    && (forall k :: m0.inodes[i].size <= k < m0.inodes[i].size + tot ==> ByteAt(m, i, k) == p[k - m0.inodes[i].size])
    && (forall bn :: 0 <= bn < BlocksFor(m0.inodes[i].size + tot) ==> Ptr(m, DataSlot(i, bn)) != 0)
  }

  lemma AppendStart(sb: Superblock, m: Image, owner: map<nat, Slot>, freeblock: nat, i: nat, p: seq<Byte>)
    requires Building(sb, m, owner, freeblock) && i < sb.ninodes && NoHoles(m, i)
    ensures Appending(sb, m, m, owner, freeblock, i, p, 0)
  {
  }

  // An allocation in the middle of appending.
  lemma AppendGrow(sb: Superblock, m0: Image, m: Image, owner: map<nat, Slot>, freeblock: nat, i: nat,
                   p: seq<Byte>, tot: nat,
                   m': Image, owner': map<nat, Slot>, freeblock': nat)
    requires Appending(sb, m0, m, owner, freeblock, i, p, tot)
    requires Building(sb, m', owner', freeblock') && Grown(m, m', i)
    requires m'.inodes[i] == m.inodes[i].(addrs := m'.inodes[i].addrs)
    ensures Appending(sb, m0, m', owner', freeblock', i, p, tot)
  {
    hide Ptr, ByteAt, Building;
    forall k | m0.inodes[i].size <= k < m0.inodes[i].size + tot
      ensures ByteAt(m', i, k) == p[k - m0.inodes[i].size]
    {
      assert k / BSIZE < BlocksFor(m0.inodes[i].size + tot);
    }
  }

  // One run of bytes at the current end of the file.
  lemma AppendData(sb: Superblock, m0: Image, m: Image, owner: map<nat, Slot>, freeblock: nat, i: nat,
                   p: seq<Byte>, tot: nat, n: nat, a: Word)
    requires Appending(sb, m0, m, owner, freeblock, i, p, tot) && i < sb.ninodes
    requires 0 < n && tot + n <= |p|
    requires var pos := m0.inodes[i].size + tot;
             pos % BSIZE + n <= BSIZE && pos / BSIZE < MAXFILE && Ptr(m, DataSlot(i, pos / BSIZE)) == a != 0
    ensures Shape(sb, m) && sb.Nmeta() <= a < sb.size
    ensures var pos := m0.inodes[i].size + tot;
            Appending(sb, m0, Image(m.blocks[a := Splice(m.blocks[a], pos % BSIZE, p[tot..tot + n])], m.inodes), owner,
                      freeblock, i, p, tot + n)
  {
    hide Ptr, ByteAt, Building, Splice;
    var pos := m0.inodes[i].size + tot;
    var bn := pos / BSIZE;
    BuiltPtr(sb, m, owner, freeblock, DataSlot(i, bn));
    var x := Splice(m.blocks[a], pos % BSIZE, p[tot..tot + n]);
    var m' := Image(m.blocks[a := x], m.inodes);
    BuildData(sb, m, owner, freeblock, i, bn, x);
    forall j, k | 0 <= j && 0 <= k
      ensures ByteAt(m', j, k) == if j == i && pos <= k < pos + n then p[tot..tot + n][k - pos] else ByteAt(m, j, k)
    {
      SpliceAt(m, a, pos, p[tot..tot + n], k);
      if j == i && k / BSIZE == bn {
        MappedByte(m, i, k);
      }
    }
    forall b | 0 <= b < BlocksFor(m0.inodes[i].size + (tot + n))
      ensures Ptr(m', DataSlot(i, b)) != 0
    {
      if b != bn {
        assert b < BlocksFor(m0.inodes[i].size + tot);
      }
    }
  }

  lemma MappedByte(m: Image, i: nat, k: nat)
    requires 0 < Ptr(m, DataSlot(i, k / BSIZE)) < |m.blocks|
    ensures ByteAt(m, i, k) == m.blocks[Ptr(m, DataSlot(i, k / BSIZE))][k % BSIZE]
  {
  }

  // ---- images between calls ----

  ghost predicate Made(sb: Superblock, m: Image, owner: map<nat, Slot>, freeblock: nat, freeinode: nat) {
    && Building(sb, m, owner, freeblock) && 1 <= freeinode <= sb.ninodes
    && (forall j :: 0 <= j < sb.ninodes ==>
          OnDisk(sb, m.blocks, j) == m.inodes[j] && NoHoles(m, j) && FreeIsEmpty(m.inodes[j]))
    && (forall j :: freeinode <= j < sb.ninodes ==> m.inodes[j].typ == 0)
  }

  // winode
  function Stored(sb: Superblock, m: Image, i: nat, ino: Inode): Image
    requires Shape(sb, m) && i < sb.ninodes
  {
    Image(m.blocks[sb.IBlock(i) := PutDinode(m.blocks[sb.IBlock(i)], i % IPB, ino)], m.inodes[i := ino])
  }

  // Writing an inode back without changing its addresses.
  lemma StoredKeeps(sb: Superblock, m: Image, owner: map<nat, Slot>, freeblock: nat, i: nat, ino: Inode)
    requires Building(sb, m, owner, freeblock) && i < sb.ninodes && ino.addrs == m.inodes[i].addrs
    ensures Shape(sb, m)
    ensures var m' := Stored(sb, m, i, ino);
            && Building(sb, m', owner, freeblock) && SamePointers(m, m')
            && OnDisk(sb, m'.blocks, i) == ino
            && (forall j :: 0 <= j < sb.ninodes && j != i ==> OnDisk(sb, m'.blocks, j) == OnDisk(sb, m.blocks, j))
            && (forall j, k :: 0 <= j && 0 <= k ==> ByteAt(m', j, k) == ByteAt(m, j, k))
  {
    hide WordAt, PutDinode, OnDisk;
    InodeStored(sb, m.blocks, i, ino);
    var m' := Stored(sb, m, i, ino);
    forall s
      ensures Ptr(m', s) == Ptr(m, s)
    {
      SameTreesPtr(sb, m, m', s);
    }
    StoredBytes(sb, m, m', owner, freeblock);
    hide Ptr;
  }

  lemma StoredBytes(sb: Superblock, m: Image, m': Image, owner: map<nat, Slot>, freeblock: nat)
    requires Building(sb, m, owner, freeblock) && SamePointers(m, m') && |m'.blocks| == |m.blocks|
    requires forall b :: sb.bmapstart <= b < |m.blocks| ==> m'.blocks[b] == m.blocks[b]
    ensures forall j, k :: 0 <= j && 0 <= k ==> ByteAt(m', j, k) == ByteAt(m, j, k)
  {
    hide Ptr;
    forall j, k | 0 <= j && 0 <= k
      ensures ByteAt(m', j, k) == ByteAt(m, j, k)
    {
      assert Ptr(m', DataSlot(j, k / BSIZE)) == Ptr(m, DataSlot(j, k / BSIZE));
    }
  }

  // The end of iappend: file i gained p, every other file is as before.
  lemma AppendFinish(sb: Superblock, m0: Image, m: Image, owner0: map<nat, Slot>, owner: map<nat, Slot>,
                     freeblock0: nat, freeblock: nat, freeinode: nat, i: nat, p: seq<Byte>)
    requires Made(sb, m0, owner0, freeblock0, freeinode) && i < sb.ninodes && m0.inodes[i].typ != 0
    requires Appending(sb, m0, m, owner, freeblock, i, p, |p|) && m0.inodes[i].size + |p| <= MAXFILE * BSIZE
    requires forall b :: 0 <= b < sb.bmapstart ==> m.blocks[b] == m0.blocks[b]
    ensures Shape(sb, m) && Shape(sb, m0)
    ensures var m' := Stored(sb, m, i, m.inodes[i].(size := m0.inodes[i].size + |p|));
            && Made(sb, m', owner, freeblock, freeinode)
            && Content(m', i) == Content(m0, i) + p
            && (forall j :: 0 <= j < sb.ninodes && j != i ==>
                  m'.inodes[j] == m0.inodes[j] && Content(m', j) == Content(m0, j))
  {
    hide Ptr, ByteAt, PutDinode, OnDisk, Trees;
    var ino := m.inodes[i].(size := m0.inodes[i].size + |p|);
    StoredKeeps(sb, m, owner, freeblock, i, ino);
    var m' := Stored(sb, m, i, ino);
    assert NoHoles(m0, i);
    var c, c' := Content(m0, i) + p, Content(m', i);
    forall k | 0 <= k < |c|
      ensures c'[k] == c[k]
    {
      if k < m0.inodes[i].size {
        assert Ptr(m0, DataSlot(i, k / BSIZE)) != 0;
      }
    }
    forall j | 0 <= j < sb.ninodes && j != i
      ensures OnDisk(sb, m'.blocks, j) == m'.inodes[j] && NoHoles(m', j) && Content(m', j) == Content(m0, j)
    {
      AppendOther(sb, m0, m, m', owner0, freeblock0, freeinode, i, j);
    }
  }

  lemma AppendOther(sb: Superblock, m0: Image, m: Image, m': Image, owner0: map<nat, Slot>, freeblock0: nat,
                    freeinode: nat, i: nat, j: nat)
    requires Made(sb, m0, owner0, freeblock0, freeinode) && i < sb.ninodes && j < sb.ninodes && j != i
    requires Kept(m0, m, i) && SamePointers(m, m') && |m'.inodes| == |m.inodes|
    requires |m'.blocks| == |m.blocks| && m'.inodes[j] == m.inodes[j]
    requires forall b :: 0 <= b < sb.bmapstart ==> m.blocks[b] == m0.blocks[b]
    requires forall j, k :: 0 <= j && 0 <= k ==> ByteAt(m', j, k) == ByteAt(m, j, k)
    requires Shape(sb, m) && OnDisk(sb, m'.blocks, j) == OnDisk(sb, m.blocks, j)
    ensures OnDisk(sb, m'.blocks, j) == m'.inodes[j] && NoHoles(m', j) && Content(m', j) == Content(m0, j)
  {
    hide Ptr, ByteAt, OnDisk, Trees;
    assert NoHoles(m0, j) && OnDisk(sb, m0.blocks, j) == m0.inodes[j];
    DiskInodesKept(sb, m0.blocks, m.blocks, j);
    forall k | 0 <= k < m0.inodes[j].size
      ensures ByteAt(m', j, k) == ByteAt(m0, j, k)
    {
      assert Ptr(m0, DataSlot(j, k / BSIZE)) != 0;
    }
  }

  // ---- the empty image and the finished one ----

  function ZeroInode(): Inode {
    Inode(0, 0, 0, 0, 0, NoAddrs())
  }

  lemma ZeroWordIn(p: nat)
    requires p + 3 < BSIZE
    ensures WordIn(ZeroBlock(), p) == 0
  {
  }

  lemma ZeroHalfIn(p: nat)
    requires p + 1 < BSIZE
    ensures HalfIn(ZeroBlock(), p) == 0
  {
  }

  lemma ZeroDinode(k: nat)
    requires k < IPB
    ensures DinodeAt(ZeroBlock(), k) == ZeroInode()
  {
    hide WordIn, HalfIn;
    var p := DINODE_SIZE * k;
    var d := DinodeAt(ZeroBlock(), k);
    ZeroHalfIn(p);
    ZeroHalfIn(p + 2);
    ZeroHalfIn(p + 4);
    ZeroHalfIn(p + 6);
    ZeroWordIn(p + 8);
    forall a | 0 <= a < 13
      ensures d.addrs[a] == NoAddrs()[a]
    {
      ZeroWordIn(p + 12 + 4 * a);
    }
    assert d.addrs == NoAddrs();
  }

  // The metadata blocks 0..n.
  function EmptyOwner(n: nat): (o: map<nat, Slot>)
    ensures forall b :: b in o <==> 0 <= b < n
    ensures forall b :: b in o ==> o[b] == Meta
  {
    if n == 0 then map[] else EmptyOwner(n - 1)[n - 1 := Meta]
  }

  lemma EmptyMade(sb: Superblock, disk: seq<Block>, inodes: seq<Inode>)
    requires sb.Valid() && 1 <= sb.ninodes && |disk| == sb.size && inodes == seq(sb.ninodes, _ => ZeroInode())
    requires forall b :: 0 <= b < sb.size && b != 1 ==> disk[b] == ZeroBlock()
    ensures Made(sb, Image(disk, inodes), EmptyOwner(sb.Nmeta()), sb.Nmeta(), 1)
  {
    hide Ptr, OnDisk;
    var m := Image(disk, inodes);
    forall s
      ensures Ptr(m, s) == 0
    {
      EmptyImagePtr(m, s);
    }
    forall j | 0 <= j < sb.ninodes
      ensures OnDisk(sb, disk, j) == inodes[j]
    {
      ZeroOnDisk(sb, disk, j);
    }
  }

  lemma EmptyImagePtr(m: Image, s: Slot)
    requires forall j :: 0 <= j < |m.inodes| ==> m.inodes[j].addrs == NoAddrs()
    ensures Ptr(m, s) == 0
  {
    if ValidSlot(s, |m.inodes|) {
      EmptyTree(m, s.ino, s);
    }
  }

  lemma ZeroOnDisk(sb: Superblock, disk: seq<Block>, j: nat)
    requires sb.Valid() && |disk| == sb.size && j < sb.ninodes && disk[sb.IBlock(j)] == ZeroBlock()
    ensures OnDisk(sb, disk, j) == ZeroInode()
  {
    ZeroDinode(j % IPB);
  }

  // The first `used` bits of the first free-map block.
  function MapPrefix(used: nat): (b: Block)
    requires used <= BPB
    decreases used
  {
    if used == 0 then ZeroBlock() else PutBit(MapPrefix(used - 1), used - 1, true)
  }

  lemma {:induction false} MapPrefixAt(used: nat, c: nat)
    requires used <= BPB && c < BPB
    ensures BitAt(MapPrefix(used), c) <==> c < used
    decreases used
  {
    hide BitAt, PutBit;
    if used == 0 {
      ZeroBitAt(c);
    } else {
      MapPrefixAt(used - 1, c);
      PutBitAt(MapPrefix(used - 1), used - 1, true, c);
    }
  }

  lemma ZeroBitAt(c: nat)
    requires c < BPB
    ensures !BitAt(ZeroBlock(), c)
  {
    ZeroBit(c % 8);
  }

  lemma {:induction false} ZeroBit(k: nat)
    ensures !Bit(0, k)
    decreases k
  {
    if k > 0 {
      ZeroBit(k - 1);
    }
  }

  lemma FinishedGood(sb: Superblock, m: Image, owner: map<nat, Slot>, freeblock: nat, freeinode: nat)
    requires Made(sb, m, owner, freeblock, freeinode) && freeblock < BPB
    ensures Shape(sb, m)
    ensures var disk := m.blocks[sb.bmapstart := MapPrefix(freeblock)];
            && Good(sb, Mounted(sb, disk, owner), {})
            && Mounted(sb, disk, owner).img.inodes == m.inodes
            && forall j :: 0 <= j < sb.ninodes ==> Content(Mounted(sb, disk, owner).img, j) == Content(m, j)
  {
    hide Ptr, OnDisk, MapPrefix;
    var disk := m.blocks[sb.bmapstart := MapPrefix(freeblock)];
    var m' := Image(disk, m.inodes);
    var st := Mounted(sb, disk, owner);
    FinishedMap(sb, m, owner, freeblock, disk);
    assert Shape(sb, m);
    PtrFrameOwned(sb, m, m', owner);
    forall j | 0 <= j < sb.ninodes
      ensures OnDisk(sb, disk, j) == m.inodes[j]
    {
      DiskInodesKept(sb, m.blocks, disk, j);
    }
    assert st.img.inodes == m.inodes;
    FinishedBytes(sb, m, m', owner, freeblock);
    hide ByteAt, Trees, BitmapExact;
    forall j | 0 <= j < sb.ninodes
      ensures Synced(sb, st, j) && NoHoles(st.img, j) && Content(st.img, j) == Content(m, j)
    {
      assert NoHoles(m, j);
    }
    assert Trees(sb, m', owner, {}) by { SameTrees2(sb, m, m', owner); }
  }

  lemma SameTrees2(sb: Superblock, m: Image, m': Image, owner: map<nat, Slot>)
    requires Trees(sb, m, owner, {}) && SamePointers(m, m') && Shape(sb, m')
    ensures Trees(sb, m', owner, {})
  {
    hide Ptr;
  }

  lemma FinishedBytes(sb: Superblock, m: Image, m': Image, owner: map<nat, Slot>, freeblock: nat)
    requires Building(sb, m, owner, freeblock) && SamePointers(m, m') && |m'.blocks| == |m.blocks|
    requires forall b :: 0 <= b < |m.blocks| && b != sb.bmapstart ==> m'.blocks[b] == m.blocks[b]
    ensures forall j, k :: 0 <= j && 0 <= k ==> ByteAt(m', j, k) == ByteAt(m, j, k)
  {
    hide Ptr;
    forall j, k | 0 <= j && 0 <= k
      ensures ByteAt(m', j, k) == ByteAt(m, j, k)
    {
      assert Ptr(m', DataSlot(j, k / BSIZE)) == Ptr(m, DataSlot(j, k / BSIZE));
    }
  }

  lemma FinishedMap(sb: Superblock, m: Image, owner: map<nat, Slot>, freeblock: nat, disk: seq<Block>)
    requires Building(sb, m, owner, freeblock) && freeblock < BPB
    requires disk == m.blocks[sb.bmapstart := MapPrefix(freeblock)]
    ensures BitmapExact(sb, disk, owner)
  {
    hide Ptr, BitAt, MapPrefix;
    assert Shape(sb, m);
    forall b | 0 <= b < sb.size
      ensures MapBit(sb, disk, b) <==> b in owner
    {
      if b < BPB {
        assert sb.BBlock(b) == sb.bmapstart;
        MapPrefixAt(freeblock, b);
      } else {
        assert sb.bmapstart < sb.BBlock(b) < sb.Nmeta();
        ZeroBitAt(b % BPB);
      }
    }
  }

  lemma MapPrefixUnfold(n: nat)
    requires n <= BPB
    ensures n == 0 ==> MapPrefix(n) == ZeroBlock()
    ensures n > 0 ==> MapPrefix(n) == PutBit(MapPrefix(n - 1), n - 1, true)
  {
  }

  lemma AppendingFacts(sb: Superblock, m0: Image, m: Image, owner: map<nat, Slot>, freeblock: nat, i: nat,
                       p: seq<Byte>, tot: nat)
    requires Appending(sb, m0, m, owner, freeblock, i, p, tot)
    ensures Building(sb, m, owner, freeblock) && Shape(sb, m) && sb.Nmeta() <= freeblock
  {
  }

  // How many blocks iappend has visited when it reached file offset off.
  function Used(size: nat, off: nat): (u: int)
    ensures off == size ==> u == 0
  {
    if off == size then 0 else BlocksFor(off) - size / BSIZE
  }

  lemma UsedStep(size: nat, off: nat, n: nat, total: nat)
    requires size <= off && 0 < n && off % BSIZE + n <= BSIZE && off + n <= size + total
    requires off == size || off % BSIZE == 0
    ensures 0 <= Used(size, off) + 1 <= Used(size, off + n) && Used(size, off) + 1 <= total / BSIZE + 2
    ensures size + total <= (NDIRECT + NINDIRECT) * BSIZE ==> off / BSIZE < NDIRECT + NINDIRECT
  {
  }

  lemma RunEnds(off: nat, left: nat)
    requires left > 0
    ensures Run(off, left) == left || (off + Run(off, left)) % BSIZE == 0
  {
  }

  lemma MadeFacts(sb: Superblock, m: Image, owner: map<nat, Slot>, freeblock: nat, freeinode: nat, i: nat)
    requires Made(sb, m, owner, freeblock, freeinode) && i < sb.ninodes
    ensures Building(sb, m, owner, freeblock) && Shape(sb, m) && NoHoles(m, i) && OnDisk(sb, m.blocks, i) == m.inodes[i]
  {
  }

  lemma DirectPtr(m: Image, i: nat, k: nat)
    requires i < |m.inodes|
    ensures k < NDIRECT ==> Ptr(m, DataSlot(i, k)) == Ptr(m, RootSlot(i, k)) == m.inodes[i].addrs[k]
    ensures NDIRECT <= k < NDIRECT + NINDIRECT && m.inodes[i].addrs[NDIRECT] == 0 ==> Ptr(m, DataSlot(i, k)) == 0
  {
  }

  lemma IndirectPtr(m: Image, i: nat, k: nat)
    requires i < |m.inodes| && k < NINDIRECT && m.inodes[i].addrs[NDIRECT] != 0
    ensures Ptr(m, Ind(i)) == m.inodes[i].addrs[NDIRECT]
    ensures Ptr(m, Ind(i)) < |m.blocks| ==> Ptr(m, IndData(i, k)) == WordAt(m.blocks[Ptr(m, Ind(i))], k)
  {
  }

  // The log area is as it was zeroed.
  ghost predicate LogClear(sb: Superblock, disk: seq<Block>) {
    forall b :: sb.logstart <= b < sb.inodestart && b < |disk| ==> disk[b] == ZeroBlock()
  }

  lemma LogClearKept(sb: Superblock, disk: seq<Block>, disk': seq<Block>, a: nat, x: Block)
    requires LogClear(sb, disk) && sb.Valid() && |disk| == |disk'| == sb.size && sb.inodestart <= a < |disk|
    requires forall b :: 0 <= b < sb.bmapstart && b < |disk| ==> disk'[b] == disk[b]
    ensures LogClear(sb, disk') && LogClear(sb, disk'[a := x])
  {
  }

  class Builder {
    const sb: Superblock
    var disk: seq<Block>
    var freeinode: nat
    var freeblock: nat
    ghost var inodes: seq<Inode>
    ghost var owner: map<nat, Slot>

    ghost function Img(): Image
      reads this
    {
      Image(disk, inodes)
    }

    ghost predicate Valid()
      reads this
    {
      Made(sb, Img(), owner, freeblock, freeinode) && LogClear(sb, disk)
    }

    // Zeroes the disk and writes the superblock.
    constructor (sb: Superblock, superblock: Block)
      requires sb.Valid() && 1 <= sb.ninodes
      ensures this.sb == sb && Valid() && freeinode == 1 && freeblock == sb.Nmeta()
    {
      this.sb := sb;
      freeinode, freeblock := 1, sb.Nmeta();
      var d := seq(sb.size, _ => ZeroBlock());
      disk := d[1 := superblock];
      inodes := seq(sb.ninodes, _ => ZeroInode());
      owner := EmptyOwner(sb.Nmeta());
      new;
      EmptyMade(sb, disk, inodes);
    }

    method Ialloc(typ: Half) returns (inum: nat)
      requires Valid() && typ != 0 && freeinode < sb.ninodes
      modifies `disk, `freeinode, `inodes
      ensures Valid() && inum == old(freeinode) && freeinode == old(freeinode) + 1 && inum < |inodes|
      ensures inodes == old(inodes)[inum := Inode(typ, 0, 0, 1, 0, NoAddrs())]
      ensures forall j :: 0 <= j < |inodes| ==> Content(Img(), j) == Content(old(Img()), j)
    {
      hide Ptr, OnDisk, ByteAt, PutDinode;
      inum := freeinode;
      freeinode := freeinode + 1;
      var ino := Inode(typ, 0, 0, 1, 0, NoAddrs());
      ghost var m := Img();
      StoredKeeps(sb, m, owner, freeblock, inum, ino);
      assert NoHoles(m, inum);
      LogClearKept(sb, disk, disk, sb.IBlock(inum), PutDinode(disk[sb.IBlock(inum)], inum % IPB, ino));
      disk := disk[sb.IBlock(inum) := PutDinode(disk[sb.IBlock(inum)], inum % IPB, ino)];
      inodes := inodes[inum := ino];
      assert Img() == Stored(sb, m, inum, ino);
      forall j | 0 <= j < sb.ninodes
        ensures NoHoles(Img(), j) && Content(Img(), j) == Content(m, j)
      {
        assert NoHoles(m, j);
      }
    }

    // The block of file block fbn of inode inum, whose copy in memory is din; allocated when missing.
    method BlockFor(inum: nat, din: Inode, fbn: nat, ghost m0: Image, ghost p: seq<Byte>, ghost tot: nat)
      returns (din': Inode, x: Word)
      requires Appending(sb, m0, Img(), owner, freeblock, inum, p, tot) && inum < |inodes| && inodes[inum] == din
      requires inum < sb.ninodes && fbn < NDIRECT + NINDIRECT && freeblock + 2 <= sb.size
      modifies `disk, `freeblock, `owner, `inodes
      ensures Appending(sb, m0, Img(), owner, freeblock, inum, p, tot) && inum < |inodes| && inodes[inum] == din'
      ensures x != 0 && Ptr(Img(), DataSlot(inum, fbn)) == x
      ensures old(freeblock) <= freeblock <= old(freeblock) + 2
      ensures old(Ptr(Img(), DataSlot(inum, fbn))) != 0 ==> freeblock == old(freeblock)
      ensures |disk| == |old(disk)| && forall b :: 0 <= b < sb.bmapstart && b < |disk| ==> disk[b] == old(disk)[b]
    {
      hide Ptr, ByteAt, Trees, PutWord, WordAt, Building;
      din' := din;
      ghost var m := Img();
      AppendingFacts(sb, m0, m, owner, freeblock, inum, p, tot);
      DirectPtr(m, inum, fbn);
      if fbn < NDIRECT {
        if din'.addrs[fbn] == 0 {
          BuildRoot(sb, m, owner, freeblock, inum, fbn);
          din' := din'.(addrs := din'.addrs[fbn := freeblock]);
          inodes, owner := inodes[inum := din'], owner[freeblock := RootSlot(inum, fbn)];
          AppendGrow(sb, m0, m, old(owner), old(freeblock), inum, p, tot, Img(), owner, freeblock + 1);
          freeblock := freeblock + 1;
          DirectPtr(Img(), inum, fbn);
        }
        x := din'.addrs[fbn];
      } else {
        if din'.addrs[NDIRECT] == 0 {
          BuildRoot(sb, m, owner, freeblock, inum, NDIRECT);
          din' := din'.(addrs := din'.addrs[NDIRECT := freeblock]);
          inodes, owner := inodes[inum := din'], owner[freeblock := RootSlot(inum, NDIRECT)];
          AppendGrow(sb, m0, m, old(owner), old(freeblock), inum, p, tot, Img(), owner, freeblock + 1);
          freeblock := freeblock + 1;
        }
        x := IndirectBlock(inum, din', fbn - NDIRECT, m0, p, tot);
      }
    }

    // Entry k of the indirect block of inode inum, allocated when missing.
    method IndirectBlock(inum: nat, din: Inode, k: nat, ghost m0: Image, ghost p: seq<Byte>, ghost tot: nat)
      returns (x: Word)
      requires Appending(sb, m0, Img(), owner, freeblock, inum, p, tot) && inum < |inodes| && inodes[inum] == din
      requires inum < sb.ninodes && k < NINDIRECT && freeblock < sb.size && din.addrs[NDIRECT] != 0
      modifies `disk, `freeblock, `owner
      ensures Appending(sb, m0, Img(), owner, freeblock, inum, p, tot)
      ensures x != 0 && Ptr(Img(), IndData(inum, k)) == x
      ensures old(freeblock) <= freeblock <= old(freeblock) + 1
      ensures old(Ptr(Img(), IndData(inum, k))) != 0 ==> freeblock == old(freeblock)
      ensures |disk| == |old(disk)| && forall b :: 0 <= b < sb.bmapstart && b < |disk| ==> disk[b] == old(disk)[b]
    {
      hide Ptr, ByteAt, Trees, PutWord, WordAt, Building;
      ghost var m := Img();
      AppendingFacts(sb, m0, m, owner, freeblock, inum, p, tot);
      IndirectPtr(m, inum, k);
      BuiltPtr(sb, m, owner, freeblock, Ind(inum));
      var a := din.addrs[NDIRECT];
      x := WordAt(disk[a], k);
      if x == 0 {
        BuildEntry(sb, m, owner, freeblock, inum, k);
        x := freeblock;
        disk := disk[a := PutWord(disk[a], k, x)];
        owner := owner[freeblock := IndData(inum, k)];
        freeblock := freeblock + 1;
        assert Img() == WithEntry(m, inum, k, x);
        AppendGrow(sb, m0, m, old(owner), old(freeblock), inum, p, tot, Img(), owner, freeblock);
      }
    }

    // The loop of iappend: p goes to the blocks at the end of the file, whose inode is din in memory.
    method AppendBlocks(inum: nat, din0: Inode, p: seq<Byte>) returns (din: Inode, off: nat)
      requires Valid() && inum < sb.ninodes && inum < |inodes| && inodes[inum] == din0
      requires din0.size + |p| <= (NDIRECT + NINDIRECT) * BSIZE
      requires freeblock + 2 * (|p| / BSIZE + 2) <= sb.size
      modifies `disk, `freeblock, `owner, `inodes
      ensures Appending(sb, old(Img()), Img(), owner, freeblock, inum, p, |p|)
      ensures inum < |inodes| && inodes[inum] == din && off == din0.size + |p|
      ensures |disk| == |old(disk)| && forall b :: 0 <= b < sb.bmapstart && b < |disk| ==> disk[b] == old(disk)[b]
    {
      hide Ptr, ByteAt, Building, Appending, Made, Splice, Used, NoHoles, Kept, Run, OnDisk;
      ghost var m0 := Img();
      MadeFacts(sb, m0, owner, freeblock, freeinode, inum);
      AppendStart(sb, m0, owner, freeblock, inum, p);
      din, off := din0, din0.size;
      var n, tot := |p|, 0;
      while n > 0
        invariant 0 <= n <= |p| && tot == |p| - n && off == din0.size + tot
        invariant Appending(sb, m0, Img(), owner, freeblock, inum, p, tot) && inum < |inodes| && inodes[inum] == din
        invariant freeblock <= old(freeblock) + 2 * Used(din0.size, off)
        invariant off == din0.size || n == 0 || off % BSIZE == 0
        invariant |disk| == |m0.blocks| && forall b :: 0 <= b < sb.bmapstart && b < |disk| ==> disk[b] == m0.blocks[b]
      {
        var fbn := off / BSIZE;
        var n1 := Run(off, n);
        RunEnds(off, n);
        UsedStep(din0.size, off, n1, |p|);
        var x;
        din, x := BlockFor(inum, din, fbn, m0, p, tot);
        AppendData(sb, m0, Img(), owner, freeblock, inum, p, tot, n1, x);
        disk := disk[x := Splice(disk[x], off % BSIZE, p[tot..tot + n1])];
        n, off, tot := n - n1, off + n1, tot + n1;
      }
    }

    // Adds p at the end of file inum.
    method Iappend(inum: nat, p: seq<Byte>)
      requires Valid() && inum < sb.ninodes && inum < |inodes| && inodes[inum].typ != 0
      requires inodes[inum].size + |p| <= (NDIRECT + NINDIRECT) * BSIZE
      requires freeblock + 2 * (|p| / BSIZE + 2) <= sb.size
      modifies `disk, `freeblock, `owner, `inodes
      ensures Valid() && |inodes| == |old(inodes)|
      ensures Content(Img(), inum) == Content(old(Img()), inum) + p
      ensures forall j :: 0 <= j < |inodes| && j != inum ==>
        inodes[j] == old(inodes)[j] && Content(Img(), j) == Content(old(Img()), j)
    {
      hide Ptr, ByteAt, Building, PutDinode, OnDisk, Appending, Made, Content, NoHoles, Kept;
      ghost var m0 := Img();
      MadeFacts(sb, m0, owner, freeblock, freeinode, inum);
      var din := OnDisk(sb, disk, inum);
      var off;
      din, off := AppendBlocks(inum, din, p);
      AppendFinish(sb, m0, Img(), old(owner), owner, old(freeblock), freeblock, freeinode, inum, p);
      din := din.(size := off);
      LogClearKept(sb, m0.blocks, disk, sb.IBlock(inum), PutDinode(disk[sb.IBlock(inum)], inum % IPB, din));
      disk := disk[sb.IBlock(inum) := PutDinode(disk[sb.IBlock(inum)], inum % IPB, din)];
      inodes := inodes[inum := din];
    }

    // Marks the first freeblock blocks in use; the image can be mounted and its files are as built.
    method Balloc()
      requires Valid() && freeblock < BPB
      modifies `disk
      ensures sb.Valid() && |disk| == sb.size && Good(sb, Mounted(sb, disk, owner), {})
      ensures Mounted(sb, disk, owner).img.inodes == inodes && |inodes| == sb.ninodes
      ensures sb.nlog > 0 ==> WordAt(disk[sb.logstart], 0) == 0
      ensures forall j :: 0 <= j < sb.ninodes ==> Content(Mounted(sb, disk, owner).img, j) == Content(old(Img()), j)
    {
      hide Ptr, Content, Good, MapPrefix, PutBit, Made, WordAt;
      ZeroWordAt(0);
      FinishedGood(sb, Img(), owner, freeblock, freeinode);
      MapPrefixUnfold(0);
      var buf := ZeroBlock();
      var i := 0;
      while i < freeblock
        invariant 0 <= i <= freeblock && buf == MapPrefix(i) && disk == old(disk)
      {
        MapPrefixUnfold(i + 1);
        buf := PutBit(buf, i, true);
        i := i + 1;
      }
      disk := disk[sb.bmapstart := buf];
    }
  }
}
