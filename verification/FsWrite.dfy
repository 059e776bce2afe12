/** What the loop of writei (kernel/fs.c:553-583) has done after `tot` bytes, as a relation between
    states, and the three facts its proof needs: start, one block, finish. */
module FsWrite {
  import opened Blocks
  import opened FsLayout
  import opened FsOwnership
  import opened FsState

  // The index and data slots bmap may fill for block bn of inode i.
  function PathSlots(i: nat, bn: nat): set<Slot> {
    if bn < NDIRECT then {Direct(i, bn)}
    else if bn < NDIRECT + NINDIRECT then {Ind(i), IndData(i, bn - NDIRECT)}
    else
      var k, j := (bn - NDIRECT - NINDIRECT) / NINDIRECT, (bn - NDIRECT - NINDIRECT) % NINDIRECT;
      {DInd(i), Leaf(i, k), LeafData(i, k, j)}
  }

  lemma DoublePath(i: nat, n: nat)
    requires n < NDINDIRECT
    ensures {DInd(i), Leaf(i, n / NINDIRECT)} + {Leaf(i, n / NINDIRECT), LeafData(i, n / NINDIRECT, n % NINDIRECT)}
            == PathSlots(i, NDIRECT + NINDIRECT + n)
    ensures DInd(i) in PathSlots(i, NDIRECT + NINDIRECT + n)
  {
  }

  function Splice(b: Block, o: nat, data: seq<Byte>): (r: Block)
    requires o + |data| <= BSIZE
    ensures forall k :: 0 <= k < BSIZE ==> r[k] == if o <= k < o + |data| then data[k - o] else b[k]
  {
    b[..o] + data + b[o + |data|..]
  }

  // Pointers only appear; they never move.
  ghost predicate Keeps(m: Image, m': Image) {
    forall s :: Ptr(m, s) != 0 ==> Ptr(m', s) == Ptr(m, s)
  }

  ghost predicate Writing(sb: Superblock, i: nat, st0: State, st: State, off: nat, src: seq<Byte>, tot: nat,
                          S: set<Slot>)
    requires i < |st0.img.inodes|
  {
    && Ready(sb, st) && i < sb.ninodes && tot <= |src| && st.base == st0.base
    && Keeps(st0.img, st.img)
    && Same(sb, i, st0, st)
    && Bytes(i, st0, st, off, src, tot)
    && Mapped(i, st, off, tot)
    && (st.img.inodes != st0.img.inodes ==> off + tot > st0.img.inodes[i].size)
    && Noted(sb, i, st0, st, off, tot) && NewIn(st0, st, S)
    && (off + tot <= st0.img.inodes[i].size ==> InPlace(i, st0, st, off, tot))
  }

  // Logged: what the new blocks cost, and the data blocks of the bytes written.
  ghost predicate Noted(sb: Superblock, i: nat, st0: State, st: State, off: nat, tot: nat) {
    && st0.logged <= st.logged && LowestTaken(st0.owner, st.owner)
    && st.mine == st0.mine + NewLinks(sb, st0, st) + Touched(st.img, i, off, tot)
  }

  ghost predicate NewIn(st0: State, st: State, S: set<Slot>) {
    forall c :: c in st.owner && c !in st0.owner ==> st.owner[c] in S
  }

  // Exactly the data blocks of bytes off.. of file i were logged, and nothing was allocated.
  ghost predicate InPlace(i: nat, st0: State, st: State, off: nat, tot: nat) {
    && st.owner == st0.owner && st.img.inodes == st0.img.inodes
    && st.mine == st0.mine + Touched(st0.img, i, off, tot)
    && st.early == if tot == 0 then st0.early else st0.mine + Touched(st0.img, i, off, Prior(off, tot))
  }

  // Every run but the first starts at a block boundary.
  predicate AtBoundary(off: nat, tot: nat) {
    tot == 0 || (off + tot) % BSIZE == 0
  }

  // How many of n bytes from off lie before the last block they reach.
  function Prior(off: nat, n: nat): nat
    requires n > 0
  {
    if (off + n - 1) / BSIZE == off / BSIZE then 0 else (off + n - 1) / BSIZE * BSIZE - off
  }

  // The blocks that hold n bytes from off on.
  function Touched(m: Image, i: nat, off: nat, n: nat): set<nat> {
    if n == 0 then {} else DataBlocks(m, i, off / BSIZE, BlocksFor(off + n))
  }

  function DataBlocks(m: Image, i: nat, lo: nat, hi: nat): set<nat> {
    set bn | lo <= bn < hi :: Ptr(m, DataSlot(i, bn))
  }

  // Only addrs of inode i differ, only below the data area's start nothing was written, and owners stay.
  ghost predicate Same(sb: Superblock, i: nat, st0: State, st: State) {
    && |st0.img.blocks| == |st.img.blocks| == sb.size && sb.bmapstart <= sb.size
    && i < |st0.img.inodes| && i < |st.img.inodes|
    && st.img.inodes == st0.img.inodes[i := st0.img.inodes[i].(addrs := st.img.inodes[i].addrs)]
    && (forall b :: 0 <= b < sb.bmapstart ==> st.img.blocks[b] == st0.img.blocks[b])
    && (forall b :: b in st0.owner ==> b in st.owner && st.owner[b] == st0.owner[b])
  }

  // Bytes off..off+tot of file i come from src; every other byte that existed is as before.
  ghost predicate Bytes(i: nat, st0: State, st: State, off: nat, src: seq<Byte>, tot: nat)
    requires tot <= |src|
  {
    && (forall k :: off <= k < off + tot ==> ByteAt(st.img, i, k) == src[k - off])
    && (forall j, k :: 0 <= k && 0 <= j && Ptr(st0.img, DataSlot(j, k / BSIZE)) != 0
                       && !(j == i && off <= k < off + tot) ==>
          ByteAt(st.img, j, k) == ByteAt(st0.img, j, k))
  }

  ghost predicate Mapped(i: nat, st: State, off: nat, tot: nat) {
    forall bn :: off / BSIZE <= bn && bn * BSIZE < off + tot && tot > 0 ==> Ptr(st.img, DataSlot(i, bn)) != 0
  }

  lemma WriteStart(sb: Superblock, i: nat, st: State, off: nat, src: seq<Byte>)
    requires Ready(sb, st) && i < sb.ninodes
    ensures Writing(sb, i, st, st, off, src, 0, {})
  {
    assert NewLinks(sb, st, st) == {};
  }

  lemma ByteAtSame(m: Image, m': Image, j: nat, k: nat)
    requires var a := Ptr(m, DataSlot(j, k / BSIZE));
             Ptr(m', DataSlot(j, k / BSIZE)) == a && a < |m.blocks| && a < |m'.blocks| && m'.blocks[a] == m.blocks[a]
    ensures ByteAt(m', j, k) == ByteAt(m, j, k)
  {
    hide Ptr;
  }

  lemma ExtendsBlock(sb: Superblock, i: nat, st: State, st': State, S: set<Slot>, s: Slot)
    requires Extends(sb, i, st, st', S) && !IsIndex(s) && Ptr(st.img, s) in st.owner && st.owner[Ptr(st.img, s)] == s
    requires sb.Nmeta() <= Ptr(st.img, s) < sb.size && Ptr(st.img, s) != 0
    ensures |st'.img.blocks| == |st.img.blocks| == sb.size && Ptr(st'.img, s) == Ptr(st.img, s)
    ensures st'.img.blocks[Ptr(st.img, s)] == st.img.blocks[Ptr(st.img, s)]
  {
    hide Owned, Ptr, Ready, Agrees, Logs;
    ExtendsShape(sb, i, st, st', S);
  }

  lemma BmapKeepsByte(sb: Superblock, i: nat, st: State, st': State, S: set<Slot>, j: nat, k: nat)
    requires Ready(sb, st) && Extends(sb, i, st, st', S) && Ptr(st.img, DataSlot(j, k / BSIZE)) != 0
    ensures ByteAt(st'.img, j, k) == ByteAt(st.img, j, k)
  {
    hide Owned, Ptr, Ready, Agrees, Logs, Extends, Grew, ByteAt;
    var s := DataSlot(j, k / BSIZE);
    ReadyFacts(sb, st, s);
    assert !IsIndex(s);
    ExtendsBlock(sb, i, st, st', S, s);
    ByteAtSame(st.img, st'.img, j, k);
  }

  lemma ExtendsMore(sb: Superblock, i: nat, st: State, st': State, S: set<Slot>)
    requires Extends(sb, i, st, st', S)
    ensures st.logged <= st'.logged && forall b :: b in st.owner ==> b in st'.owner && st'.owner[b] == st.owner[b]
  {
    hide Owned, Agrees, Ptr, NewLinks;
  }

  lemma ExtendsShape(sb: Superblock, i: nat, st: State, st': State, S: set<Slot>)
    requires Extends(sb, i, st, st', S)
    ensures |st'.img.blocks| == |st.img.blocks| == sb.size && sb.Valid()
    ensures |st'.img.inodes| == |st.img.inodes| == sb.ninodes && i < sb.ninodes
  {
  }

  // What bmap leaves alone: pointers, and the bytes of every block that was mapped.
  lemma BmapKeeps(sb: Superblock, i: nat, st: State, st': State, S: set<Slot>)
    requires Ready(sb, st) && Extends(sb, i, st, st', S)
    ensures Keeps(st.img, st'.img) && Same(sb, i, st, st')
    ensures forall j, k :: 0 <= j && 0 <= k && Ptr(st.img, DataSlot(j, k / BSIZE)) != 0 ==>
      ByteAt(st'.img, j, k) == ByteAt(st.img, j, k)
  {
    hide Owned, Ptr, Ready, Agrees, Logs, ByteAt;
    ExtendsShape(sb, i, st, st', S);
    forall j, k | 0 <= j && 0 <= k && Ptr(st.img, DataSlot(j, k / BSIZE)) != 0
      ensures ByteAt(st'.img, j, k) == ByteAt(st.img, j, k)
    {
      BmapKeepsByte(sb, i, st, st', S, j, k);
    }
  }

  // The state after bmap gave st1 and one run of bytes was copied into the block.
  function Copied(st1: State, a: Word, o: nat, data: seq<Byte>): State
    requires a < |st1.img.blocks| && o + |data| <= BSIZE
  {
    State(Image(st1.img.blocks[a := Splice(st1.img.blocks[a], o, data)], st1.img.inodes),
          st1.logged + {a}, st1.mine + {a}, st1.mine, st1.owner, st1.base)
  }

  lemma CopyReady(sb: Superblock, st1: State, a: Word, o: nat, data: seq<Byte>)
    requires Ready(sb, st1) && a < |st1.img.blocks| && o + |data| <= BSIZE
    requires Owned(sb, Copied(st1, a, o, data).img, st1.owner, {})
    ensures Ready(sb, Copied(st1, a, o, data))
  {
    hide Owned;
  }

  // Copying `data` to file offset pos of inode i, inside one mapped block.
  lemma CopyFacts(sb: Superblock, i: nat, st1: State, pos: nat, data: seq<Byte>)
    requires Ready(sb, st1) && i < sb.ninodes && pos / BSIZE < MAXFILE && pos % BSIZE + |data| <= BSIZE
    requires Ptr(st1.img, DataSlot(i, pos / BSIZE)) != 0
    ensures var a := Ptr(st1.img, DataSlot(i, pos / BSIZE));
            && a < |st1.img.blocks| && sb.Nmeta() <= a && a in st1.owner && st1.owner[a] == DataSlot(i, pos / BSIZE)
            && var st2 := Copied(st1, a, pos % BSIZE, data);
               && Ready(sb, st2) && SamePointers(st1.img, st2.img)
               && forall j, k :: 0 <= j && 0 <= k ==>
                    ByteAt(st2.img, j, k) == if j == i && pos <= k < pos + |data| then data[k - pos]
                                             else ByteAt(st1.img, j, k)
  {
    var bn := pos / BSIZE;
    var a := Ptr(st1.img, DataSlot(i, bn));
    assert Owned(sb, st1.img, st1.owner, {});
    hide Owned, Ptr, Agrees, Ready, SamePointers;
    ReadyFacts(sb, st1, DataSlot(i, bn));
    var x := Splice(st1.img.blocks[a], pos % BSIZE, data);
    var st2 := Copied(st1, a, pos % BSIZE, data);
    WriteDataBlock(sb, st1.img, st1.owner, i, bn, x);
    CopyReady(sb, st1, a, pos % BSIZE, data);
    forall j, k | 0 <= j && 0 <= k
      ensures ByteAt(st2.img, j, k) == if j == i && pos <= k < pos + |data| then data[k - pos]
                                       else ByteAt(st1.img, j, k)
    {
      SpliceAt(st1.img, a, pos, data, k);
    }
  }

  lemma SpliceAt(m: Image, a: nat, pos: nat, data: seq<Byte>, k: nat)
    requires a < |m.blocks| && pos % BSIZE + |data| <= BSIZE
    ensures k / BSIZE == pos / BSIZE ==>
      Splice(m.blocks[a], pos % BSIZE, data)[k % BSIZE]
      == if pos <= k < pos + |data| then data[k - pos] else m.blocks[a][k % BSIZE]
    ensures k / BSIZE != pos / BSIZE ==> !(pos <= k < pos + |data|)
  {
  }

  lemma KeepsTrans(m0: Image, m: Image, m1: Image, m2: Image)
    requires Keeps(m0, m) && Keeps(m, m1) && SamePointers(m1, m2)
    ensures Keeps(m0, m2)
  {
  }

  lemma KeepsSame(m: Image, m1: Image, m2: Image)
    requires Keeps(m, m1) && SamePointers(m1, m2)
    ensures Keeps(m, m2)
  {
  }

  lemma LinksSame(sb: Superblock, st0: State, st: State, st': State)
    requires st'.owner == st.owner && SamePointers(st.img, st'.img)
    ensures NewLinks(sb, st0, st') == NewLinks(sb, st0, st)
  {
    hide Ptr;
    forall c | c in st.owner
      ensures Costs(sb, st'.img, st'.owner[c], c) == Costs(sb, st.img, st.owner[c], c)
    {
      SameAbove(st.img, st'.img, st.owner[c]);
    }
    hide Costs;
  }

  lemma SameAbove(m: Image, m': Image, s: Slot)
    requires SamePointers(m, m')
    ensures Above(m', s) == Above(m, s)
  {
    hide Ptr;
  }

  // Blocks that are mapped do not move.
  lemma TouchedMapped(i: nat, st: State, m': Image, off: nat, tot: nat)
    requires Mapped(i, st, off, tot) && Keeps(st.img, m')
    ensures Touched(m', i, off, tot) == Touched(st.img, i, off, tot)
  {
    hide Ptr, DataSlot;
    forall bn | off / BSIZE <= bn < BlocksFor(off + tot) && tot > 0
      ensures Ptr(m', DataSlot(i, bn)) == Ptr(st.img, DataSlot(i, bn))
    {
      assert bn * BSIZE < off + tot;
    }
  }

  lemma NotedExtends(sb: Superblock, i: nat, st0: State, st: State, st1: State, P: set<Slot>)
    requires Ready(sb, st0) && Ready(sb, st) && Same(sb, i, st0, st) && Extends(sb, i, st, st1, P)
    requires LowestTaken(st0.owner, st.owner)
    ensures NewLinks(sb, st0, st1) == NewLinks(sb, st0, st) + NewLinks(sb, st, st1)
    ensures LowestTaken(st0.owner, st1.owner)
  {
    assert MetaOwned(sb, st0.owner);
    hide Owned, Agrees, Ptr, NewLinks;
    LinksTrans(sb, st0, st, st1);
  }

  lemma NotedStep(sb: Superblock, i: nat, st0: State, st: State, st1: State, st2: State, P: set<Slot>, off: nat,
                  tot: nat, m: nat)
    requires Ready(sb, st0) && Ready(sb, st) && Same(sb, i, st0, st) && Extends(sb, i, st, st1, P)
    requires Noted(sb, i, st0, st, off, tot) && Mapped(i, st, off, tot) && Keeps(st.img, st2.img)
    requires st2.owner == st1.owner && SamePointers(st1.img, st2.img) && st1.logged <= st2.logged
    requires 0 < m && (off + tot) % BSIZE + m <= BSIZE
    requires st2.mine == st1.mine + {Ptr(st2.img, DataSlot(i, (off + tot) / BSIZE))}
    ensures Noted(sb, i, st0, st2, off, tot + m)
  {
    hide Ready, Same, Ptr, NewLinks, Touched, LowestTaken, Keeps, Mapped, SamePointers, Grew, Agrees;
    NotedExtends(sb, i, st0, st, st1, P);
    LinksSame(sb, st0, st1, st2);
    TouchedStep(st2.img, i, off, tot, m);
    TouchedMapped(i, st, st2.img, off, tot);
  }

  lemma NewInStep(sb: Superblock, i: nat, st0: State, st: State, st1: State, S: set<Slot>, P: set<Slot>)
    requires NewIn(st0, st, S) && Extends(sb, i, st, st1, P)
    ensures NewIn(st0, st1, S + P)
  {
    hide Owned, Ptr, Agrees, Logs;
  }

  // In a file without holes only a block past the end can be missing.
  lemma UnmappedIsPastEnd(m0: Image, m: Image, i: nat, bn: nat)
    requires i < |m0.inodes| && NoHoles(m0, i) && Keeps(m0, m) && Ptr(m, DataSlot(i, bn)) == 0
    ensures m0.inodes[i].size <= bn * BSIZE
  {
    assert Ptr(m0, DataSlot(i, bn)) == 0;
    assert bn >= BlocksFor(m0.inodes[i].size);
  }

  lemma BytesStep(i: nat, st0: State, st: State, st1: State, st2: State, off: nat, src: seq<Byte>, tot: nat, m: nat)
    requires tot + m <= |src| && Bytes(i, st0, st, off, src, tot) && Mapped(i, st, off, tot) && Keeps(st0.img, st.img)
    requires forall j, k :: 0 <= j && 0 <= k && Ptr(st.img, DataSlot(j, k / BSIZE)) != 0 ==>
      ByteAt(st1.img, j, k) == ByteAt(st.img, j, k)
    requires forall j, k :: 0 <= j && 0 <= k ==>
              ByteAt(st2.img, j, k) == if j == i && off + tot <= k < off + tot + m then src[tot..tot + m][k - off - tot]
                                       else ByteAt(st1.img, j, k)
    ensures Bytes(i, st0, st2, off, src, tot + m)
  {
    hide Ptr, ByteAt;
    forall k | off <= k < off + (tot + m)
      ensures ByteAt(st2.img, i, k) == src[k - off]
    {
      if k < off + tot {
        assert off / BSIZE <= k / BSIZE && (k / BSIZE) * BSIZE <= k;
        assert Ptr(st.img, DataSlot(i, k / BSIZE)) != 0;
      }
    }
  }

  lemma InPlaceStep(i: nat, st0: State, st: State, st2: State, off: nat, tot: nat, m: nat)
    requires i < |st0.img.inodes| && NoHoles(st0.img, i) && Keeps(st0.img, st.img) && InPlace(i, st0, st, off, tot)
    requires 0 < m && off + tot + m <= st0.img.inodes[i].size
    requires st2.owner == st.owner && st2.img.inodes == st.img.inodes
    requires st2.mine == st.mine + {Ptr(st.img, DataSlot(i, (off + tot) / BSIZE))} && st2.early == st.mine
    requires AtBoundary(off, tot) && (off + tot) % BSIZE + m <= BSIZE
    ensures InPlace(i, st0, st2, off, tot + m)
  {
    hide Ptr, DataSlot;
    var bn := (off + tot) / BSIZE;
    assert off / BSIZE <= bn < BlocksFor(off + (tot + m)) <= BlocksFor(st0.img.inodes[i].size);
    assert Ptr(st0.img, DataSlot(i, bn)) != 0;
    TouchedStep(st0.img, i, off, tot, m);
    PriorStep(off, tot, m);
  }

  // The last of several runs starts at a block boundary, the only one at off.
  lemma PriorStep(off: nat, tot: nat, m: nat)
    requires 0 < m && (off + tot) % BSIZE + m <= BSIZE && AtBoundary(off, tot)
    ensures Prior(off, tot + m) == tot
  {
  }

  lemma TouchedStep(img: Image, i: nat, off: nat, tot: nat, m: nat)
    requires 0 < m && (off + tot) % BSIZE + m <= BSIZE
    ensures Touched(img, i, off, tot + m) == Touched(img, i, off, tot) + {Ptr(img, DataSlot(i, (off + tot) / BSIZE))}
  {
    hide Ptr, DataSlot;
    var bn := (off + tot) / BSIZE;
    assert BlocksFor(off + (tot + m)) == bn + 1;
    if tot > 0 {
      assert BlocksFor(off + tot) == bn || BlocksFor(off + tot) == bn + 1;
    }
    assert off / BSIZE <= bn;
  }

  lemma MappedStep(i: nat, st: State, st2: State, off: nat, tot: nat, m: nat)
    requires Mapped(i, st, off, tot) && Keeps(st.img, st2.img) && m > 0
    requires Ptr(st2.img, DataSlot(i, (off + tot) / BSIZE)) != 0 && (off + tot) % BSIZE + m <= BSIZE
    ensures Mapped(i, st2, off, tot + m)
  {
    hide Ptr;
    forall bn | off / BSIZE <= bn && bn * BSIZE < off + (tot + m)
      ensures Ptr(st2.img, DataSlot(i, bn)) != 0
    {
      if bn != (off + tot) / BSIZE {
        assert bn * BSIZE < off + tot;
        assert tot > 0;
      }
    }
  }

  lemma WriteStep(sb: Superblock, i: nat, st0: State, st: State, off: nat, src: seq<Byte>, tot: nat,
                  S: set<Slot>, st1: State, m: nat)
    requires Ready(sb, st0) && i < sb.ninodes && NoHoles(st0.img, i)
    requires Writing(sb, i, st0, st, off, src, tot, S) && (off + tot) / BSIZE < MAXFILE
    requires Extends(sb, i, st, st1, PathSlots(i, (off + tot) / BSIZE))
    requires Ptr(st1.img, DataSlot(i, (off + tot) / BSIZE)) != 0
    requires Ptr(st.img, DataSlot(i, (off + tot) / BSIZE)) != 0 ==> st1 == st
    requires 0 < m && tot + m <= |src| && (off + tot) % BSIZE + m <= BSIZE && AtBoundary(off, tot)
    ensures var a := Ptr(st1.img, DataSlot(i, (off + tot) / BSIZE));
            && a < |st1.img.blocks|
            && Writing(sb, i, st0, Copied(st1, a, (off + tot) % BSIZE, src[tot..tot + m]), off, src, tot + m,
                       S + PathSlots(i, (off + tot) / BSIZE))
  {
    hide Ready, Extends, Ptr, Keeps, Bytes, Mapped, InPlace, Noted, SamePointers, AtBoundary, Splice;
    var pos := off + tot;
    var bn := pos / BSIZE;
    var a := Ptr(st1.img, DataSlot(i, bn));
    ExtendsReady(sb, i, st, st1, PathSlots(i, bn));
    BmapKeeps(sb, i, st, st1, PathSlots(i, bn));
    CopyFacts(sb, i, st1, pos, src[tot..tot + m]);
    var st2 := Copied(st1, a, pos % BSIZE, src[tot..tot + m]);
    KeepsTrans(st0.img, st.img, st1.img, st2.img);
    BytesStep(i, st0, st, st1, st2, off, src, tot, m);
    KeepsSame(st.img, st1.img, st2.img);
    SamePtr(st1.img, st2.img, DataSlot(i, bn));
    MappedStep(i, st, st2, off, tot, m);
    ExtendsMore(sb, i, st, st1, PathSlots(i, bn));
    NotedStep(sb, i, st0, st, st1, st2, PathSlots(i, bn), off, tot, m);
    NewInStep(sb, i, st0, st, st1, S, PathSlots(i, bn));
    if Ptr(st.img, DataSlot(i, bn)) == 0 {
      UnmappedIsPastEnd(st0.img, st.img, i, bn);
    } else if off + tot + m <= st0.img.inodes[i].size {
      InPlaceStep(i, st0, st, st2, off, tot, m);
    }
  }

  lemma SamePtr(m: Image, m': Image, s: Slot)
    requires SamePointers(m, m')
    ensures Ptr(m', s) == Ptr(m, s)
  {
  }

  // ---- states between operations ----

  ghost predicate Synced(sb: Superblock, st: State, i: nat) {
    && sb.Valid() && |st.img.blocks| == sb.size && i < sb.ninodes && i < |st.img.inodes|
    && OnDisk(sb, st.img.blocks, i) == st.img.inodes[i]
  }

  // A free inode holds nothing.
  predicate FreeIsEmpty(ino: Inode) {
    ino.typ == 0 ==> ino.size == 0 && ino.addrs == NoAddrs()
  }

  // The invariant, with the inodes in `busy` being changed under their lock.
  ghost predicate Good(sb: Superblock, st: State, busy: set<nat>) {
    && Ready(sb, st)
    && (forall j :: 0 <= j < |st.img.inodes| ==> FreeIsEmpty(st.img.inodes[j]))
    && (forall j :: 0 <= j < |st.img.inodes| && j !in busy ==> Synced(sb, st, j) && NoHoles(st.img, j))
  }

  // Images that differ only in non-address inode fields and in blocks before the free map.
  ghost predicate SameTrees(sb: Superblock, m: Image, m': Image) {
    && |m'.inodes| == |m.inodes| && |m'.blocks| == |m.blocks|
    && (forall j :: 0 <= j < |m.inodes| ==> m'.inodes[j].addrs == m.inodes[j].addrs)
    && (forall b :: 0 <= b < |m.blocks| && sb.bmapstart <= b ==> m'.blocks[b] == m.blocks[b])
  }

  lemma SameTreesFacts(sb: Superblock, m: Image, m': Image, owner: map<nat, Slot>, dead: set<Slot>)
    requires Owned(sb, m, owner, dead) && SameTrees(sb, m, m')
    ensures Owned(sb, m', owner, dead) && SamePointers(m, m')
    ensures forall j, k :: 0 <= j && 0 <= k ==> ByteAt(m', j, k) == ByteAt(m, j, k)
  {
    forall s
      ensures Ptr(m', s) == Ptr(m, s)
    {
      SameTreesPtr(sb, m, m', s);
    }
    MapBitsKept(sb, m.blocks, m'.blocks, owner);
  }

  lemma SameTreesPtr(sb: Superblock, m: Image, m': Image, s: Slot)
    requires Shape(sb, m) && InRange(sb, m) && SameTrees(sb, m, m')
    ensures Ptr(m', s) == Ptr(m, s)
  {
    hide WordAt;
    if ValidSlot(s, |m.inodes|) && (s.IndData? || s.Leaf? || s.LeafData?) {
      var p := Ptr(m, if s.IndData? then Ind(s.ino) else DInd(s.ino));
      var q := Ptr(m, Leaf(s.ino, s.k));
    }
  }

  function Iupdated(sb: Superblock, st: State, i: nat): State
    requires sb.Valid() && |st.img.blocks| == sb.size && |st.img.inodes| == sb.ninodes && i < sb.ninodes
  {
    var ib := sb.IBlock(i);
    State(Image(st.img.blocks[ib := PutDinode(st.img.blocks[ib], i % IPB, st.img.inodes[i])], st.img.inodes),
          st.logged + {ib}, st.mine + {ib}, st.mine, st.owner, st.base)
  }

  lemma IupdateNoted(sb: Superblock, st: State, i: nat)
    requires sb.Valid() && |st.img.blocks| == sb.size && |st.img.inodes| == sb.ninodes && i < sb.ninodes
    ensures var st' := Iupdated(sb, st, i);
            && st'.mine == st.mine + {sb.IBlock(i)} && st'.early == st.mine
            && st'.owner == st.owner && st'.img.inodes == st.img.inodes
  {
    hide PutDinode;
  }

  // Setting fields other than addrs of inode i and writing it back settles i.
  lemma SettleInode(sb: Superblock, st: State, i: nat, ino: Inode)
    requires Good(sb, st, {i}) && i < sb.ninodes && ino.addrs == st.img.inodes[i].addrs && FreeIsEmpty(ino)
    requires ino.size <= MAXFILE * BSIZE
    requires forall bn :: 0 <= bn < BlocksFor(ino.size) ==> Ptr(st.img, DataSlot(i, bn)) != 0
    ensures |st.img.blocks| == sb.size && |st.img.inodes| == sb.ninodes && sb.Valid()
    ensures var st' := Iupdated(sb, st.(img := st.img.(inodes := st.img.inodes[i := ino])), i);
            && Good(sb, st', {}) && SamePointers(st.img, st'.img)
            && forall j, k :: 0 <= j && 0 <= k ==> ByteAt(st'.img, j, k) == ByteAt(st.img, j, k)
  {
    hide Owned, Ptr, OnDisk, PutDinode, ByteAt, Agrees, NoHoles;
    ReadyFacts(sb, st, Meta);
    var st1 := st.(img := st.img.(inodes := st.img.inodes[i := ino]));
    var st' := Iupdated(sb, st1, i);
    SameTreesFacts(sb, st.img, st'.img, st.owner, {});
    InodeStored(sb, st.img.blocks, i, ino);
    UpdateAgrees(sb, st, i, ino);
    SettledHoles(st.img, st'.img, i, ino);
    forall j | 0 <= j < |st'.img.inodes|
      ensures Synced(sb, st', j) && NoHoles(st'.img, j)
    {
      if j != i {
        assert Synced(sb, st, j) && NoHoles(st.img, j);
      }
    }
  }

  lemma UpdateAgrees(sb: Superblock, st: State, i: nat, ino: Inode)
    requires sb.Valid() && Agrees(sb, st, {}) && |st.img.inodes| == sb.ninodes && i < sb.ninodes
    ensures Agrees(sb, Iupdated(sb, st.(img := st.img.(inodes := st.img.inodes[i := ino])), i), {})
  {
    hide PutDinode;
  }

  lemma SettledHoles(m: Image, m': Image, i: nat, ino: Inode)
    requires i < |m.inodes| && m'.inodes == m.inodes[i := ino] && SamePointers(m, m') && ino.size <= MAXFILE * BSIZE
    requires forall bn :: 0 <= bn < BlocksFor(ino.size) ==> Ptr(m, DataSlot(i, bn)) != 0
    ensures NoHoles(m', i) && forall j :: 0 <= j < |m.inodes| && j != i && NoHoles(m, j) ==> NoHoles(m', j)
  {
    hide Ptr, DataSlot;
  }

  // ---- what a write logs ----

  // The slots bmap may fill for blocks lo..hi of inode i.
  function WriteSlots(i: nat, lo: nat, hi: nat): set<Slot> {
    set bn, s | lo <= bn < hi && s in PathSlots(i, bn) :: s
  }

  // ---- finishing a write ----

  function Overwrite(c: seq<Byte>, off: nat, src: seq<Byte>): (r: seq<Byte>)
    requires off <= |c|
  {
    c[..off] + src + (if off + |src| < |c| then c[off + |src|..] else [])
  }

  // Other files: still synced, still without holes, same bytes.
  lemma WriteOthers(sb: Superblock, i: nat, st0: State, st: State, off: nat, src: seq<Byte>, S: set<Slot>)
    requires Good(sb, st0, {}) && i < sb.ninodes && Writing(sb, i, st0, st, off, src, |src|, S)
    requires st0.img.inodes[i].typ != 0
    ensures Good(sb, st, {i}) && |st.img.inodes| == |st0.img.inodes| == sb.ninodes
    ensures forall j :: 0 <= j < sb.ninodes && j != i ==> Content(st.img, j) == Content(st0.img, j)
  {
    hide Owned, Ptr, OnDisk, ByteAt, Agrees;
    ReadyFacts(sb, st0, Meta);
    forall j | 0 <= j < |st.img.inodes| && j != i
      ensures Synced(sb, st, j) && NoHoles(st.img, j) && Content(st.img, j) == Content(st0.img, j)
    {
      assert Synced(sb, st0, j) && NoHoles(st0.img, j);
      assert st.img.inodes[j] == st0.img.inodes[j];
      assert OnDisk(sb, st.img.blocks, j) == OnDisk(sb, st0.img.blocks, j) by {
        DiskInodesKept(sb, st0.img.blocks, st.img.blocks, j);
      }
      forall k | 0 <= k < st0.img.inodes[j].size
        ensures ByteAt(st.img, j, k) == ByteAt(st0.img, j, k)
      {
        assert Ptr(st0.img, DataSlot(j, k / BSIZE)) != 0;
      }
    }
  }

  lemma DiskInodesKept(sb: Superblock, blocks: seq<Block>, blocks': seq<Block>, j: nat)
    requires sb.Valid() && |blocks| == |blocks'| == sb.size && j < sb.ninodes
    requires forall b :: 0 <= b < sb.bmapstart ==> blocks'[b] == blocks[b]
    ensures OnDisk(sb, blocks', j) == OnDisk(sb, blocks, j)
  {
  }

  // The bytes of file i when the loop is over, with the size the file ends up with.
  lemma WrittenContent(i: nat, st0: State, st: State, off: nat, src: seq<Byte>, m': Image)
    requires i < |st0.img.inodes| && NoHoles(st0.img, i) && off <= st0.img.inodes[i].size
    requires Bytes(i, st0, st, off, src, |src|)
    requires forall k :: 0 <= k ==> ByteAt(m', i, k) == ByteAt(st.img, i, k)
    requires i < |m'.inodes|
    requires m'.inodes[i].size == if off + |src| > st0.img.inodes[i].size then off + |src| else st0.img.inodes[i].size
    ensures Content(m', i) == Overwrite(Content(st0.img, i), off, src)
  {
    hide Ptr, ByteAt;
    var c := Content(st0.img, i);
    var r := Overwrite(c, off, src);
    forall k | 0 <= k < |r|
      ensures Content(m', i)[k] == r[k]
    {
      if !(off <= k < off + |src|) {
        assert k < |c| && k / BSIZE < BlocksFor(|c|);
        assert Ptr(st0.img, DataSlot(i, k / BSIZE)) != 0;
      }
    }
  }

  // Every block below the end exists once the loop is over.
  lemma WrittenMapped(i: nat, st0: State, st: State, off: nat, n: nat)
    requires i < |st0.img.inodes| && NoHoles(st0.img, i) && off <= st0.img.inodes[i].size
    requires Keeps(st0.img, st.img) && Mapped(i, st, off, n) && n > 0
    ensures forall bn :: 0 <= bn < BlocksFor(off + n) ==> Ptr(st.img, DataSlot(i, bn)) != 0
  {
    hide Ptr;
    forall bn | 0 <= bn < BlocksFor(off + n)
      ensures Ptr(st.img, DataSlot(i, bn)) != 0
    {
      if bn < off / BSIZE {
        assert bn < BlocksFor(st0.img.inodes[i].size);
        assert Ptr(st0.img, DataSlot(i, bn)) != 0;
      }
    }
  }

  lemma GoodFacts(sb: Superblock, st: State, i: nat)
    requires Good(sb, st, {}) && i < sb.ninodes
    ensures Ready(sb, st) && Shape(sb, st.img) && NoHoles(st.img, i)
    ensures Synced(sb, st, i) && FreeIsEmpty(st.img.inodes[i])
  {
  }

  lemma GoodValid(sb: Superblock, st: State)
    requires Good(sb, st, {})
    ensures sb.Valid() && |st.img.inodes| == sb.ninodes
  {
  }

  lemma WritingFacts(sb: Superblock, i: nat, st0: State, st: State, off: nat, src: seq<Byte>, tot: nat, S: set<Slot>)
    requires i < |st0.img.inodes| && Writing(sb, i, st0, st, off, src, tot, S)
    ensures Ready(sb, st) && Shape(sb, st.img) && |st0.img.inodes| == |st.img.inodes|
    ensures st.img.inodes[i] == st0.img.inodes[i].(addrs := st.img.inodes[i].addrs)
    ensures st.base == st0.base && Keeps(st0.img, st.img) && Same(sb, i, st0, st)
    ensures tot <= |src| && Bytes(i, st0, st, off, src, tot) && Mapped(i, st, off, tot)
    ensures Noted(sb, i, st0, st, off, tot) && NewIn(st0, st, S)
    ensures off + tot <= st0.img.inodes[i].size ==> InPlace(i, st0, st, off, tot)
  {
  }

  lemma PathInWrite(i: nat, lo: nat, hi: nat, bn: nat)
    requires lo <= bn < hi
    ensures PathSlots(i, bn) <= WriteSlots(i, lo, hi)
  {
  }

  // A write of n bytes logged the blocks it wrote to, what the blocks it allocated on their paths cost, and
  // the inode's block if the file grew.
  ghost predicate WriteLogged(sb: Superblock, i: nat, st0: State, st: State, off: nat, n: nat)
    requires i < |st0.img.inodes|
  {
    && st0.logged <= st.logged && LowestTaken(st0.owner, st.owner)
    && NewIn(st0, st, WriteSlots(i, off / BSIZE, BlocksFor(off + n)))
    && st.mine == st0.mine + NewLinks(sb, st0, st) + Touched(st.img, i, off, n)
                  + (if off + n > st0.img.inodes[i].size then {sb.IBlock(i)} else {})
    && (off + n > st0.img.inodes[i].size ==> st.early == st0.mine + NewLinks(sb, st0, st) + Touched(st.img, i, off, n))
    && (n > 0 ==> forall bn :: off / BSIZE <= bn < BlocksFor(off + n) ==> Ptr(st.img, DataSlot(i, bn)) != 0)
    && (forall b :: b in st0.owner ==> b in st.owner && st.owner[b] == st0.owner[b])
  }

  lemma GrownLogged(sb: Superblock, i: nat, st0: State, st: State, st': State, off: nat, n: nat, S: set<Slot>)
    requires i < |st0.img.inodes| && Noted(sb, i, st0, st, off, n) && NewIn(st0, st, S) && Mapped(i, st, off, n)
    requires S <= WriteSlots(i, off / BSIZE, BlocksFor(off + n))
    requires st'.owner == st.owner && SamePointers(st.img, st'.img) && st.logged <= st'.logged
    requires st'.mine == st.mine + (if off + n > st0.img.inodes[i].size then {sb.IBlock(i)} else {})
    requires off + n > st0.img.inodes[i].size ==> st'.early == st.mine
    requires forall b :: b in st0.owner ==> b in st.owner && st.owner[b] == st0.owner[b]
    ensures WriteLogged(sb, i, st0, st', off, n)
  {
    hide Ptr, DataSlot, NewLinks, LowestTaken, WriteSlots;
    LinksSame(sb, st0, st, st');
    assert Keeps(st.img, st'.img);
    TouchedMapped(i, st, st'.img, off, n);
  }

  // A whole write took st0 to st: file i was overwritten and nothing else changed.
  ghost predicate Written(sb: Superblock, i: nat, st0: State, st: State, off: nat, src: seq<Byte>) {
    && Good(sb, st, {}) && Shape(sb, st0.img) && Shape(sb, st.img) && i < sb.ninodes && off <= st0.img.inodes[i].size
    && Content(st.img, i) == Overwrite(Content(st0.img, i), off, src)
    && st.img.inodes[i] == st0.img.inodes[i].(size := st.img.inodes[i].size, addrs := st.img.inodes[i].addrs)
    && (forall j :: 0 <= j < sb.ninodes && j != i ==>
          st.img.inodes[j] == st0.img.inodes[j] && Content(st.img, j) == Content(st0.img, j))
    && WriteLogged(sb, i, st0, st, off, |src|)
    && (off + |src| <= st0.img.inodes[i].size ==> InPlace(i, st0, st, off, |src|))
    && Keeps(st0.img, st.img) && st.base == st0.base
  }

  lemma WrittenGood(sb: Superblock, i: nat, st: State, st': State, off: nat, src: seq<Byte>)
    requires Written(sb, i, st, st', off, src)
    ensures Good(sb, st', {}) && Shape(sb, st.img) && Shape(sb, st'.img) && i < sb.ninodes
    ensures st'.img.inodes[i].typ == st.img.inodes[i].typ
    ensures off <= st.img.inodes[i].size
  {
  }

  // The file ends past its old end: the new size and addresses went to disk.
  lemma WriteGrown(sb: Superblock, i: nat, st0: State, st: State, off: nat, src: seq<Byte>, S: set<Slot>)
    requires Good(sb, st0, {}) && i < sb.ninodes && st0.img.inodes[i].typ != 0 && off <= st0.img.inodes[i].size
    requires Writing(sb, i, st0, st, off, src, |src|, S) && 0 < |src|
    requires st0.img.inodes[i].size < off + |src| <= MAXFILE * BSIZE
    requires S <= WriteSlots(i, off / BSIZE, BlocksFor(off + |src|))
    ensures Shape(sb, st.img) && Shape(sb, st0.img)
    ensures var ino := st.img.inodes[i].(size := off + |src|);
            var st' := Iupdated(sb, st.(img := st.img.(inodes := st.img.inodes[i := ino])), i);
            Written(sb, i, st0, st', off, src)
  {
    hide Ready, Owned, Ptr, Writing, ByteAt, Good, NoHoles, Content, Overwrite, Keeps, Bytes, Mapped, PutDinode, Noted,
      WriteLogged, WriteSlots, SamePointers;
    GoodFacts(sb, st0, i);
    WritingFacts(sb, i, st0, st, off, src, |src|, S);
    WriteOthers(sb, i, st0, st, off, src, S);
    WrittenMapped(i, st0, st, off, |src|);
    var ino := st.img.inodes[i].(size := off + |src|);
    SettleInode(sb, st, i, ino);
    var st' := Iupdated(sb, st.(img := st.img.(inodes := st.img.inodes[i := ino])), i);
    WrittenContent(i, st0, st, off, src, st'.img);
    KeepsSame(st0.img, st.img, st'.img);
    GrownLogged(sb, i, st0, st, st', off, |src|, S);
    forall j | 0 <= j < sb.ninodes && j != i
      ensures st'.img.inodes[j] == st0.img.inodes[j] && Content(st'.img, j) == Content(st0.img, j)
    {
      SameContent(st.img, st'.img, j);
    }
  }

  lemma SamePointersRefl(m: Image)
    ensures SamePointers(m, m)
  {
  }

  lemma SameContent(m: Image, m': Image, j: nat)
    requires j < |m.inodes| && j < |m'.inodes| && m'.inodes[j] == m.inodes[j]
    requires forall j, k :: 0 <= j && 0 <= k ==> ByteAt(m', j, k) == ByteAt(m, j, k)
    ensures Content(m', j) == Content(m, j)
  {
    hide ByteAt;
  }

  // The file keeps its size: nothing was allocated, so the disk inode is current.
  lemma WriteSettled(sb: Superblock, i: nat, st0: State, st: State, off: nat, src: seq<Byte>, S: set<Slot>)
    requires Good(sb, st0, {}) && i < sb.ninodes && st0.img.inodes[i].typ != 0 && off <= st0.img.inodes[i].size
    requires Writing(sb, i, st0, st, off, src, |src|, S) && (|src| == 0 || off + |src| <= st0.img.inodes[i].size)
    requires S <= WriteSlots(i, off / BSIZE, BlocksFor(off + |src|))
    ensures Written(sb, i, st0, st, off, src)
  {
    hide Ready, Owned, Ptr, Writing, ByteAt, Good, NoHoles, Content, Overwrite, Keeps, Bytes, Mapped, InPlace,
      Noted, WriteLogged, WriteSlots;
    GoodFacts(sb, st0, i);
    WritingFacts(sb, i, st0, st, off, src, |src|, S);
    WriteOthers(sb, i, st0, st, off, src, S);
    WrittenContent(i, st0, st, off, src, st.img);
    SamePointersRefl(st.img);
    assert st.mine + {} == st.mine;
    GrownLogged(sb, i, st0, st, st, off, |src|, S);
    UnchangedInode(sb, i, st0, st, off, src, S);
  }

  lemma UnchangedInode(sb: Superblock, i: nat, st0: State, st: State, off: nat, src: seq<Byte>, S: set<Slot>)
    requires Good(sb, st0, {}) && i < sb.ninodes && Good(sb, st, {i}) && off <= st0.img.inodes[i].size
    requires Writing(sb, i, st0, st, off, src, |src|, S) && (|src| == 0 || off + |src| <= st0.img.inodes[i].size)
    ensures Good(sb, st, {}) && st.img.inodes == st0.img.inodes
  {
    hide Ready, Owned, Ptr, OnDisk, Bytes, Mapped, Noted;
    GoodFacts(sb, st0, i);
    DiskInodesKept(sb, st0.img.blocks, st.img.blocks, i);
    assert NoHoles(st.img, i);
  }

  // m bytes from offset pos, inside block a of file i.
  lemma ReadRun(m: Image, i: nat, a: Word, pos: nat, len: nat)
    requires i < |m.inodes| && Ptr(m, DataSlot(i, pos / BSIZE)) == a && 0 < a < |m.blocks|
    requires pos % BSIZE + len <= BSIZE && pos + len <= m.inodes[i].size
    ensures m.blocks[a][pos % BSIZE..pos % BSIZE + len] == Content(m, i)[pos..pos + len]
  {
    hide Ptr;
    var x, y := m.blocks[a][pos % BSIZE..pos % BSIZE + len], Content(m, i)[pos..pos + len];
    forall k | 0 <= k < len
      ensures x[k] == y[k]
    {
      assert (pos + k) / BSIZE == pos / BSIZE && (pos + k) % BSIZE == pos % BSIZE + k;
    }
  }

  // min(n - tot, BSIZE - off%BSIZE): how far one block reaches.
  function Run(pos: nat, left: nat): (r: nat)
    requires left > 0
    ensures 0 < r <= left && pos % BSIZE + r <= BSIZE
  {
    if left < BSIZE - pos % BSIZE then left else BSIZE - pos % BSIZE
  }

  lemma RunToBoundary(off: nat, tot: nat, left: nat)
    requires left > 0
    ensures Run(off + tot, left) == left || AtBoundary(off, tot + Run(off + tot, left))
  {
  }

  lemma BlockOf(off: nat, pos: nat, end: nat)
    requires off <= pos < end <= MAXFILE * BSIZE
    ensures off / BSIZE <= pos / BSIZE < BlocksFor(end) && pos / BSIZE < MAXFILE
  {
  }

  // One step of readi's loop: block pos/BSIZE is mapped, and its bytes extend what was read so far.
  lemma ReadStep(sb: Superblock, st: State, i: nat, off: nat, pos: nat, len: nat)
    requires Good(sb, st, {}) && i < sb.ninodes && i < |st.img.inodes|
    requires off <= pos && 0 < len && pos % BSIZE + len <= BSIZE && pos + len <= st.img.inodes[i].size
    ensures var a := Ptr(st.img, DataSlot(i, pos / BSIZE));
            && 0 < a < |st.img.blocks| && pos / BSIZE < MAXFILE
            && Content(st.img, i)[off..pos] + st.img.blocks[a][pos % BSIZE..pos % BSIZE + len]
               == Content(st.img, i)[off..pos + len]
  {
    hide Owned, Ptr, ByteAt, Ready;
    GoodFacts(sb, st, i);
    BlockOf(off, pos, st.img.inodes[i].size);
    ReadyFacts(sb, st, DataSlot(i, pos / BSIZE));
    ReadRun(st.img, i, Ptr(st.img, DataSlot(i, pos / BSIZE)), pos, len);
  }

  // A block a slot names is outside the metadata, so outside the log.
  lemma DataHome(sb: Superblock, i: nat, st: State, st': State, S: set<Slot>, s: Slot)
    requires Extends(sb, i, st, st', S) && Ptr(st'.img, s) != 0
    ensures sb.Home(Ptr(st'.img, s))
  {
    hide Agrees, Logs, Ptr, BitmapExact;
  }
}
