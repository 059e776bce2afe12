/** Pure facts about file-system states: how the inode table is read, how an image grows when bmap
    allocates, and what file contents depend on. */
module FsState {
  import opened Blocks
  import opened FsLayout
  import opened FsOwnership

  // ---- the inode table: in-memory copies over on-disk ones ----

  function OnDisk(sb: Superblock, blocks: seq<Block>, i: nat): Inode
    requires sb.Valid() && |blocks| == sb.size && i < sb.ninodes
  {
    DinodeAt(blocks[sb.IBlock(i)], i % IPB)
  }

  // iupdate: the in-memory inode reaches its disk slot and no other disk inode moves.
  lemma InodeStored(sb: Superblock, blocks: seq<Block>, i: nat, ino: Inode)
    requires sb.Valid() && |blocks| == sb.size && i < sb.ninodes
    ensures var blocks' := blocks[sb.IBlock(i) := PutDinode(blocks[sb.IBlock(i)], i % IPB, ino)];
            && OnDisk(sb, blocks', i) == ino
            && (forall j :: 0 <= j < sb.ninodes && j != i ==> OnDisk(sb, blocks', j) == OnDisk(sb, blocks, j))
  {
    var blocks' := blocks[sb.IBlock(i) := PutDinode(blocks[sb.IBlock(i)], i % IPB, ino)];
    PutDinodeSame(blocks[sb.IBlock(i)], i % IPB, ino);
    forall j | 0 <= j < sb.ninodes && j != i
      ensures OnDisk(sb, blocks', j) == OnDisk(sb, blocks, j)
    {
      if sb.IBlock(j) == sb.IBlock(i) {
        PutDinodeOther(blocks[sb.IBlock(i)], i % IPB, ino, j % IPB);
      }
    }
  }

  // ---- growth ----

  // What balloc does to the blocks.
  function AllocBlocks(sb: Superblock, blocks: seq<Block>, b: nat): (r: seq<Block>)
    requires sb.Valid() && |blocks| == sb.size && sb.Nmeta() <= b < sb.size
    ensures |r| == |blocks|
  {
    blocks[sb.BBlock(b) := PutBit(blocks[sb.BBlock(b)], b % BPB, true)][b := ZeroBlock()]
  }

  // The image gained blocks only in slots S of inode i: old pointers stay, new data blocks are
  // zeroed, only index blocks of S and free-map blocks are written.
  ghost predicate Grew(sb: Superblock, i: nat, m: Image, owner: map<nat, Slot>, m': Image,
                       owner': map<nat, Slot>, S: set<Slot>) {
    && Shape(sb, m) && i < sb.ninodes
    && Owned(sb, m', owner', {})
    && (forall s :: Ptr(m', s) == Ptr(m, s) || (Ptr(m, s) == 0 && s in S))
    && (forall b :: b in owner ==> b in owner' && owner'[b] == owner[b])
    && (forall b :: b in owner && sb.Nmeta() <= b < sb.size ==>
          m'.blocks[b] == m.blocks[b] || (owner[b] in S && IsIndex(owner[b])))
    && (forall b :: b in owner' && b !in owner ==>
          b < sb.size && owner'[b] in S && (IsIndex(owner'[b]) || m'.blocks[b] == ZeroBlock()))
    && (forall b :: 0 <= b < sb.bmapstart ==> m'.blocks[b] == m.blocks[b])
    && m'.inodes == m.inodes[i := m.inodes[i].(addrs := m'.inodes[i].addrs)]
  }

  lemma GrewTrans(sb: Superblock, i: nat, m: Image, owner: map<nat, Slot>, m1: Image, owner1: map<nat, Slot>,
                  S: set<Slot>,
                  m2: Image, owner2: map<nat, Slot>, S2: set<Slot>)
    requires Owned(sb, m, owner, {})
    requires Grew(sb, i, m, owner, m1, owner1, S) && Grew(sb, i, m1, owner1, m2, owner2, S2)
    ensures Grew(sb, i, m, owner, m2, owner2, S + S2)
  {
  }

  // After balloc, before the block is linked in.
  lemma Allocated(sb: Superblock, m: Image, owner: map<nat, Slot>, b: nat, s: Slot)
    requires Owned(sb, m, owner, {}) && b !in owner && sb.Nmeta() <= b < sb.size
    ensures var m1 := Image(AllocBlocks(sb, m.blocks, b), m.inodes);
            && Trees(sb, m1, owner, {}) && SamePointers(m, m1)
            && BitmapExact(sb, m1.blocks, owner[b := s])
  {
    var m1 := Image(AllocBlocks(sb, m.blocks, b), m.inodes);
    PtrFrameOwned(sb, m, m1, owner);
    SetMapBit(sb, m.blocks, m1.blocks, owner, owner[b := s], b, true);
  }

  // if(addrs[k] == 0) addrs[k] = balloc()
  function RootImage(sb: Superblock, m: Image, i: nat, k: nat, b: Word): Image
    requires Shape(sb, m) && sb.Nmeta() <= b < sb.size && i < sb.ninodes && k < 13
  {
    Image(AllocBlocks(sb, m.blocks, b), m.inodes[i := m.inodes[i].(addrs := m.inodes[i].addrs[k := b])])
  }

  // One block b joined slot s; besides b and free-map blocks only block a may have been written.
  lemma GrewByOne(sb: Superblock, i: nat, m: Image, owner: map<nat, Slot>, m': Image, s: Slot, b: Word, a: nat,
                  S: set<Slot>)
    requires Owned(sb, m, owner, {}) && Owned(sb, m', owner[b := s], {}) && i < sb.ninodes
    requires b !in owner && sb.Nmeta() <= b < sb.size && s in S
    requires forall s' :: Ptr(m', s') == if s' == s then b else Ptr(m, s')
    requires Ptr(m, s) == 0
    requires forall c :: 0 <= c < sb.size && c != b && c != a && !(sb.bmapstart <= c < sb.Nmeta()) ==>
      m'.blocks[c] == m.blocks[c]
    requires a < sb.bmapstart ==> m'.blocks[a] == m.blocks[a]
    requires a in owner ==> sb.Nmeta() <= a ==> m'.blocks[a] == m.blocks[a] || (owner[a] in S && IsIndex(owner[a]))
    requires m'.inodes == m.inodes[i := m.inodes[i].(addrs := m'.inodes[i].addrs)]
    requires !IsIndex(s) ==> m'.blocks[b] == ZeroBlock()
    ensures Grew(sb, i, m, owner, m', owner[b := s], S)
  {
  }

  lemma GrowRoot(sb: Superblock, m: Image, owner: map<nat, Slot>, i: nat, k: nat, b: Word)
    requires Owned(sb, m, owner, {}) && b !in owner && sb.Nmeta() <= b < sb.size
    requires i < sb.ninodes && k < 13 && m.inodes[i].addrs[k] == 0
    ensures var m' := RootImage(sb, m, i, k, b);
            Grew(sb, i, m, owner, m', owner[b := RootSlot(i, k)], {RootSlot(i, k)}) && Ptr(m', RootSlot(i, k)) == b
  {
    var m1 := Image(AllocBlocks(sb, m.blocks, b), m.inodes);
    var m' := RootImage(sb, m, i, k, b);
    Allocated(sb, m, owner, b, RootSlot(i, k));
    AttachRoot(sb, m1, m', owner, i, k, b);
    GrewByOne(sb, i, m, owner, m', RootSlot(i, k), b, b, {RootSlot(i, k)});
  }

  // if(a[k] == 0) a[k] = balloc(), where a is the index block of slot p
  function EntryImage(sb: Superblock, m: Image, p: Slot, k: nat, b: Word): Image
    requires Shape(sb, m) && sb.Nmeta() <= b < sb.size && k < NINDIRECT && Ptr(m, p) < sb.size
  {
    var blocks1 := AllocBlocks(sb, m.blocks, b);
    Image(blocks1[Ptr(m, p) := PutWord(blocks1[Ptr(m, p)], k, b)], m.inodes)
  }

  lemma GrowEntryOwned(sb: Superblock, m: Image, owner: map<nat, Slot>, p: Slot, k: nat, b: Word)
    requires Owned(sb, m, owner, {}) && b !in owner && sb.Nmeta() <= b < sb.size
    requires IsIndex(p) && Ptr(m, p) != 0 && k < NINDIRECT && Ptr(m, Child(p, k)) == 0
    ensures var m' := EntryImage(sb, m, p, k, b);
            && Owned(sb, m', owner[b := Child(p, k)], {})
            && forall s :: Ptr(m', s) == if s == Child(p, k) then b else Ptr(m, s)
  {
    var m1 := Image(AllocBlocks(sb, m.blocks, b), m.inodes);
    var m' := EntryImage(sb, m, p, k, b);
    Allocated(sb, m, owner, b, Child(p, k));
    AttachEntry(sb, m1, m', owner, p, k, b);
    MapBitsKept(sb, m1.blocks, m'.blocks, owner[b := Child(p, k)]);
  }

  lemma GrowEntry(sb: Superblock, m: Image, owner: map<nat, Slot>, i: nat, p: Slot, k: nat, b: Word)
    requires Owned(sb, m, owner, {}) && b !in owner && sb.Nmeta() <= b < sb.size && i < sb.ninodes
    requires IsIndex(p) && Ptr(m, p) != 0 && k < NINDIRECT && Ptr(m, Child(p, k)) == 0
    ensures var m' := EntryImage(sb, m, p, k, b);
            Grew(sb, i, m, owner, m', owner[b := Child(p, k)], {p, Child(p, k)}) && Ptr(m', Child(p, k)) == b
  {
    GrowEntryOwned(sb, m, owner, p, k, b);
    GrewByOne(sb, i, m, owner, EntryImage(sb, m, p, k, b), Child(p, k), b, Ptr(m, p), {p, Child(p, k)});
  }

  lemma MapBitsKept(sb: Superblock, blocks: seq<Block>, blocks': seq<Block>, owner: map<nat, Slot>)
    requires sb.Valid() && |blocks| == |blocks'| == sb.size && BitmapExact(sb, blocks, owner)
    requires forall b :: sb.bmapstart <= b < sb.Nmeta() ==> blocks'[b] == blocks[b]
    ensures BitmapExact(sb, blocks', owner)
  {
    forall b | 0 <= b < sb.size
      ensures MapBit(sb, blocks', b) <==> b in owner
    {
      assert sb.bmapstart <= sb.BBlock(b) < sb.Nmeta();
      assert MapBit(sb, blocks, b) <==> b in owner;
    }
  }

  // ---- files ----

  // Every block below the size exists.
  ghost predicate NoHoles(m: Image, i: nat)
    requires i < |m.inodes|
  {
    && m.inodes[i].size <= MAXFILE * BSIZE
    && forall bn :: 0 <= bn < BlocksFor(m.inodes[i].size) ==> Ptr(m, DataSlot(i, bn)) != 0
  }

  // Overwriting block a of data slot DataSlot(i, bn) moves no pointer and changes those bytes only.
  lemma WriteDataBlock(sb: Superblock, m: Image, owner: map<nat, Slot>, i: nat, bn: nat, x: Block)
    requires Owned(sb, m, owner, {}) && i < sb.ninodes && bn < MAXFILE && Ptr(m, DataSlot(i, bn)) != 0
    ensures var m' := Image(m.blocks[Ptr(m, DataSlot(i, bn)) := x], m.inodes);
            && Owned(sb, m', owner, {}) && SamePointers(m, m')
            && forall i', k :: 0 <= k ==>
                  ByteAt(m', i', k) == if i' == i && k / BSIZE == bn then x[k % BSIZE] else ByteAt(m, i', k)
  {
    var a := Ptr(m, DataSlot(i, bn));
    var m' := Image(m.blocks[a := x], m.inodes);
    DataSlotValid(i, bn, sb.ninodes);
    PtrFrame(m, m');
    MapBitsKept(sb, m.blocks, m'.blocks, owner);
    forall i', k | 0 <= k
      ensures ByteAt(m', i', k) == if i' == i && k / BSIZE == bn then x[k % BSIZE] else ByteAt(m, i', k)
    {
      if Ptr(m, DataSlot(i', k / BSIZE)) == a {
        Unshared(m, owner, DataSlot(i, bn), DataSlot(i', k / BSIZE));
        DataSlotInjective(i', k / BSIZE, i, bn);
      }
    }
  }

  // ---- whole states ----

  // What the kernel holds inside a transaction, and what the last commit left on disk.
  datatype State = State(
    img: Image,                  // what bread returns, and the current inodes
    logged: set<nat>,            // blocks named in the log header
    mine: set<nat>,              // those the running operation called log_write for
    early: set<nat>,             // of these, the ones before its last call
    owner: map<nat, Slot>,
    base: seq<Block>)            // home blocks as of the last commit

  // Allocated blocks that were not logged still equal their committed copy.
  ghost predicate Agrees(sb: Superblock, st: State, but: set<nat>) {
    && |st.img.blocks| == |st.base| == sb.size
    && forall b :: b in st.owner && b < sb.size && b !in but ==> b in st.logged || st.img.blocks[b] == st.base[b]
  }

  ghost predicate Ready(sb: Superblock, st: State) {
    Owned(sb, st.img, st.owner, {}) && Agrees(sb, st, {})
  }

  // The index blocks log_write is called for when slot s gets a block.
  function Above(m: Image, s: Slot): set<nat> {
    match s
    case IndData(i, _) => {Ptr(m, Ind(i))}
    case Leaf(i, _) => {Ptr(m, DInd(i))}
    case LeafData(i, k, _) => {Ptr(m, Leaf(i, k)), Ptr(m, DInd(i))}
    case _ => {}
  }

  // All the blocks it is called for when block c goes to slot s.
  function Costs(sb: Superblock, m: Image, s: Slot, c: nat): set<nat> {
    {sb.BBlock(c), c} + Above(m, s)
  }

  // What the blocks that gained an owner between st and st' cost.
  function NewLinks(sb: Superblock, st: State, st': State): set<nat> {
    set c, b | c in st'.owner && c !in st.owner && b in Costs(sb, st'.img, st'.owner[c], c) :: b
  }

  ghost predicate TakenUpTo(owner: map<nat, Slot>, c: nat) {
    forall d :: 0 <= d < c ==> d in owner
  }

  // Always the lowest free block was taken.
  ghost predicate LowestTaken(owner: map<nat, Slot>, owner': map<nat, Slot>) {
    forall c :: c in owner' && c !in owner ==> TakenUpTo(owner', c)
  }

  // The operation logged exactly what the new blocks cost.
  ghost predicate Logs(sb: Superblock, st: State, st': State) {
    && st.logged <= st'.logged && st'.mine == st.mine + NewLinks(sb, st, st')
    && LowestTaken(st.owner, st'.owner)
  }

  // bmap took the file system from st to st', filling slots S of inode i.
  ghost predicate Extends(sb: Superblock, i: nat, st: State, st': State, S: set<Slot>) {
    && Agrees(sb, st', {})
    && Grew(sb, i, st.img, st.owner, st'.img, st'.owner, S)
    && Logs(sb, st, st')
    && st'.base == st.base
  }

  // The parts of Ready that code reading one pointer or the free map needs.
  lemma ReadyFacts(sb: Superblock, st: State, s: Slot)
    requires Ready(sb, st)
    ensures Shape(sb, st.img) && |st.base| == sb.size
    ensures BitmapExact(sb, st.img.blocks, st.owner) && MetaOwned(sb, st.owner)
    ensures Ptr(st.img, s) != 0 ==>
              && ValidSlot(s, sb.ninodes) && sb.Nmeta() <= Ptr(st.img, s) < sb.size
              && Ptr(st.img, s) in st.owner && st.owner[Ptr(st.img, s)] == s
  {
  }

  lemma EntryFacts(sb: Superblock, st: State, p: Slot, k: nat)
    requires Ready(sb, st) && IsIndex(p) && Ptr(st.img, p) != 0 && k < NINDIRECT
    ensures Ptr(st.img, p) < |st.img.blocks| && Ptr(st.img, Child(p, k)) == WordAt(st.img.blocks[Ptr(st.img, p)], k)
  {
    ChildPtr(st.img, p, k);
  }

  // Reading bit bi of the map block that starts at block b0.
  lemma MapScan(sb: Superblock, blocks: seq<Block>, owner: map<nat, Slot>, b0: nat, bi: nat)
    requires sb.Valid() && |blocks| == sb.size && BitmapExact(sb, blocks, owner)
    requires b0 % BPB == 0 && bi < BPB && b0 + bi < sb.size
    ensures sb.BBlock(b0 + bi) == sb.BBlock(b0) < sb.size && (b0 + bi) % BPB == bi
    ensures BitAt(blocks[sb.BBlock(b0)], bi) <==> b0 + bi in owner
  {
    assert MapBit(sb, blocks, b0 + bi) <==> b0 + bi in owner;
  }

  // A mapped data block has its whole path mapped.
  lemma PathMapped(m: Image, i: nat, bn: nat)
    requires i < |m.inodes| && bn < MAXFILE && Ptr(m, DataSlot(i, bn)) != 0
    ensures bn < NDIRECT ==> m.inodes[i].addrs[bn] != 0
    ensures NDIRECT <= bn < NDIRECT + NINDIRECT ==> m.inodes[i].addrs[NDIRECT] != 0
    ensures NDIRECT + NINDIRECT <= bn ==>
              m.inodes[i].addrs[NDIRECT + 1] != 0 && Ptr(m, Leaf(i, (bn - NDIRECT - NINDIRECT) / NINDIRECT)) != 0
  {
  }

  lemma ExtendsReady(sb: Superblock, i: nat, st: State, st': State, S: set<Slot>)
    requires Extends(sb, i, st, st', S)
    ensures Ready(sb, st') && st'.base == st.base
  {
  }

  lemma ExtendsPtr(sb: Superblock, i: nat, st: State, st': State, S: set<Slot>, s: Slot)
    requires Extends(sb, i, st, st', S) && (Ptr(st.img, s) != 0 || s !in S)
    ensures Ptr(st'.img, s) == Ptr(st.img, s)
  {
  }

  ghost predicate Full(sb: Superblock, owner: map<nat, Slot>) {
    forall c :: 0 <= c < sb.size ==> c in owner
  }

  lemma ExtendsRefl(sb: Superblock, i: nat, st: State, S: set<Slot>)
    requires Ready(sb, st) && i < sb.ninodes
    ensures Extends(sb, i, st, st, S)
  {
    assert NewLinks(sb, st, st) == {};
  }

  lemma ExtendsTrans(sb: Superblock, i: nat, st: State, st1: State, S: set<Slot>, st2: State, S2: set<Slot>)
    requires Ready(sb, st) && Extends(sb, i, st, st1, S) && Extends(sb, i, st1, st2, S2)
    ensures Extends(sb, i, st, st2, S + S2)
  {
    GrewTrans(sb, i, st.img, st.owner, st1.img, st1.owner, S, st2.img, st2.owner, S2);
    ExtendsReady(sb, i, st, st1, S);
    hide Owned, Agrees, Ptr;
    LogsTrans(sb, st, st1, st2);
  }

  // A mapped slot has the index blocks above it mapped, and they stay.
  lemma AboveKept(m: Image, m': Image, s: Slot)
    requires Ptr(m, s) != 0 && forall p :: Ptr(m, p) != 0 ==> Ptr(m', p) == Ptr(m, p)
    ensures Above(m', s) == Above(m, s)
  {
    if s.IndData? {
      assert Ptr(m, Ind(s.ino)) != 0;
    } else if s.Leaf? || s.LeafData? {
      assert Ptr(m, DInd(s.ino)) != 0;
      assert s.LeafData? ==> Ptr(m, Leaf(s.ino, s.k)) != 0;
    }
  }

  lemma LinksTrans(sb: Superblock, st: State, st1: State, st2: State)
    requires Ready(sb, st1)
    requires forall b :: b in st.owner ==> b in st1.owner
    requires forall b :: b in st1.owner ==> b in st2.owner && st2.owner[b] == st1.owner[b]
    requires forall s :: Ptr(st1.img, s) != 0 ==> Ptr(st2.img, s) == Ptr(st1.img, s)
    requires forall b :: 0 <= b < sb.Nmeta() ==> b in st.owner
    ensures NewLinks(sb, st, st2) == NewLinks(sb, st, st1) + NewLinks(sb, st1, st2)
  {
    forall c | c in st1.owner && c !in st.owner
      ensures Costs(sb, st2.img, st2.owner[c], c) == Costs(sb, st1.img, st1.owner[c], c)
    {
      assert c >= sb.Nmeta() && Ptr(st1.img, st1.owner[c]) == c;
      AboveKept(st1.img, st2.img, st1.owner[c]);
    }
    hide Ready, Ptr, Costs;
  }

  lemma LogsTrans(sb: Superblock, st: State, st1: State, st2: State)
    requires Ready(sb, st1) && Logs(sb, st, st1) && Logs(sb, st1, st2)
    requires forall b :: b in st.owner ==> b in st1.owner && st1.owner[b] == st.owner[b]
    requires forall b :: b in st1.owner ==> b in st2.owner && st2.owner[b] == st1.owner[b]
    requires forall s :: Ptr(st1.img, s) != 0 ==> Ptr(st2.img, s) == Ptr(st1.img, s)
    requires forall b :: 0 <= b < sb.Nmeta() ==> b in st.owner
    ensures Logs(sb, st, st2)
  {
    LinksTrans(sb, st, st1, st2);
    hide Ready, Ptr, NewLinks;
  }

  // Logging the free-map block, the new block and the block that names it covers all that changed.
  lemma GrewLogged(sb: Superblock, st: State, st': State, s: Slot, b: nat, a: nat)
    requires sb.Valid() && Agrees(sb, st, {}) && |st'.img.blocks| == sb.size && st'.base == st.base
    requires sb.Nmeta() <= b < sb.size && b !in st.owner && TakenUpTo(st.owner, b)
    requires a in Costs(sb, st'.img, s, b)
    requires forall c :: 0 <= c < sb.size && c != b && c != a && c != sb.BBlock(b) ==>
               st'.img.blocks[c] == st.img.blocks[c]
    requires st'.logged == st.logged + Costs(sb, st'.img, s, b) && st'.owner == st.owner[b := s]
    requires st'.mine == st.mine + Costs(sb, st'.img, s, b)
    ensures Agrees(sb, st', {}) && Logs(sb, st, st')
  {
    hide Above;
    assert b in st'.owner && st'.owner[b] == s;
    assert NewLinks(sb, st, st') == Costs(sb, st'.img, s, b);
  }

  // The state after block b went to addrs[k] of inode i.
  function RootState(sb: Superblock, st: State, i: nat, k: nat, b: Word): State
    requires Shape(sb, st.img) && i < sb.ninodes && k < 13 && sb.Nmeta() <= b < sb.size
  {
    State(RootImage(sb, st.img, i, k, b), st.logged + {sb.BBlock(b), b}, st.mine + {sb.BBlock(b), b},
          st.mine + {sb.BBlock(b)}, st.owner[b := RootSlot(i, k)], st.base)
  }

  lemma RootStep(sb: Superblock, st: State, i: nat, k: nat, b: Word)
    requires Ready(sb, st) && i < sb.ninodes && k < 13 && sb.Nmeta() <= b < sb.size && b !in st.owner
    requires st.img.inodes[i].addrs[k] == 0 && TakenUpTo(st.owner, b)
    ensures var st' := RootState(sb, st, i, k, b);
            Extends(sb, i, st, st', {RootSlot(i, k)}) && Ptr(st'.img, RootSlot(i, k)) == b
  {
    ReadyFacts(sb, st, Meta);
    hide Owned, Grew, PutBit, Logs, TakenUpTo;
    var st' := RootState(sb, st, i, k, b);
    GrowRoot(sb, st.img, st.owner, i, k, b);
    assert Costs(sb, st'.img, RootSlot(i, k), b) == {sb.BBlock(b), b};
    GrewLogged(sb, st, st', RootSlot(i, k), b, b);
  }

  // The state after block b went to entry k of the index block of slot p.
  function EntryState(sb: Superblock, st: State, p: Slot, k: nat, b: Word): State
    requires Shape(sb, st.img) && k < NINDIRECT && sb.Nmeta() <= b < sb.size && Ptr(st.img, p) < sb.size && IsIndex(p)
  {
    State(EntryImage(sb, st.img, p, k, b), st.logged + {sb.BBlock(b), b} + Above(st.img, Child(p, k)),
          st.mine + {sb.BBlock(b), b} + Above(st.img, Child(p, k)),
          st.mine + {sb.BBlock(b), b} + (if p.Leaf? then {Ptr(st.img, p)} else {}), st.owner[b := Child(p, k)], st.base)
  }

  lemma EntryStep(sb: Superblock, st: State, i: nat, p: Slot, k: nat, b: Word)
    requires Ready(sb, st) && i < sb.ninodes && sb.Nmeta() <= b < sb.size && b !in st.owner
    requires IsIndex(p) && Ptr(st.img, p) != 0 && k < NINDIRECT && Ptr(st.img, Child(p, k)) == 0
    requires TakenUpTo(st.owner, b)
    ensures var st' := EntryState(sb, st, p, k, b);
            Extends(sb, i, st, st', {p, Child(p, k)}) && Ptr(st'.img, Child(p, k)) == b
  {
    hide Owned, PutBit, Logs, TakenUpTo, EntryImage, Ptr, Grew, Costs, Above, Shape, Child;
    ReadyFacts(sb, st, p);
    var st' := EntryState(sb, st, p, k, b);
    GrowEntry(sb, st.img, st.owner, i, p, k, b);
    EntryCosts(sb, st, st', i, p, k, b);
    EntryBlocks(sb, st, p, k, b);
    GrewLogged(sb, st, st', Child(p, k), b, Ptr(st.img, p));
  }

  lemma EntryBlocks(sb: Superblock, st: State, p: Slot, k: nat, b: Word)
    requires Shape(sb, st.img) && k < NINDIRECT && sb.Nmeta() <= b < sb.size && Ptr(st.img, p) < sb.size && IsIndex(p)
    ensures var m' := EntryState(sb, st, p, k, b).img;
            && |m'.blocks| == |st.img.blocks| == sb.size
            && forall c :: 0 <= c < sb.size && c != b && c != Ptr(st.img, p) && c != sb.BBlock(b) ==>
                 m'.blocks[c] == st.img.blocks[c]
  {
    hide PutBit, Ptr, Above, Child;
  }

  lemma EntryCosts(sb: Superblock, st: State, st': State, i: nat, p: Slot, k: nat, b: nat)
    requires IsIndex(p) && Ptr(st.img, p) != 0
    requires Grew(sb, i, st.img, st.owner, st'.img, st'.owner, {p, Child(p, k)})
    ensures Costs(sb, st'.img, Child(p, k), b) == {sb.BBlock(b), b} + Above(st.img, Child(p, k))
    ensures Ptr(st.img, p) in Costs(sb, st'.img, Child(p, k), b)
  {
    hide Owned, Ptr;
  }
}
