/** What itrunc (kernel/fs.c:444-508) does to the states it passes through. */
module FsTrunc {
  import opened Blocks
  import opened FsLayout
  import opened FsOwnership
  import opened FsState
  import opened FsWrite

  predicate OfInode(s: Slot, i: nat) {
    s != Meta && s.ino == i
  }

  // The free-map blocks of the blocks given back between st and st'.
  function FreedMap(sb: Superblock, st: State, st': State): set<nat> {
    set b | b in st.owner && b !in st'.owner :: sb.BBlock(b)
  }

  // Only blocks of inode i were given back; only free-map blocks, i's own blocks and i's addresses
  // were written; exactly the free-map blocks of what was given back were logged.
  ghost predicate Shrunk(sb: Superblock, i: nat, st: State, st': State) {
    && Shape(sb, st.img) && Shape(sb, st'.img) && i < sb.ninodes
    && (forall b :: b in st'.owner ==> b in st.owner && st'.owner[b] == st.owner[b])
    && (forall b :: b in st.owner && b !in st'.owner ==> OfInode(st.owner[b], i))
    && (forall b :: 0 <= b < sb.size && !(sb.bmapstart <= b < sb.Nmeta())
                    && b in st.owner && !OfInode(st.owner[b], i) ==>
          st'.img.blocks[b] == st.img.blocks[b])
    && st'.img.inodes == st.img.inodes[i := st.img.inodes[i].(addrs := st'.img.inodes[i].addrs)]
    && st'.base == st.base && st.logged <= st'.logged
    && st'.mine == st.mine + FreedMap(sb, st, st')
  }

  lemma ShrunkTrans(sb: Superblock, i: nat, st: State, st1: State, st2: State)
    requires Shrunk(sb, i, st, st1) && Shrunk(sb, i, st1, st2)
    ensures Shrunk(sb, i, st, st2)
  {
    assert FreedMap(sb, st, st2) == FreedMap(sb, st, st1) + FreedMap(sb, st1, st2);
  }

  lemma ShrunkRefl(sb: Superblock, i: nat, st: State)
    requires Shape(sb, st.img) && i < sb.ninodes
    ensures Shrunk(sb, i, st, st)
  {
  }

  lemma OwnedPtr(sb: Superblock, m: Image, owner: map<nat, Slot>, dead: set<Slot>, s: Slot)
    requires Owned(sb, m, owner, dead) && Ptr(m, s) != 0 && s !in dead
    ensures Shape(sb, m) && ValidSlot(s, sb.ninodes)
    ensures sb.Nmeta() <= Ptr(m, s) < sb.size && Ptr(m, s) in owner && owner[Ptr(m, s)] == s
  {
  }

  // The state after bfree(b).
  function Freed(sb: Superblock, st: State, b: nat): State
    requires Shape(sb, st.img) && b < sb.size
  {
    var bb := sb.BBlock(b);
    State(Image(st.img.blocks[bb := PutBit(st.img.blocks[bb], b % BPB, false)], st.img.inodes),
          st.logged + {bb}, st.mine + {bb}, st.mine, st.owner - {b}, st.base)
  }

  lemma FreeStep(sb: Superblock, i: nat, st: State, dead: set<Slot>, s: Slot, but: set<nat>)
    requires Owned(sb, st.img, st.owner, dead) && Agrees(sb, st, but)
    requires Ptr(st.img, s) != 0 && s !in dead && OfInode(s, i)
    ensures Ptr(st.img, s) < sb.size && MapBit(sb, st.img.blocks, Ptr(st.img, s))
    ensures var st' := Freed(sb, st, Ptr(st.img, s));
            && Owned(sb, st'.img, st'.owner, dead + {s}) && Agrees(sb, st', but)
            && SamePointers(st.img, st'.img) && Shrunk(sb, i, st, st')
  {
    var b := Ptr(st.img, s);
    hide Owned, Ptr, PutBit, SamePointers;
    OwnedPtr(sb, st.img, st.owner, dead, s);
    Release(sb, st.img, Freed(sb, st, b).img, st.owner, dead, s);
  }

  // addrs[k] = 0
  function RootCleared(st: State, i: nat, k: nat): State
    requires i < |st.img.inodes| && k < 13
  {
    st.(img := st.img.(inodes := st.img.inodes[i := st.img.inodes[i].(addrs := st.img.inodes[i].addrs[k := 0])]))
  }

  lemma ClearRootStep(sb: Superblock, i: nat, k: nat, st: State, dead: set<Slot>)
    requires Owned(sb, st.img, st.owner, dead) && i < sb.ninodes && k < 13
    requires forall s :: Below(s, RootSlot(i, k)) && Ptr(st.img, s) != 0 ==> s in dead
    ensures Shape(sb, st.img)
    ensures var st' := RootCleared(st, i, k);
            && Owned(sb, st'.img, st'.owner, dead) && Shrunk(sb, i, st, st')
            && forall s :: Ptr(st'.img, s) == if Below(s, RootSlot(i, k)) then 0 else Ptr(st.img, s)
  {
    ClearRoot(sb, st.img, RootCleared(st, i, k).img, st.owner, dead, i, k);
  }

  // d[k] = 0, in the cached double-indirect block only
  function EntryClearedState(st: State, a: nat, k: nat): State
    requires a < |st.img.blocks| && k < NINDIRECT
  {
    st.(img := st.img.(blocks := st.img.blocks[a := PutWord(st.img.blocks[a], k, 0)]))
  }

  lemma ClearEntryStep(sb: Superblock, i: nat, k: nat, st: State, dead: set<Slot>, but: set<nat>)
    requires Owned(sb, st.img, st.owner, dead) && i < sb.ninodes && k < NINDIRECT && Agrees(sb, st, but)
    requires Ptr(st.img, DInd(i)) != 0 && DInd(i) !in dead && Ptr(st.img, DInd(i)) in but
    requires forall s :: Below(s, Leaf(i, k)) && Ptr(st.img, s) != 0 ==> s in dead
    ensures Shape(sb, st.img) && Ptr(st.img, DInd(i)) < sb.size
    ensures var st' := EntryClearedState(st, Ptr(st.img, DInd(i)), k);
            && Owned(sb, st'.img, st'.owner, dead) && Shrunk(sb, i, st, st') && Agrees(sb, st', but)
            && forall s :: Ptr(st'.img, s) == if Below(s, Leaf(i, k)) then 0 else Ptr(st.img, s)
  {
    var a := Ptr(st.img, DInd(i));
    hide Owned, Ptr, PutWord;
    OwnedPtr(sb, st.img, st.owner, dead, DInd(i));
    ClearEntry(sb, st.img, EntryClearedState(st, a, k).img, st.owner, dead, i, k);
  }

  // ---- the other files ----

  lemma ChildSame(m: Image, m': Image, p: Slot, k: nat)
    requires IsIndex(p) && ValidSlot(p, |m.inodes|) && k < NINDIRECT
    requires |m'.inodes| == |m.inodes| && |m'.blocks| == |m.blocks|
    requires Ptr(m', p) == Ptr(m, p) && (0 < Ptr(m, p) < |m.blocks| ==> m'.blocks[Ptr(m, p)] == m.blocks[Ptr(m, p)])
    ensures Ptr(m', Child(p, k)) == Ptr(m, Child(p, k))
  {
    hide WordAt;
    ChildPtr(m, p, k);
    ChildPtr(m', p, k);
  }

  lemma OthersChild(sb: Superblock, i: nat, st: State, st': State, p: Slot, k: nat)
    requires Owned(sb, st.img, st.owner, {}) && Shrunk(sb, i, st, st') && !OfInode(p, i)
    requires IsIndex(p) && ValidSlot(p, sb.ninodes) && k < NINDIRECT && Ptr(st'.img, p) == Ptr(st.img, p)
    ensures Ptr(st'.img, Child(p, k)) == Ptr(st.img, Child(p, k))
  {
    hide Owned, Ptr;
    if Ptr(st.img, p) != 0 {
      OwnedPtr(sb, st.img, st.owner, {}, p);
    }
    ChildSame(st.img, st'.img, p, k);
  }

  lemma OthersPtr(sb: Superblock, i: nat, st: State, st': State, s: Slot)
    requires Owned(sb, st.img, st.owner, {}) && Shrunk(sb, i, st, st') && !OfInode(s, i)
    ensures Ptr(st'.img, s) == Ptr(st.img, s)
  {
    hide Owned, Through;
    if ValidSlot(s, sb.ninodes) {
      match s
      case IndData(j, k) => OthersChild(sb, i, st, st', Ind(j), k);
      case Leaf(j, k) => OthersChild(sb, i, st, st', DInd(j), k);
      case LeafData(j, k, l) =>
        OthersChild(sb, i, st, st', DInd(j), k);
        OthersChild(sb, i, st, st', Leaf(j, k), l);
      case _ =>
    }
  }

  lemma OthersByte(sb: Superblock, i: nat, st: State, st': State, j: nat, k: nat)
    requires Owned(sb, st.img, st.owner, {}) && Shrunk(sb, i, st, st')
    requires j != i && Ptr(st.img, DataSlot(j, k / BSIZE)) != 0
    ensures ByteAt(st'.img, j, k) == ByteAt(st.img, j, k)
  {
    hide Owned, Ptr;
    OthersPtr(sb, i, st, st', DataSlot(j, k / BSIZE));
    OwnedPtr(sb, st.img, st.owner, {}, DataSlot(j, k / BSIZE));
  }

  lemma OthersGood(sb: Superblock, i: nat, st: State, st': State, j: nat)
    requires Good(sb, st, {}) && Shrunk(sb, i, st, st') && j != i && j < sb.ninodes
    ensures Synced(sb, st', j) && NoHoles(st'.img, j) && Content(st'.img, j) == Content(st.img, j)
  {
    hide Owned, Ptr, ByteAt, Agrees;
    GoodFacts(sb, st, j);
    assert st.owner.Keys == st.owner.Keys;
    forall bn | 0 <= bn < BlocksFor(st.img.inodes[j].size)
      ensures Ptr(st'.img, DataSlot(j, bn)) != 0
    {
      OthersPtr(sb, i, st, st', DataSlot(j, bn));
    }
    forall k | 0 <= k < st.img.inodes[j].size
      ensures ByteAt(st'.img, j, k) == ByteAt(st.img, j, k)
    {
      OthersByte(sb, i, st, st', j, k);
    }
    assert st'.img.inodes[j] == st.img.inodes[j];
    assert sb.IBlock(j) in st.owner && st.owner[sb.IBlock(j)] == Meta by { MetaBlock(sb, st, sb.IBlock(j)); }
  }

  lemma MetaBlock(sb: Superblock, st: State, b: nat)
    requires Ready(sb, st) && b < sb.Nmeta()
    ensures b in st.owner && st.owner[b] == Meta
  {
  }

  // ---- the end ----

  // A whole itrunc took st to st': inode i is empty, exactly its tree was given back, the other files
  // are as before, and exactly the free-map blocks of that tree and the inode's block were logged.
  ghost predicate Truncated(sb: Superblock, i: nat, st: State, st': State) {
    && Good(sb, st', {}) && Shape(sb, st.img) && Shape(sb, st'.img) && i < sb.ninodes
    && st'.img.inodes[i] == st.img.inodes[i].(size := 0, addrs := NoAddrs())
    && (forall b :: b in st'.owner <==> b in st.owner && !OfInode(st.owner[b], i))
    && (forall b :: b in st'.owner ==> st'.owner[b] == st.owner[b])
    && (forall j :: 0 <= j < sb.ninodes && j != i ==>
          st'.img.inodes[j] == st.img.inodes[j] && Content(st'.img, j) == Content(st.img, j))
    && st'.mine == st.mine + FreedMap(sb, st, st') + {sb.IBlock(i)}
    && st.logged <= st'.logged && st'.base == st.base
  }

  lemma TruncatedNoted(sb: Superblock, i: nat, st: State, st': State)
    requires Truncated(sb, i, st, st')
    ensures sb.IBlock(i) in st'.mine && st'.mine == st.mine + FreedMap(sb, st, st') + {sb.IBlock(i)}
  {
  }

  lemma ShrunkNoted(sb: Superblock, i: nat, st: State, st1: State, st2: State)
    requires Shrunk(sb, i, st, st1) && st2.owner == st1.owner
    ensures st1.mine == st.mine + FreedMap(sb, st, st2)
  {
  }

  lemma EmptyTree(m: Image, i: nat, s: Slot)
    requires i < |m.inodes| && m.inodes[i].addrs == NoAddrs() && OfInode(s, i)
    ensures Ptr(m, s) == 0
  {
  }

  // When the tree is empty all is in order but inode i on disk.
  lemma TruncReady(sb: Superblock, i: nat, st0: State, st: State, but: set<nat>)
    requires Good(sb, st0, {}) && Shrunk(sb, i, st0, st) && Owned(sb, st.img, st.owner, {}) && Agrees(sb, st, but)
    requires st.img.inodes[i].addrs == NoAddrs()
    requires forall b :: b in but ==> b in st0.owner && OfInode(st0.owner[b], i)
    ensures Good(sb, st, {i})
  {
    hide Ptr, ByteAt, Content, NoHoles, Owned, Synced;
    AllReturned(sb, i, st);
    GoodFacts(sb, st0, i);
    forall j | 0 <= j < |st.img.inodes| && j != i
      ensures Synced(sb, st, j) && NoHoles(st.img, j) && FreeIsEmpty(st.img.inodes[j])
    {
      GoodFacts(sb, st0, j);
      OthersGood(sb, i, st0, st, j);
    }
    assert FreeIsEmpty(st.img.inodes[i]);
  }

  lemma TruncFinish(sb: Superblock, i: nat, st0: State, st: State, but: set<nat>)
    requires Good(sb, st0, {}) && Shrunk(sb, i, st0, st) && Owned(sb, st.img, st.owner, {}) && Agrees(sb, st, but)
    requires st.img.inodes[i].addrs == NoAddrs()
    requires forall b :: b in but ==> b in st0.owner && OfInode(st0.owner[b], i)
    ensures var st' := Iupdated(sb, st.(img := st.img.(inodes := st.img.inodes[i := st.img.inodes[i].(size := 0)])), i);
            Truncated(sb, i, st0, st')
  {
    hide Ptr, ByteAt, Content, NoHoles, PutDinode, Owned, Good, Agrees, Ready, Synced;
    var ino := st.img.inodes[i].(size := 0);
    AllReturned(sb, i, st);
    TruncReady(sb, i, st0, st, but);
    SettleInode(sb, st, i, ino);
    var st' := Iupdated(sb, st.(img := st.img.(inodes := st.img.inodes[i := ino])), i);
    forall j | 0 <= j < sb.ninodes && j != i
      ensures Content(st'.img, j) == Content(st0.img, j)
    {
      OthersGood(sb, i, st0, st, j);
      SameContent(st.img, st'.img, j);
    }
  }

  lemma AllReturned(sb: Superblock, i: nat, st: State)
    requires Owned(sb, st.img, st.owner, {}) && i < sb.ninodes && st.img.inodes[i].addrs == NoAddrs()
    ensures forall b :: b in st.owner ==> !OfInode(st.owner[b], i)
  {
    forall b | b in st.owner
      ensures !OfInode(st.owner[b], i)
    {
      if OfInode(st.owner[b], i) {
        EmptyTree(st.img, i, st.owner[b]);
      }
    }
  }

  // ---- stages of itrunc ----

  // Between stages: no dangling pointer, and what happened so far only shrank inode i.
  ghost predicate Truncating(sb: Superblock, i: nat, st0: State, st: State, but: set<nat>) {
    Owned(sb, st.img, st.owner, {}) && Agrees(sb, st, but) && Shrunk(sb, i, st0, st)
  }

  lemma SamePointersTrans(m: Image, m1: Image, m2: Image)
    requires SamePointers(m, m1) && SamePointers(m1, m2)
    ensures SamePointers(m, m2)
  {
  }

  // The whole subtree of addrs[k] is dead, so the root pointer may go.
  lemma RootGone(sb: Superblock, i: nat, k: nat, st0: State, st: State, dead: set<Slot>, but: set<nat>)
    requires Owned(sb, st.img, st.owner, dead) && Agrees(sb, st, but) && Shrunk(sb, i, st0, st) && k < 13
    requires forall s :: Below(s, RootSlot(i, k)) && Ptr(st.img, s) != 0 ==> s in dead
    requires forall s :: s in dead ==> Below(s, RootSlot(i, k))
    ensures Truncating(sb, i, st0, RootCleared(st, i, k), but)
    ensures forall s :: Ptr(RootCleared(st, i, k).img, s) == if Below(s, RootSlot(i, k)) then 0 else Ptr(st.img, s)
  {
    hide Owned, Ptr, Below, Shrunk;
    assert Shrunk(sb, i, st0, st);
    ShrunkIndex(sb, i, st0, st);
    ClearRootStep(sb, i, k, st, dead);
    var st' := RootCleared(st, i, k);
    Bury(sb, st'.img, st'.owner, dead);
    ShrunkTrans(sb, i, st0, st, st');
  }

  lemma ShrunkIndex(sb: Superblock, i: nat, st: State, st': State)
    requires Shrunk(sb, i, st, st')
    ensures Shape(sb, st.img) && Shape(sb, st'.img) && i < sb.ninodes
  {
  }

  // The subtree of entry k of the double-indirect block is dead, so the entry may go.
  lemma EntryGone(sb: Superblock, i: nat, k: nat, st0: State, st: State, dead: set<Slot>, but: set<nat>)
    requires Owned(sb, st.img, st.owner, dead) && Agrees(sb, st, but) && Shrunk(sb, i, st0, st) && k < NINDIRECT
    requires Ptr(st.img, DInd(i)) != 0 && Ptr(st.img, DInd(i)) in but
    requires forall s :: Below(s, Leaf(i, k)) && Ptr(st.img, s) != 0 ==> s in dead
    requires forall s :: s in dead ==> Below(s, Leaf(i, k))
    ensures Shape(sb, st.img) && Ptr(st.img, DInd(i)) < sb.size
    ensures var st' := EntryClearedState(st, Ptr(st.img, DInd(i)), k);
            && Truncating(sb, i, st0, st', but)
            && forall s :: Ptr(st'.img, s) == if Below(s, Leaf(i, k)) then 0 else Ptr(st.img, s)
  {
    assert DInd(i) !in dead;
    hide Owned, Ptr, Below, Shrunk;
    ShrunkIndex(sb, i, st0, st);
    ClearEntryStep(sb, i, k, st, dead, but);
    var st' := EntryClearedState(st, Ptr(st.img, DInd(i)), k);
    Bury(sb, st'.img, st'.owner, dead);
    ShrunkTrans(sb, i, st0, st, st');
  }

  // ---- reading pointers in the middle of a stage ----

  lemma ChildNotIn(dead: set<Slot>, p: Slot, j: nat)
    requires IsIndex(p)
    requires forall s :: s in dead ==> exists k :: 0 <= k < j && s == Child(p, k)
    ensures Child(p, j) !in dead && p !in dead
  {
  }

  lemma ChildPtrWord(sb: Superblock, m: Image, p: Slot, j: nat)
    requires Shape(sb, m) && IsIndex(p) && ValidSlot(p, sb.ninodes) && 0 < Ptr(m, p) < sb.size && j < NINDIRECT
    ensures Ptr(m, Child(p, j)) == WordAt(m.blocks[Ptr(m, p)], j)
  {
    hide WordAt;
    ChildPtr(m, p, j);
  }

  lemma SubtreeDead(m0: Image, m: Image, p: Slot, dead: set<Slot>)
    requires (p.Ind? || p.Leaf?) && SamePointers(m0, m) && p in dead
    requires forall k :: 0 <= k < NINDIRECT && Ptr(m0, Child(p, k)) != 0 ==> Child(p, k) in dead
    requires forall s :: s in dead ==> s == p || exists k :: 0 <= k < NINDIRECT && s == Child(p, k)
    ensures forall s :: Below(s, p) && Ptr(m, s) != 0 ==> s in dead
    ensures forall s :: s in dead ==> Below(s, p)
  {
    hide Through;
    forall s | Below(s, p) && Ptr(m, s) != 0
      ensures s in dead
    {
      if s != p {
        var k := if s.IndData? then s.k else s.j;
        assert s == Child(p, k) && k < NINDIRECT && Ptr(m0, s) != 0;
      }
    }
  }

  lemma TruncStart(sb: Superblock, i: nat, st: State)
    requires Good(sb, st, {}) && i < sb.ninodes
    ensures Truncating(sb, i, st, st, {})
  {
    GoodFacts(sb, st, i);
    ShrunkRefl(sb, i, st);
    hide Owned, Shrunk;
  }

  lemma TruncatingFacts(sb: Superblock, i: nat, st0: State, st: State, but: set<nat>)
    requires Truncating(sb, i, st0, st, but)
    ensures Owned(sb, st.img, st.owner, {}) && Agrees(sb, st, but) && Shrunk(sb, i, st0, st)
    ensures Shape(sb, st.img) && i < sb.ninodes
  {
    hide Owned;
  }

  lemma RootPtr(m: Image, i: nat, k: nat)
    requires i < |m.inodes| && k < 13
    ensures Ptr(m, RootSlot(i, k)) == m.inodes[i].addrs[k]
  {
  }

  lemma BelowLeaf(r: Slot)
    requires !IsIndex(r)
    ensures forall s :: Below(s, r) <==> s == r
  {
  }

  // Entry k is gone and the earlier ones stay gone.
  lemma LeavesGone(m: Image, m1: Image, m2: Image, i: nat, k: nat)
    requires SamePointers(m, m1)
    requires forall c :: 0 <= c < k ==> Ptr(m, Leaf(i, c)) == 0
    requires forall s :: Ptr(m2, s) == if Below(s, Leaf(i, k)) then 0 else Ptr(m1, s)
    ensures forall c :: 0 <= c < k + 1 ==> Ptr(m2, Leaf(i, c)) == 0
  {
    hide Ptr;
  }

  // With every entry of the double-indirect block gone, only the block itself is left.
  lemma NothingBelow(m: Image, m': Image, i: nat)
    requires SamePointers(m, m')
    requires forall c :: 0 <= c < NINDIRECT ==> Ptr(m, Leaf(i, c)) == 0
    ensures forall s :: Below(s, DInd(i)) && Ptr(m', s) != 0 ==> s == DInd(i)
    ensures Below(DInd(i), DInd(i))
  {
    forall s | Below(s, DInd(i)) && s != DInd(i)
      ensures Ptr(m', s) == 0
    {
      assert Ptr(m, s) == Ptr(m', s);
      assert s.k < NINDIRECT ==> Ptr(m, Leaf(i, s.k)) == 0;
    }
  }

  // The double-indirect block about to be freed belonged to i from the start, and may disagree with
  // its committed copy from here on.
  lemma DoubleBlock(sb: Superblock, i: nat, st0: State, st: State)
    requires Truncating(sb, i, st0, st, {}) && i < |st.img.inodes| && st.img.inodes[i].addrs[NDIRECT + 1] != 0
    ensures var a := st.img.inodes[i].addrs[NDIRECT + 1];
            && Truncating(sb, i, st0, st, {a}) && a in st0.owner && OfInode(st0.owner[a], i)
  {
    hide Owned;
    RootPtr(st.img, i, NDIRECT + 1);
    OwnedPtr(sb, st.img, st.owner, {}, DInd(i));
  }

  // ---- freeing an inode ----

  function WithType(st: State, i: nat, typ: Half): State
    requires i < |st.img.inodes|
  {
    st.(img := st.img.(inodes := st.img.inodes[i := st.img.inodes[i].(typ := typ)]))
  }

  // iput after itrunc: type zero, written back.
  lemma InodeFreed(sb: Superblock, i: nat, st0: State, st: State)
    requires Truncated(sb, i, st0, st)
    ensures Shape(sb, st.img) && Shape(sb, st0.img) && i < sb.ninodes
    ensures var st' := Iupdated(sb, st.(img := st.img.(inodes := st.img.inodes[i := st.img.inodes[i].(typ := 0)])), i);
            Good(sb, st', {}) && Truncated(sb, i, WithType(st0, i, 0), st') && |st'.img.inodes| == |st0.img.inodes|
  {
    hide Ready, Ptr, ByteAt, NoHoles, OnDisk, Content, PutDinode;
    var ino := st.img.inodes[i].(typ := 0);
    assert Good(sb, st, {i});
    SettleInode(sb, st, i, ino);
    var st' := Iupdated(sb, st.(img := st.img.(inodes := st.img.inodes[i := ino])), i);
    forall j | 0 <= j < sb.ninodes && j != i
      ensures Content(st'.img, j) == Content(WithType(st0, i, 0).img, j)
    {
      SameContent(st.img, st'.img, j);
      TypeDoesNotMatter(st0, i, j);
    }
  }

  lemma TypeDoesNotMatter(st: State, i: nat, j: nat)
    requires i < |st.img.inodes| && j < |st.img.inodes|
    ensures Content(WithType(st, i, 0).img, j) == Content(st.img, j)
  {
    hide WordAt;
    var m, m' := st.img, WithType(st, i, 0).img;
    forall s
      ensures Ptr(m', s) == Ptr(m, s)
    {
    }
  }
}
