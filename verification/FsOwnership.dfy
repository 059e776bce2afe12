/** Block ownership: every allocated block is a metadata block or is named by exactly one slot of
    exactly one inode's tree, and the bitmap says so (kernel/fs.c:57-95, 371-508). */
module FsOwnership {
  import opened Blocks
  import opened FsLayout

  // The free-map bit of block b.
  predicate MapBit(sb: Superblock, blocks: seq<Block>, b: nat)
    requires sb.Valid() && |blocks| == sb.size && b < sb.size
  {
    BitAt(blocks[sb.BBlock(b)], b % BPB)
  }

  predicate Shape(sb: Superblock, m: Image) {
    sb.Valid() && |m.blocks| == sb.size && |m.inodes| == sb.ninodes
  }

  ghost predicate InRange(sb: Superblock, m: Image) {
    forall s :: Ptr(m, s) != 0 ==> sb.Nmeta() <= Ptr(m, s) < sb.size
  }

  // Each pointer leads to a block owned by that very slot, or is dead and leads to a free block.
  ghost predicate Linked(m: Image, owner: map<nat, Slot>, dead: set<Slot>) {
    forall s :: Ptr(m, s) != 0 ==>
      if s in dead then Ptr(m, s) !in owner else Ptr(m, s) in owner && owner[Ptr(m, s)] == s
  }

  // Each owned block is metadata or is named by its owner.
  ghost predicate Pointed(sb: Superblock, m: Image, owner: map<nat, Slot>, dead: set<Slot>) {
    forall b :: b in owner ==>
      if b < sb.Nmeta() then owner[b] == Meta
      else b < sb.size && owner[b] !in dead && Ptr(m, owner[b]) == b
  }

  ghost predicate MetaOwned(sb: Superblock, owner: map<nat, Slot>) {
    forall b :: 0 <= b < sb.Nmeta() ==> b in owner
  }

  ghost predicate BitmapExact(sb: Superblock, blocks: seq<Block>, owner: map<nat, Slot>)
    requires sb.Valid() && |blocks| == sb.size
  {
    forall b :: 0 <= b < sb.size ==> (MapBit(sb, blocks, b) <==> b in owner)
  }

  // The trees and the owner map agree. `dead` holds slots whose block itrunc has freed already.
  ghost predicate Trees(sb: Superblock, m: Image, owner: map<nat, Slot>, dead: set<Slot>) {
    Shape(sb, m) && InRange(sb, m) && Linked(m, owner, dead) && Pointed(sb, m, owner, dead) && MetaOwned(sb, owner)
  }

  ghost predicate Owned(sb: Superblock, m: Image, owner: map<nat, Slot>, dead: set<Slot>) {
    Trees(sb, m, owner, dead) && BitmapExact(sb, m.blocks, owner)
  }

  // What Owned means without naming the owner map: distinct slots never share a block, and the set
  // bits are exactly the metadata blocks and the targets of the slots.
  lemma OwnershipConserved(sb: Superblock, m: Image, owner: map<nat, Slot>)
    requires Owned(sb, m, owner, {})
    ensures forall s, s' :: Ptr(m, s) != 0 && Ptr(m, s) == Ptr(m, s') ==> s == s'
    ensures forall s :: Ptr(m, s) != 0 ==> sb.Nmeta() <= Ptr(m, s) < sb.size && MapBit(sb, m.blocks, Ptr(m, s))
    ensures forall b :: 0 <= b < sb.size ==>
              (MapBit(sb, m.blocks, b) <==> b < sb.Nmeta() || exists s :: ValidSlot(s, sb.ninodes) && Ptr(m, s) == b)
  {
    forall b | 0 <= b < sb.size
      ensures MapBit(sb, m.blocks, b) <==> b < sb.Nmeta() || exists s :: ValidSlot(s, sb.ninodes) && Ptr(m, s) == b
    {
      if b in owner && b >= sb.Nmeta() {
        assert ValidSlot(owner[b], sb.ninodes) && Ptr(m, owner[b]) == b;
      }
    }
  }

  // ---- what the pointers depend on ----

  ghost predicate SamePointers(m: Image, m': Image) {
    forall s :: Ptr(m', s) == Ptr(m, s)
  }

  lemma PtrFrame(m: Image, m': Image)
    requires m'.inodes == m.inodes && |m'.blocks| == |m.blocks|
    requires forall s :: IsIndex(s) && 0 < Ptr(m, s) < |m.blocks| ==> m'.blocks[Ptr(m, s)] == m.blocks[Ptr(m, s)]
    ensures SamePointers(m, m')
  {
    forall s
      ensures Ptr(m', s) == Ptr(m, s)
    {
      match s
      case IndData(i, k) => var p := Ptr(m, Ind(i));
      case Leaf(i, k) => var p := Ptr(m, DInd(i));
      case LeafData(i, k, j) =>
        var p := Ptr(m, DInd(i));
        var q := Ptr(m, Leaf(i, k));
      case _ =>
    }
  }

  // Changing only metadata and unowned blocks moves no pointer.
  lemma PtrFrameOwned(sb: Superblock, m: Image, m': Image, owner: map<nat, Slot>)
    requires Trees(sb, m, owner, {})
    requires m'.inodes == m.inodes && |m'.blocks| == |m.blocks|
    requires forall b :: b in owner && sb.Nmeta() <= b ==> m'.blocks[b] == m.blocks[b]
    ensures SamePointers(m, m')
  {
    PtrFrame(m, m');
  }

  // ---- giving a block to a slot ----

  // A fresh block b was marked in the map, zeroed and stored in slot s, and nothing else moved.
  lemma Attach(sb: Superblock, m: Image, m': Image, owner: map<nat, Slot>, s: Slot, b: nat)
    requires Trees(sb, m, owner, {}) && Shape(sb, m')
    requires b !in owner && sb.Nmeta() <= b < sb.size
    requires Ptr(m, s) == 0 && Ptr(m', s) == b
    requires forall s' :: s' != s ==> Ptr(m', s') == Ptr(m, s')
    ensures Trees(sb, m', owner[b := s], {})
  {
  }

  lemma SetMapBit(sb: Superblock, blocks: seq<Block>, blocks': seq<Block>, owner: map<nat, Slot>,
                  owner': map<nat, Slot>, b: nat, v: bool)
    requires sb.Valid() && |blocks| == |blocks'| == sb.size && b < sb.size
    requires BitmapExact(sb, blocks, owner)
    requires forall c :: 0 <= c < sb.size ==> (c in owner' <==> if c == b then v else c in owner)
    requires forall c :: sb.bmapstart <= c < sb.Nmeta() ==>
               blocks'[c] == if c == sb.BBlock(b) then PutBit(blocks[c], b % BPB, v) else blocks[c]
    ensures BitmapExact(sb, blocks', owner')
  {
    forall c | 0 <= c < sb.size
      ensures MapBit(sb, blocks', c) <==> c in owner'
    {
      assert sb.bmapstart <= sb.BBlock(c) < sb.Nmeta();
      PutBitAt(blocks[sb.BBlock(b)], b % BPB, v, c % BPB);
      assert MapBit(sb, blocks, c) <==> c in owner;
    }
  }

  function RootSlot(i: nat, k: nat): Slot {
    if k < NDIRECT then Direct(i, k) else if k == NDIRECT then Ind(i) else DInd(i)
  }

  // Storing block b in addrs[k] of inode i.
  ghost predicate RootStored(m: Image, m': Image, i: nat, k: nat, b: Word) {
    && i < |m.inodes| && k < 13
    && m'.blocks == m.blocks && 0 < b < |m.blocks| && m.blocks[b] == ZeroBlock()
    && m.inodes[i].addrs[k] == 0
    && m'.inodes == m.inodes[i := m.inodes[i].(addrs := m.inodes[i].addrs[k := b])]
  }

  lemma ZeroThrough(blocks: seq<Block>, b: Word, j: nat)
    requires 0 < b < |blocks| && blocks[b] == ZeroBlock() && j < NINDIRECT
    ensures Through(blocks, b, j) == 0
  {
    ZeroWordAt(j);
  }

  lemma RootStoredAt(m: Image, m': Image, i: nat, k: nat, b: Word, s: Slot)
    requires RootStored(m, m', i, k, b)
    ensures Ptr(m', s) == if s == RootSlot(i, k) then b else Ptr(m, s)
  {
    if ValidSlot(s, |m.inodes|) && s.ino == i && (s.IndData? || s.Leaf? || s.LeafData?) {
      ZeroThrough(m.blocks, b, s.k);
    }
  }

  // Storing block b in entry k of the index block of slot p.
  ghost predicate EntryStored(m: Image, m': Image, p: Slot, k: nat, b: Word) {
    && IsIndex(p) && 0 < Ptr(m, p) < |m.blocks| && k < NINDIRECT
    && 0 < b < |m.blocks| && b != Ptr(m, p) && m.blocks[b] == ZeroBlock()
    && Ptr(m, Child(p, k)) == 0
    && m'.inodes == m.inodes
    && m'.blocks == m.blocks[Ptr(m, p) := PutWord(m.blocks[Ptr(m, p)], k, b)]
  }

  // What one word of one block reads after the store.
  lemma EntryStoredWord(m: Image, m': Image, p: Slot, k: nat, b: Word, q: Word, j: nat)
    requires EntryStored(m, m', p, k, b) && j < NINDIRECT
    ensures Through(m'.blocks, q, j) == if q == Ptr(m, p) && j == k then b else Through(m.blocks, q, j)
  {
    PutWordAt(m.blocks[Ptr(m, p)], k, b, j);
  }

  lemma EntryStoredAt(sb: Superblock, m: Image, m': Image, owner: map<nat, Slot>, p: Slot, k: nat, b: Word, s: Slot)
    requires Trees(sb, m, owner, {}) && EntryStored(m, m', p, k, b)
    ensures Ptr(m', s) == if s == Child(p, k) then b else Ptr(m, s)
  {
    if ValidSlot(s, |m.inodes|) {
      match s
      case IndData(i, j) =>
        Unshared(m, owner, p, Ind(i));
        EntryStoredWord(m, m', p, k, b, Ptr(m, Ind(i)), j);
      case Leaf(i, j) =>
        Unshared(m, owner, p, DInd(i));
        EntryStoredWord(m, m', p, k, b, Ptr(m, DInd(i)), j);
      case LeafData(i, j, l) =>
        EntryStoredDeep(sb, m, m', owner, p, k, b, i, j, l);
      case _ =>
    }
  }

  lemma Unshared(m: Image, owner: map<nat, Slot>, p: Slot, q: Slot)
    requires Linked(m, owner, {}) && Ptr(m, p) != 0
    ensures Ptr(m, q) == Ptr(m, p) ==> q == p
  {
  }

  lemma EntryStoredDeep(sb: Superblock, m: Image, m': Image, owner: map<nat, Slot>, p: Slot, k: nat, b: Word,
                        i: nat, j: nat, l: nat)
    requires Trees(sb, m, owner, {}) && EntryStored(m, m', p, k, b) && ValidSlot(LeafData(i, j, l), |m.inodes|)
    ensures Ptr(m', LeafData(i, j, l)) == if LeafData(i, j, l) == Child(p, k) then b else Ptr(m, LeafData(i, j, l))
  {
    var d := Ptr(m, DInd(i));
    var q := Ptr(m, Leaf(i, j));
    Unshared(m, owner, p, DInd(i));
    Unshared(m, owner, p, Leaf(i, j));
    EntryStoredWord(m, m', p, k, b, d, j);
    if p == DInd(i) && j == k {
      EntryStoredWord(m, m', p, k, b, b, l);
      ZeroThrough(m.blocks, b, l);
    } else {
      EntryStoredWord(m, m', p, k, b, q, l);
    }
  }

  // One word of a pointer slot gains block b, in a tree that stays consistent.
  lemma AttachRoot(sb: Superblock, m: Image, m': Image, owner: map<nat, Slot>, i: nat, k: nat, b: Word)
    requires Trees(sb, m, owner, {}) && RootStored(m, m', i, k, b) && b !in owner && sb.Nmeta() <= b
    ensures Trees(sb, m', owner[b := RootSlot(i, k)], {})
    ensures forall s :: Ptr(m', s) == if s == RootSlot(i, k) then b else Ptr(m, s)
  {
    forall s
      ensures Ptr(m', s) == if s == RootSlot(i, k) then b else Ptr(m, s)
    {
      RootStoredAt(m, m', i, k, b, s);
    }
    Attach(sb, m, m', owner, RootSlot(i, k), b);
  }

  lemma AttachEntry(sb: Superblock, m: Image, m': Image, owner: map<nat, Slot>, p: Slot, k: nat, b: Word)
    requires Trees(sb, m, owner, {}) && EntryStored(m, m', p, k, b) && b !in owner && sb.Nmeta() <= b
    ensures Trees(sb, m', owner[b := Child(p, k)], {})
    ensures forall s :: Ptr(m', s) == if s == Child(p, k) then b else Ptr(m, s)
  {
    forall s
      ensures Ptr(m', s) == if s == Child(p, k) then b else Ptr(m, s)
    {
      EntryStoredAt(sb, m, m', owner, p, k, b, s);
    }
    Attach(sb, m, m', owner, Child(p, k), b);
  }

  // ---- taking blocks back ----

  // bfree of the block of slot s: the map bit is set before, and the slot joins the dead ones.
  lemma Release(sb: Superblock, m: Image, m': Image, owner: map<nat, Slot>, dead: set<Slot>, s: Slot)
    requires Owned(sb, m, owner, dead) && Ptr(m, s) != 0 && s !in dead
    requires m'.inodes == m.inodes
    requires var b := Ptr(m, s);
             m'.blocks == m.blocks[sb.BBlock(b) := PutBit(m.blocks[sb.BBlock(b)], b % BPB, false)]
    ensures MapBit(sb, m.blocks, Ptr(m, s))
    ensures Owned(sb, m', owner - {Ptr(m, s)}, dead + {s}) && SamePointers(m, m')
  {
    var b := Ptr(m, s);
    PtrFrame(m, m');
    SetMapBit(sb, m.blocks, m'.blocks, owner, owner - {b}, b, false);
  }

  // Pointers may only be cleared once their blocks are dead.
  ghost predicate Pruned(m: Image, m': Image, dead: set<Slot>) {
    forall s :: Ptr(m', s) == Ptr(m, s) || (Ptr(m', s) == 0 && s in dead)
  }

  lemma Prune(sb: Superblock, m: Image, m': Image, owner: map<nat, Slot>, dead: set<Slot>)
    requires Owned(sb, m, owner, dead) && Shape(sb, m') && Pruned(m, m', dead)
    requires forall b :: sb.bmapstart <= b < sb.Nmeta() ==> m'.blocks[b] == m.blocks[b]
    ensures Owned(sb, m', owner, dead)
  {
    forall b | 0 <= b < sb.size
      ensures MapBit(sb, m'.blocks, b) <==> b in owner
    {
      assert sb.bmapstart <= sb.BBlock(b) < sb.Nmeta();
      assert MapBit(sb, m.blocks, b) <==> b in owner;
    }
  }

  lemma Bury(sb: Superblock, m: Image, owner: map<nat, Slot>, dead: set<Slot>)
    requires Owned(sb, m, owner, dead) && forall s :: s in dead ==> Ptr(m, s) == 0
    ensures Owned(sb, m, owner, {})
  {
  }

  // Clearing addrs[k], once everything below it is dead.
  lemma ClearRoot(sb: Superblock, m: Image, m': Image, owner: map<nat, Slot>, dead: set<Slot>, i: nat, k: nat)
    requires Owned(sb, m, owner, dead)
    requires i < |m.inodes| && k < 13 && m'.blocks == m.blocks
    requires m'.inodes == m.inodes[i := m.inodes[i].(addrs := m.inodes[i].addrs[k := 0])]
    requires forall s :: Below(s, RootSlot(i, k)) && Ptr(m, s) != 0 ==> s in dead
    ensures forall s :: Ptr(m', s) == if Below(s, RootSlot(i, k)) then 0 else Ptr(m, s)
    ensures Owned(sb, m', owner, dead)
  {
    Prune(sb, m, m', owner, dead);
  }

  // s is r or lies in the subtree of r.
  predicate Below(s: Slot, r: Slot) {
    || s == r
    || (r.Ind? && s.IndData? && s.ino == r.ino)
    || (r.DInd? && (s.Leaf? || s.LeafData?) && s.ino == r.ino)
    || (r.Leaf? && s.LeafData? && s.ino == r.ino && s.k == r.k)
  }

  // Clearing entry k of the double-indirect block of inode i, once everything below it is dead.
  ghost predicate EntryCleared(m: Image, m': Image, i: nat, k: nat) {
    && i < |m.inodes| && k < NINDIRECT && 0 < Ptr(m, DInd(i)) < |m.blocks|
    && m'.inodes == m.inodes
    && m'.blocks == m.blocks[Ptr(m, DInd(i)) := PutWord(m.blocks[Ptr(m, DInd(i))], k, 0)]
  }

  lemma EntryClearedWord(m: Image, m': Image, i: nat, k: nat, q: Word, j: nat)
    requires EntryCleared(m, m', i, k) && j < NINDIRECT
    ensures Through(m'.blocks, q, j) == if q == Ptr(m, DInd(i)) && j == k then 0 else Through(m.blocks, q, j)
  {
    PutWordAt(m.blocks[Ptr(m, DInd(i))], k, 0, j);
  }

  lemma EntryClearedAt(sb: Superblock, m: Image, m': Image, owner: map<nat, Slot>, dead: set<Slot>, i: nat,
                       k: nat, s: Slot)
    requires Trees(sb, m, owner, dead) && DInd(i) !in dead && EntryCleared(m, m', i, k)
    ensures Ptr(m', s) == if Below(s, Leaf(i, k)) then 0 else Ptr(m, s)
  {
    if ValidSlot(s, |m.inodes|) {
      match s
      case IndData(i', j) => EntryClearedWord(m, m', i, k, Ptr(m, Ind(i')), j);
      case Leaf(i', j) => EntryClearedWord(m, m', i, k, Ptr(m, DInd(i')), j);
      case LeafData(i', j, l) =>
        EntryClearedWord(m, m', i, k, Ptr(m, DInd(i')), j);
        EntryClearedWord(m, m', i, k, Ptr(m, Leaf(i', j)), l);
      case _ =>
    }
  }

  lemma ClearEntry(sb: Superblock, m: Image, m': Image, owner: map<nat, Slot>, dead: set<Slot>, i: nat, k: nat)
    requires Owned(sb, m, owner, dead) && DInd(i) !in dead && EntryCleared(m, m', i, k)
    requires forall s :: Below(s, Leaf(i, k)) && Ptr(m, s) != 0 ==> s in dead
    ensures forall s :: Ptr(m', s) == if Below(s, Leaf(i, k)) then 0 else Ptr(m, s)
    ensures Owned(sb, m', owner, dead)
  {
    forall s
      ensures Ptr(m', s) == if Below(s, Leaf(i, k)) then 0 else Ptr(m, s)
    {
      EntryClearedAt(sb, m, m', owner, dead, i, k, s);
    }
    Prune(sb, m, m', owner, dead);
  }
}
