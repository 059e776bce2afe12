/** How many blocks one operation logs (kernel/file.c:126-132): the sizing argument behind
    MAXOPBLOCKS. */
module FsFootprint {
  import opened Blocks
  import opened Params
  import opened FsLayout
  import opened FsOwnership
  import opened FsState
  import opened FsWrite

  const WRITE_CHUNK: nat := 1536   // ((MAXOPBLOCKS-1-1-2) / 2) * 512

  // Free-map blocks of the blocks allocated between st0 and st.
  function MapBlocks(sb: Superblock, st0: State, st: State): set<nat> {
    set c | c in st.owner && c !in st0.owner :: sb.BBlock(c)
  }

  function DataSlots(i: nat, lo: nat, hi: nat): set<Slot> {
    set bn | lo <= bn < hi :: DataSlot(i, bn)
  }

  // The index slots on the way to blocks lo..hi, when there are at most four of them.
  function IndexSlots(i: nat, lo: nat, hi: nat): (S: set<Slot>)
    ensures |S| <= 3
  {
    if hi <= NDIRECT + NINDIRECT then {Ind(i)}
    else if lo < NDIRECT + NINDIRECT then {Ind(i), DInd(i), Leaf(i, 0)}
    else {DInd(i), Leaf(i, (lo - NDIRECT - NINDIRECT) / NINDIRECT), Leaf(i, (hi - 1 - NDIRECT - NINDIRECT) / NINDIRECT)}
  }

  function Targets(m: Image, S: set<Slot>): set<nat> {
    set s | s in S :: Ptr(m, s)
  }

  lemma PathInSlots(i: nat, lo: nat, hi: nat, bn: nat, s: Slot)
    requires lo <= bn < hi <= lo + 4 && hi <= MAXFILE && s in PathSlots(i, bn)
    ensures s in DataSlots(i, lo, hi) + IndexSlots(i, lo, hi)
  {
    assert DataSlot(i, bn) in DataSlots(i, lo, hi);
    if bn >= NDIRECT + NINDIRECT {
      var k := (bn - NDIRECT - NINDIRECT) / NINDIRECT;
      if lo >= NDIRECT + NINDIRECT {
        assert k == (lo - NDIRECT - NINDIRECT) / NINDIRECT || k == (hi - 1 - NDIRECT - NINDIRECT) / NINDIRECT;
      } else {
        assert k == 0;
      }
    }
  }

  // ---- which slots a write logs ----

  // The index slots above s that bmap logs when s gets a block.
  function AboveSlots(s: Slot): set<Slot> {
    match s
    case IndData(i, _) => {Ind(i)}
    case Leaf(i, _) => {DInd(i)}
    case LeafData(i, k, _) => {Leaf(i, k), DInd(i)}
    case _ => {}
  }

  // The slots on the way to blocks lo..hi that have no block yet.
  function Missing(m: Image, i: nat, lo: nat, hi: nat): set<Slot> {
    set s | s in WriteSlots(i, lo, hi) && Ptr(m, s) == 0
  }

  // The index blocks that are new or get a new entry, by their slots.
  function Opened(m: Image, i: nat, lo: nat, hi: nat): set<Slot> {
    set s, p | s in Missing(m, i, lo, hi) && p in {s} + AboveSlots(s) && IsIndex(p) :: p
  }

  // The blocks that gained an owner.
  function Fresh(st0: State, st: State): set<nat> {
    set c | c in st.owner && c !in st0.owner
  }

  // Facts about a write that the counting needs.
  ghost predicate Wrote(sb: Superblock, i: nat, st0: State, st: State, lo: nat, hi: nat) {
    && Ready(sb, st0) && Ready(sb, st) && hi <= MAXFILE && i < sb.ninodes
    && Keeps(st0.img, st.img) && NewIn(st0, st, WriteSlots(i, lo, hi))
    && (forall bn :: lo <= bn < hi ==> Ptr(st.img, DataSlot(i, bn)) != 0)
    && (forall b :: b in st0.owner ==> b in st.owner && st.owner[b] == st0.owner[b])
  }

  lemma PathIsMapped(m: Image, i: nat, bn: nat, s: Slot)
    requires i < |m.inodes| && bn < MAXFILE && Ptr(m, DataSlot(i, bn)) != 0 && s in PathSlots(i, bn)
    ensures Ptr(m, s) != 0 && (IsIndex(s) || s == DataSlot(i, bn))
  {
  }

  lemma WriteSlotMapped(sb: Superblock, i: nat, st0: State, st: State, lo: nat, hi: nat, s: Slot)
    requires Wrote(sb, i, st0, st, lo, hi) && s in WriteSlots(i, lo, hi)
    ensures Ptr(st.img, s) != 0 && (IsIndex(s) || s in DataSlots(i, lo, hi))
    ensures Ptr(st.img, s) in st.owner && st.owner[Ptr(st.img, s)] == s
  {
    var bn :| lo <= bn < hi && s in PathSlots(i, bn);
    ReadyFacts(sb, st, s);
    PathIsMapped(st.img, i, bn, s);
  }

  // The new blocks are the targets of the missing slots.
  lemma FreshIsMissing(sb: Superblock, i: nat, st0: State, st: State, lo: nat, hi: nat)
    requires Wrote(sb, i, st0, st, lo, hi)
    ensures Fresh(st0, st) == Targets(st.img, Missing(st0.img, i, lo, hi))
    ensures forall c :: c in Fresh(st0, st) ==>
      st.owner[c] in Missing(st0.img, i, lo, hi) && Ptr(st.img, st.owner[c]) == c
  {
    hide Ptr, WriteSlots, BitmapExact;
    forall c | c in Fresh(st0, st)
      ensures st.owner[c] in Missing(st0.img, i, lo, hi) && Ptr(st.img, st.owner[c]) == c
    {
      assert c >= sb.Nmeta();
    }
    forall s | s in Missing(st0.img, i, lo, hi)
      ensures Ptr(st.img, s) in Fresh(st0, st)
    {
      WriteSlotMapped(sb, i, st0, st, lo, hi, s);
    }
  }

  lemma AboveTargets(m: Image, s: Slot)
    ensures Above(m, s) == Targets(m, AboveSlots(s))
  {
    hide Ptr;
  }

  lemma OpenedBy(m: Image, i: nat, lo: nat, hi: nat, s: Slot, p: Slot)
    requires s in Missing(m, i, lo, hi) && p in {s} + AboveSlots(s) && IsIndex(p)
    ensures p in Opened(m, i, lo, hi)
  {
    hide Missing, AboveSlots;
  }

  lemma MissingSlots(sb: Superblock, i: nat, st0: State, st: State, lo: nat, hi: nat, s: Slot)
    requires Wrote(sb, i, st0, st, lo, hi) && s in Missing(st0.img, i, lo, hi)
    ensures s in DataSlots(i, lo, hi) + Opened(st0.img, i, lo, hi) && AboveSlots(s) <= Opened(st0.img, i, lo, hi)
    ensures Ptr(st.img, s) in st.owner && st.owner[Ptr(st.img, s)] == s
  {
    hide Ptr, WriteSlots, DataSlots, Opened, Wrote;
    WriteSlotMapped(sb, i, st0, st, lo, hi, s);
    forall p | p in {s} + AboveSlots(s) && IsIndex(p)
      ensures p in Opened(st0.img, i, lo, hi)
    {
      OpenedBy(st0.img, i, lo, hi, s, p);
    }
  }

  // What one new block costs is among the targets of the slots counted.
  lemma CostCounted(sb: Superblock, i: nat, st0: State, st: State, lo: nat, hi: nat, c: nat)
    requires Wrote(sb, i, st0, st, lo, hi) && c in Fresh(st0, st)
    ensures Costs(sb, st.img, st.owner[c], c) <=
      Targets(st.img, DataSlots(i, lo, hi) + Opened(st0.img, i, lo, hi)) + MapBlocks(sb, st0, st)
  {
    FreshIsMissing(sb, i, st0, st, lo, hi);
    hide Wrote, Missing, Ptr, DataSlots, Opened, Above;
    MissingSlots(sb, i, st0, st, lo, hi, st.owner[c]);
    AboveTargets(st.img, st.owner[c]);
  }

  lemma LinksIn(sb: Superblock, i: nat, st0: State, st: State, lo: nat, hi: nat)
    requires Wrote(sb, i, st0, st, lo, hi)
    ensures NewLinks(sb, st0, st) <=
      Targets(st.img, DataSlots(i, lo, hi) + Opened(st0.img, i, lo, hi)) + MapBlocks(sb, st0, st)
  {
    hide Wrote, Ptr, DataSlots, Opened, Costs, Targets, MapBlocks;
    forall b | b in NewLinks(sb, st0, st)
      ensures b in Targets(st.img, DataSlots(i, lo, hi) + Opened(st0.img, i, lo, hi)) + MapBlocks(sb, st0, st)
    {
      var c :| c in st.owner && c !in st0.owner && b in Costs(sb, st.img, st.owner[c], c);
      CostCounted(sb, i, st0, st, lo, hi, c);
    }
  }

  lemma LinksOut(sb: Superblock, i: nat, st0: State, st: State, lo: nat, hi: nat)
    requires Wrote(sb, i, st0, st, lo, hi)
    ensures Targets(st.img, Opened(st0.img, i, lo, hi)) + MapBlocks(sb, st0, st) <= NewLinks(sb, st0, st)
  {
    hide Wrote, Missing, Ptr, Opened, Costs;
    FreshIsMissing(sb, i, st0, st, lo, hi);
    forall s | s in Missing(st0.img, i, lo, hi)
      ensures Ptr(st.img, s) in st.owner && st.owner[Ptr(st.img, s)] == s
    {
      MissingSlots(sb, i, st0, st, lo, hi, s);
    }
    forall p | p in Opened(st0.img, i, lo, hi)
      ensures Ptr(st.img, p) in NewLinks(sb, st0, st)
    {
      OpenedIsLinked(sb, i, st0, st, lo, hi, p);
    }
    forall c | c in st.owner && c !in st0.owner
      ensures sb.BBlock(c) in NewLinks(sb, st0, st)
    {
      MapIsCost(sb, st.img, st.owner[c], c);
    }
  }

  // What the new blocks cost, by slots.
  lemma LinksBySlot(sb: Superblock, i: nat, st0: State, st: State, lo: nat, hi: nat)
    requires Wrote(sb, i, st0, st, lo, hi)
    ensures Targets(st.img, DataSlots(i, lo, hi)) + NewLinks(sb, st0, st)
         == Targets(st.img, DataSlots(i, lo, hi) + Opened(st0.img, i, lo, hi)) + MapBlocks(sb, st0, st)
  {
    hide Wrote, Ptr, DataSlots, Opened, NewLinks, MapBlocks;
    LinksIn(sb, i, st0, st, lo, hi);
    LinksOut(sb, i, st0, st, lo, hi);
    var D, X := DataSlots(i, lo, hi), Opened(st0.img, i, lo, hi);
    assert Targets(st.img, D + X) == Targets(st.img, D) + Targets(st.img, X);
  }

  lemma MapIsCost(sb: Superblock, m: Image, s: Slot, c: nat)
    ensures sb.BBlock(c) in Costs(sb, m, s, c)
  {
  }

  lemma OpenedIsLinked(sb: Superblock, i: nat, st0: State, st: State, lo: nat, hi: nat, p: Slot)
    requires Fresh(st0, st) == Targets(st.img, Missing(st0.img, i, lo, hi)) && p in Opened(st0.img, i, lo, hi)
    requires forall s :: s in Missing(st0.img, i, lo, hi) ==>
      Ptr(st.img, s) in st.owner && st.owner[Ptr(st.img, s)] == s
    ensures Ptr(st.img, p) in NewLinks(sb, st0, st)
  {
    hide Ptr, Missing;
    var s :| s in Missing(st0.img, i, lo, hi) && p in {s} + AboveSlots(s);
    var c := Ptr(st.img, s);
    assert c in Fresh(st0, st);
    AboveTargets(st.img, s);
    assert Ptr(st.img, p) in Costs(sb, st.img, s, c);
  }

  // The blocks one write logs: the data blocks, the index blocks that are new or get a new entry, the
  // free-map blocks of the new blocks, and the inode's block if the file grew.
  lemma WriteSet(sb: Superblock, i: nat, st0: State, st: State, off: nat, src: seq<Byte>)
    requires Good(sb, st0, {}) && Written(sb, i, st0, st, off, src) && |src| > 0
    ensures var lo, hi := off / BSIZE, BlocksFor(off + |src|);
            && Wrote(sb, i, st0, st, lo, hi) && lo < hi
            && st.mine == st0.mine + Targets(st.img, DataSlots(i, lo, hi) + Opened(st0.img, i, lo, hi))
                          + MapBlocks(sb, st0, st)
                          + (if off + |src| > st0.img.inodes[i].size then {sb.IBlock(i)} else {})
            && (off + |src| > st0.img.inodes[i].size ==>
                  st.early == st0.mine + Targets(st.img, DataSlots(i, lo, hi) + Opened(st0.img, i, lo, hi))
                              + MapBlocks(sb, st0, st))
  {
    hide Ready, Ptr, Content, NoHoles, Synced, NewLinks, DataSlot, WriteSlots, Opened;
    var lo, hi := off / BSIZE, BlocksFor(off + |src|);
    assert NoHoles(st.img, i) && |Content(st.img, i)| == st.img.inodes[i].size;
    WriteEnd(st.img, i, off + |src|);
    assert Wrote(sb, i, st0, st, lo, hi);
    LinksBySlot(sb, i, st0, st, lo, hi);
    TouchedSlots(st.img, i, off, |src|);
  }

  lemma WriteEnd(m: Image, i: nat, end: nat)
    requires i < |m.inodes| && NoHoles(m, i) && end <= m.inodes[i].size
    ensures BlocksFor(end) <= MAXFILE
  {
  }

  lemma TouchedSlots(m: Image, i: nat, off: nat, n: nat)
    requires n > 0
    ensures Touched(m, i, off, n) == Targets(m, DataSlots(i, off / BSIZE, BlocksFor(off + n)))
  {
    hide Ptr, DataSlot;
  }

  // Distinct mapped slots have distinct blocks.
  lemma {:induction false} TargetsExact(sb: Superblock, st: State, S: set<Slot>)
    requires Ready(sb, st) && forall s :: s in S ==> Ptr(st.img, s) != 0
    ensures |Targets(st.img, S)| == |S| && forall a :: a in Targets(st.img, S) ==> sb.Nmeta() <= a
    decreases |S|
  {
    hide Ptr, BitmapExact;
    if S != {} {
      var s :| s in S;
      var rest := S - {s};
      TargetsExact(sb, st, rest);
      assert Targets(st.img, S) == Targets(st.img, rest) + {Ptr(st.img, s)};
      forall p | p in rest
        ensures Ptr(st.img, p) != Ptr(st.img, s)
      {
        Unshared(st.img, st.owner, s, p);
      }
    } else {
      assert Targets(st.img, S) == {};
    }
  }

  lemma {:induction false} DataSlotsExact(i: nat, lo: nat, hi: nat)
    requires lo <= hi
    ensures |DataSlots(i, lo, hi)| == hi - lo && forall s :: s in DataSlots(i, lo, hi) ==> !IsIndex(s)
    decreases hi
  {
    if lo < hi {
      DataSlotsExact(i, lo, hi - 1);
      assert DataSlots(i, lo, hi) == DataSlots(i, lo, hi - 1) + {DataSlot(i, hi - 1)};
      assert DataSlot(i, hi - 1) !in DataSlots(i, lo, hi - 1);
    } else {
      assert DataSlots(i, lo, hi) == {};
    }
  }

  // Opened slots are index slots on the paths, so mapped after the write.
  lemma OpenedMapped(sb: Superblock, i: nat, st0: State, st: State, lo: nat, hi: nat, p: Slot)
    requires Wrote(sb, i, st0, st, lo, hi) && p in Opened(st0.img, i, lo, hi)
    ensures IsIndex(p) && Ptr(st.img, p) != 0 && p in WriteSlots(i, lo, hi)
  {
    hide Ready, Ptr, PathSlots, AboveSlots, Keeps, NewIn;
    var s :| s in Missing(st0.img, i, lo, hi) && p in {s} + AboveSlots(s) && IsIndex(p);
    var bn :| lo <= bn < hi && s in PathSlots(i, bn);
    PathAbove(i, bn, s, p);
    ReadyFacts(sb, st, Meta);
    PathIsMapped(st.img, i, bn, p);
  }

  lemma PathAbove(i: nat, bn: nat, s: Slot, p: Slot)
    requires s in PathSlots(i, bn) && p in {s} + AboveSlots(s)
    ensures p in PathSlots(i, bn)
  {
  }

  lemma SlotsCard(sb: Superblock, i: nat, st0: State, st: State, lo: nat, hi: nat)
    requires Wrote(sb, i, st0, st, lo, hi) && lo <= hi
    ensures var T := Targets(st.img, DataSlots(i, lo, hi) + Opened(st0.img, i, lo, hi));
            |T| == hi - lo + |Opened(st0.img, i, lo, hi)| && forall a :: a in T ==> sb.Nmeta() <= a
  {
    var D, X := DataSlots(i, lo, hi), Opened(st0.img, i, lo, hi);
    DataSlotsExact(i, lo, hi);
    forall p | p in X
      ensures IsIndex(p) && Ptr(st.img, p) != 0
    {
      OpenedMapped(sb, i, st0, st, lo, hi, p);
    }
    hide Ready, Ptr, Opened, WriteSlots;
    assert D !! X;
    assert forall s :: s in D + X ==> Ptr(st.img, s) != 0;
    TargetsExact(sb, st, D + X);
  }

  // ---- the count, from the state before the write ----

  // The lowest free blocks: no free block below any of them is left out.
  ghost predicate LowestFree(owner: map<nat, Slot>, F: set<nat>) {
    forall c :: c in F ==> c !in owner && forall d :: 0 <= d < c ==> d in owner || d in F
  }

  lemma LowestNested(owner: map<nat, Slot>, F: set<nat>, G: set<nat>)
    requires LowestFree(owner, F) && LowestFree(owner, G)
    ensures F <= G || G <= F
  {
    if !(F <= G) {
      var c :| c in F && c !in G;
      forall d | d in G
        ensures d in F
      {
        assert d < c || d == c || c < d;
      }
    }
  }

  lemma LowestUnique(owner: map<nat, Slot>, F: set<nat>, G: set<nat>)
    requires LowestFree(owner, F) && LowestFree(owner, G) && |F| == |G|
    ensures F == G
  {
    LowestNested(owner, F, G);
    if F <= G {
      SubsetEqual(F, G);
    } else {
      SubsetEqual(G, F);
    }
  }

  lemma SubsetEqual(A: set<nat>, B: set<nat>)
    requires A <= B && |A| == |B|
    ensures A == B
  {
    if A != B {
      var x :| x in B && x !in A;
      SubsetCard(A, B - {x});
    }
  }

  function MapsOf(sb: Superblock, F: set<nat>): set<nat> {
    set c | c in F :: sb.BBlock(c)
  }

  // What a write of n > 0 bytes at off will log; F are the lowest free blocks, one for each missing slot.
  function WriteCost(sb: Superblock, m: Image, i: nat, off: nat, n: nat, F: set<nat>): int
    requires i < |m.inodes|
  {
    var lo, hi := off / BSIZE, BlocksFor(off + n);
    hi - lo + |Opened(m, i, lo, hi)| + |MapsOf(sb, F)| + if off + n > m.inodes[i].size then 1 else 0
  }

  lemma FreshIsLowest(sb: Superblock, i: nat, st0: State, st: State, lo: nat, hi: nat, F: set<nat>)
    requires Wrote(sb, i, st0, st, lo, hi) && LowestTaken(st0.owner, st.owner)
    requires LowestFree(st0.owner, F) && |F| == |Missing(st0.img, i, lo, hi)|
    ensures Fresh(st0, st) == F
  {
    FreshIsMissing(sb, i, st0, st, lo, hi);
    forall s | s in Missing(st0.img, i, lo, hi)
      ensures Ptr(st.img, s) != 0
    {
      WriteSlotMapped(sb, i, st0, st, lo, hi, s);
    }
    TargetsExact(sb, st, Missing(st0.img, i, lo, hi));
    hide Wrote, Missing, Ptr;
    var G := Fresh(st0, st);
    forall c | c in G
      ensures c !in st0.owner && forall d :: 0 <= d < c ==> d in st0.owner || d in G
    {
      assert TakenUpTo(st.owner, c);
    }
    LowestUnique(st0.owner, F, G);
  }

  // An operation that does one write logs exactly WriteCost blocks, which its caller can count beforehand. So
  // it keeps to its reservation if and only if WriteCost does.
  lemma WriteCostExact(sb: Superblock, i: nat, st0: State, st: State, off: nat, src: seq<Byte>, F: set<nat>)
    requires Good(sb, st0, {}) && Written(sb, i, st0, st, off, src) && |src| > 0 && st0.mine == {}
    requires LowestFree(st0.owner, F) && |F| == |Missing(st0.img, i, off / BSIZE, BlocksFor(off + |src|))|
    ensures |st.mine| == WriteCost(sb, st0.img, i, off, |src|, F)
    ensures |st.mine| <= MAXOPBLOCKS <==> WriteCost(sb, st0.img, i, off, |src|, F) <= MAXOPBLOCKS
  {
    hide Ready, Ptr, Content, NoHoles, Synced, Missing, Opened, DataSlots, WriteSlots, BlocksFor, Targets, Keeps, NewIn,
      NewLinks, Touched;
    var lo, hi := off / BSIZE, BlocksFor(off + |src|);
    WriteSet(sb, i, st0, st, off, src);
    FreshIsLowest(sb, i, st0, st, lo, hi, F);
    assert MapBlocks(sb, st0, st) == MapsOf(sb, F);
    SlotsCard(sb, i, st0, st, lo, hi);
    var T := Targets(st.img, DataSlots(i, lo, hi) + Opened(st0.img, i, lo, hi));
    forall a | a in MapsOf(sb, F)
      ensures sb.bmapstart <= a < sb.Nmeta()
    {
      FreshInRange(sb, st0, st, a);
    }
    GoodValid(sb, st0);
    UnionCard(sb, T, MapsOf(sb, F), i, off + |src| > st0.img.inodes[i].size);
  }

  lemma UnionCard(sb: Superblock, T: set<nat>, maps: set<nat>, i: nat, grew: bool)
    requires sb.Valid() && i < sb.ninodes
    requires (forall a :: a in T ==> sb.Nmeta() <= a) && (forall a :: a in maps ==> sb.bmapstart <= a < sb.Nmeta())
    ensures |{} + T + maps + (if grew then {sb.IBlock(i)} else {})| == |T| + |maps| + if grew then 1 else 0
  {
    assert T !! maps;
    assert {} + T + maps == T + maps;
    assert |T + maps| == |T| + |maps|;
    assert sb.IBlock(i) < sb.bmapstart;
    assert sb.IBlock(i) !in T + maps;
    assert T + maps + {} == T + maps;
  }

  // The last log_write of a write is for a block it had not logged: the inode's, or its last data block. So
  // every call is made with fewer than MAXOPBLOCKS blocks logged if and only if the write logs at most that many.
  lemma WriteCalls(sb: Superblock, i: nat, st0: State, st: State, off: nat, src: seq<Byte>)
    requires Good(sb, st0, {}) && Written(sb, i, st0, st, off, src) && |src| > 0 && st0.mine == {}
    ensures |st.mine| == |st.early| + 1
    ensures |st.early| < MAXOPBLOCKS <==> |st.mine| <= MAXOPBLOCKS
  {
    hide Good, Content, LowestTaken, WriteSlots, Opened, DataSlots, Targets, Keeps, NewIn, NewLinks, BlocksFor, Ptr;
    if off + |src| > st0.img.inodes[i].size {
      GrownCalls(sb, i, st0, st, off, src);
    } else {
      GoodFacts(sb, st0, i);
      InPlaceCalls(sb, i, st0, off, |src|);
      assert {} + Touched(st0.img, i, off, |src|) == Touched(st0.img, i, off, |src|);
      assert {} + Touched(st0.img, i, off, Prior(off, |src|)) == Touched(st0.img, i, off, Prior(off, |src|));
    }
  }

  lemma GrownCalls(sb: Superblock, i: nat, st0: State, st: State, off: nat, src: seq<Byte>)
    requires Good(sb, st0, {}) && Written(sb, i, st0, st, off, src) && |src| > 0 && st0.mine == {}
    requires i < |st0.img.inodes| && off + |src| > st0.img.inodes[i].size
    ensures |st.mine| == |st.early| + 1
  {
    hide Ready, Ptr, Content, NoHoles, Synced, Opened, DataSlots, WriteSlots, BlocksFor, Targets, Keeps, NewIn,
      NewLinks, Touched;
    var lo, hi := off / BSIZE, BlocksFor(off + |src|);
    WriteSet(sb, i, st0, st, off, src);
    SlotsCard(sb, i, st0, st, lo, hi);
    forall a | a in MapBlocks(sb, st0, st)
      ensures sb.bmapstart <= a < sb.Nmeta()
    {
      FreshInRange(sb, st0, st, a);
    }
    GoodValid(sb, st0);
    UnionCard(sb, Targets(st.img, DataSlots(i, lo, hi) + Opened(st0.img, i, lo, hi)), MapBlocks(sb, st0, st), i, true);
    assert sb.IBlock(i) !in st.early;
  }

  // Data blocks of n bytes, and of those before the last block they reach.
  lemma InPlaceCalls(sb: Superblock, i: nat, st: State, off: nat, n: nat)
    requires Ready(sb, st) && i < |st.img.inodes| && NoHoles(st.img, i) && 0 < n && off + n <= st.img.inodes[i].size
    ensures |Touched(st.img, i, off, n)| == |Touched(st.img, i, off, Prior(off, n))| + 1
  {
    hide Ready, Ptr, NoHoles, DataSlot;
    var p := Prior(off, n);
    DataBlocksCard(sb, st, i, off / BSIZE, BlocksFor(off + n));
    if p > 0 {
      DataBlocksCard(sb, st, i, off / BSIZE, BlocksFor(off + p));
    }
  }

  lemma FreshInRange(sb: Superblock, st0: State, st: State, a: nat)
    requires Ready(sb, st) && a in MapBlocks(sb, st0, st)
    ensures sb.bmapstart <= a < sb.Nmeta()
  {
    hide Ptr, BitmapExact;
    var c :| c in st.owner && a == sb.BBlock(c);
    assert c < sb.size;
  }

  // ---- the bound the chunk size was chosen for ----

  lemma OpenedFew(sb: Superblock, i: nat, st0: State, st: State, lo: nat, hi: nat)
    requires Wrote(sb, i, st0, st, lo, hi) && hi <= lo + 4
    ensures |Opened(st0.img, i, lo, hi)| <= 3
  {
    var X, I := Opened(st0.img, i, lo, hi), IndexSlots(i, lo, hi);
    forall p | p in X
      ensures p in I
    {
      OpenedMapped(sb, i, st0, st, lo, hi, p);
      var bn :| lo <= bn < hi && p in PathSlots(i, bn);
      PathInSlots(i, lo, hi, bn, p);
      DataSlotsExact(i, lo, hi);
    }
    SlotSubset(X, I);
  }

  lemma {:induction false} SlotSubset(A: set<Slot>, B: set<Slot>)
    requires A <= B
    ensures |A| <= |B|
    decreases |A|
  {
    if A != {} {
      var x :| x in A;
      SlotSubset(A - {x}, B - {x});
    }
  }

  // One write of at most WRITE_CHUNK bytes logs at most 4 data blocks, 3 index blocks, the inode's
  // block and the free-map blocks of what it allocated.
  lemma WriteFootprint(sb: Superblock, i: nat, st0: State, st: State, off: nat, src: seq<Byte>)
    requires Good(sb, st0, {}) && Written(sb, i, st0, st, off, src) && |src| <= WRITE_CHUNK
    ensures |st.mine - st0.mine| <= 4 + 3 + 1 + |MapBlocks(sb, st0, st)|
  {
    hide Ready, Ptr, Content, NoHoles, Synced, Opened, DataSlots, WriteSlots, Targets, Keeps, NewIn, NewLinks;
    if |src| == 0 {
      assert InPlace(i, st0, st, off, 0) && st.mine - st0.mine == {};
      return;
    }
    var lo, hi := off / BSIZE, BlocksFor(off + |src|);
    assert lo < hi <= lo + 4;
    WriteSet(sb, i, st0, st, off, src);
    SlotsCard(sb, i, st0, st, lo, hi);
    OpenedFew(sb, i, st0, st, lo, hi);
    var T := Targets(st.img, DataSlots(i, lo, hi) + Opened(st0.img, i, lo, hi));
    SubsetCard(st.mine - st0.mine, T + {sb.IBlock(i)} + MapBlocks(sb, st0, st));
    assert |T + {sb.IBlock(i)} + MapBlocks(sb, st0, st)| <= |T| + 1 + |MapBlocks(sb, st0, st)|;
  }

  lemma {:induction false} SubsetCard(A: set<nat>, B: set<nat>)
    requires A <= B
    ensures |A| <= |B|
    decreases |A|
  {
    if A != {} {
      var x :| x in A;
      SubsetCard(A - {x}, B - {x});
    }
  }

  // It fits the reservation of one operation if its allocations touch at most two free-map blocks, and
  // leaves one block of it unused if they touch at most one.
  lemma WriteFitsReservation(sb: Superblock, i: nat, st0: State, st: State, off: nat, src: seq<Byte>)
    requires Good(sb, st0, {}) && Written(sb, i, st0, st, off, src) && |src| <= WRITE_CHUNK
    ensures |MapBlocks(sb, st0, st)| <= 2 ==> |st.mine - st0.mine| <= MAXOPBLOCKS
    ensures |MapBlocks(sb, st0, st)| <= 1 ==> |st.mine - st0.mine| < MAXOPBLOCKS
  {
    WriteFootprint(sb, i, st0, st, off, src);
  }

  // A disk of at most BPB blocks has one free-map block, so every such write leaves a block to spare; one of
  // at most twice as many has two, so every such write fits.
  lemma SmallDiskWriteFits(sb: Superblock, i: nat, st0: State, st: State, off: nat, src: seq<Byte>)
    requires Good(sb, st0, {}) && Written(sb, i, st0, st, off, src) && |src| <= WRITE_CHUNK
    requires sb.size <= 2 * BPB
    ensures |st.mine - st0.mine| <= MAXOPBLOCKS
    ensures sb.size <= BPB ==> |st.mine - st0.mine| < MAXOPBLOCKS
  {
    hide Ptr, Content, NoHoles, Synced, BitmapExact, WriteLogged, Keeps;
    forall c | c in st.owner
      ensures sb.BBlock(c) == sb.bmapstart || (sb.size > BPB && sb.BBlock(c) == sb.bmapstart + 1)
    {
      assert c < sb.size;
    }
    var maps := {sb.bmapstart} + if sb.size > BPB then {sb.bmapstart + 1} else {};
    SubsetCard(MapBlocks(sb, st0, st), maps);
    WriteFitsReservation(sb, i, st0, st, off, src);
  }

  // Distinct blocks of a file without holes lie in distinct disk blocks.
  lemma {:induction false} DataBlocksCard(sb: Superblock, st: State, i: nat, lo: nat, hi: nat)
    requires Ready(sb, st) && i < |st.img.inodes| && NoHoles(st.img, i) && lo <= hi <= BlocksFor(st.img.inodes[i].size)
    ensures |DataBlocks(st.img, i, lo, hi)| == hi - lo
    decreases hi
  {
    hide Ptr, DataSlot, BitmapExact;
    if lo < hi {
      DataBlocksCard(sb, st, i, lo, hi - 1);
      var a: nat := Ptr(st.img, DataSlot(i, hi - 1));
      assert a != 0;
      if a in DataBlocks(st.img, i, lo, hi - 1) {
        var bn: nat :| lo <= bn < hi - 1 && a == Ptr(st.img, DataSlot(i, bn));
        Unshared(st.img, st.owner, DataSlot(i, bn), DataSlot(i, hi - 1));
        DataSlotInjective(i, bn, i, hi - 1);
      }
      assert DataBlocks(st.img, i, lo, hi) == DataBlocks(st.img, i, lo, hi - 1) + {a};
    } else {
      assert DataBlocks(st.img, i, lo, hi) == {};
    }
  }
}
