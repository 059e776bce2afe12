/** How system calls are cut into transactions, and how many blocks each of them logs: filewrite
    (kernel/file.c:116-155) and the cipher calls (kernel/sysfile.c:462-564). */
module Transactions {
  import opened Blocks
  import opened Params
  import opened FsLayout
  import opened FsOwnership
  import opened FsState
  import opened FsWrite
  import opened FsTrunc
  import opened FsFootprint

  // ---- filewrite ----

  // The states between which one transaction ran.
  type Op = (State, State)

  function Chunk(src: seq<Byte>, k: nat): seq<Byte>
    requires k * WRITE_CHUNK <= |src|
  {
    src[k * WRITE_CHUNK..if (k + 1) * WRITE_CHUNK < |src| then (k + 1) * WRITE_CHUNK else |src|]
  }

  // Transaction op wrote the k-th chunk of src and started with an empty account of logged blocks.
  ghost predicate ChunkOp(sb: Superblock, ip: nat, off: nat, src: seq<Byte>, op: Op, k: nat) {
    && k * WRITE_CHUNK < |src| && Good(sb, op.0, {}) && op.0.mine == op.0.early == {}
    && Written(sb, ip, op.0, op.1, off + k * WRITE_CHUNK, Chunk(src, k))
  }

  // The image transaction k of ops starts from, and the one after all of them.
  function Before(ops: seq<Op>, m0: Image, k: nat): Image
    requires k <= |ops|
  {
    if k == 0 then m0 else ops[k - 1].1.img
  }

  // The transactions ops, one after the other and nothing in between, lead from m0 to m.
  ghost predicate ChunkOps(sb: Superblock, ip: nat, off: nat, src: seq<Byte>, ops: seq<Op>, m0: Image, m: Image) {
    && m == Before(ops, m0, |ops|)
    && (forall k :: 0 <= k < |ops| ==> ChunkOp(sb, ip, off, src, ops[k], k))
    && (forall k :: 0 <= k < |ops| ==> ops[k].0.img == Before(ops, m0, k))
  }

  function Footprints(ops: seq<Op>): (r: seq<set<nat>>)
    ensures |r| == |ops| && forall k :: 0 <= k < |r| ==> r[k] == ops[k].1.mine
  {
    seq(|ops|, k requires 0 <= k < |ops| => ops[k].1.mine)
  }

  function Priors(ops: seq<Op>): (r: seq<set<nat>>)
    ensures |r| == |ops| && forall k :: 0 <= k < |r| ==> r[k] == ops[k].1.early
  {
    seq(|ops|, k requires 0 <= k < |ops| => ops[k].1.early)
  }

  lemma ChunkOpsStep(sb: Superblock, ip: nat, off: nat, src: seq<Byte>, ops: seq<Op>, m0: Image, m: Image, op: Op)
    requires ChunkOps(sb, ip, off, src, ops, m0, m) && op.0.img == m && ChunkOp(sb, ip, off, src, op, |ops|)
    ensures ChunkOps(sb, ip, off, src, ops + [op], m0, op.1.img)
  {
    hide ChunkOp, Before;
    var ops' := ops + [op];
    BeforeStep(ops, m0, op, |ops'|);
    forall k | 0 <= k < |ops'|
      ensures ChunkOp(sb, ip, off, src, ops'[k], k) && ops'[k].0.img == Before(ops', m0, k)
    {
      BeforeStep(ops, m0, op, k);
    }
  }

  lemma BeforeStep(ops: seq<Op>, m0: Image, op: Op, k: nat)
    requires k <= |ops| + 1
    ensures Before(ops + [op], m0, k) == if k <= |ops| then Before(ops, m0, k) else op.1.img
  {
  }

  lemma FootprintsStep(ops: seq<Op>, op: Op)
    ensures Footprints(ops + [op]) == Footprints(ops) + [op.1.mine]
    ensures Priors(ops + [op]) == Priors(ops) + [op.1.early]
  {
  }

  // Each of them logs at most 4 data blocks, 3 index blocks, the inode's block and the free-map blocks
  // of what it allocated.
  lemma ChunkOpFits(sb: Superblock, ip: nat, off: nat, src: seq<Byte>, op: Op, k: nat)
    requires ChunkOp(sb, ip, off, src, op, k)
    ensures |op.1.mine| <= 4 + 3 + 1 + |MapBlocks(sb, op.0, op.1)|
    ensures |MapBlocks(sb, op.0, op.1)| <= 1 ==> |op.1.mine| < MAXOPBLOCKS
  {
    hide Written, Good;
    WriteFootprint(sb, ip, op.0, op.1, off + k * WRITE_CHUNK, Chunk(src, k));
    assert op.1.mine - op.0.mine == op.1.mine;
  }

  // Exactly, it logs what can be counted before it starts.
  lemma ChunkOpCost(sb: Superblock, ip: nat, off: nat, src: seq<Byte>, op: Op, k: nat, F: set<nat>)
    requires ChunkOp(sb, ip, off, src, op, k) && ip < |op.0.img.inodes| && LowestFree(op.0.owner, F)
    requires var o, n := off + k * WRITE_CHUNK, |Chunk(src, k)|;
             |F| == |Missing(op.0.img, ip, o / BSIZE, BlocksFor(o + n))|
    ensures |op.1.mine| == WriteCost(sb, op.0.img, ip, off + k * WRITE_CHUNK, |Chunk(src, k)|, F)
  {
    hide Written, Good, Missing, WriteCost, LowestFree, BlocksFor;
    WriteCostExact(sb, ip, op.0, op.1, off + k * WRITE_CHUNK, Chunk(src, k), F);
  }

  // And every log_write it calls is made with fewer than MAXOPBLOCKS blocks logged if and only if that count
  // is at most MAXOPBLOCKS.
  lemma ChunkOpCalls(sb: Superblock, ip: nat, off: nat, src: seq<Byte>, op: Op, k: nat)
    requires ChunkOp(sb, ip, off, src, op, k)
    ensures |op.1.early| < MAXOPBLOCKS <==> |op.1.mine| <= MAXOPBLOCKS
  {
    hide Written, Good;
    WriteCalls(sb, ip, op.0, op.1, off + k * WRITE_CHUNK, Chunk(src, k));
  }

  // ---- sys_encr and sys_decr ----

  const ROUNDS: nat := 10          // passes of the loop per transaction
  const SPAN: nat := 5120          // bytes they cover

  // Bytes from off to the end of the file.
  function Rest(m: Image, ip: nat, off: nat): nat
    requires ip < |m.inodes|
  {
    if off <= m.inodes[ip].size then m.inodes[ip].size - off else 0
  }

  // Bytes of the k-th transaction, when `rest` are to be done in all.
  function Share(rest: nat, k: nat): nat {
    if rest <= k * SPAN then 0 else if rest < (k + 1) * SPAN then rest - k * SPAN else SPAN
  }

  // Transactions that end inside the loop.
  function Inner(rest: nat): nat {
    BlocksFor(rest) / ROUNDS
  }

  // The data blocks of the k-th transaction.
  function Tx(m: Image, ip: nat, off: nat, k: nat): set<nat>
    requires ip < |m.inodes|
  {
    Touched(m, ip, off + k * SPAN, Share(Rest(m, ip, off), k))
  }

  // Free-map blocks of all the blocks of inode ip.
  function MapOf(sb: Superblock, owner: map<nat, Slot>, ip: nat): set<nat> {
    set b | b in owner && OfInode(owner[b], ip) :: sb.BBlock(b)
  }

  // What the transactions of one call log: data blocks, and in the last one the inode's block and, if
  // the call drops the last reference to an unlinked file, the free-map blocks of that file.
  function CipherOps(sb: Superblock, st: State, ip: nat, off: nat, freeing: bool): seq<set<nat>>
    requires ip < |st.img.inodes|
  {
    var n := Inner(Rest(st.img, ip, off));
    seq(n, k requires 0 <= k => Tx(st.img, ip, off, k))
    + [Tx(st.img, ip, off, n) + {sb.IBlock(ip)} + (if freeing then MapOf(sb, st.owner, ip) else {})]
  }

  // What the k-th transaction had logged when it made its last log_write: nine passes and, of the tenth, the
  // bytes before the last block it reaches.
  function TxCalls(m: Image, ip: nat, off: nat, k: nat): set<nat>
    requires ip < |m.inodes| && k < Inner(Rest(m, ip, off))
  {
    FullShare(Rest(m, ip, off), k);
    var nine := SPAN - BSIZE;
    Touched(m, ip, off + k * SPAN, nine + Prior(off + k * SPAN + nine, Share(Rest(m, ip, off), k) - nine))
  }

  // The same for all transactions of one call. The last one ends with the inode's block, or, if the file is
  // freed, with that block once more.
  function CipherCalls(sb: Superblock, st: State, ip: nat, off: nat, freeing: bool): seq<set<nat>>
    requires ip < |st.img.inodes|
  {
    var n := Inner(Rest(st.img, ip, off));
    FinishedCalls(st.img, ip, off, n)
    + [if freeing then Tx(st.img, ip, off, n) + {sb.IBlock(ip)} + MapOf(sb, st.owner, ip) else Tx(st.img, ip, off, n)]
  }

  function FinishedCalls(m: Image, ip: nat, off: nat, t: nat): (r: seq<set<nat>>)
    requires ip < |m.inodes| && t <= Inner(Rest(m, ip, off))
    ensures |r| == t && forall k :: 0 <= k < t ==> r[k] == TxCalls(m, ip, off, k)
  {
    seq(t, k requires 0 <= k < t => TxCalls(m, ip, off, k))
  }

  // n bytes from offset r of a block on touch this many blocks.
  function BlocksIn(r: nat, n: nat): nat {
    if n == 0 then 0 else BlocksFor(r + n)
  }

  lemma TouchedCard(sb: Superblock, st: State, ip: nat, off: nat, n: nat)
    requires Ready(sb, st) && ip < |st.img.inodes| && NoHoles(st.img, ip)
    requires n == 0 || off + n <= st.img.inodes[ip].size
    ensures |Touched(st.img, ip, off, n)| == BlocksIn(off % BSIZE, n)
  {
    hide Ready, NoHoles, Ptr, DataSlot;
    if n > 0 {
      DataBlocksCard(sb, st, ip, off / BSIZE, BlocksFor(off + n));
      assert BlocksFor(off + n) - off / BSIZE == BlocksFor(off % BSIZE + n);
    }
  }

  lemma TxCard(sb: Superblock, st: State, ip: nat, off: nat, k: nat)
    requires Good(sb, st, {}) && ip < |st.img.inodes|
    ensures |Tx(st.img, ip, off, k)| == BlocksIn(off % BSIZE, Share(Rest(st.img, ip, off), k))
  {
    hide Touched, Ready, Good, NoHoles, BlocksFor;
    GoodValid(sb, st);
    GoodFacts(sb, st, ip);
    SpanAligned(off, k);
    TouchedCard(sb, st, ip, off + k * SPAN, Share(Rest(st.img, ip, off), k));
  }

  lemma SpanAligned(off: nat, k: nat)
    ensures (off + k * SPAN) % BSIZE == off % BSIZE
  {
    assert k * SPAN == BSIZE * (ROUNDS * k);
  }

  // Data blocks, inode blocks and free-map blocks are different blocks.
  lemma TxIsData(sb: Superblock, st: State, ip: nat, off: nat, k: nat, a: nat)
    requires Good(sb, st, {}) && ip < |st.img.inodes| && a in Tx(st.img, ip, off, k)
    ensures sb.Nmeta() <= a
  {
    hide Ptr, DataSlot, Synced;
    assert NoHoles(st.img, ip);
    var rest := Rest(st.img, ip, off);
    var lo, hi := (off + k * SPAN) / BSIZE, BlocksFor(off + k * SPAN + Share(rest, k));
    var bn: nat :| lo <= bn < hi && a == Ptr(st.img, DataSlot(ip, bn));
    assert hi <= BlocksFor(st.img.inodes[ip].size);
    assert Ptr(st.img, DataSlot(ip, bn)) != 0;
  }

  lemma LastCard(sb: Superblock, st: State, ip: nat, off: nat, freeing: bool)
    requires Good(sb, st, {}) && ip < |st.img.inodes|
    ensures var n := Inner(Rest(st.img, ip, off));
            |CipherOps(sb, st, ip, off, freeing)[n]| ==
            |Tx(st.img, ip, off, n)| + 1 + (if freeing then |MapOf(sb, st.owner, ip)| else 0)
  {
    hide Tx, MapOf, Good;
    var n := Inner(Rest(st.img, ip, off));
    var D, F := Tx(st.img, ip, off, n), if freeing then MapOf(sb, st.owner, ip) else {};
    assert sb.Valid() && ip < sb.ninodes by { GoodValid(sb, st); }
    forall a | a in D
      ensures sb.Nmeta() <= a
    {
      TxIsData(sb, st, ip, off, n, a);
    }
    forall a | a in F
      ensures sb.bmapstart <= a < sb.Nmeta()
    {
      MapOfIsMap(sb, st, ip, a);
    }
    DisjointCard(D, sb.IBlock(ip), F);
  }

  lemma DisjointCard(D: set<nat>, x: nat, F: set<nat>)
    requires x !in D && x !in F && D !! F
    ensures |D + {x} + F| == |D| + 1 + |F|
  {
    assert |D + {x}| == |D| + 1;
  }

  lemma MapOfIsMap(sb: Superblock, st: State, ip: nat, a: nat)
    requires Good(sb, st, {}) && a in MapOf(sb, st.owner, ip)
    ensures sb.bmapstart <= a < sb.Nmeta()
  {
    hide Ptr, BitmapExact, NoHoles, Synced;
    var b :| b in st.owner && OfInode(st.owner[b], ip) && a == sb.BBlock(b);
    assert b < sb.size;
  }

  // A caller can check this: r is the file offset modulo the block size, `rest` the bytes from it to the
  // end of the file, `maps` the free-map blocks of the file if the call frees it and 0 otherwise.
  predicate FitsReservation(r: nat, rest: nat, maps: nat) {
    && (r == 0 || Inner(rest) == 0 || r + rest <= SPAN)
    && BlocksIn(r, Share(rest, Inner(rest))) + 1 + maps <= MAXOPBLOCKS
  }

  // For a file that stays.
  lemma FitsReservationKept(r: nat, rest: nat)
    requires r < BSIZE
    ensures FitsReservation(r, rest, 0) <==>
              r == 0 || rest <= SPAN - BSIZE - r || SPAN - BSIZE < rest <= SPAN - r
  {
    var n := Inner(rest);
    assert Share(rest, n) <= SPAN - BSIZE;
  }

  lemma FullShare(rest: nat, k: nat)
    requires k < Inner(rest)
    ensures SPAN - BSIZE < Share(rest, k) <= SPAN
    ensures Share(rest, k) < SPAN ==> k + 1 == Inner(rest) && rest == k * SPAN + Share(rest, k)
  {
  }

  // The transactions inside the loop: 10 blocks each from an aligned offset, else 11 in any full one.
  lemma InnerFits(r: nat, rest: nat, k: nat)
    requires r < BSIZE && k < Inner(rest)
    ensures r == 0 || r + rest <= SPAN ==> BlocksIn(r, Share(rest, k)) <= MAXOPBLOCKS
    ensures r > 0 && r + rest > SPAN ==> BlocksIn(r, Share(rest, 0)) == MAXOPBLOCKS + 1
  {
    FullShare(rest, k);
    FullShare(rest, 0);
  }

  // Every transaction of the call stays within the reservation if and only if FitsReservation holds.
  lemma CipherFits(sb: Superblock, st: State, ip: nat, off: nat, freeing: bool)
    requires Good(sb, st, {}) && ip < |st.img.inodes|
    ensures (forall h :: h in CipherOps(sb, st, ip, off, freeing) ==> |h| <= MAXOPBLOCKS) <==>
              FitsReservation(off % BSIZE, Rest(st.img, ip, off), if freeing then |MapOf(sb, st.owner, ip)| else 0)
  {
    hide Good, Tx, MapOf, Rest, Share, BlocksIn;
    var ops, rest, r := CipherOps(sb, st, ip, off, freeing), Rest(st.img, ip, off), off % BSIZE;
    var n := Inner(rest);
    LastCard(sb, st, ip, off, freeing);
    TxCard(sb, st, ip, off, n);
    assert ops[n] in ops;
    if n > 0 {
      assert ops[0] in ops && ops[0] == Tx(st.img, ip, off, 0);
      TxCard(sb, st, ip, off, 0);
      InnerFits(r, rest, 0);
    }
    forall k | 0 <= k < n
      ensures ops[k] == Tx(st.img, ip, off, k) && (r == 0 || r + rest <= SPAN ==> |ops[k]| <= MAXOPBLOCKS)
    {
      TxCard(sb, st, ip, off, k);
      InnerFits(r, rest, k);
    }
  }

  // It fails: from an unaligned offset with ten blocks to go, the first transaction logs eleven.
  lemma UnalignedCipherOverruns(sb: Superblock, st: State, ip: nat, off: nat, freeing: bool)
    requires Good(sb, st, {}) && ip < |st.img.inodes| && off % BSIZE > 0 && Rest(st.img, ip, off) >= SPAN
    ensures |CipherOps(sb, st, ip, off, freeing)[0]| == MAXOPBLOCKS + 1
  {
    hide Good, Tx, MapOf;
    var rest := Rest(st.img, ip, off);
    assert Inner(rest) > 0;
    TxCard(sb, st, ip, off, 0);
    InnerFits(off % BSIZE, rest, 0);
  }

  // ---- what was logged at each call ----

  lemma PriorIn(off: nat, n: nat)
    requires n > 0
    ensures Prior(off, n) < n && (off % BSIZE == 0 && n <= BSIZE ==> Prior(off, n) == 0)
  {
  }

  // Nine blocks before the last call of a full transaction from an aligned offset, else ten or more.
  lemma TxCallsCard(sb: Superblock, st: State, ip: nat, off: nat, k: nat)
    requires Good(sb, st, {}) && ip < |st.img.inodes| && k < Inner(Rest(st.img, ip, off))
    ensures |TxCalls(st.img, ip, off, k)| < MAXOPBLOCKS <==> off % BSIZE == 0
    ensures off % BSIZE > 0 && off % BSIZE + Rest(st.img, ip, off) <= SPAN ==>
      |TxCalls(st.img, ip, off, k)| == MAXOPBLOCKS
  {
    hide Touched, Ready, Good, NoHoles, BlocksFor, Share, Inner, Prior, BlocksIn;
    var rest, nine := Rest(st.img, ip, off), SPAN - BSIZE;
    GoodValid(sb, st);
    GoodFacts(sb, st, ip);
    FullShare(rest, k);
    ShareEnds(rest, k);
    var o, m := off + k * SPAN, Share(rest, k) - nine;
    PassAligned(off, k);
    PriorIn(o + nine, m);
    TouchedCard(sb, st, ip, o, nine + Prior(o + nine, m));
    CallBlocks(off % BSIZE, o + nine, m);
  }

  lemma ShareEnds(rest: nat, k: nat)
    requires k < Inner(rest)
    ensures k * SPAN + Share(rest, k) <= rest && (rest <= SPAN ==> Share(rest, k) == rest)
  {
  }

  lemma PassAligned(off: nat, k: nat)
    ensures (off + k * SPAN) % BSIZE == (off + k * SPAN + SPAN - BSIZE) % BSIZE == off % BSIZE
  {
    SpanAligned(off, k);
    NineBlocks(off + k * SPAN);
  }

  lemma NineBlocks(o: nat)
    ensures (o + SPAN - BSIZE) % BSIZE == o % BSIZE
  {
  }

  // How many blocks nine passes and the first part of the tenth reach, r being the offset in the block.
  lemma CallBlocks(r: nat, o: nat, m: nat)
    requires r == o % BSIZE && 0 < m <= BSIZE
    ensures BlocksIn(r, SPAN - BSIZE + Prior(o, m)) < MAXOPBLOCKS <==> r == 0
    ensures r > 0 && r + m <= BSIZE ==> BlocksIn(r, SPAN - BSIZE + Prior(o, m)) == MAXOPBLOCKS
  {
  }

  // A caller can check this; the arguments are those of FitsReservation.
  predicate CallsFit(r: nat, rest: nat, freeing: bool, maps: nat) {
    && (r == 0 || Inner(rest) == 0)
    && BlocksIn(r, Share(rest, Inner(rest))) + (if freeing then 1 + maps else 0) < MAXOPBLOCKS
  }

  // For a file that stays.
  lemma CallsFitKept(r: nat, rest: nat, maps: nat)
    requires r < BSIZE
    ensures CallsFit(r, rest, false, maps) <==> r == 0 || r + rest <= SPAN - BSIZE
  {
    var n := Inner(rest);
    assert Share(rest, n) <= SPAN - BSIZE;
  }

  // Every log_write of the call is made with fewer than MAXOPBLOCKS blocks logged if and only if CallsFit holds.
  lemma CipherCalm(sb: Superblock, st: State, ip: nat, off: nat, freeing: bool)
    requires Good(sb, st, {}) && ip < |st.img.inodes|
    ensures (forall h :: h in CipherCalls(sb, st, ip, off, freeing) ==> |h| < MAXOPBLOCKS) <==>
              CallsFit(off % BSIZE, Rest(st.img, ip, off), freeing, |MapOf(sb, st.owner, ip)|)
  {
    hide Good, Tx, TxCalls, MapOf, Rest, Share, BlocksIn;
    var calls, rest, r := CipherCalls(sb, st, ip, off, freeing), Rest(st.img, ip, off), off % BSIZE;
    var n := Inner(rest);
    LastCard(sb, st, ip, off, true);
    TxCard(sb, st, ip, off, n);
    assert calls[n] in calls;
    if n > 0 {
      assert calls[0] in calls && calls[0] == TxCalls(st.img, ip, off, 0);
      TxCallsCard(sb, st, ip, off, 0);
    }
    forall k | 0 <= k < n
      ensures calls[k] == TxCalls(st.img, ip, off, k) && (r == 0 ==> |calls[k]| < MAXOPBLOCKS)
    {
      TxCallsCard(sb, st, ip, off, k);
    }
  }

  // The two conditions differ: with r > 0 and more than 4608 bytes, but not more than r short of 5120, to go,
  // every transaction logs at most ten blocks, and the last pass of the first calls log_write with ten logged.
  lemma FittingCipherRelogs(sb: Superblock, st: State, ip: nat, off: nat)
    requires Good(sb, st, {}) && ip < |st.img.inodes| && off % BSIZE > 0
    requires SPAN - BSIZE < Rest(st.img, ip, off) <= SPAN - off % BSIZE
    ensures forall h :: h in CipherOps(sb, st, ip, off, false) ==> |h| <= MAXOPBLOCKS
    ensures |CipherCalls(sb, st, ip, off, false)[0]| == MAXOPBLOCKS
  {
    hide Good, Tx, TxCalls, MapOf, CipherOps;
    var rest := Rest(st.img, ip, off);
    FitsReservationKept(off % BSIZE, rest);
    CipherFits(sb, st, ip, off, false);
    assert Inner(rest) > 0;
    TxCallsCard(sb, st, ip, off, 0);
  }

  // One byte into a block with 5119 to go, for example.
  lemma RelogExample()
    ensures FitsReservation(1, 5119, 0) && !CallsFit(1, 5119, false, 0)
  {
    FitsReservationKept(1, 5119);
    CallsFitKept(1, 5119, 0);
  }

  // ---- one pass after the other ----

  lemma TouchedJoin(m: Image, ip: nat, off: nat, a: nat, b: nat)
    ensures Touched(m, ip, off, a) + Touched(m, ip, off + a, b) == Touched(m, ip, off, a + b)
  {
    hide Ptr, DataSlot;
    assert off / BSIZE <= (off + a) / BSIZE <= BlocksFor(off + a) <= BlocksFor(off + a + b);
    if a > 0 && b > 0 {
      var lo, mid, mid', hi := off / BSIZE, (off + a) / BSIZE, BlocksFor(off + a), BlocksFor(off + (a + b));
      assert lo <= mid <= mid' <= hi;
    }
  }

  // Pointers of a file without holes do not move, so neither do the blocks of its bytes.
  lemma TouchedKept(m: Image, m': Image, ip: nat, off: nat, n: nat)
    requires ip < |m.inodes| && NoHoles(m, ip) && Keeps(m, m') && off + n <= m.inodes[ip].size
    ensures Touched(m', ip, off, n) == Touched(m, ip, off, n)
  {
    hide Ptr, DataSlot;
    assert BlocksFor(off + n) <= BlocksFor(m.inodes[ip].size);
    forall bn | off / BSIZE <= bn < BlocksFor(off + n)
      ensures Ptr(m', DataSlot(ip, bn)) == Ptr(m, DataSlot(ip, bn))
    {
    }
  }

  // Where the loop stands after `done` bytes: t transactions are over and the open one made `count` passes.
  predicate Pace(rest: nat, done: nat, t: nat, count: nat) {
    && count < ROUNDS && done <= rest
    && ROUNDS * t + count == BlocksFor(done)
    && (done == rest || done == BSIZE * (ROUNDS * t + count))
  }

  // What the open transaction logged so far.
  function Part(m: Image, ip: nat, off: nat, t: nat, done: nat): set<nat> {
    Touched(m, ip, off + t * SPAN, if done > t * SPAN then done - t * SPAN else 0)
  }

  // What the finished ones logged.
  function Finished(m: Image, ip: nat, off: nat, t: nat): (r: seq<set<nat>>)
    requires ip < |m.inodes|
    ensures |r| == t
  {
    seq(t, k requires 0 <= k => Tx(m, ip, off, k))
  }

  lemma PassStep(m: Image, ip: nat, off: nat, done: nat, t: nat, count: nat, n: nat)
    requires ip < |m.inodes| && Pace(Rest(m, ip, off), done, t, count)
    requires 0 < n <= BSIZE && done + n <= Rest(m, ip, off) && (n == BSIZE || done + n == Rest(m, ip, off))
    ensures count + 1 <= ROUNDS
    ensures count + 1 < ROUNDS ==>
      && Pace(Rest(m, ip, off), done + n, t, count + 1)
      && Part(m, ip, off, t, done) + Touched(m, ip, off + done, n) == Part(m, ip, off, t, done + n)
    ensures count + 1 == ROUNDS ==>
      && Pace(Rest(m, ip, off), done + n, t + 1, 0) && Part(m, ip, off, t + 1, done + n) == {}
      && Part(m, ip, off, t, done) + Touched(m, ip, off + done, n) == Tx(m, ip, off, t)
      && t < Inner(Rest(m, ip, off))
      && Part(m, ip, off, t, done) + Touched(m, ip, off + done, Prior(off + done, n)) == TxCalls(m, ip, off, t)
  {
    hide Touched;
    var rest := Rest(m, ip, off);
    assert done == BSIZE * (ROUNDS * t + count);
    assert done >= t * SPAN;
    TouchedJoin(m, ip, off + t * SPAN, done - t * SPAN, n);
    TouchedJoin(m, ip, off + t * SPAN, done - t * SPAN, Prior(off + done, n));
    NothingTouched(m, ip, off + (t + 1) * SPAN);
  }

  lemma NothingTouched(m: Image, ip: nat, off: nat)
    ensures Touched(m, ip, off, 0) == {}
  {
  }

  lemma FinishedStep(m: Image, ip: nat, off: nat, t: nat)
    requires ip < |m.inodes|
    ensures Finished(m, ip, off, t + 1) == Finished(m, ip, off, t) + [Tx(m, ip, off, t)]
  {
    hide Tx;
  }

  lemma FinishedCallsStep(m: Image, ip: nat, off: nat, t: nat)
    requires ip < |m.inodes| && t < Inner(Rest(m, ip, off))
    ensures FinishedCalls(m, ip, off, t + 1) == FinishedCalls(m, ip, off, t) + [TxCalls(m, ip, off, t)]
  {
    hide TxCalls, Inner;
  }

  // The loop is over when all bytes are done.
  lemma PassesOver(m: Image, ip: nat, off: nat, t: nat, count: nat)
    requires ip < |m.inodes| && Pace(Rest(m, ip, off), Rest(m, ip, off), t, count)
    ensures t == Inner(Rest(m, ip, off)) && Part(m, ip, off, t, Rest(m, ip, off)) == Tx(m, ip, off, t)
  {
    hide Touched;
  }

  // Truncating file ip logs the free-map blocks of all its blocks.
  lemma FreedIsMapOf(sb: Superblock, ip: nat, st0: State, st: State, st': State)
    requires ip < |st.img.inodes| && Truncated(sb, ip, WithType(st, ip, 0), st') && st.owner == st0.owner
    ensures st'.mine == st.mine + MapOf(sb, st0.owner, ip) + {sb.IBlock(ip)}
  {
    hide Good, Content;
    assert FreedMap(sb, WithType(st, ip, 0), st') == MapOf(sb, st0.owner, ip);
  }
}
