/** The code of the log (kernel/log.c): the in-memory header, its loops over `tail`, and the block
    writes they issue one by one. Every method is tied to the machine: the ghost state `s` moves only
    by machine steps, one per block write. */
module Log {
  import opened Blocks
  import opened Params
  import opened LogMachine
  import opened LogSafety
  import opened LogRuns

  // write_head's loop has stored i entries.
  lemma PutEntriesSnoc(blk: Block, h: seq<nat>, i: nat)
    requires i < |h| <= LOGSIZE && forall j :: 0 <= j < |h| ==> h[j] < UINT_LIMIT
    ensures PutEntries(blk, h, i + 1) == PutWord(PutEntries(blk, h, i), i + 1, h[i])
  {
  }

  class Log {
    const c: Config
    const block: array<nat>      // log.lh.block
    var n: nat                   // log.lh.n
    var outstanding: nat
    var committing: bool
    var disk: seq<Block>
    var cache: seq<Block>
    ghost const init: seq<Block>
    ghost var run: seq<Event>
    ghost var s: State

    // The fields are those of a machine state that some run reaches.
    ghost predicate Linked()
      reads this, block
    {
      && block.Length == LOGSIZE && n <= LOGSIZE
      && s.lh == block[..n] && s.disk == disk && s.cache == cache && |s.ops| == outstanding
      && Reaches(c, init, run, s)
    }

    ghost predicate Valid()
      reads this, block
    {
      Linked() && committing == (s.phase.Logging? || s.phase.Heading? || s.phase.Installing? || s.phase.Clearing?)
    }

    // A machine that starts from a disk with an empty log.
    constructor (c: Config, disk: seq<Block>)
      requires c.Valid() && |disk| == c.nblocks && WordAt(disk[c.start], 0) == 0
      ensures Valid() && fresh(block) && this.c == c && init == disk == this.disk && s.phase.Idle? && n == 0
      ensures run == [] && s == State(disk, disk, [], map[], Idle, [], [], map[], {})
    {
      this.c := c;
      block := new nat[LOGSIZE];
      n, outstanding, committing := 0, 0, false;
      this.disk, cache := disk, disk;
      init := disk;
      run := [];
      s := State(disk, disk, [], map[], Idle, [], [], map[], {});
      new;
      ReachesStart(c, disk);
    }

    // One pass through begin_op's loop: it either has to sleep or the operation is under way.
    method BeginOp(ghost o: OpId) returns (started: bool)
      requires Valid() && (s.phase.Idle? || committing) && o !in s.wrote
      modifies this
      ensures Valid() && n == old(n) && disk == old(disk) && cache == old(cache)
      ensures started <==> !old(committing) && n + (old(outstanding) + 1) * MAXOPBLOCKS <= LOGSIZE
      ensures started ==> Enabled(c, old(s), Begin(o)) && WellFormed(c, old(s))
      ensures started ==> s == Next(c, old(s), Begin(o)) && run == old(run) + [Begin(o)]
      ensures !started ==> s == old(s) && run == old(run) && outstanding == old(outstanding)
    {
      hide Reaches, HeadOf, DiskStep;
      if committing {
        return false;
      }
      if n + (outstanding + 1) * MAXOPBLOCKS > LOGSIZE {
        return false;
      }
      ReachedShape(c, init, run, s);
      ReachesStep(c, init, run, s, Begin(o));
      outstanding := outstanding + 1;
      run, s := run + [Begin(o)], Next(c, s, Begin(o));
      return true;
    }

    // Records block b in the header, once; b's new contents stay in the cache. A full header and a call
    // outside of any operation are panics.
    method LogWrite(ghost o: OpId, b: nat, data: Block) returns (panicked: bool)
      requires Valid() && s.phase.Idle? && c.Home(b) && (outstanding > 0 ==> o in s.ops)
      modifies this, block
      ensures Valid() && disk == old(disk)
      ensures panicked <==> TooBig(c, old(s)) || old(outstanding) < 1
      ensures panicked ==> s == old(s) && run == old(run)
      ensures !panicked ==> Enabled(c, old(s), Write(o, b, data)) && WellFormed(c, old(s))
      ensures !panicked ==> s == Next(c, old(s), Write(o, b, data)) && run == old(run) + [Write(o, b, data)]
    {
      hide Reaches, HeadOf, DiskStep;
      ReachedShape(c, init, run, s);
      if n >= LOGSIZE || n >= c.size - 1 {
        return true;
      }
      if outstanding < 1 {
        return true;
      }
      cache := cache[b := data];
      var i := Slot(b);
      block[i] := b;
      if i == n {
        n := n + 1;
      }
      ReachesStep(c, init, run, s, Write(o, b, data));
      run, s := run + [Write(o, b, data)], Next(c, s, Write(o, b, data));
      assert block[..n] == s.lh;
      return false;
    }

    // An operation changes a buffer and does not call log_write.
    method Scribble(ghost o: OpId, b: nat, data: Block)
      requires Valid() && s.phase.Idle? && c.Home(b) && o in s.ops
      modifies this
      ensures Valid() && disk == old(disk)
      ensures Enabled(c, old(s), LogMachine.Scribble(o, b, data)) && WellFormed(c, old(s))
      ensures s == Next(c, old(s), LogMachine.Scribble(o, b, data))
      ensures run == old(run) + [LogMachine.Scribble(o, b, data)]
    {
      hide Reaches, HeadOf, DiskStep;
      ReachedShape(c, init, run, s);
      cache := cache[b := data];
      ReachesStep(c, init, run, s, LogMachine.Scribble(o, b, data));
      run, s := run + [LogMachine.Scribble(o, b, data)], Next(c, s, LogMachine.Scribble(o, b, data));
    }

    // A buffer that is not pinned is recycled; the next bread reads the disk.
    method Evict(b: nat)
      requires Valid() && s.phase.Idle? && c.Home(b) && b !in s.lh
      modifies this
      ensures Valid() && disk == old(disk)
      ensures Enabled(c, old(s), LogMachine.Evict(b)) && WellFormed(c, old(s))
      ensures s == Next(c, old(s), LogMachine.Evict(b)) && run == old(run) + [LogMachine.Evict(b)]
    {
      hide Reaches, HeadOf, DiskStep;
      ReachedShape(c, init, run, s);
      cache := cache[b := disk[b]];
      ReachesStep(c, init, run, s, LogMachine.Evict(b));
      run, s := run + [LogMachine.Evict(b)], Next(c, s, LogMachine.Evict(b));
    }

    // log_write's loop: where the header already names b, or its end.
    method Slot(b: nat) returns (i: nat)
      requires n <= block.Length
      ensures i <= n && (i < n ==> block[i] == b) && (i == n ==> b !in block[..n])
    {
      i := 0;
      while i < n
        invariant 0 <= i <= n && forall j :: 0 <= j < i ==> block[j] != b
      {
        if block[i] == b {
          return;
        }
        i := i + 1;
      }
    }

    // One block write from a buffer: the machine takes its next disk step.
    method Bwrite(b: nat, data: Block)
      requires Reaches(c, init, run, s) && WellFormed(c, s)
      requires Enabled(c, s, DiskWrite) && s.disk == disk && s.cache == cache
      requires b < |disk| && DiskStep(c, s).disk == disk[b := data] && DiskStep(c, s).cache == cache[b := data]
      modifies `disk, `cache, `run, `s
      ensures s == DiskStep(c, old(s)) && run == old(run) + [DiskWrite]
      ensures Reaches(c, init, run, s) && WellFormed(c, s) && s.disk == disk && s.cache == cache
    {
      hide Reaches, HeadOf, DiskStep;
      ReachesStep(c, init, run, s, DiskWrite);
      disk, cache := disk[b := data], cache[b := data];
      run, s := run + [DiskWrite], DiskStep(c, s);
      ReachedShape(c, init, run, s);
    }

    // Copies the cached blocks the header names into the log; upTo < n if power fails after that many.
    method WriteLog(upTo: nat)
      requires Valid() && s.phase == Logging(0) && upTo <= n
      modifies `disk, `cache, `run, `s
      ensures Valid() && s.phase == AfterLogging(s, upTo) && run == old(run) + Writes(upTo)
      ensures s.lh == old(s).lh && Apart(c, old(cache), cache, [])
      ensures s.durable == old(s).durable && s.pending == old(s).pending
      ensures s.wrote == old(s).wrote && s.loose == old(s).loose
    {
      hide Reaches, HeadOf, DiskStep;
      ReachedShape(c, init, run, s);
      var tail := 0;
      while tail < upTo
        invariant 0 <= tail <= upTo && Valid() && WellFormed(c, s) && run == old(run) + Writes(tail)
        invariant s.lh == old(s).lh && Apart(c, old(cache), cache, []) && s.phase == AfterLogging(s, tail)
        invariant s.durable == old(s).durable && s.pending == old(s).pending
        invariant s.wrote == old(s).wrote && s.loose == old(s).loose
      {
        LoggingStep(c, s);
        Bwrite(c.start + tail + 1, cache[block[tail]]);
        tail := tail + 1;
      }
    }

    // The header block with n and block[0..n] stored in it.
    method HeadBlock() returns (hb: Block)
      requires block.Length == LOGSIZE && n <= LOGSIZE && c.start < |disk|
      requires forall j :: 0 <= j < n ==> block[j] < UINT_LIMIT
      ensures hb == PutHead(disk[c.start], block[..n])
    {
      hide PutWord, PutEntries;
      ghost var h := block[..n];
      hb := PutWord(disk[c.start], 0, n);
      ghost var hb0 := hb;
      PutEntriesNil(hb0, h);
      var i := 0;
      while i < n
        invariant 0 <= i <= n && hb == PutEntries(hb0, h, i)
      {
        PutEntriesSnoc(hb0, h, i);
        hb := PutWord(hb, 1 + i, block[i]);
        i := i + 1;
      }
    }

    // Writes the in-memory header to disk.
    method WriteHead()
      requires Reaches(c, init, run, s) && s.disk == disk && s.cache == cache && block.Length == LOGSIZE && n <= LOGSIZE
      requires (s.phase.Heading? && s.lh == block[..n]) || ((s.phase.Clearing? || s.phase.RecoveryClearing?) && n == 0)
      modifies `disk, `cache, `run, `s
      ensures s.ops == old(s).ops && s.lh == (if old(s).phase.Heading? then old(s).lh else [])
      ensures s.phase == (if old(s).phase.Heading? then AfterInstalling(old(s), 0) else Idle)
      ensures s.durable == old(s).durable + (if old(s).phase.Heading? then old(s).pending else [])
      ensures s.pending == (if old(s).phase.Heading? then [] else old(s).pending)
      ensures s.wrote == old(s).wrote && s.loose == old(s).loose
      ensures run == old(run) + [DiskWrite] && Reaches(c, init, run, s) && s.disk == disk && s.cache == cache
      ensures Apart(c, old(cache), cache, [])
    {
      hide Reaches, HeadOf, DiskStep, PutHead;
      ReachedShape(c, init, run, s);
      var hb := HeadBlock();
      HeaderStep(c, s);
      Bwrite(c.start, hb);
    }

    // The body of install_trans's loop.
    method InstallBlock(tail: nat)
      requires Valid() && tail < n && (s.phase == Installing(tail) || s.phase == Recovering(tail))
      modifies `disk, `cache, `run, `s
      ensures Valid() && s.lh == old(s).lh && s.durable == old(s).durable && run == old(run) + [DiskWrite]
      ensures s.pending == old(s).pending && s.wrote == old(s).wrote && s.loose == old(s).loose
      ensures Apart(c, old(cache), cache, s.lh)
      ensures s.phase == if old(s).phase.Installing? then AfterInstalling(s, tail + 1)
                         else AfterRecovering(s.lh, tail + 1)
    {
      hide Reaches, HeadOf, DiskStep;
      ReachedShape(c, init, run, s);
      InstallingStep(c, s);
      var lbuf := disk[c.start + tail + 1];
      Bwrite(block[tail], lbuf);
    }

    // Copies the blocks in the log to their home locations, after a commit or during recovery; upTo < n if
    // power fails after that many.
    method InstallTrans(upTo: nat)
      requires Valid() && upTo <= n
      requires (s.phase == Installing(0) || s.phase == Recovering(0) || (s.phase == RecoveryClearing && n == 0))
      modifies `disk, `cache, `run, `s
      ensures Valid() && run == old(run) + Writes(upTo)
      ensures s.phase == if old(s.phase).Installing? then AfterInstalling(s, upTo) else AfterRecovering(s.lh, upTo)
      ensures s.durable == old(s).durable && s.pending == old(s).pending
      ensures s.wrote == old(s).wrote && s.loose == old(s).loose
      ensures Apart(c, old(cache), cache, old(s).lh)
    {
      hide Reaches, HeadOf, DiskStep;
      ghost var recovering := !s.phase.Installing?;
      var tail := 0;
      TailHasBlocks(c, init, run, s);
      while tail < upTo
        invariant 0 <= tail <= upTo && Valid() && run == old(run) + Writes(tail) && s.durable == old(s).durable
        invariant s.pending == old(s).pending && s.wrote == old(s).wrote && s.loose == old(s).loose
        invariant s.lh == old(s).lh && Apart(c, old(cache), cache, old(s).lh)
        invariant s.phase == if recovering then AfterRecovering(s.lh, tail) else AfterInstalling(s, tail)
      {
        InstallBlock(tail);
        tail := tail + 1;
      }
    }

    // Runs when the last outstanding operation ends: log, commit, install, clear.
    method Commit()
      requires Linked() && committing && (s.phase == Logging(0) || (s.phase == Idle && n == 0))
      modifies `disk, `cache, `run, `s, `n, `committing
      ensures Valid() && s.phase.Idle? && n == 0 && s.pending == []
      ensures s.wrote == old(s).wrote && s.loose == old(s).loose
      ensures s.durable == old(s).durable + old(s).pending && Apart(c, old(cache), cache, old(s).lh)
      ensures run == old(run) + CommitWrites(old(n))
    {
      hide Reaches, Writes, Next, Enabled;
      TailHasBlocks(c, init, run, s);
      if n == 0 {
        NothingPending(c, init, run, s);
      }
      if n > 0 {
        WriteLog(n);
        WriteHead();
        InstallTrans(n);
        n := 0;
        WriteHead();
        assert block[..n] == [];
        assert run == old(run) + CommitWrites(old(n));
      }
      committing := false;
    }

    // A commit that power failure cuts off after k block writes; the transaction is durable from the header on.
    method CommitCut(k: nat)
      requires Valid() && s.phase == Logging(0) && k < 2 * n + 2
      modifies `disk, `cache, `run, `s
      ensures Valid() && run == old(run) + Writes(k) && s.wrote == old(s).wrote
      ensures s.durable == old(s).durable + if k > n then old(s).pending else []
    {
      hide Reaches, HeadOf, DiskStep, WellFormed, Writes;
      TailHasBlocks(c, init, run, s);
      if k <= n {
        WriteLog(k);
      } else {
        WriteLog(n);
        WriteHead();
        InstallTrans(k - n - 1);
        MoreWrites(n);
        WritesAdd(n + 1, k - n - 1);
      }
    }

    // The end of the last operation, cut off by power failure after k block writes.
    method EndOpCut(ghost o: OpId, k: nat)
      requires Valid() && s.phase.Idle? && s.ops.Keys == {o} && k < 2 * n + 2
      modifies this
      ensures Valid() && s.wrote == old(s).wrote && run == old(run) + [End(o)] + Writes(if old(n) == 0 then 0 else k)
      ensures s.durable == old(s).durable + if k > old(n) then old(s).pending else []
    {
      hide Reaches, HeadOf, DiskStep, Writes, WellFormed, CommitWrites;
      ReachedShape(c, init, run, s);
      EndFacts(c, s, o);
      ReachesStep(c, init, run, s, End(o));
      assert |s.ops.Keys| == 1;
      outstanding := outstanding - 1;
      run, s := run + [End(o)], Next(c, s, End(o));
      if n > 0 {
        committing := true;
        CommitCut(k);
      } else {
        NothingPending(c, init, run, s);
      }
    }

    // The end of operation o; the last one out commits. "log.committing" cannot happen.
    method EndOp(ghost o: OpId) returns (panicked: bool)
      requires Valid() && s.phase.Idle? && o in s.ops
      modifies this
      ensures Valid() && !panicked && s.phase.Idle? && s.ops == old(s).ops - {o}
      ensures Enabled(c, old(s), End(o)) && WellFormed(c, old(s)) && outstanding == old(outstanding) - 1
      ensures outstanding > 0 ==> s == Next(c, old(s), End(o)) && run == old(run) + [End(o)] && n == old(n)
      ensures outstanding == 0 ==> n == 0 && s.pending == [] && s.durable == old(s).durable + old(s).pending
      ensures outstanding == 0 ==> run == old(run) + [End(o)] + CommitWrites(old(n))
      ensures outstanding == 0 ==> s.wrote == old(s).wrote && s.loose == old(s).loose
      ensures outstanding == 0 ==> Apart(c, old(cache), cache, old(s).lh)
      ensures outstanding == 0 ==> c.Valid() && |disk| == |cache| == c.nblocks
      ensures outstanding == 0 ==> forall b :: c.Home(b) && b !in s.loose ==> disk[b] == cache[b]
    {
      hide Reaches, HeadOf, DiskStep, Writes, WellFormed, CommitWrites;
      ReachedShape(c, init, run, s);
      EndFacts(c, s, o);
      ReachesStep(c, init, run, s, End(o));
      outstanding := outstanding - 1;
      if committing {
        return true;
      }
      run, s := run + [End(o)], Next(c, s, End(o));
      if outstanding == 0 {
        committing := true;
        Commit();
        Quiet(c, init, run, s);
        NoOps(s);
      }
      return false;
    }

    // Power loss: everything but the disk is gone.
    method Crash()
      requires Valid()
      modifies this
      ensures Valid() && s.phase.Down? && disk == old(disk) && run == old(run) + [LogMachine.Crash]
      ensures s.durable == old(s).durable && s.ops == map[] && s.wrote == old(s).wrote
    {
      hide Reaches, HeadOf, DiskStep;
      ReachedShape(c, init, run, s);
      ReachesStep(c, init, run, s, LogMachine.Crash);
      cache, n, outstanding, committing := disk, 0, 0, false;
      run, s := run + [LogMachine.Crash], Next(c, s, LogMachine.Crash);
      assert block[..0] == [];
    }

    // Reads the header from disk into memory.
    method ReadHeader()
      requires Valid() && s.phase.Down?
      modifies this`n, this`run, this`s, block
      ensures Valid() && run == old(run) + [ReadHead] && WellFormed(c, old(s)) && s == Next(c, old(s), ReadHead)
    {
      hide Reaches, DiskStep;
      ReachedShape(c, init, run, s);
      ReachesStep(c, init, run, s, ReadHead);
      HeaderInRange(c, init, run, s);
      var lh := disk[c.start];
      n := WordAt(lh, 0);
      var i := 0;
      while i < n
        invariant 0 <= i <= n == WordAt(lh, 0) && disk == old(disk)
        invariant cache == old(cache) && s == old(s) && run == old(run)
        invariant outstanding == old(outstanding) && committing == old(committing)
        invariant forall j :: 0 <= j < i ==> block[j] == WordAt(lh, 1 + j)
      {
        block[i] := WordAt(lh, 1 + i);
        i := i + 1;
      }
      run, s := run + [ReadHead], Next(c, s, ReadHead);
      assert block[..n] == HeadOf(lh);
    }

    // Boot: every committed transaction ends up at its home location and the log is cleared.
    method RecoverFromLog()
      requires Valid() && s.phase.Down?
      modifies this, block
      ensures Valid() && s.phase.Idle? && n == 0 && s.durable == old(s).durable && s.pending == [] && s.loose == {}
      ensures s.ops == map[] && s.wrote == old(s).wrote
      ensures WellFormed(c, old(s)) && run == old(run) + [ReadHead] + Writes(|HeadOf(old(disk)[c.start])| + 1)
      ensures c.Valid() && |disk| == |cache| == |init| == c.nblocks
      ensures forall b :: c.Home(b) ==> disk[b] == cache[b] == Apply(init, s.durable)[b]
    {
      hide Reaches, HeadOf, DiskStep, Writes, WellFormed, Apply;
      RecoveryEmpty(c, init, run, s);
      ReachedShape(c, init, run, s);
      ReadHeader();
      MoreWrites(|s.lh|);
      ReachedShape(c, init, run, s);
      InstallTrans(n);
      n := 0;
      WriteHead();
      assert block[..n] == [];
      Quiet(c, init, run, s);
    }
  }

  lemma EndFacts(c: Config, s: State, o: OpId)
    requires WellFormed(c, s) && s.phase.Idle? && o in s.ops
    ensures Enabled(c, s, End(o))
    ensures var t := Next(c, s, End(o));
            && t.lh == s.lh && t.disk == s.disk && t.cache == s.cache && |t.ops| == |s.ops| - 1
            && t.durable == s.durable && t.pending == s.pending && t.wrote == s.wrote && t.loose == s.loose
            && t.ops == s.ops - {o}
            && t.phase == if |t.ops| == 0 && |s.lh| > 0 then Logging(0) else Idle
  {
    assert (s.ops - {o}).Keys == s.ops.Keys - {o};
  }

  lemma HeaderInRange(c: Config, init: seq<Block>, run: seq<Event>, s: State)
    requires Reaches(c, init, run, s) && s.phase.Down?
    ensures c.Valid() && |s.disk| == c.nblocks && WordAt(s.disk[c.start], 0) <= LOGSIZE
  {
    hide HeadOf, WordAt, Apply;
    CrashAtomicity(c, init, run, s);
  }

  // With nothing logged, disk and cache agree on the committed contents of every home block.
  lemma Quiet(c: Config, init: seq<Block>, run: seq<Event>, s: State)
    requires Reaches(c, init, run, s) && s.phase.Idle? && s.lh == []
    ensures c.Valid() && |s.disk| == |s.cache| == |init| == c.nblocks
    ensures forall b :: c.Home(b) ==> s.disk[b] == Apply(init, s.durable)[b]
    ensures forall b :: c.Home(b) && b !in s.loose ==> s.cache[b] == s.disk[b]
  {
    hide HeadOf, WordAt, Apply;
    CrashAtomicity(c, init, run, s);
    EmptyApply(Apply(init, s.durable));
  }

  // Every home block outside bs holds what it held.
  ghost predicate Apart(c: Config, cache: seq<Block>, cache': seq<Block>, bs: seq<nat>) {
    |cache'| == |cache| && forall b :: c.Home(b) && b < |cache| && b !in bs ==> cache'[b] == cache[b]
  }

  lemma MoreWrites(n: nat)
    ensures Writes(n + 1) == Writes(n) + [DiskWrite]
  {
  }

  lemma {:induction false} WritesAdd(m: nat, n: nat)
    ensures Writes(m + n) == Writes(m) + Writes(n)
  {
    if n > 0 {
      WritesAdd(m, n - 1);
    }
  }

  // The block writes of a commit: log blocks, header, home blocks, header.
  function CommitWrites(n: nat): seq<Event> {
    if n == 0 then [] else Writes(n) + [DiskWrite] + Writes(n) + [DiskWrite]
  }

  // An empty header means an empty transaction.
  lemma NothingPending(c: Config, init: seq<Block>, run: seq<Event>, s: State)
    requires Reaches(c, init, run, s) && s.phase.Idle? && s.lh == []
    ensures s.pending == []
  {
    CrashAtomicity(c, init, run, s);
  }

  lemma RecoveryEmpty(c: Config, init: seq<Block>, run: seq<Event>, s: State)
    requires Reaches(c, init, run, s) && s.phase.Down?
    ensures s.pending == [] && s.loose == {} && s.ops == map[]
  {
    CrashAtomicity(c, init, run, s);
  }

  lemma NoOps(s: State)
    requires |s.ops| == 0
    ensures s.ops == map[]
  {
  }

  lemma TailHasBlocks(c: Config, init: seq<Block>, run: seq<Event>, s: State)
    requires Reaches(c, init, run, s)
    ensures s.phase.Logging? || s.phase.Installing? || s.phase.Recovering? ==> s.phase.tail < |s.lh|
  {
    ReachedShape(c, init, run, s);
  }

  lemma PutEntriesNil(blk: Block, h: seq<nat>)
    requires |h| <= LOGSIZE && forall j :: 0 <= j < |h| ==> h[j] < UINT_LIMIT
    ensures PutEntries(blk, h, 0) == blk
  {
  }

  lemma LoggingStep(c: Config, s: State)
    requires WellFormed(c, s) && s.phase.Logging?
    ensures var tail := s.phase.tail;
            DiskStep(c, s) == Bwritten(s, c.start + 1 + tail, s.cache[s.lh[tail]]).(phase := AfterLogging(s, tail + 1))
  {
  }

  lemma HeaderStep(c: Config, s: State)
    requires WellFormed(c, s) && (s.phase.Heading? || s.phase.Clearing? || s.phase.RecoveryClearing?)
    ensures var t := DiskStep(c, s);
            var b := Bwritten(s, c.start, PutHead(s.disk[c.start], if s.phase.Heading? then s.lh else []));
            && t.disk == b.disk && t.cache == b.cache && t.ops == s.ops && t.wrote == s.wrote && t.loose == s.loose
            && t.pending == (if s.phase.Heading? then [] else s.pending)
            && t.lh == (if s.phase.Heading? then s.lh else [])
            && t.durable == s.durable + (if s.phase.Heading? then s.pending else [])
            && t.phase == (if s.phase.Heading? then AfterInstalling(s, 0) else Idle)
  {
    hide PutHead;
  }

  lemma InstallingStep(c: Config, s: State)
    requires WellFormed(c, s) && (s.phase.Installing? || s.phase.Recovering?)
    ensures var t := DiskStep(c, s);
            && t == Bwritten(s, s.lh[s.phase.tail], s.disk[c.start + 1 + s.phase.tail]).(phase := t.phase)
            && t.phase == if s.phase.Installing? then AfterInstalling(s, s.phase.tail + 1)
                          else AfterRecovering(s.lh, s.phase.tail + 1)
  {
    hide PutHead;
  }

  lemma ReachedShape(c: Config, init: seq<Block>, run: seq<Event>, s: State)
    requires Reaches(c, init, run, s)
    ensures WellFormed(c, s)
  {
    CrashAtomicity(c, init, run, s);
  }
}
