/** The file system and the log together: every call of the file system reaches the log in order, end_op
    commits, and a crash leads through recovery back to files. */
module Storage {
  import opened Blocks
  import opened Params
  import opened FsLayout
  import opened FsOwnership
  import opened FsState
  import opened FsWrite
  import opened FsTrunc
  import opened FsCommit
  import opened FsTrace
  import opened FileSystem
  import opened FsFootprint
  import LogMachine
  import LogSafety
  import LogRuns
  import LogSpace
  import Log
  import Mkfs
  import opened Tower

  lemma TruncatedIsGood(sb: Superblock, i: nat, st: State, st': State)
    requires Truncated(sb, i, st, st')
    ensures Good(sb, st', {})
  {
  }

  lemma OpenIsBegun(sb: Superblock, init: seq<Block>, run: seq<LogMachine.Event>, s: LogMachine.State, t: Tape, o: nat)
    requires LogSafety.Reaches(LogOf(sb), init, run, s) && Joined(LogOf(sb), init, s, t) && o in s.ops
    ensures o < t.begun && s.ops[o] == Footprint(t.trace, o)
  {
    Log.ReachedShape(LogOf(sb), init, run, s);
  }

  lemma JoinedResume(c: LogMachine.Config, init: seq<Block>, s: LogMachine.State, t: Tape, o: nat, mine: set<nat>,
                     early: set<nat>)
    requires Joined(c, init, s, t)
    ensures Joined(c, init, s, t.(op := o, mine := mine, early := early, turn := |t.trace|))
  {
  }

  lemma EvictFacts(sb: Superblock, init: seq<Block>, run: seq<LogMachine.Event>, s: LogMachine.State, t: Tape, b: nat)
    requires LogSafety.Reaches(LogOf(sb), init, run, s) && Joined(LogOf(sb), init, s, t) && s.phase.Idle?
    requires sb.Home(b) && b !in t.logged
    ensures LogMachine.WellFormed(LogOf(sb), s) && LogMachine.Enabled(LogOf(sb), s, LogMachine.Evict(b))
    ensures LogOf(sb).Home(b) && b !in s.lh && |s.disk| == |t.base| == sb.size && s.disk[b] == t.base[b]
    ensures LogMachine.Next(LogOf(sb), s, LogMachine.Evict(b)).ops == s.ops
  {
    hide LogSafety.Reaches, LogSafety.Worth, LogSafety.PhaseOk, LogSafety.WholeOps, LogSafety.Apply;
    assert LogOf(sb).Home(b);
    LogSafety.CrashAtomicity(LogOf(sb), init, run, s);
    HomeOnDisk(LogOf(sb), init, s, b);
  }

  lemma NoneLeft(ops: map<nat, set<nat>>)
    ensures |ops| == 0 <==> ops == map[]
  {
  }

  lemma {:induction false} OnlyDiskWrites(n: nat)
    ensures forall e :: e in LogRuns.Writes(n) ==> e == LogMachine.DiskWrite
  {
    if n > 0 {
      OnlyDiskWrites(n - 1);
    }
  }

  // Ending an operation, crashing and recovering are no log_writes.
  lemma EndCalm(c: LogMachine.Config, init: seq<Block>, run: seq<LogMachine.Event>, s: LogMachine.State, o: nat, n: nat,
                run': seq<LogMachine.Event>, s': LogMachine.State)
    requires LogSpace.ReachesWithin(c, init, run, s, MAXOPBLOCKS - 1) && LogSafety.Reaches(c, init, run', s')
    requires run' == run + [LogMachine.End(o)] || run' == run + [LogMachine.End(o)] + Log.CommitWrites(n)
    ensures LogSpace.ReachesWithin(c, init, run', s', MAXOPBLOCKS - 1)
  {
    hide LogSpace.ReachesWithin, LogSafety.Reaches;
    OnlyDiskWrites(n);
    var end := [LogMachine.End(o)];
    var es := if run' == run + end then end else end + Log.CommitWrites(n);
    assert run' == run + es;
    LogSpace.WithinMore(c, init, run, s, MAXOPBLOCKS - 1, es, s');
  }

  lemma RecoveredCalm(c: LogMachine.Config, init: seq<Block>, run: seq<LogMachine.Event>, s: LogMachine.State, n: nat,
                      run': seq<LogMachine.Event>, s': LogMachine.State)
    requires LogSpace.ReachesWithin(c, init, run, s, MAXOPBLOCKS - 1) && LogSafety.Reaches(c, init, run', s')
    requires run' == run + [LogMachine.Crash] + [LogMachine.ReadHead] + LogRuns.Writes(n)
    ensures LogSpace.ReachesWithin(c, init, run', s', MAXOPBLOCKS - 1)
  {
    hide LogSpace.ReachesWithin, LogSafety.Reaches;
    OnlyDiskWrites(n);
    var es := [LogMachine.Crash, LogMachine.ReadHead] + LogRuns.Writes(n);
    assert run' == run + es;
    LogSpace.WithinMore(c, init, run, s, MAXOPBLOCKS - 1, es, s');
  }

  lemma CutCalm(c: LogMachine.Config, init: seq<Block>, run: seq<LogMachine.Event>, s: LogMachine.State, o: nat, n: nat,
                run': seq<LogMachine.Event>, s': LogMachine.State)
    requires LogSpace.ReachesWithin(c, init, run, s, MAXOPBLOCKS - 1) && LogSafety.Reaches(c, init, run', s')
    requires run' == run + [LogMachine.End(o)] + LogRuns.Writes(n)
    ensures LogSpace.ReachesWithin(c, init, run', s', MAXOPBLOCKS - 1)
  {
    hide LogSpace.ReachesWithin, LogSafety.Reaches;
    OnlyDiskWrites(n);
    var es := [LogMachine.End(o)] + LogRuns.Writes(n);
    assert run' == run + es;
    LogSpace.WithinMore(c, init, run, s, MAXOPBLOCKS - 1, es, s');
  }

  ghost predicate SameFiles(m: Image, m': Image) {
    m'.inodes == m.inodes && forall i :: 0 <= i < |m.inodes| ==> Content(m', i) == Content(m, i)
  }

  class Storage {
    const sb: Superblock
    const fs: Fs
    const log: Log.Log

    // What survives even a panic: the disk is worth the files of the last commit.
    ghost predicate CrashSafe()
      reads this, fs, log, log.block
    {
      && fs.sb == sb && log.c == LogOf(sb) && log.Valid() && fs.Recoverable()
      && Worthy(log.c, log.init, log.s, fs.base, fs.begun)
    }

    // Between calls.
    ghost predicate Valid()
      reads this, fs, log, log.block
    {
      && CrashSafe() && log.s.phase.Idle? && Good(sb, fs.St(), {}) && fs.Traced()
      && Joined(log.c, log.init, log.s, fs.Record())
    }

    // No operation has called log_write again after logging MAXOPBLOCKS blocks.
    ghost predicate Calm()
      reads this, log
    {
      LogSpace.ReachesWithin(log.c, log.init, log.run, log.s, MAXOPBLOCKS - 1)
    }

    // Mounts a disk whose log is empty.
    constructor (sb: Superblock, disk: seq<Block>, ghost owner: map<nat, Slot>)
      requires sb.Valid() && |disk| == sb.size && Good(sb, Mounted(sb, disk, owner), {})
      requires sb.nlog > 0 && WordAt(disk[sb.logstart], 0) == 0
      ensures Valid() && Calm() && this.sb == sb && fresh(fs) && fresh(log) && fresh(log.block)
      ensures log.s.ops == map[] && log.n == 0 && fs.trace == [] && fs.St() == Mounted(sb, disk, owner)
    {
      hide Good, Tied, Joined, LogSafety.Reaches, LogSpace.ReachesWithin, Worthy, Content, WordAt;
      this.sb := sb;
      fs := new Fs(sb, disk, owner);
      log := new Log.Log(LogOf(sb), disk);
      new;
      JoinedStart(sb, disk, fs.Record());
      JoinedWorthy(log.c, log.init, log.s, fs.Record());
      LogSpace.StartWithin(log.c, disk, MAXOPBLOCKS - 1);
    }

    // Hands the buffer changes of fs, from number `from` on, to the log, which may panic.
    method Feed(from: nat) returns (panicked: bool)
      requires CrashSafe() && log.s.phase.Idle? && fs.Traced() && fs.turn <= from <= |fs.trace|
      requires fs.op in log.s.ops && Joined(log.c, log.init, log.s, Rewound(fs.Record(), from))
      modifies log, log.block
      ensures CrashSafe() && log.s.phase.Idle? && log.s.ops.Keys == old(log.s.ops).Keys
      ensures log.s.durable == old(log.s.durable)
      ensures !panicked ==> Joined(log.c, log.init, log.s, fs.Record())
      ensures from == |fs.trace| ==> !panicked
      ensures old(Calm()) && |fs.early| < MAXOPBLOCKS ==> Calm() && (sb.nlog > LOGSIZE ==> !panicked)
    {
      hide Good, Tied, Joined, LogSafety.Reaches, LogSpace.ReachesWithin, Worthy, Rewound, LogMachine.Next;
      var k := from;
      RewoundAll(sb, fs.Record());
      assert |fs.start| == |fs.base|;
      while k < |fs.trace|
        invariant from <= k <= |fs.trace| && CrashSafe() && log.s.phase.Idle? && log.s.durable == old(log.s.durable)
        invariant log.s.ops.Keys == old(log.s.ops).Keys && Joined(log.c, log.init, log.s, Rewound(fs.Record(), k))
        invariant old(Calm()) && |fs.early| < MAXOPBLOCKS ==> Calm()
      {
        panicked := FeedOne(k);
        if panicked {
          return;
        }
        k := k + 1;
      }
      return false;
    }

    // Hands over one of them.
    method FeedOne(k: nat) returns (panicked: bool)
      requires CrashSafe() && log.s.phase.Idle? && fs.Traced() && fs.turn <= k < |fs.trace|
      requires fs.op in log.s.ops && Joined(log.c, log.init, log.s, Rewound(fs.Record(), k))
      modifies log, log.block
      ensures CrashSafe() && log.s.phase.Idle? && log.s.ops.Keys == old(log.s.ops).Keys
      ensures log.s.durable == old(log.s.durable)
      ensures !panicked ==> Joined(log.c, log.init, log.s, Rewound(fs.Record(), k + 1))
      ensures old(Calm()) && |fs.early| < MAXOPBLOCKS ==> Calm() && (sb.nlog > LOGSIZE ==> !panicked)
    {
      hide Good, Tied, Joined, LogSafety.Reaches, LogSpace.ReachesWithin, Worthy, Rewound, LogMachine.Next,
        LogMachine.WellFormed, LogSafety.Inv, Footprint;
      ghost var t, s := fs.Record(), log.s;
      EventFacts(sb, log.init, s, t, k);
      Log.ReachedShape(log.c, log.init, log.run, s);
      panicked := false;
      match fs.trace[k] {
        case Write(o, b, data) =>
          panicked := log.LogWrite(o, b, data);
        case Scribble(o, b, data) =>
          log.Scribble(o, b, data);
        case Evict(b) =>
          log.Evict(b);
        case _ =>
      }
      if !panicked {
        FeedStep(sb, log.init, old(log.run), s, t, k);
      }
      if old(Calm()) && |fs.early| < MAXOPBLOCKS {
        FeedCalm(sb, log.init, old(log.run), s, t, k);
      }
    }

    // begin_op, if there is room; otherwise the caller sleeps.
    method Begin() returns (started: bool)
      requires Valid()
      modifies fs`op, fs`begun, fs`mine, fs`early, fs`turn, log
      ensures Valid() && fs.St().img == old(fs.St()).img && (old(Calm()) ==> Calm())
      ensures started <==> log.n + (old(log.outstanding) + 1) * MAXOPBLOCKS <= LOGSIZE
      ensures started ==> fs.op == old(fs.begun) && fs.mine == fs.early == {}
      ensures started ==> log.s.ops == old(log.s.ops)[fs.op := {}]
      ensures !started ==> log.s == old(log.s) && fs.St() == old(fs.St()) && fs.op == old(fs.op)
    {
      hide Good, Tied, Joined, LogSafety.Reaches, Worthy, LogMachine.Next, LogMachine.WellFormed, Mounted;
      ghost var t := fs.Record();
      NextIsNew(sb, log.c, log.init, log.s, t);
      started := log.BeginOp(fs.begun);
      if started {
        fs.BeginOp();
        JoinedBegin(log.c, log.init, old(log.s), t);
        JoinedWorthy(log.c, log.init, log.s, fs.Record());
        if old(Calm()) {
          LogSpace.WithinStep(log.c, log.init, old(log.run), old(log.s), MAXOPBLOCKS - 1, LogMachine.Begin(t.begun));
        }
      }
    }

    // The processor turns to another open operation.
    method Resume(o: nat)
      requires Valid() && o in log.s.ops
      modifies fs`op, fs`mine, fs`early, fs`turn
      ensures Valid() && fs.op == o && fs.mine == log.s.ops[o] && fs.early == Early(fs.trace, o)
      ensures fs.St().img == old(fs.St()).img
    {
      hide Good, Tied, LogSafety.Reaches, Worthy, Joined;
      ghost var t := fs.Record();
      OpenIsBegun(sb, log.init, log.run, log.s, t, o);
      fs.Resume(o);
      JoinedResume(log.c, log.init, log.s, t, o, fs.mine, fs.early);
    }

    // writei inside an operation. It panics on a full disk, and when the header has no room left.
    method Write(i: nat, src: seq<Byte>, off: Word) returns (r: WriteResult, panicked: bool)
      requires Valid() && fs.op in log.s.ops
      requires i < sb.ninodes && i < |fs.inodes| && fs.inodes[i].typ != 0 && |src| < UINT_LIMIT
      modifies fs`blocks, fs`inodes, fs`logged, fs`mine, fs`early, fs`trace, fs`owner, log, log.block
      ensures CrashSafe() && log.s.ops.Keys == old(log.s.ops).Keys && log.s.durable == old(log.s.durable)
      ensures r.WriteFailed? <==>
        && old(fs.inodes[i].typ) != T_DEV
        && (off > old(fs.inodes[i].size) || off + |src| >= UINT_LIMIT || off + |src| > MAXFILE * BSIZE)
      ensures r.WriteDevice? <==> old(fs.inodes[i].typ) == T_DEV
      ensures r.WritePanic? ==> panicked && Full(sb, fs.owner)
      ensures !panicked ==> Valid()
      ensures r.WriteFailed? || r.WriteDevice? ==> !panicked && fs.St() == old(fs.St())
      ensures r.Wrote? ==> r.n == |src| && Written(sb, i, old(fs.St()), fs.St(), off, src)
      ensures panicked && old(Calm()) && sb.nlog > LOGSIZE ==> r.WritePanic? || |fs.early| >= MAXOPBLOCKS
      ensures !panicked && old(Calm()) && |fs.early| < MAXOPBLOCKS ==> Calm()
    {
      hide Good, Tied, Joined, LogSafety.Reaches, LogSpace.ReachesWithin, Worthy, Rewound, Written;
      ghost var t := fs.Record();
      var from := |fs.trace|;
      r := fs.Writei(i, src, off);
      panicked := r.WritePanic?;
      if !panicked {
        RewoundTo(sb, t, fs.Record());
        panicked := Feed(from);
        if r.Wrote? {
          WrittenGood(sb, i, old(fs.St()), fs.St(), off, src);
        }
      }
    }

    // readi: no step of the log.
    method Read(i: nat, off: Word, n: Word) returns (r: ReadResult)
      requires Valid() && i < sb.ninodes && i < |fs.inodes|
      modifies fs`blocks, fs`inodes, fs`logged, fs`mine, fs`early, fs`trace, fs`owner
      ensures Valid() && fs.St() == old(fs.St()) && fs.trace == old(fs.trace)
      ensures r.ReadDevice? <==> fs.inodes[i].typ == T_DEV
      ensures r.ReadFailed? <==> fs.inodes[i].typ != T_DEV && (off > fs.inodes[i].size || off + n >= UINT_LIMIT)
      ensures r.Read? ==>
        && off <= fs.inodes[i].size
        && r.data == Content(fs.St().img, i)[off..if off + n < fs.inodes[i].size then off + n else fs.inodes[i].size]
    {
      hide Good, Tied, Joined, LogSafety.Reaches, Worthy, Content, Mounted;
      r := fs.Readi(i, off, n);
    }

    // itrunc inside an operation.
    method Truncate(i: nat) returns (panicked: bool)
      requires Valid() && fs.op in log.s.ops && i < sb.ninodes
      modifies fs`blocks, fs`inodes, fs`logged, fs`mine, fs`early, fs`trace, fs`owner, log, log.block
      ensures CrashSafe() && log.s.ops.Keys == old(log.s.ops).Keys && log.s.durable == old(log.s.durable)
      ensures Truncated(sb, i, old(fs.St()), fs.St())
      ensures !panicked ==> Valid()
      ensures panicked && old(Calm()) && sb.nlog > LOGSIZE ==> |fs.early| >= MAXOPBLOCKS
      ensures !panicked && old(Calm()) && |fs.early| < MAXOPBLOCKS ==> Calm()
    {
      hide Good, Tied, Joined, LogSafety.Reaches, LogSpace.ReachesWithin, Worthy, Rewound, Truncated;
      ghost var t := fs.Record();
      var from := |fs.trace|;
      fs.Itrunc(i);
      RewoundTo(sb, t, fs.Record());
      panicked := Feed(from);
      TruncatedIsGood(sb, i, old(fs.St()), fs.St());
    }

    // ialloc inside an operation; no free inode is a panic.
    method Create(typ: Half) returns (ok: bool, inum: nat, panicked: bool)
      requires Valid() && fs.op in log.s.ops && typ != 0
      modifies fs`blocks, fs`inodes, fs`logged, fs`mine, fs`early, fs`trace, log, log.block
      ensures CrashSafe() && log.s.ops.Keys == old(log.s.ops).Keys && log.s.durable == old(log.s.durable)
      ensures !ok ==> panicked && fs.St() == old(fs.St())
      ensures ok ==> 1 <= inum < |old(fs.inodes)| && old(fs.inodes)[inum].typ == 0
      ensures ok ==> fs.inodes == old(fs.inodes)[inum := Inode(typ, 0, 0, 0, 0, NoAddrs())]
      ensures !panicked ==> Valid()
      ensures !panicked ==> forall j :: 0 <= j < |fs.inodes| ==> Content(fs.St().img, j) == Content(old(fs.St()).img, j)
      ensures panicked && old(Calm()) && sb.nlog > LOGSIZE ==> !ok || |fs.early| >= MAXOPBLOCKS
      ensures !panicked && old(Calm()) && |fs.early| < MAXOPBLOCKS ==> Calm()
    {
      hide Good, Tied, Joined, LogSafety.Reaches, LogSpace.ReachesWithin, Worthy, Rewound, Content;
      ghost var t := fs.Record();
      var from := |fs.trace|;
      ok, inum := fs.Ialloc(typ);
      if !ok {
        return ok, inum, true;
      }
      RewoundTo(sb, t, fs.Record());
      panicked := Feed(from);
    }

    // iput inside an operation.
    method Put(i: nat, refs: nat) returns (panicked: bool)
      requires Valid() && fs.op in log.s.ops && i < sb.ninodes && i < |fs.inodes|
      modifies fs`blocks, fs`inodes, fs`logged, fs`mine, fs`early, fs`trace, fs`owner, fs`valid, log, log.block
      ensures CrashSafe() && log.s.ops.Keys == old(log.s.ops).Keys && log.s.durable == old(log.s.durable)
      ensures !(i in old(fs.valid) && old(fs.inodes)[i].nlink == 0 && refs == 1) ==>
        !panicked && fs.St() == old(fs.St())
      ensures i in old(fs.valid) && old(fs.inodes)[i].nlink == 0 && refs == 1 ==>
        Truncated(sb, i, WithType(old(fs.St()), i, 0), fs.St())
      ensures !panicked ==> Valid()
      ensures panicked && old(Calm()) && sb.nlog > LOGSIZE ==> |fs.early| >= MAXOPBLOCKS
      ensures !panicked && old(Calm()) && |fs.early| < MAXOPBLOCKS ==> Calm()
    {
      hide Good, Tied, Joined, LogSafety.Reaches, LogSpace.ReachesWithin, Worthy, Rewound, Truncated, WithType;
      ghost var t := fs.Record();
      var from := |fs.trace|;
      fs.Iput(i, refs);
      if |fs.trace| == from {
        RewoundTo(sb, t, fs.Record());
        RewoundAll(sb, fs.Record());
        return false;
      }
      RewoundTo(sb, t, fs.Record());
      panicked := Feed(from);
    }

    // The cache recycles a buffer that is not pinned: no file notices.
    method Evict(b: nat)
      requires Valid() && sb.Home(b) && b !in fs.logged
      modifies fs`blocks, fs`trace, log
      ensures Valid() && log.s.ops == old(log.s.ops) && fs.inodes == old(fs.inodes)
      ensures forall i :: 0 <= i < |fs.inodes| ==> Content(fs.St().img, i) == Content(old(fs.St()).img, i)
    {
      hide Good, Tied, Joined, LogSafety.Reaches, Worthy, Rewound, Content, LogMachine.Next, LogMachine.WellFormed,
        LogSafety.Inv, LogSafety.Apply, Mounted;
      ghost var t, run, s := fs.Record(), log.run, log.s;
      EvictFacts(sb, log.init, run, s, t, b);
      log.Evict(b);
      fs.Evict(b, log.disk[b]);
      RewoundTo(sb, t, fs.Record());
      FeedStep(sb, log.init, run, s, fs.Record(), |t.trace|);
      RewoundAll(sb, fs.Record());
    }

    // end_op. When the last operation leaves, the files in memory are the files on disk.
    method End()
      requires Valid() && fs.op in log.s.ops
      modifies fs, log
      ensures Valid() && log.s.ops == old(log.s.ops) - {old(fs.op)} 
      ensures fs.ended == old(fs.ended) + [old(fs.mine)] && fs.prior == old(fs.prior) + [old(fs.early)]
      ensures fs.St().img == old(fs.St()).img
      ensures log.s.ops != map[] ==> fs.base == old(fs.base) && fs.baseOwner == old(fs.baseOwner)
      ensures log.s.ops == map[] ==> fs.trace == [] && log.n == 0 && Settled()
      ensures old(Calm()) ==> Calm()
    {
      hide Good, Tied, Joined, LogSafety.Reaches, LogSpace.ReachesWithin, Worthy, Content, LogMachine.Next,
        LogMachine.WellFormed, LogSafety.Apply, Mounted;
      ghost var t, s, run := fs.Record(), log.s, log.run;
      var panicked := log.EndOp(fs.op);
      var last := log.outstanding == 0;
      NoneLeft(log.s.ops);
      fs.EndOp(last);
      GoodShape(sb, fs.St());
      if last {
        JoinedCommit(sb, log.init, s, t, log.run, log.s);
      } else {
        JoinedEnd(log.c, log.init, s, t, t.op);
      }
      JoinedWorthy(log.c, log.init, log.s, fs.Record());
      if old(Calm()) {
        EndCalm(log.c, log.init, run, s, t.op, old(log.n), log.run, log.s);
      }
    }

    // The files of the last commit.
    ghost function Disk(): Image
      requires CrashSafe()
      reads this, fs, log, log.block
    {
      Mounted(sb, fs.base, fs.baseOwner).img
    }

    // The files on disk are those in memory.
    ghost predicate Settled()
      reads this, fs, log, log.block
    {
      CrashSafe() && SameFiles(fs.St().img, Disk())
    }

    // Power fails at any moment, after a panic too; then recovery. The files are those of the last commit.
    method CrashRecover()
      requires CrashSafe()
      modifies fs, log, log.block
      ensures Valid() && Settled() && log.s.ops == map[] && log.n == 0 && fs.trace == []
      ensures SameFiles(old(Disk()), fs.St().img)
      ensures old(Calm()) ==> Calm()
    {
      hide Good, Tied, Joined, LogSafety.Reaches, LogSpace.ReachesWithin, Content, LogMachine.Next,
        LogMachine.WellFormed,
        LogSafety.Apply, LogMachine.HeadOf;
      ghost var run, s := log.run, log.s;
      log.Crash();
      log.RecoverFromLog();
      fs.Crash(log.disk);
      GoodShape(sb, fs.St());
      JoinedRecovered(sb, log.init, log.s, fs.Record());
      if old(Calm()) {
        RecoveredCalm(log.c, log.init, run, s, |log.run| - |run| - 2, log.run, log.s);
      }
    }
  }

  // Power fails inside the end_op of the last operation, after k block writes of its commit: n log blocks, the
  // header, n home blocks, the header again. After recovery the files are those in memory if the header was
  // among the k, and those of the last commit if not.
  method EndThenCrash(s: Storage, k: nat)
    requires s.Valid() && s.log.s.ops.Keys == {s.fs.op} && k < 2 * s.log.n + 2
    modifies s.fs, s.log, s.log.block
    ensures s.Valid() && s.Settled() && s.log.s.ops == map[] && s.log.n == 0 && (old(s.Calm()) ==> s.Calm())
    ensures SameFiles(if k > old(s.log.n) then old(s.fs.St()).img else old(s.Disk()), s.fs.St().img)
  {
    hide Good, Tied, Joined, LogSafety.Reaches, LogSpace.ReachesWithin, Worthy, Content, Mounted, Committed;
    ghost var t, ls, run := s.fs.Record(), s.log.s, s.log.run;
    var committed := k > s.log.n;
    s.log.EndOpCut(s.fs.op, k);
    if committed {
      s.fs.EndOp(true);
      WorthyCommit(s.sb, s.log.init, ls, t, s.log.s);
    } else {
      assert ls.durable + [] == ls.durable;
      StillWorthy(s.log.c, s.log.init, ls, s.log.s, s.fs.base, s.fs.begun);
    }
    if old(s.Calm()) {
      CutCalm(s.log.c, s.log.init, run, ls, t.op, if old(s.log.n) == 0 then 0 else k, s.log.run, s.log.s);
    }
    s.CrashRecover();
  }

  lemma StillWorthy(c: LogMachine.Config, init: seq<Block>, s: LogMachine.State, s': LogMachine.State, base: seq<Block>,
                    begun: nat)
    requires Worthy(c, init, s, base, begun) && s'.durable == s.durable && s'.wrote == s.wrote
    ensures Worthy(c, init, s', base, begun)
  {
  }

  // mkfs, then the kernel's first mount: the files are those mkfs put there.
  method Boot(b: Mkfs.Builder) returns (s: Storage)
    requires b.Valid() && b.freeblock < BPB && b.sb.nlog > 0
    modifies b`disk
    ensures fresh(s) && s.Valid() && s.Settled() && s.Calm() && s.log.s.ops == map[] && s.log.n == 0 && s.sb == b.sb
    ensures s.fs.inodes == b.inodes
    ensures forall i :: 0 <= i < |b.inodes| ==> Content(s.fs.St().img, i) == Content(old(b.Img()), i)
  {
    hide Good, Content, Joined, Tied, Worthy, LogSafety.Reaches, LogSpace.ReachesWithin, Mkfs.Made, WordAt;
    b.Balloc();
    s := new Storage(b.sb, b.disk, b.owner);
    GoodShape(s.sb, s.fs.St());
  }

  // A write by a fresh operation, in a log of more than LOGSIZE blocks where every operation so far kept to its
  // reservation. There is room for it unless it logs more than MAXOPBLOCKS blocks, which its cost, known before
  // the call, tells; a chunk of filewrite does that only if its allocations touch three free-map blocks.
  method FreshWrite(s: Storage, i: nat, src: seq<Byte>, off: Word, ghost F: set<nat>)
    returns (r: WriteResult, panicked: bool)
    requires s.Valid() && s.Calm() && s.sb.nlog > LOGSIZE && s.fs.op in s.log.s.ops && s.fs.mine == s.fs.early == {}
    requires i < s.sb.ninodes && i < |s.fs.inodes| && s.fs.inodes[i].typ != 0 && |src| < UINT_LIMIT
    modifies s.fs, s.log, s.log.block
    ensures r.Wrote? ==> Written(s.sb, i, old(s.fs.St()), s.fs.St(), off, src)
    ensures
      && r.Wrote? && |src| > 0 && LowestFree(old(s.fs.owner), F)
      && |F| == |Missing(old(s.fs.St()).img, i, off / BSIZE, BlocksFor(off + |src|))| ==>
        |s.fs.mine| == WriteCost(s.sb, old(s.fs.St()).img, i, off, |src|, F)
    ensures panicked && r.Wrote? ==> |s.fs.mine| > MAXOPBLOCKS
    ensures panicked && r.Wrote? && |src| <= WRITE_CHUNK ==> |MapBlocks(s.sb, old(s.fs.St()), s.fs.St())| > 2
    ensures r.Wrote? && |src| <= WRITE_CHUNK && s.sb.size <= 2 * BPB ==> !panicked
    ensures r.Wrote? && |s.fs.mine| <= MAXOPBLOCKS ==> s.Calm()
    ensures !panicked ==> s.Valid()
  {
    hide Good, Content, Joined, Tied, Worthy, LogSafety.Reaches, LogSpace.ReachesWithin, Written, MapBlocks, Missing,
      LowestFree, WriteCost, BlocksFor;
    ghost var st := s.fs.St();
    r, panicked := s.Write(i, src, off);
    if r.Wrote? {
      FreshCalls(s.sb, i, st, s.fs.St(), off, src);
      assert s.fs.mine - {} == s.fs.mine;
      if |src| > 0 && LowestFree(st.owner, F)
         && |F| == |Missing(st.img, i, off / BSIZE, BlocksFor(off + |src|))| {
        WriteCostExact(s.sb, i, st, s.fs.St(), off, src, F);
      }
      if |src| <= WRITE_CHUNK {
        WriteFitsReservation(s.sb, i, st, s.fs.St(), off, src);
        if s.sb.size <= 2 * BPB {
          SmallDiskWriteFits(s.sb, i, st, s.fs.St(), off, src);
        }
      }
    }
  }

  // Its calls all come before it has logged MAXOPBLOCKS blocks exactly when it logs at most that many.
  lemma FreshCalls(sb: Superblock, i: nat, st0: State, st: State, off: nat, src: seq<Byte>)
    requires Good(sb, st0, {}) && Written(sb, i, st0, st, off, src) && st0.mine == st0.early == {}
    ensures |st.early| < MAXOPBLOCKS <==> |st.mine| <= MAXOPBLOCKS
  {
    hide Good, Content, LowestTaken, Keeps, Ptr, BlocksFor;
    if |src| > 0 {
      WriteCalls(sb, i, st0, st, off, src);
    }
  }

  // A write whose operation has not ended when the power fails leaves no trace in any file.
  method LostWrite(s: Storage, i: nat, src: seq<Byte>, off: Word) returns (started: bool)
    requires s.Valid() && s.Settled()
    requires i < s.sb.ninodes && i < |s.fs.inodes| && s.fs.inodes[i].typ != 0 && |src| < UINT_LIMIT
    modifies s.fs, s.log, s.log.block
    ensures s.Valid() && s.Settled() && s.fs.inodes == old(s.fs.inodes)
    ensures forall j :: 0 <= j < |s.fs.inodes| ==> Content(s.fs.St().img, j) == Content(old(s.fs.St()).img, j)
  {
    hide Good, Content, Joined, Tied, Worthy, LogSafety.Reaches, LogSpace.ReachesWithin, Written, Mounted;
    started := s.Begin();
    if started {
      var r, panicked := s.Write(i, src, off);
      s.CrashRecover();
    }
  }

  // A write whose operation was the last one out is there after the power fails.
  method KeptWrite(s: Storage, i: nat, src: seq<Byte>, off: Word)
    returns (started: bool, r: WriteResult, panicked: bool)
    requires s.Valid() && s.log.s.ops == map[]
    requires i < s.sb.ninodes && i < |s.fs.inodes| && s.fs.inodes[i].typ != 0 && |src| < UINT_LIMIT
    modifies s.fs, s.log, s.log.block
    ensures started && !panicked ==> s.Valid() && s.Settled()
    ensures started && !panicked && r.Wrote? ==>
      && |s.fs.inodes| == |old(s.fs.inodes)| && off <= old(s.fs.inodes)[i].size
      && Content(s.fs.St().img, i) == Overwrite(Content(old(s.fs.St()).img, i), off, src)
      && forall j :: 0 <= j < |s.fs.inodes| && j != i ==> Content(s.fs.St().img, j) == Content(old(s.fs.St()).img, j)
  {
    hide Good, Content, Joined, Tied, Worthy, LogSafety.Reaches, LogSpace.ReachesWithin, WriteLogged, InPlace, Keeps,
      Overwrite, Mounted;
    started := s.Begin();
    if started {
      r, panicked := s.Write(i, src, off);
      if !panicked {
        s.End();
        s.CrashRecover();
      }
    } else {
      r, panicked := WriteFailed, false;
    }
  }
}
