/** filewrite over the log: whenever power fails, what recovery finds is a prefix of the write made of whole
    chunks. */
module FileCrash {
  import opened Blocks
  import opened Params
  import opened FsLayout
  import opened FsState
  import opened FsWrite
  import opened FsFootprint
  import opened Files
  import opened Cipher
  import opened Storage
  import opened Transactions
  import FsCommit
  import opened FileSystem
  import FsTrace
  import LogMachine
  import LogSafety
  import LogSpace
  import Tower

  // The files of m are those of m0 with `data` written into file ip at off; nothing written changes nothing.
  ghost predicate Holding(m0: Image, m: Image, ip: nat, off: nat, data: seq<Byte>) {
    if data == [] then SameFiles(m0, m) else Overwritten(m0, m, ip, off, data)
  }

  lemma HoldingSame(m0: Image, m: Image, m': Image, ip: nat, off: nat, data: seq<Byte>)
    requires Holding(m0, m, ip, off, data) && SameFiles(m, m')
    ensures Holding(m0, m', ip, off, data)
  {
    hide Content, Overwrite;
  }

  lemma HoldingInode(m0: Image, m: Image, ip: nat, off: nat, data: seq<Byte>)
    requires Holding(m0, m, ip, off, data) && ip < |m0.inodes|
    ensures |m.inodes| == |m0.inodes| && m.inodes[ip].typ == m0.inodes[ip].typ
    ensures data == [] ==> m.inodes[ip].size == m0.inodes[ip].size
    ensures data != [] ==> off <= m0.inodes[ip].size && off + |data| <= m.inodes[ip].size
  {
    hide Content, Overwrite, Overwritten;
    if data != [] {
      OverwrittenSize(m0, m, ip, off, data);
    }
  }

  lemma HoldingStep(sb: Superblock, m0: Image, st: State, st': State, ip: nat, off: nat, a: seq<Byte>, b: seq<Byte>)
    requires Holding(m0, st.img, ip, off, a) && ip < |m0.inodes| && Written(sb, ip, st, st', off + |a|, b) && b != []
    ensures Holding(m0, st'.img, ip, off, a + b)
  {
    hide Content, Overwrite, Overwritten, Written;
    HoldingInode(m0, st.img, ip, off, a);
    if a == [] {
      WrittenGood(sb, ip, st, st', off, b);
      OverwrittenFrom(m0, st.img, ip, off);
    }
    OverwrittenStep(sb, m0, st, st', ip, off, a, b);
  }

  lemma OverwrittenFrom(m0: Image, m: Image, ip: nat, off: nat)
    requires SameFiles(m0, m) && ip < |m0.inodes| && off <= m0.inodes[ip].size
    ensures Overwritten(m0, m, ip, off, [])
  {
    OverwrittenStart(m0, ip, off);
  }

  // Outside every operation, with nothing left to commit.
  ghost predicate Resting(s: Storage)
    reads s, s.fs, s.log, s.log.block
  {
    s.Valid() && s.Settled() && s.log.s.ops == map[] && s.log.n == 0
  }

  // The log has room for any chunk whose operation begins now.
  ghost predicate Roomy(s: Storage)
    reads s, s.log
  {
    s.Calm() && s.sb.nlog > LOGSIZE && s.sb.size <= 2 * BPB
  }

  // A chunk makes none of its calls after the reservation is used up, if the disk has two free-map blocks.
  lemma ChunkCalm(sb: Superblock, ip: nat, st: State, st': State, off: nat, src: seq<Byte>)
    requires Good(sb, st, {}) && Written(sb, ip, st, st', off, src) && st.mine == st.early == {}
    requires |src| <= WRITE_CHUNK && sb.size <= 2 * BPB
    ensures |st'.early| < MAXOPBLOCKS
  {
    hide Good, Written;
    FreshCalls(sb, ip, st, st', off, src);
    SmallDiskWriteFits(sb, ip, st, st', off, src);
    assert st'.mine - {} == st'.mine;
  }

  // begin_op and writei of one chunk, before its end_op.
  method BeginChunk(s: Storage, ip: nat, src: seq<Byte>, off: Word, ghost m0: Image, ghost off0: nat,
                    ghost a: seq<Byte>)
    returns (w: WriteResult, panicked: bool)
    requires Resting(s) && ip < s.sb.ninodes && ip < |s.fs.inodes| && s.fs.inodes[ip].typ != 0
    requires 0 < |src| <= WRITE_CHUNK && ip < |m0.inodes| && off == off0 + |a|
    requires Holding(m0, s.fs.St().img, ip, off0, a)
    modifies s.fs, s.log, s.log.block
    ensures s.CrashSafe() && SameFiles(old(s.Disk()), s.Disk())
    ensures w.WriteDevice? <==> old(s.fs.inodes)[ip].typ == T_DEV
    ensures w.WriteFailed? <==>
      && old(s.fs.inodes)[ip].typ != T_DEV
      && (off > old(s.fs.inodes)[ip].size || off + |src| >= UINT_LIMIT || off + |src| > MAXFILE * BSIZE)
    ensures w.WritePanic? ==> panicked
    ensures w.WriteDevice? || w.WriteFailed? ==> !panicked
    ensures w.Wrote? ==> Holding(m0, s.fs.St().img, ip, off0, a + src)
    ensures !panicked ==> s.Valid() && s.log.s.ops.Keys == {s.fs.op}
    ensures !panicked && !w.Wrote? ==> s.fs.St().img == old(s.fs.St()).img
    ensures old(Roomy(s)) ==> if panicked then w.WritePanic? && Full(s.sb, s.fs.owner) else Roomy(s)
  {
    hide Good, Content, Written, Holding, Full, FsTrace.Tied, Tower.Joined, Tower.Worthy, LogSafety.Reaches,
      LogSpace.ReachesWithin, FsCommit.Mounted;
    var started := s.Begin();
    ghost var st := s.fs.St();
    w, panicked := s.Write(ip, src, off);
    if w.Wrote? {
      HoldingStep(s.sb, m0, st, s.fs.St(), ip, off0, a, src);
      if s.sb.size <= 2 * BPB {
        ChunkCalm(s.sb, ip, st, s.fs.St(), off, src);
      }
    }
  }

  // Where the chunk that starts at `from` ends.
  function ChunkEnd(src: seq<Byte>, from: nat): nat {
    Least(from + WRITE_CHUNK, |src|)
  }

  function After(src: seq<Byte>, from: nat, wrote: bool): (n: nat)
    requires from <= |src|
    ensures n <= |src|
  {
    if wrote then ChunkEnd(src, from) else from
  }

  lemma NoneButOne(ops: map<nat, set<nat>>, o: nat)
    requires ops.Keys == {o}
    ensures ops - {o} == map[]
  {
  }

  // One pass of filewrite's loop. A panic leaves the disk as the pass found it.
  method WriteChunk(s: Storage, ip: nat, src: seq<Byte>, off: Word, from: nat, ghost m0: Image)
    returns (w: WriteResult, panicked: bool)
    requires from < |src| && ip < |m0.inodes| && off + from < UINT_LIMIT
    requires Resting(s) && ip < s.sb.ninodes && ip < |s.fs.inodes| && s.fs.inodes[ip].typ != 0
    requires Holding(m0, s.fs.St().img, ip, off, src[..from])
    modifies s.fs, s.log, s.log.block
    ensures s.CrashSafe() && (panicked ==> Holding(m0, s.Disk(), ip, off, src[..from]))
    ensures !panicked ==> Resting(s) && Holding(m0, s.fs.St().img, ip, off, src[..After(src, from, w.Wrote?)])
    ensures w.WriteDevice? <==> old(s.fs.inodes)[ip].typ == T_DEV
    ensures w.WriteFailed? <==>
      && old(s.fs.inodes)[ip].typ != T_DEV
      && (off + from > old(s.fs.inodes)[ip].size || off + ChunkEnd(src, from) > MAXFILE * BSIZE)
    ensures w.WritePanic? ==> panicked
    ensures w.WriteDevice? || w.WriteFailed? ==> !panicked
    ensures old(Roomy(s)) ==> if panicked then Full(s.sb, s.fs.owner) else Roomy(s)
  {
    hide Good, Content, Written, Holding, Full, FsTrace.Tied, Tower.Joined, Tower.Worthy, LogSafety.Reaches,
      LogSpace.ReachesWithin, FsCommit.Mounted, SameFiles;
    var chunk := src[from..ChunkEnd(src, from)];
    assert src[..from] + chunk == src[..ChunkEnd(src, from)];
    HoldingSame(m0, s.fs.St().img, s.Disk(), ip, off, src[..from]);
    ghost var disk := s.Disk();
    w, panicked := BeginChunk(s, ip, chunk, off + from, m0, off, src[..from]);
    HoldingSame(m0, disk, s.Disk(), ip, off, src[..from]);
    if !panicked {
      NoneButOne(s.log.s.ops, s.fs.op);
      s.End();
    }
  }

  // filewrite's loop, when no other operation is open. At its end, by a panic too, the disk holds exactly the
  // chunks written. With room in the log the only panic is a full disk.
  method Filewrite(s: Storage, ip: nat, src: seq<Byte>, off: Word) returns (r: IoResult, done: nat)
    requires Resting(s) && ip < s.sb.ninodes && ip < |s.fs.inodes| && s.fs.inodes[ip].typ != 0
    requires |src| < 0x8000_0000
    modifies s.fs, s.log, s.log.block
    ensures s.CrashSafe() && done <= |src| && (done == |src| || done % WRITE_CHUNK == 0)
    ensures Holding(old(s.fs.St().img), s.Disk(), ip, off, src[..done])
    ensures !r.Panic? ==> Resting(s) && Holding(old(s.fs.St().img), s.fs.St().img, ip, off, src[..done])
    ensures r.Count? <==> !r.Panic? && done == |src|
    ensures r.Device? <==> src != [] && old(s.fs.inodes)[ip].typ == T_DEV
    ensures !r.Panic? ==> (r.Failed? <==>
      && src != [] && old(s.fs.inodes)[ip].typ != T_DEV
      && (off > old(s.fs.inodes)[ip].size || off + |src| > MAXFILE * BSIZE))
    ensures old(Roomy(s)) ==> if r.Panic? then Full(s.sb, s.fs.owner) else Roomy(s)
  {
    hide Good, Content, Written, Holding, Full, FsTrace.Tied, Tower.Joined, Tower.Worthy, LogSafety.Reaches,
      LogSpace.ReachesWithin, FsCommit.Mounted, SameFiles, LogMachine.HeadOf;
    ghost var m0 := s.fs.St().img;
    done := 0;
    HoldingNothing(m0, ip, off);
    assert src[..0] == [];
    while done < |src|
      invariant done <= |src| && (done == |src| || done % WRITE_CHUNK == 0) && Resting(s)
      invariant Holding(m0, s.fs.St().img, ip, off, src[..done])
      invariant old(Roomy(s)) ==> Roomy(s)
      invariant done > 0 ==> m0.inodes[ip].typ != T_DEV && off <= m0.inodes[ip].size && off + done <= MAXFILE * BSIZE
    {
      HoldingInode(m0, s.fs.St().img, ip, off, src[..done]);
      var w, panicked := WriteChunk(s, ip, src, off, done, m0);
      if panicked {
        return Panic, done;
      }
      if !w.Wrote? {
        HoldingSame(m0, s.fs.St().img, s.Disk(), ip, off, src[..done]);
        return if w.WriteDevice? then Device else Failed, done;
      }
      done := ChunkEnd(src, done);
    }
    HoldingSame(m0, s.fs.St().img, s.Disk(), ip, off, src[..done]);
    return Count(|src|), done;
  }

  lemma HoldingNothing(m0: Image, ip: nat, off: nat)
    ensures Holding(m0, m0, ip, off, [])
  {
  }

  // Power fails in the chunk that starts at `from`: before its end_op, or inside it after k block writes.
  method CutChunk(s: Storage, ip: nat, src: seq<Byte>, off: Word, from: nat, ghost m0: Image, ending: bool, k: nat)
    returns (done: nat)
    requires Resting(s) && ip < s.sb.ninodes && ip < |s.fs.inodes| && s.fs.inodes[ip].typ != 0
    requires from < |src| && from % WRITE_CHUNK == 0 && ip < |m0.inodes| && off + from < UINT_LIMIT
    requires Holding(m0, s.fs.St().img, ip, off, src[..from])
    modifies s.fs, s.log, s.log.block
    ensures Resting(s) && (done == from || (ending && (done == |src| || done == from + WRITE_CHUNK)))
    ensures from <= done <= |src| && done <= from + WRITE_CHUNK
    ensures Holding(m0, s.fs.St().img, ip, off, src[..done])
  {
    hide Good, Content, Written, Holding, Full, FsTrace.Tied, Tower.Joined, Tower.Worthy, LogSafety.Reaches,
      LogSpace.ReachesWithin, FsCommit.Mounted;
    var end := ChunkEnd(src, from);
    HoldingSame(m0, s.fs.St().img, s.Disk(), ip, off, src[..from]);
    ghost var disk := s.Disk();
    var w, panicked := BeginChunk(s, ip, src[from..end], off + from, m0, off, src[..from]);
    assert src[..from] + src[from..end] == src[..end];
    HoldingSame(m0, disk, s.Disk(), ip, off, src[..from]);
    done := from;
    if panicked || !ending {
      disk := s.Disk();
      s.CrashRecover();
    } else {
      var headed := k > s.log.n;
      disk := if headed then s.fs.St().img else s.Disk();
      if w.Wrote? && headed {
        done := end;
      }
      if k < 2 * s.log.n + 2 {
        EndThenCrash(s, k);
      } else {
        s.End();
        s.CrashRecover();
      }
    }
    HoldingSame(m0, disk, s.fs.St().img, ip, off, src[..done]);
  }

  // filewrite until power fails. That happens right after the chunks of the first `upTo` bytes, or in the next
  // chunk: before its end_op, or inside it after k block writes. After recovery the files hold `done` bytes of
  // the write: whole chunks, those that ended before and the last one if its header was written. r is what
  // the first `upTo` bytes came to.
  method FilewriteThenCrash(s: Storage, ip: nat, src: seq<Byte>, off: Word, upTo: nat, ending: bool, k: nat)
    returns (r: IoResult, done: nat)
    requires Resting(s) && ip < s.sb.ninodes && ip < |s.fs.inodes| && s.fs.inodes[ip].typ != 0
    requires |src| < 0x8000_0000 && upTo <= |src| && (upTo == |src| || upTo % WRITE_CHUNK == 0)
    modifies s.fs, s.log, s.log.block
    ensures Resting(s) && done <= |src| && (done == |src| || done % WRITE_CHUNK == 0)
    ensures done <= upTo + WRITE_CHUNK && (!ending ==> done <= upTo) && (r.Count? ==> upTo <= done)
    ensures !r.Panic? && old(s.fs.inodes)[ip].typ != T_DEV ==>
      (r.Count? <==> upTo == 0 || (off <= old(s.fs.inodes)[ip].size && off + upTo <= MAXFILE * BSIZE))
    ensures Holding(old(s.fs.St().img), s.fs.St().img, ip, off, src[..done])
  {
    hide Good, Content, Written, Holding, Full, FsTrace.Tied, Tower.Joined, Tower.Worthy, LogSafety.Reaches,
      LogSpace.ReachesWithin, FsCommit.Mounted;
    ghost var m0 := s.fs.St().img;
    r, done := Filewrite(s, ip, src[..upTo], off);
    assert src[..upTo][..done] == src[..done];
    if r.Count? && upTo < |src| {
      HoldingInode(m0, s.fs.St().img, ip, off, src[..done]);
      done := CutChunk(s, ip, src, off, done, m0, ending, k);
    } else {
      ghost var disk := s.Disk();
      s.CrashRecover();
      HoldingSame(m0, disk, s.fs.St().img, ip, off, src[..done]);
    }
  }

  // ---- the cipher calls ----

  lemma ShiftedSame(m0: Image, m: Image, m': Image, ip: nat, off0: nat, off: nat, encrypting: bool, key: int)
    requires Shifted(m0, m, ip, off0, off, encrypting, key) && SameFiles(m, m') && off0 <= m0.inodes[ip].size
    ensures Shifted(m0, m', ip, off0, off, encrypting, key)
  {
    hide Content, Overwrite, ShiftAll;
  }

  // One pass of the loop of sys_encr and sys_decr, inside an operation.
  method CipherPass(s: Storage, ip: nat, off: Word, encrypting: bool, key: int, ghost m0: Image, ghost off0: nat)
    returns (r: IoResult)
    requires s.Valid() && s.fs.op in s.log.s.ops
    requires ip < s.sb.ninodes && ip < |s.fs.inodes| && s.fs.inodes[ip].typ != 0 && s.fs.inodes[ip].typ != T_DEV
    requires Shifted(m0, s.fs.St().img, ip, off0, off, encrypting, key)
    modifies s.fs`blocks, s.fs`inodes, s.fs`logged, s.fs`mine, s.fs`early, s.fs`trace, s.fs`owner, s.log, s.log.block
    ensures s.CrashSafe() && s.log.s.ops.Keys == old(s.log.s.ops).Keys
    ensures r.Panic? || r.Failed? || r.Count?
    ensures r.Failed? <==> off >= m0.inodes[ip].size
    ensures r.Count? ==> r.n == Least(BSIZE, m0.inodes[ip].size - off)
    ensures !r.Panic? ==>
      s.Valid() && Shifted(m0, s.fs.St().img, ip, off0, off + if r.Count? then r.n else 0, encrypting, key)
  {
    hide Good, Content, Written, Shifted, ShiftAll, FsTrace.Tied, Tower.Joined, Tower.Worthy, LogSafety.Reaches,
      LogSpace.ReachesWithin, FsCommit.Mounted;
    ShiftedFacts(m0, s.fs.St().img, ip, off0, off, encrypting, key);
    SizeBound(s.sb, s.fs.St(), ip);
    var x := s.Read(ip, off, BSIZE);
    if x.ReadFailed? || |x.data| == 0 {
      return Failed;
    }
    ghost var st := s.fs.St();
    var buf := ShiftAll(x.data, encrypting, key);
    var w, panicked := s.Write(ip, buf, off);
    if panicked {
      return Panic;
    }
    ShiftedStep(s.sb, m0, st, s.fs.St(), ip, off0, off, |x.data|, encrypting, key);
    return Count(|x.data|);
  }

  // Its passes in one transaction: ten, or fewer at the end of the file.
  method CipherPasses(s: Storage, ip: nat, off: Word, encrypting: bool, key: int, ghost m0: Image, ghost off0: nat)
    returns (r: IoResult)
    requires s.Valid() && s.fs.op in s.log.s.ops && ip < s.sb.ninodes && ip < |s.fs.inodes| && ip < |m0.inodes|
    requires s.fs.inodes[ip].typ != 0 && s.fs.inodes[ip].typ != T_DEV
    requires Shifted(m0, s.fs.St().img, ip, off0, off, encrypting, key)
    modifies s.fs`blocks, s.fs`inodes, s.fs`logged, s.fs`mine, s.fs`early, s.fs`trace, s.fs`owner, s.log, s.log.block
    ensures s.CrashSafe() && s.log.s.ops.Keys == old(s.log.s.ops).Keys && (r.Panic? || r.Failed? || r.Count?)
    ensures r.Failed? ==> Rest(m0, ip, off) <= SPAN - BSIZE
    ensures r.Count? ==> Rest(m0, ip, off) > SPAN - BSIZE && r.n == Least(SPAN, Rest(m0, ip, off))
    ensures r.Count? ==> s.Valid() && off + r.n < UINT_LIMIT
    ensures r.Count? ==> Shifted(m0, s.fs.St().img, ip, off0, off + r.n, encrypting, key)
  {
    hide Good, Content, Written, Shifted, ShiftAll, FsTrace.Tied, Tower.Joined, Tower.Worthy, LogSafety.Reaches,
      LogSpace.ReachesWithin, FsCommit.Mounted, SameFiles, LogMachine.Next;
    ShiftedFacts(m0, s.fs.St().img, ip, off0, off, encrypting, key);
    var passes, n := 0, 0;
    while passes < ROUNDS
      invariant 0 <= passes <= ROUNDS && s.Valid() && s.log.s.ops.Keys == old(s.log.s.ops).Keys
      invariant n == Least(passes * BSIZE, Rest(m0, ip, off))
      invariant passes > 0 ==> Rest(m0, ip, off) > (passes - 1) * BSIZE
      invariant s.fs.St().img.inodes == m0.inodes && off + n < UINT_LIMIT
      invariant Shifted(m0, s.fs.St().img, ip, off0, off + n, encrypting, key)
    {
      var p := CipherPass(s, ip, off + n, encrypting, key, m0, off0);
      if !p.Count? {
        return p;
      }
      ShiftedFacts(m0, s.fs.St().img, ip, off0, off + n + p.n, encrypting, key);
      passes, n := passes + 1, n + p.n;
    }
    return Count(n);
  }

  // A transaction of the loop, up to before its end_op.
  method CipherTx(s: Storage, ip: nat, off: Word, encrypting: bool, key: int, ghost m0: Image, ghost off0: nat)
    returns (r: IoResult)
    requires Resting(s) && ip < s.sb.ninodes && ip < |s.fs.inodes| && ip < |m0.inodes|
    requires s.fs.inodes[ip].typ != 0 && s.fs.inodes[ip].typ != T_DEV
    requires Shifted(m0, s.fs.St().img, ip, off0, off, encrypting, key)
    modifies s.fs, s.log, s.log.block
    ensures s.CrashSafe() && SameFiles(old(s.Disk()), s.Disk()) && (r.Panic? || r.Failed? || r.Count?)
    ensures r.Failed? ==> Rest(m0, ip, off) <= SPAN - BSIZE
    ensures r.Count? ==> Rest(m0, ip, off) > SPAN - BSIZE && r.n == Least(SPAN, Rest(m0, ip, off))
    ensures r.Count? ==> s.Valid() && s.log.s.ops.Keys == {s.fs.op} && off + r.n < UINT_LIMIT
    ensures r.Count? ==> Shifted(m0, s.fs.St().img, ip, off0, off + r.n, encrypting, key)
  {
    hide Good, Content, Written, Shifted, ShiftAll, FsTrace.Tied, Tower.Joined, Tower.Worthy, LogSafety.Reaches,
      LogSpace.ReachesWithin, FsCommit.Mounted, LogMachine.Next;
    var started := s.Begin();
    r := CipherPasses(s, ip, off, encrypting, key, m0, off0);
  }

  lemma SameTwice(a: Image, b: Image, c: Image)
    requires SameFiles(a, b) && SameFiles(b, c)
    ensures SameFiles(a, c)
  {
    hide Content;
  }

  lemma InnerIs(rest: nat, t: nat)
    ensures t < Inner(rest) <==> rest > t * SPAN + (SPAN - BSIZE)
  {
  }

  // The same with its end_op. Short of that the disk has the files there were.
  method CipherCommit(s: Storage, ip: nat, off: Word, encrypting: bool, key: int, ghost m0: Image, ghost off0: nat)
    returns (r: IoResult)
    requires Resting(s) && ip < s.sb.ninodes && ip < |s.fs.inodes| && ip < |m0.inodes|
    requires s.fs.inodes[ip].typ != 0 && s.fs.inodes[ip].typ != T_DEV
    requires Shifted(m0, s.fs.St().img, ip, off0, off, encrypting, key)
    modifies s.fs, s.log, s.log.block
    ensures s.CrashSafe() && (r.Panic? || r.Failed? || r.Count?)
    ensures !r.Count? ==> SameFiles(old(s.fs.St().img), s.Disk())
    ensures r.Failed? ==> Rest(m0, ip, off) <= SPAN - BSIZE
    ensures r.Count? ==> Rest(m0, ip, off) > SPAN - BSIZE && r.n == Least(SPAN, Rest(m0, ip, off))
    ensures r.Count? ==> Resting(s) && off + r.n < UINT_LIMIT
    ensures r.Count? ==> Shifted(m0, s.fs.St().img, ip, off0, off + r.n, encrypting, key)
  {
    hide Good, Content, Written, Shifted, ShiftAll, FsTrace.Tied, Tower.Joined, Tower.Worthy, LogSafety.Reaches,
      LogSpace.ReachesWithin, FsCommit.Mounted, LogMachine.Next, SameFiles, Rest;
    ghost var m, disk := s.fs.St().img, s.Disk();
    r := CipherTx(s, ip, off, encrypting, key, m0, off0);
    if r.Count? {
      NoneButOne(s.log.s.ops, s.fs.op);
      s.End();
    } else {
      SameTwice(m, disk, s.Disk());
    }
  }

  // sys_encr and sys_decr until power fails, in the transaction number `stop` or, if there are no more, in the
  // last. After recovery exactly the bytes of the transactions before it went through the cipher, once, and the
  // mark is as it was.
  method CipherThenCrash(s: Storage, ip: nat, off: Word, encrypting: bool, key: int, stop: nat)
    returns (txs: nat, panicked: bool)
    requires Resting(s) && ip < s.sb.ninodes && ip < |s.fs.inodes|
    requires s.fs.inodes[ip].typ != 0 && s.fs.inodes[ip].typ != T_DEV
    modifies s.fs, s.log, s.log.block
    ensures Resting(s) && s.fs.inodes == old(s.fs.inodes)
    ensures var n := Least(stop, Inner(Rest(old(s.fs.St().img), ip, off)));
      txs <= n && (!panicked ==> txs == n)
    ensures PartCiphered(old(s.fs.St().img), s.fs.St().img, ip, off, txs, encrypting, key)
  {
    hide Good, Content, Written, Shifted, ShiftAll, FsTrace.Tied, Tower.Joined, Tower.Worthy, LogSafety.Reaches,
      LogSpace.ReachesWithin, FsCommit.Mounted, SameFiles, LogMachine.Next, Inner, PartCiphered;
    ghost var m0 := s.fs.St().img;
    ghost var m := m0;
    ShiftedStart(m0, ip, off, encrypting, key);
    txs, panicked := 0, false;
    ghost var rest := Rest(m0, ip, off);
    var done := 0;
    while txs < stop
      invariant txs <= stop && txs <= Inner(rest) && done == Least(txs * SPAN, rest) && off + done < UINT_LIMIT
      invariant Resting(s) && s.fs.St().img == m && Shifted(m0, m, ip, off, off + done, encrypting, key)
    {
      ShiftedFacts(m0, m, ip, off, off + done, encrypting, key);
      InnerIs(rest, txs);
      var r := CipherCommit(s, ip, off + done, encrypting, key, m0, off);
      if !r.Count? {
        panicked := r.Panic?;
        break;
      }
      m := s.fs.St().img;
      txs, done := txs + 1, done + r.n;
    }
    ghost var disk := s.Disk();
    assert SameFiles(m, disk);
    s.CrashRecover();
    SameTwice(m, disk, s.fs.St().img);
    CipherKept(m0, m, s.fs.St().img, ip, off, txs, encrypting, key);
  }

  // The bytes of file ip from off on that `txs` transactions cover went through the cipher; nothing else changed.
  ghost predicate PartCiphered(m0: Image, m: Image, ip: nat, off: nat, txs: nat, encrypting: bool, key: int)
    requires ip < |m0.inodes|
  {
    if off <= m0.inodes[ip].size then
      Shifted(m0, m, ip, off, off + Least(txs * SPAN, Rest(m0, ip, off)), encrypting, key)
    else SameFiles(m0, m)
  }

  lemma CipherKept(m0: Image, m: Image, m': Image, ip: nat, off: nat, txs: nat, encrypting: bool, key: int)
    requires ip < |m0.inodes| && SameFiles(m, m')
    requires Shifted(m0, m, ip, off, off + Least(txs * SPAN, Rest(m0, ip, off)), encrypting, key)
    ensures m'.inodes == m0.inodes && PartCiphered(m0, m', ip, off, txs, encrypting, key)
  {
    hide Content, Overwrite, ShiftAll;
    if off <= m0.inodes[ip].size {
      ShiftedSame(m0, m, m', ip, off, off + Least(txs * SPAN, Rest(m0, ip, off)), encrypting, key);
    }
  }

  // ---- encrypting again after the crash ----

  // The mark still allows it, but what the first call did is then encrypted twice. The outcome is what one
  // undisturbed call gives exactly when no transaction had ended or the key does nothing.
  lemma EncryptedTwice(m0: Image, m1: Image, m2: Image, ip: nat, txs: nat, key: int)
    requires ip < |m0.inodes| && PartCiphered(m0, m1, ip, 0, txs, true, key) && Ciphered(m1, m2, ip, 0, true, key)
    requires key >= 0 && forall k :: 0 <= k < m0.inodes[ip].size ==> Content(m0, ip)[k] < 128
    ensures Content(m2, ip) == EncryptAll(Content(m0, ip), key) <==>
      txs == 0 || m0.inodes[ip].size == 0 || key % 128 == 0
  {
    hide Content, ShiftAll, EncryptAll, Overwrite, Encrypt;
    var c, done := Content(m0, ip), Least(txs * SPAN, m0.inodes[ip].size);
    assert Content(m2, ip) == Twice(c, done, key) by { AgainFrom(m0, m1, m2, ip, done, key); }
    var e := EncryptAll(c, key);
    forall k | 0 <= k < |c|
      ensures Twice(c, done, key)[k] == e[k] <==> k >= done || key % 128 == 0
    {
      TwiceByte(c[k], key);
    }
    if done > 0 && key % 128 != 0 {
      assert Twice(c, done, key)[0] != e[0];
    } else {
      assert Twice(c, done, key) == e;
    }
  }

  // c with its first `done` bytes encrypted twice and the others once.
  function Twice(c: seq<Byte>, done: nat, key: int): (r: seq<Byte>)
    requires done <= |c|
    ensures |r| == |c|
    ensures forall k :: 0 <= k < |c| ==>
      r[k] == if k < done then Encrypt(Encrypt(c[k], key), key) else Encrypt(c[k], key)
  {
    EncryptAll(EncryptAll(c[..done], key) + c[done..], key)
  }

  lemma AgainFrom(m0: Image, m1: Image, m2: Image, ip: nat, done: nat, key: int)
    requires Shifted(m0, m1, ip, 0, done, true, key) && Ciphered(m1, m2, ip, 0, true, key)
    ensures done <= |Content(m0, ip)| && Content(m2, ip) == Twice(Content(m0, ip), done, key)
  {
    hide Content, EncryptAll;
    var c, c1 := Content(m0, ip), Content(m1, ip);
    assert c[0..done] == c[..done] && c1[..0] == [] && c1[0..] == c1;
    assert c1 == EncryptAll(c[..done], key) + c[done..];
  }

  lemma TwiceByte(x: Byte, key: int)
    requires x < 128 && key >= 0
    ensures Encrypt(Encrypt(x, key), key) == Encrypt(x, key) <==> key % 128 == 0
  {
    hide Encrypt;
    EncryptPlain(x, key);
    var e := (x + key) % 128;
    EncryptPlain(e, key);
    SameRemainder(e, key);
  }

  lemma EncryptPlain(x: Byte, key: int)
    requires x < 128 && key >= 0
    ensures Encrypt(x, key) == (x + key) % 128
  {
  }

  lemma SameRemainder(e: nat, key: nat)
    requires e < 128
    ensures (e + key) % 128 == e <==> key % 128 == 0
  {
  }
}
