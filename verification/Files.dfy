/** Open files (kernel/file.c:95-155) and the cipher system calls (kernel/sysfile.c:462-564): how
    reads, writes and whole-file rewrites are cut into transactions over the file system. */
module Files {
  import opened Blocks
  import opened Params
  import opened FsLayout
  import opened FsOwnership
  import opened FsState
  import opened FsWrite
  import opened FsTrunc
  import opened FsCommit
  import opened FsTrace
  import opened FsFootprint
  import opened Transactions
  import opened FileSystem
  import opened Cipher

  // File ip of m is file ip of m0 with `data` written at off; everything else is as in m0.
  ghost predicate Overwritten(m0: Image, m: Image, ip: nat, off: nat, data: seq<Byte>) {
    && |m.inodes| == |m0.inodes| && ip < |m.inodes| && off <= m0.inodes[ip].size
    && Content(m, ip) == Overwrite(Content(m0, ip), off, data)
    && m.inodes[ip] == m0.inodes[ip].(size := m.inodes[ip].size, addrs := m.inodes[ip].addrs)
    && (forall j :: 0 <= j < |m.inodes| && j != ip ==> m.inodes[j] == m0.inodes[j] && Content(m, j) == Content(m0, j))
  }

  lemma OverwrittenSize(m0: Image, m: Image, ip: nat, off: nat, data: seq<Byte>)
    requires Overwritten(m0, m, ip, off, data)
    ensures |m.inodes| == |m0.inodes| && ip < |m.inodes| && m.inodes[ip].typ == m0.inodes[ip].typ
    ensures off <= m0.inodes[ip].size && off + |data| <= m.inodes[ip].size
  {
    hide ByteAt;
    assert |Content(m, ip)| == m.inodes[ip].size;
  }

  lemma OverwriteTwice(c: seq<Byte>, off: nat, a: seq<Byte>, b: seq<Byte>)
    requires off <= |c|
    ensures off + |a| <= |Overwrite(c, off, a)|
    ensures Overwrite(Overwrite(c, off, a), off + |a|, b) == Overwrite(c, off, a + b)
  {
  }

  lemma OverwrittenStart(m: Image, ip: nat, off: nat)
    requires ip < |m.inodes| && off <= m.inodes[ip].size
    ensures Overwritten(m, m, ip, off, [])
  {
    hide ByteAt;
    assert Overwrite(Content(m, ip), off, []) == Content(m, ip);
  }

  lemma OverwrittenStep(sb: Superblock, m0: Image, st: State, st': State, ip: nat, off: nat, a: seq<Byte>, b: seq<Byte>)
    requires Overwritten(m0, st.img, ip, off, a) && Written(sb, ip, st, st', off + |a|, b)
    ensures Overwritten(m0, st'.img, ip, off, a + b)
  {
    hide Content, Good, WriteLogged, InPlace, Keeps;
    OverwriteTwice(Content(m0, ip), off, a, b);
  }

  lemma ChunkWritten(sb: Superblock, m0: Image, st: State, st': State, ip: nat, off: nat, src: seq<Byte>,
                     i: nat, n: nat)
    requires i + n <= |src| && Written(sb, ip, st, st', off + i, src[i..i + n])
    requires if i == 0 then st.img == m0 else Overwritten(m0, st.img, ip, off, src[..i])
    ensures Overwritten(m0, st'.img, ip, off, src[..i + n])
  {
    hide Content, Overwritten, Written;
    if i == 0 {
      WrittenGood(sb, ip, st, st', off, src[i..i + n]);
      OverwrittenStart(m0, ip, off);
      assert src[..0] == [];
    }
    OverwrittenStep(sb, m0, st, st', ip, off, src[..i], src[i..i + n]);
    assert src[..i] + src[i..i + n] == src[..i + n];
  }

  function Least(a: nat, b: nat): nat {
    if a < b then a else b
  }

  // One more transaction of filewrite.
  lemma ChunkDone(sb: Superblock, m0: Image, op: Op, ip: nat, off: nat, src: seq<Byte>, i: nat, n: nat, ops: seq<Op>)
    requires i < |src| && i == Least(|ops| * WRITE_CHUNK, |src|) && n == Least(WRITE_CHUNK, |src| - i)
    requires Good(sb, op.0, {}) && op.0.mine == op.0.early == {} && Written(sb, ip, op.0, op.1, off + i, src[i..i + n])
    requires if i == 0 then op.0.img == m0 else Overwritten(m0, op.0.img, ip, off, src[..i])
    requires ChunkOps(sb, ip, off, src, ops, m0, op.0.img)
    ensures i + n == Least(|ops + [op]| * WRITE_CHUNK, |src|)
    ensures Overwritten(m0, op.1.img, ip, off, src[..i + n])
    ensures ChunkOps(sb, ip, off, src, ops + [op], m0, op.1.img)
    ensures Footprints(ops + [op]) == Footprints(ops) + [op.1.mine]
    ensures Priors(ops + [op]) == Priors(ops) + [op.1.early]
    ensures |op.1.mine| <= 4 + 3 + 1 + |MapBlocks(sb, op.0, op.1)|
  {
    hide Content, Overwritten, Written, ChunkOps, Footprints, Priors, MapBlocks, Good;
    ChunkWritten(sb, m0, op.0, op.1, ip, off, src, i, n);
    assert src[i..i + n] == Chunk(src, |ops|);
    ChunkOpsStep(sb, ip, off, src, ops, m0, op.0.img, op);
    FootprintsStep(ops, op);
    ChunkOpFits(sb, ip, off, src, op, |ops|);
  }

  // ---- whole-file rewriting ----

  function ShiftAll(s: seq<Byte>, encrypting: bool, key: int): (r: seq<Byte>)
    ensures |r| == |s|
  {
    if encrypting then EncryptAll(s, key) else DecryptAll(s, key)
  }

  lemma ShiftConcat(a: seq<Byte>, b: seq<Byte>, encrypting: bool, key: int)
    ensures ShiftAll(a + b, encrypting, key) == ShiftAll(a, encrypting, key) + ShiftAll(b, encrypting, key)
  {
    hide Encrypt, Decrypt;
    var x, y := ShiftAll(a + b, encrypting, key), ShiftAll(a, encrypting, key) + ShiftAll(b, encrypting, key);
    forall k | 0 <= k < |x|
      ensures x[k] == y[k]
    {
    }
  }

  // Bytes off0..off of file ip went through the cipher exactly once, and nothing else changed. An
  // offset past the end leaves the file alone.
  ghost predicate Shifted(m0: Image, m: Image, ip: nat, off0: nat, off: nat, encrypting: bool, key: int) {
    && ip < |m0.inodes| && off0 <= off
    && (off0 <= m0.inodes[ip].size ==>
          && off <= m0.inodes[ip].size
          && Overwritten(m0, m, ip, off0, ShiftAll(Content(m0, ip)[off0..off], encrypting, key))
          && m.inodes == m0.inodes)
    && (off0 > m0.inodes[ip].size ==> m == m0 && off == off0)
  }

  lemma ShiftedStart(m: Image, ip: nat, off: nat, encrypting: bool, key: int)
    requires ip < |m.inodes|
    ensures Shifted(m, m, ip, off, off, encrypting, key)
  {
    if off <= m.inodes[ip].size {
      OverwrittenStart(m, ip, off);
      assert ShiftAll(Content(m, ip)[off..off], encrypting, key) == [];
    }
  }

  lemma ShiftedFacts(m0: Image, m: Image, ip: nat, off0: nat, off: nat, encrypting: bool, key: int)
    requires Shifted(m0, m, ip, off0, off, encrypting, key)
    ensures ip < |m0.inodes| && m.inodes == m0.inodes && off0 <= off
    ensures off0 <= m0.inodes[ip].size ==> off <= m0.inodes[ip].size
    ensures off0 > m0.inodes[ip].size ==> off == off0 && m == m0
    ensures forall k :: off <= k <= m0.inodes[ip].size ==> Content(m, ip)[off..k] == Content(m0, ip)[off..k]
  {
    hide ByteAt, ShiftAll;
    forall k | off <= k <= m0.inodes[ip].size
      ensures Content(m, ip)[off..k] == Content(m0, ip)[off..k]
    {
    }
  }

  lemma ShiftedStep(sb: Superblock, m0: Image, st: State, st': State, ip: nat, off0: nat, off: nat, n: nat,
                    encrypting: bool, key: int)
    requires Shifted(m0, st.img, ip, off0, off, encrypting, key) && 0 < n && off + n <= m0.inodes[ip].size
    requires Written(sb, ip, st, st', off, ShiftAll(Content(m0, ip)[off..off + n], encrypting, key))
    ensures Shifted(m0, st'.img, ip, off0, off + n, encrypting, key)
  {
    hide Content, Overwritten, ShiftAll, Good;
    var c := Content(m0, ip);
    var a, b := ShiftAll(c[off0..off], encrypting, key), ShiftAll(c[off..off + n], encrypting, key);
    OverwrittenStep(sb, m0, st, st', ip, off0, a, b);
    assert c[off0..off + n] == c[off0..off] + c[off..off + n];
    ShiftConcat(c[off0..off], c[off..off + n], encrypting, key);
  }

  lemma SizeBound(sb: Superblock, st: State, ip: nat)
    requires Good(sb, st, {}) && ip < sb.ninodes && ip < |st.img.inodes|
    ensures st.img.inodes[ip].size <= MAXFILE * BSIZE
  {
    GoodFacts(sb, st, ip);
  }

  // Rewriting bytes in place logs exactly the blocks that hold them.
  lemma RewrittenBlocks(sb: Superblock, m0: Image, ip: nat, st: State, st': State, off: nat, src: seq<Byte>)
    requires Written(sb, ip, st, st', off, src) && off + |src| <= st.img.inodes[ip].size
    requires ip < |m0.inodes| && NoHoles(m0, ip) && Keeps(m0, st.img) && off + |src| <= m0.inodes[ip].size
    ensures st'.mine == st.mine + Touched(m0, ip, off, |src|)
    ensures |src| > 0 ==> st'.early == st.mine + Touched(m0, ip, off, Prior(off, |src|))
    ensures Keeps(m0, st'.img) && st'.owner == st.owner
  {
    hide Content, Good, Ptr, WriteLogged, Shape, Touched, NoHoles;
    TouchedKept(m0, st.img, ip, off, |src|);
    if |src| > 0 {
      PriorIn(off, |src|);
      TouchedKept(m0, st.img, ip, off, Prior(off, |src|));
    }
  }

  // The whole rest of file ip from off0 went through the cipher once and the mark is set.
  ghost predicate Ciphered(m0: Image, m: Image, ip: nat, off0: nat, encrypting: bool, key: int) {
    && |m.inodes| == |m0.inodes| && ip < |m.inodes|
    && m.inodes == m0.inodes[ip := m0.inodes[ip].(major := if encrypting then 1 else 0)]
    && (var c := Content(m0, ip);
        Content(m, ip) == if off0 <= |c| then c[..off0] + ShiftAll(c[off0..], encrypting, key) else c)
    && (forall j :: 0 <= j < |m.inodes| && j != ip ==> Content(m, j) == Content(m0, j))
  }

  lemma CipherDone(sb: Superblock, m0: Image, st: State, ip: nat, off0: nat, off: nat, encrypting: bool, key: int)
    requires Good(sb, st, {}) && ip < sb.ninodes && ip < |st.img.inodes| && st.img.inodes[ip].typ != 0
    requires Shifted(m0, st.img, ip, off0, off, encrypting, key) && off >= m0.inodes[ip].size
    ensures Shape(sb, st.img)
    ensures var ino := st.img.inodes[ip].(major := if encrypting then 1 else 0);
            var st' := Iupdated(sb, st.(img := st.img.(inodes := st.img.inodes[ip := ino])), ip);
            Good(sb, st', {}) && Ciphered(m0, st'.img, ip, off0, encrypting, key)
  {
    hide Good, Content, ShiftAll;
    var ino := st.img.inodes[ip].(major := if encrypting then 1 else 0);
    InodeFieldsSet(sb, st, ip, ino);
    var c := Content(m0, ip);
    if off0 <= |c| {
      assert c[off0..off] == c[off0..];
      var shifted := ShiftAll(c[off0..], encrypting, key);
      assert Overwrite(c, off0, shifted) == c[..off0] + shifted;
    }
  }

  lemma CipherBothWays(m0: Image, m1: Image, m2: Image, ip: nat, key: int)
    requires Ciphered(m0, m1, ip, 0, true, key) && Ciphered(m1, m2, ip, 0, false, key) && 0 <= key <= 128
    requires m0.inodes[ip].major == 0
    ensures m2.inodes == m0.inodes
    ensures forall j :: 0 <= j < |m0.inodes| && j != ip ==> Content(m2, j) == Content(m0, j)
    ensures var c := Content(m0, ip);
            Content(m2, ip) == c <==> forall k :: 0 <= k < |c| ==> c[k] < 128
  {
    hide Content, EncryptAll, DecryptAll;
    var c := Content(m0, ip);
    assert c[..0] == [] && c[0..] == c;
    var e := EncryptAll(c, key);
    assert Content(m1, ip) == e;
    assert e[..0] == [] && e[0..] == e;
    FileRoundTrip(c, key);
  }

  // Every set recorded since `before` has fewer than `bound` elements.
  ghost predicate AllBelow(before: seq<set<nat>>, after: seq<set<nat>>, bound: nat) {
    forall k :: |before| <= k < |after| ==> |after[k]| < bound
  }

  // A cipher call from state st: its transactions are CipherOps and their last calls CipherCalls. They all log
  // at most MAXOPBLOCKS blocks if and only if FitsReservation admits the call, and make every log_write with
  // fewer than MAXOPBLOCKS logged if and only if CallsFit does.
  ghost predicate CipherRecord(sb: Superblock, st: State, ip: nat, off: nat, refs: nat,
                               ended: seq<set<nat>>, ended': seq<set<nat>>, prior: seq<set<nat>>, prior': seq<set<nat>>)
    requires ip < |st.img.inodes|
  {
    var freeing := st.img.inodes[ip].nlink == 0 && refs == 1;
    var r, rest, maps := off % BSIZE, Rest(st.img, ip, off), |MapOf(sb, st.owner, ip)|;
    && ended' == ended + CipherOps(sb, st, ip, off, freeing)
    && prior' == prior + CipherCalls(sb, st, ip, off, freeing)
    && (AllBelow(ended, ended', MAXOPBLOCKS + 1) <==> FitsReservation(r, rest, if freeing then maps else 0))
    && (AllBelow(prior, prior', MAXOPBLOCKS) <==> CallsFit(r, rest, freeing, maps))
  }

  lemma AllBelowAppended(before: seq<set<nat>>, more: seq<set<nat>>, bound: nat)
    ensures AllBelow(before, before + more, bound) <==> forall h :: h in more ==> |h| < bound
  {
    var after := before + more;
    assert forall k :: 0 <= k < |more| ==> more[k] == after[|before| + k] && more[k] in more;
    assert forall k :: |before| <= k < |after| ==> after[k] in more;
  }

  lemma CipherRecorded(sb: Superblock, st: State, ip: nat, off: nat, refs: nat, ended: seq<set<nat>>,
                       prior: seq<set<nat>>)
    requires Good(sb, st, {}) && ip < |st.img.inodes|
    ensures var freeing := st.img.inodes[ip].nlink == 0 && refs == 1;
            CipherRecord(sb, st, ip, off, refs, ended, ended + CipherOps(sb, st, ip, off, freeing),
                         prior, prior + CipherCalls(sb, st, ip, off, freeing))
  {
    hide Good, CipherOps, CipherCalls, FitsReservation, CallsFit, MapOf, AllBelow;
    var freeing := st.img.inodes[ip].nlink == 0 && refs == 1;
    CipherFits(sb, st, ip, off, freeing);
    CipherCalm(sb, st, ip, off, freeing);
    AllBelowAppended(ended, CipherOps(sb, st, ip, off, freeing), MAXOPBLOCKS + 1);
    AllBelowAppended(prior, CipherCalls(sb, st, ip, off, freeing), MAXOPBLOCKS);
  }

  lemma CipherOpsAre(sb: Superblock, st: State, ip: nat, off: nat, freeing: bool)
    requires ip < |st.img.inodes|
    ensures var n := Inner(Rest(st.img, ip, off));
            CipherOps(sb, st, ip, off, freeing) ==
            Finished(st.img, ip, off, n)
            + [Tx(st.img, ip, off, n) + {sb.IBlock(ip)} + (if freeing then MapOf(sb, st.owner, ip) else {})]
    ensures var n := Inner(Rest(st.img, ip, off));
            CipherCalls(sb, st, ip, off, freeing) ==
            FinishedCalls(st.img, ip, off, n)
            + [if freeing then Tx(st.img, ip, off, n) + {sb.IBlock(ip)} + MapOf(sb, st.owner, ip)
               else Tx(st.img, ip, off, n)]
  {
  }

  lemma RewriteStart(sb: Superblock, st: State, ip: nat, off: nat)
    requires Good(sb, st, {}) && ip < sb.ninodes && ip < |st.img.inodes|
    ensures NoHoles(st.img, ip) && Keeps(st.img, st.img) && Pace(Rest(st.img, ip, off), 0, 0, 0)
    ensures Part(st.img, ip, off, 0, 0) == {} && Finished(st.img, ip, off, 0) == FinishedCalls(st.img, ip, off, 0) == []
  {
    hide Good;
    GoodFacts(sb, st, ip);
  }

  // The inode's block is logged, and only the inode's fields change.
  lemma IupdatedFacts(sb: Superblock, st: State, ip: nat, ino: Inode)
    requires Shape(sb, st.img) && ip < sb.ninodes
    ensures var st' := Iupdated(sb, st.(img := st.img.(inodes := st.img.inodes[ip := ino])), ip);
            && st'.mine == st.mine + {sb.IBlock(ip)} && st'.early == st.mine
            && st'.owner == st.owner && st'.img.inodes == st.img.inodes[ip := ino]
  {
    hide PutDinode;
  }

  lemma NoChunkOps(sb: Superblock, ip: nat, off: nat, src: seq<Byte>, m: Image)
    ensures ChunkOps(sb, ip, off, src, [], m, m)
  {
  }

  datatype CipherResult = Done | NoKey | WrongMark | IsDevice

  datatype IoResult = Count(n: nat) | Failed | Device | Panic

  class OpenFile {
    const fs: Fs
    const ip: nat
    const readable: bool
    const writable: bool
    var off: nat

    constructor (fs: Fs, ip: nat, readable: bool, writable: bool)
      ensures this.fs == fs && this.ip == ip && this.readable == readable && this.writable == writable && off == 0
    {
      this.fs, this.ip, this.readable, this.writable, off := fs, ip, readable, writable, 0;
    }

    ghost predicate Valid()
      reads this, fs
    {
      && Good(fs.sb, fs.St(), {}) && fs.Traced() && fs.Recoverable()
      && ip < fs.sb.ninodes && ip < |fs.inodes| && fs.inodes[ip].typ != 0 && off < UINT_LIMIT
    }

    // The end of a transaction: a commit if no other operation is outstanding.
    method EndOp()
      requires Good(fs.sb, fs.St(), {}) && fs.Traced() && fs.Recoverable()
      modifies fs`ended, fs`prior, fs`logged, fs`mine, fs`early, fs`trace, fs`base, fs`baseOwner, fs`turn, fs`start,
        fs`stray
      ensures Good(fs.sb, fs.St(), {}) && fs.Traced() && fs.Recoverable()
      ensures fs.ended == old(fs.ended) + [old(fs.mine)] && fs.prior == old(fs.prior) + [old(fs.early)]
    {
      var last := *;
      fs.EndOp(last);
    }

    // Reads at the current offset, outside any transaction: nothing is allocated and nothing logged.
    method Fileread(n: Word) returns (r: IoResult, data: seq<Byte>)
      requires Valid()
      modifies this`off, fs
      ensures Valid() && fs.St() == old(fs.St()) && fs.trace == old(fs.trace) && fs.baseOwner == old(fs.baseOwner)
      ensures r.Count? ==> readable && r.n == |data| && old(off) <= fs.inodes[ip].size && off == old(off) + |data|
      ensures r.Count? ==>
        data == Content(fs.St().img, ip)[old(off)..Least(old(off) + n, fs.inodes[ip].size)]
      ensures !r.Count? ==> off == old(off) && data == []
      ensures !r.Panic?
      ensures r.Device? <==> readable && fs.inodes[ip].typ == T_DEV
      ensures r.Failed? <==>
        (!readable || (fs.inodes[ip].typ != T_DEV && (old(off) > fs.inodes[ip].size || old(off) + n >= UINT_LIMIT)))
    {
      hide Good, Content, Tied;
      data := [];
      if !readable {
        return Failed, [];
      }
      var ok := fs.Ilock(ip);
      var x := fs.Readi(ip, off, n);
      match x {
        case Read(d) =>
          off := off + |d|;
          return Count(|d|), d;
        case ReadFailed => return Failed, [];
        case ReadDevice => return Device, [];
      }
    }

    // One transaction of filewrite, from begin_op to end_op; st and st' are the states around writei.
    method WriteOp(data: seq<Byte>) returns (w: WriteResult, ghost st: State, ghost st': State)
      requires Valid() && |data| <= WRITE_CHUNK
      modifies this`off, fs
      ensures st.img == old(fs.St()).img && st.mine == st.early == {} && Good(fs.sb, st, {})
      ensures w.Wrote? ==> w.n == |data| && off == old(off) + |data| && Written(fs.sb, ip, st, st', old(off), data)
      ensures w.WriteFailed? || w.WriteDevice? ==> off == old(off) && st' == st
      ensures !w.WritePanic? ==> Valid() && fs.St().img == st'.img
      ensures !w.WritePanic? ==> fs.ended == old(fs.ended) + [st'.mine] && fs.prior == old(fs.prior) + [st'.early]
      ensures w.WritePanic? ==> Full(fs.sb, fs.owner) && fs.ended == old(fs.ended) && fs.prior == old(fs.prior)
      ensures w.WriteDevice? <==> old(fs.inodes[ip].typ) == T_DEV
      ensures w.WriteFailed? <==>
        (old(fs.inodes[ip].typ) != T_DEV && (old(off) > old(fs.inodes[ip].size) || old(off) + |data| > MAXFILE * BSIZE))
    {
      hide Good, Content, Written, Full, Tied;
      fs.BeginOp();
      st := fs.St();
      var ok := fs.Ilock(ip);
      w := fs.Writei(ip, data, off);
      st' := fs.St();
      if w.WritePanic? {
        return;
      }
      if w.Wrote? {
        WrittenGood(fs.sb, ip, st, st', off, data);
        SizeBound(fs.sb, st', ip);
        off := off + w.n;
      }
      EndOp();
    }

    // Writes at the current offset in transactions of at most WRITE_CHUNK bytes. `ops` lists the states
    // each transaction's write ran between; a refused write is one more transaction, which logs nothing.
    method Filewrite(src: seq<Byte>) returns (r: IoResult, ghost ops: seq<Op>)
      requires Valid() && |src| < 0x8000_0000
      modifies this`off, fs
      ensures r.Count? ==> r.n == |src| && off == old(off) + |src|
      ensures r.Count? || r.Failed? ==> Valid() && off == old(off) + Least(|ops| * WRITE_CHUNK, |src|)
      ensures r.Count? || r.Failed? ==>
        if off == old(off) then fs.St().img == old(fs.St().img)
        else Overwritten(old(fs.St().img), fs.St().img, ip, old(off), src[..off - old(off)])
      ensures r.Count? || r.Failed? ==> ChunkOps(fs.sb, ip, old(off), src, ops, old(fs.St().img), fs.St().img)
      ensures var more := if r.Count? || r.Panic? || (r.Failed? && !writable) then [] else [{}];
        fs.ended == old(fs.ended) + Footprints(ops) + more && fs.prior == old(fs.prior) + Priors(ops) + more
      ensures r.Panic? ==> Full(fs.sb, fs.owner)
      ensures r.Device? ==> writable && src != [] && old(fs.inodes[ip].typ) == T_DEV && ops == []
      ensures !r.Panic? ==> (r.Failed? <==>
        (!writable || (src != [] && old(fs.inodes[ip].typ) != T_DEV
                       && (old(off) > old(fs.inodes[ip].size) || old(off) + |src| > MAXFILE * BSIZE))))
      ensures forall op :: op in ops ==> |op.1.mine| <= 4 + 3 + 1 + |MapBlocks(fs.sb, op.0, op.1)|
    {
      hide Good, Content, Overwritten, Written, Full, Tied, ChunkOps, Footprints, Priors, MapBlocks, Mounted;
      ops := [];
      assert Footprints(ops) == Priors(ops) == [];
      ghost var m0, off0 := fs.St().img, off;
      assert ChunkOps(fs.sb, ip, off0, src, ops, m0, m0) by { NoChunkOps(fs.sb, ip, off0, src, m0); }
      if !writable {
        return Failed, ops;
      }
      var i := 0;
      while i < |src|
        invariant 0 <= i <= |src| && off == off0 + i && Valid() && i == Least(|ops| * WRITE_CHUNK, |src|)
        invariant if i == 0 then fs.St().img == m0 else Overwritten(m0, fs.St().img, ip, off0, src[..i])
        invariant ops == [] || old(fs.inodes[ip].typ) != T_DEV
        invariant ChunkOps(fs.sb, ip, off0, src, ops, m0, fs.St().img)
        invariant fs.ended == old(fs.ended) + Footprints(ops) && fs.prior == old(fs.prior) + Priors(ops)
        invariant forall op :: op in ops ==> |op.1.mine| <= 4 + 3 + 1 + |MapBlocks(fs.sb, op.0, op.1)|
      {
        if i > 0 {
          OverwrittenSize(m0, fs.St().img, ip, off0, src[..i]);
        }
        var n1 := if |src| - i > WRITE_CHUNK then WRITE_CHUNK else |src| - i;
        ghost var st, st';
        var w;
        w, st, st' := WriteOp(src[i..i + n1]);
        if w.WritePanic? {
          return Panic, ops;
        }
        if w.WriteDevice? {
          return Device, ops;
        }
        if w.WriteFailed? {
          break;
        }
        ChunkDone(fs.sb, m0, (st, st'), ip, off0, src, i, n1, ops);
        ops := ops + [(st, st')];
        i := i + w.n;
      }
      if i == |src| {
        SizeBound(fs.sb, fs.St(), ip);
        if i > 0 {
          OverwrittenSize(m0, fs.St().img, ip, off0, src[..i]);
        }
        assert src[..|src|] == src;
        return Count(|src|), ops;
      }
      return Failed, ops;
    }

    // One pass of the loop of sys_encr and sys_decr: up to 512 bytes are read, shifted and written back.
    method RewriteBlock(encrypting: bool, key: int, ghost m0: Image, ghost off0: nat) returns (r: IoResult)
      requires Valid() && Shifted(m0, fs.St().img, ip, off0, off, encrypting, key)
      requires ip < |m0.inodes| && NoHoles(m0, ip) && Keeps(m0, fs.St().img)
      modifies this`off, fs`blocks, fs`inodes, fs`logged, fs`mine, fs`early, fs`trace, fs`owner
      ensures Valid() && Shifted(m0, fs.St().img, ip, off0, off, encrypting, key) && !r.Panic?
      ensures Keeps(m0, fs.St().img) && fs.owner == old(fs.owner)
      ensures r.Device? <==> m0.inodes[ip].typ == T_DEV
      ensures r.Failed? ==> off >= m0.inodes[ip].size
      ensures !r.Count? ==> off == old(off) && fs.mine == old(fs.mine) && fs.early == old(fs.early)
      ensures r.Count? ==> 0 < r.n <= BSIZE && off == old(off) + r.n <= m0.inodes[ip].size
      ensures r.Count? ==> r.n == BSIZE || off == m0.inodes[ip].size
      ensures r.Count? ==> fs.mine == old(fs.mine) + Touched(m0, ip, old(off), r.n)
      ensures r.Count? ==> fs.early == old(fs.mine) + Touched(m0, ip, old(off), Prior(old(off), r.n))
    {
      hide Good, Content, Written, Shifted, ShiftAll, Keeps, NoHoles, Touched, Prior, Tied;
      ShiftedFacts(m0, fs.St().img, ip, off0, off, encrypting, key);
      SizeBound(fs.sb, fs.St(), ip);
      var x := fs.Readi(ip, off, BSIZE);
      if x.ReadDevice? {
        return Device;
      }
      if x.ReadFailed? || |x.data| == 0 {
        return Failed;
      }
      var n := |x.data|;
      var buf := ShiftAll(x.data, encrypting, key);
      ghost var st := fs.St();
      var w := fs.Writei(ip, buf, off);
      ghost var st' := fs.St();
      WrittenGood(fs.sb, ip, st, st', off, buf);
      ShiftedStep(fs.sb, m0, st, st', ip, off0, off, n, encrypting, key);
      RewrittenBlocks(fs.sb, m0, ip, st, st', off, buf);
      off := off + n;
      return Count(n);
    }

    // Between two transactions of a cipher call: end_op, begin_op, and the lock taken again.
    method NextOp()
      requires Valid() && ip in fs.valid
      modifies fs
      ensures Valid() && ip in fs.valid && fs.St().img == old(fs.St()).img && fs.owner == old(fs.owner)
      ensures fs.ended == old(fs.ended) + [old(fs.mine)] && fs.prior == old(fs.prior) + [old(fs.early)]
      ensures fs.mine == fs.early == {}
    {
      hide Good, Tied;
      EndOp();
      fs.BeginOp();
      var ok := fs.Ilock(ip);
    }

    // The loop of sys_encr and sys_decr: every byte from the offset on is replaced, with a new
    // transaction every 10 passes. What each of them logged is in fs.ended, what it had logged when it made its
    // last log_write in fs.prior, and what the open one logged in fs.mine.
    method Rewrite(encrypting: bool, key: int) returns (device: bool)
      requires Valid() && fs.mine == {}
      modifies this`off, fs
      ensures device <==> old(fs.inodes[ip].typ) == T_DEV
      ensures Valid() && Shifted(old(fs.St().img), fs.St().img, ip, old(off), off, encrypting, key)
      ensures !device ==> off >= old(fs.inodes[ip].size) && ip in fs.valid && fs.owner == old(fs.owner)
      ensures !device ==> var m0, n := old(fs.St().img), Inner(Rest(old(fs.St().img), ip, old(off)));
        && fs.ended == old(fs.ended) + Finished(m0, ip, old(off), n) && fs.mine == Tx(m0, ip, old(off), n)
        && fs.prior == old(fs.prior) + FinishedCalls(m0, ip, old(off), n)
    {
      hide Good, Content, Written, Shifted, ShiftAll, Keeps, NoHoles, Tied, Tx, Finished, Part, Share, Touched,
        Inner, Pace, TxCalls, Prior, FinishedCalls;
      ghost var m0, off0, t := fs.St().img, off, 0;
      ShiftedStart(m0, ip, off0, encrypting, key);
      RewriteStart(fs.sb, fs.St(), ip, off0);
      var blockCount := 0;
      var ok := fs.Ilock(ip);
      while true
        invariant Valid() && Shifted(m0, fs.St().img, ip, off0, off, encrypting, key) && Keeps(m0, fs.St().img)
        invariant ip in fs.valid && fs.owner == old(fs.owner) && off0 <= off
        invariant Pace(Rest(m0, ip, off0), off - off0, t, blockCount)
        invariant fs.mine == Part(m0, ip, off0, t, off - off0)
        invariant fs.ended == old(fs.ended) + Finished(m0, ip, off0, t)
        invariant t <= Inner(Rest(m0, ip, off0)) && fs.prior == old(fs.prior) + FinishedCalls(m0, ip, off0, t)
        decreases m0.inodes[ip].size - off
      {
        ShiftedFacts(m0, fs.St().img, ip, off0, off, encrypting, key);
        ghost var done := off - off0;
        var r := RewriteBlock(encrypting, key, m0, off0);
        if !r.Count? {
          if r.Failed? {
            PassesOver(m0, ip, off0, t, blockCount);
          }
          return r.Device?;
        }
        PassStep(m0, ip, off0, done, t, blockCount, r.n);
        blockCount := blockCount + 1;
        if blockCount >= ROUNDS {
          NextOp();
          FinishedStep(m0, ip, off0, t);
          FinishedCallsStep(m0, ip, off0, t);
          blockCount, t := 0, t + 1;
        }
      }
    }

    // The end of sys_encr and sys_decr: set the mark in `major` and drop a reference.
    method MarkAndPut(encrypting: bool, refs: nat, ghost st0: State, ghost off0: nat, ghost key: int)
      requires Valid() && Shifted(st0.img, fs.St().img, ip, off0, off, encrypting, key)
      requires off >= st0.img.inodes[ip].size && ip in fs.valid && fs.owner == st0.owner
      modifies fs`blocks, fs`inodes, fs`logged, fs`mine, fs`early, fs`trace, fs`owner, fs`valid
      ensures Good(fs.sb, fs.St(), {}) && fs.Traced() && fs.Recoverable()
      ensures var freeing := old(fs.inodes[ip].nlink) == 0 && refs == 1;
        && fs.mine == old(fs.mine) + {fs.sb.IBlock(ip)} + (if freeing then MapOf(fs.sb, st0.owner, ip) else {})
        && fs.early == (if freeing then fs.mine else old(fs.mine))
        && (!freeing ==> Valid() && Ciphered(st0.img, fs.St().img, ip, off0, encrypting, key))
    {
      hide Good, Content, Shifted, ShiftAll, Ciphered, Tied, MapOf, Truncated, Iupdated;
      ghost var st := fs.St();
      var ino := fs.inodes[ip].(major := if encrypting then 1 else 0);
      CipherDone(fs.sb, st0.img, st, ip, off0, off, encrypting, key);
      IupdatedFacts(fs.sb, st, ip, ino);
      fs.inodes := fs.inodes[ip := ino];
      fs.Iupdate(ip);
      ghost var st1 := fs.St();
      fs.Iput(ip, refs);
      if ino.nlink == 0 && refs == 1 {
        FreedIsMapOf(fs.sb, ip, st0, st1, fs.St());
      }
    }

    // sys_encr and sys_decr after their checks.
    method CipherFile(encrypting: bool, key: int, refs: nat) returns (device: bool)
      requires Valid()
      modifies this`off, fs
      ensures device <==> old(fs.inodes[ip].typ) == T_DEV
      ensures Good(fs.sb, fs.St(), {})
      ensures !device && (old(fs.inodes[ip].nlink) != 0 || refs != 1) ==>
        Valid() && Ciphered(old(fs.St().img), fs.St().img, ip, old(off), encrypting, key)
      ensures !device ==> var freeing := old(fs.inodes[ip].nlink) == 0 && refs == 1;
        && fs.ended == old(fs.ended) + CipherOps(fs.sb, old(fs.St()), ip, old(off), freeing)
        && fs.prior == old(fs.prior) + CipherCalls(fs.sb, old(fs.St()), ip, old(off), freeing)
    {
      hide Good, Content, Shifted, ShiftAll, Ciphered, Tied, Tx, MapOf, CipherOps, CipherCalls, Rest, Inner, Finished,
        FinishedCalls;
      ghost var st0 := fs.St();
      fs.BeginOp();
      device := Rewrite(encrypting, key);
      if device {
        return;
      }
      ShiftedFacts(st0.img, fs.St().img, ip, old(off), off, encrypting, key);
      MarkAndPut(encrypting, refs, st0, old(off), key);
      EndOp();
      CipherOpsAre(fs.sb, st0, ip, old(off), st0.img.inodes[ip].nlink == 0 && refs == 1);
    }

    // Returns -1 without a key, -3 when the file is marked encrypted already, else encrypts it. Its
    // transactions log no more than reserved exactly when FitsReservation says so, and no log_write comes after
    // that many exactly when CallsFit does.
    method Encr(key: int, refs: nat) returns (r: CipherResult)
      requires Valid()
      modifies this`off, fs
      ensures r.NoKey? <==> key == -1
      ensures r.WrongMark? <==> key != -1 && old(fs.inodes[ip].major) == 1
      ensures r.NoKey? || r.WrongMark? ==>
        Valid() && fs.St() == old(fs.St()) && off == old(off) && fs.ended == old(fs.ended) && fs.prior == old(fs.prior)
      ensures r.Done? && (old(fs.inodes[ip].nlink) != 0 || refs != 1) ==>
        Valid() && Ciphered(old(fs.St().img), fs.St().img, ip, old(off), true, key)
      ensures r.Done? ==>
        CipherRecord(fs.sb, old(fs.St()), ip, old(off), refs, old(fs.ended), fs.ended, old(fs.prior), fs.prior)
      ensures r.IsDevice? ==> old(fs.inodes[ip].typ) == T_DEV
    {
      hide Good, Content, Ciphered, Tied, CipherRecord, CipherOps, CipherCalls;
      if key == -1 {
        return NoKey;
      }
      if fs.inodes[ip].major == 1 {
        return WrongMark;
      }
      CipherRecorded(fs.sb, fs.St(), ip, off, refs, fs.ended, fs.prior);
      var device := CipherFile(true, key, refs);
      r := if device then IsDevice else Done;
    }

    // Returns -1 without a key, -3 when the file is not marked encrypted, else decrypts it.
    method Decr(key: int, refs: nat) returns (r: CipherResult)
      requires Valid()
      modifies this`off, fs
      ensures r.NoKey? <==> key == -1
      ensures r.WrongMark? <==> key != -1 && old(fs.inodes[ip].major) == 0
      ensures r.NoKey? || r.WrongMark? ==>
        Valid() && fs.St() == old(fs.St()) && off == old(off) && fs.ended == old(fs.ended) && fs.prior == old(fs.prior)
      ensures r.Done? && (old(fs.inodes[ip].nlink) != 0 || refs != 1) ==>
        Valid() && Ciphered(old(fs.St().img), fs.St().img, ip, old(off), false, key)
      ensures r.Done? ==>
        CipherRecord(fs.sb, old(fs.St()), ip, old(off), refs, old(fs.ended), fs.ended, old(fs.prior), fs.prior)
      ensures r.IsDevice? ==> old(fs.inodes[ip].typ) == T_DEV
    {
      hide Good, Content, Ciphered, Tied, CipherRecord, CipherOps, CipherCalls;
      if key == -1 {
        return NoKey;
      }
      if fs.inodes[ip].major == 0 {
        return WrongMark;
      }
      CipherRecorded(fs.sb, fs.St(), ip, off, refs, fs.ended, fs.prior);
      var device := CipherFile(false, key, refs);
      r := if device then IsDevice else Done;
    }
  }

  // Encrypting a linked file through one descriptor and decrypting it through a fresh one gives the
  // file back exactly when all its bytes are 7-bit.
  method EncryptThenDecrypt(f: OpenFile, g: OpenFile, key: int, refs: nat) returns (r1: CipherResult, r2: CipherResult)
    requires f != g && f.fs == g.fs && f.ip == g.ip && f.off == g.off == 0 && f.Valid()
    requires f.fs.inodes[f.ip].typ != T_DEV && f.fs.inodes[f.ip].nlink != 0 && f.fs.inodes[f.ip].major == 0
    requires 0 <= key <= 128
    modifies f, g, f.fs
    ensures r1 == r2 == Done && f.ip < |f.fs.inodes|
    ensures f.fs.inodes == old(f.fs.inodes)
    ensures forall j :: 0 <= j < |f.fs.inodes| && j != f.ip ==>
      Content(f.fs.St().img, j) == Content(old(f.fs.St()).img, j)
    ensures var c := Content(old(f.fs.St()).img, f.ip);
            Content(f.fs.St().img, f.ip) == c <==> forall k :: 0 <= k < |c| ==> c[k] < 128
  {
    hide Good, Content, ShiftAll;
    ghost var m0 := f.fs.St().img;
    r1 := f.Encr(key, refs);
    ghost var m1 := f.fs.St().img;
    r2 := g.Decr(key, refs);
    ghost var m2 := f.fs.St().img;
    CipherBothWays(m0, m1, m2, f.ip, key);
  }
}
