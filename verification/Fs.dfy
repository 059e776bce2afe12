/** The mutable file system (kernel/fs.c): block allocator, inode table, and the block map, as the
    buffer cache serves them inside transactions. */
module FileSystem {
  import opened Blocks
  import opened FsLayout
  import opened FsOwnership
  import opened FsState
  import opened FsWrite
  import opened FsTrunc
  import opened FsCommit
  import opened FsTrace
  import LogMachine
  import LogSafety

  // -1, n, a panic, or (for a device inode) whatever the driver returns.
  datatype WriteResult = Wrote(n: nat) | WriteFailed | WriteDevice | WritePanic
  datatype ReadResult = Read(data: seq<Byte>) | ReadFailed | ReadDevice

  class Fs {
    const sb: Superblock
    var blocks: seq<Block>           // what bread returns
    var inodes: seq<Inode>           // the in-memory inodes
    var valid: set<nat>              // those read from disk (ip->valid)
    var logged: set<nat>             // blocks in the open transaction's log header
    var op: nat                      // the running operation
    var begun: nat                   // operations begun so far
    var mine: set<nat>               // blocks the running operation called log_write for
    var early: set<nat>              // those before its last call
    var trace: seq<LogMachine.Event> // changes to buffers since the last commit, logged or not
    var ended: seq<set<nat>>         // what each finished operation logged
    var prior: seq<set<nat>>         // what it had logged when it made its last call
    ghost var owner: map<nat, Slot>
    ghost var base: seq<Block>       // home blocks as of the last commit
    ghost var baseOwner: map<nat, Slot>
    ghost var turn: nat              // where in the trace the running operation's turn began
    ghost var start: seq<Block>      // buffers as of the last commit
    ghost var stray: set<nat>        // those that held an unlogged change

    constructor (sb: Superblock, disk: seq<Block>, ghost owner: map<nat, Slot>)
      requires sb.Valid() && |disk| == sb.size && Good(sb, Mounted(sb, disk, owner), {})
      ensures this.sb == sb && valid == {} && St() == Mounted(sb, disk, owner) && Recoverable() && baseOwner == owner
      ensures Traced() && trace == [] && ended == prior == [] && stray == {} && begun == 1
    {
      this.sb := sb;
      blocks, inodes, valid, logged := disk, DiskInodes(sb, disk), {}, {};
      op, begun, mine, early, trace := 0, 1, {}, {}, [];
      ended, prior := [], [];
      this.owner, base, baseOwner, turn, start, stray := owner, disk, owner, 0, disk, {};
    }

    ghost function St(): State
      reads this
    {
      State(Image(blocks, inodes), logged, mine, early, owner, base)
    }

    ghost function Record(): Tape
      reads this
    {
      Tape(blocks, base, logged, mine, early, op, begun, trace, turn, start, stray)
    }

    // Every difference between the buffers and the last commit is in the trace.
    ghost predicate Traced()
      reads this
    {
      Tied(sb, Record())
    }

    // The home blocks hold a consistent file system at every moment.
    ghost predicate Recoverable()
      reads this
    {
      sb.Valid() && |base| == sb.size && Good(sb, Mounted(sb, base, baseOwner), {})
    }

    // Block b gets new contents, then log_write.
    method LogWrite(b: nat, data: Block)
      requires Traced() && sb.Home(b)
      modifies `blocks, `logged, `mine, `early, `trace
      ensures b < |old(blocks)| && blocks == old(blocks)[b := data]
      ensures logged == old(logged) + {b} && mine == old(mine) + {b} && early == old(mine)
      ensures Traced() && trace == old(trace) + [LogMachine.Write(op, b, data)]
    {
      TieWrite(sb, Record(), b, data);
      blocks := blocks[b := data];
      logged, mine, early := logged + {b}, mine + {b}, mine;
      trace := trace + [LogMachine.Write(op, b, data)];
    }

    // Block b gets new contents, without log_write.
    method Scribble(b: nat, data: Block)
      requires Traced() && sb.Home(b)
      modifies `blocks, `trace
      ensures b < |old(blocks)| && blocks == old(blocks)[b := data]
      ensures Traced() && trace == old(trace) + [LogMachine.Scribble(op, b, data)]
    {
      TieScribble(sb, Record(), b, data);
      blocks := blocks[b := data];
      trace := trace + [LogMachine.Scribble(op, b, data)];
    }

    // The cache recycles a buffer that is not pinned; an unlogged change is gone, and no file notices.
    method Evict(b: nat, home: Block)
      requires Good(sb, St(), {}) && Traced() && sb.Home(b) && b !in logged && b < |base| && home == base[b]
      modifies `blocks, `trace
      ensures Good(sb, St(), {}) && Traced() && trace == old(trace) + [LogMachine.Evict(b)]
      ensures b < |old(blocks)| && blocks == old(blocks)[b := home]
      ensures forall i :: 0 <= i < |inodes| ==> Content(St().img, i) == Content(old(St()).img, i)
    {
      hide Good, Content;
      TieEvict(sb, Record(), b);
      EvictKeepsFiles(sb, St(), b);
      blocks, trace := blocks[b := home], trace + [LogMachine.Evict(b)];
    }

    method Bzero(bno: nat)
      requires Traced() && sb.Home(bno)
      modifies `blocks, `logged, `mine, `early, `trace
      ensures bno < |old(blocks)| && blocks == old(blocks)[bno := ZeroBlock()]
      ensures logged == old(logged) + {bno} && mine == old(mine) + {bno} && early == old(mine)
      ensures Traced() && old(trace) <= trace
    {
      LogWrite(bno, ZeroBlock());
    }

    // Marks block b in the map and zeroes it.
    method Take(b: nat)
      requires sb.Valid() && |blocks| == sb.size && sb.Nmeta() <= b < sb.size && Traced()
      modifies `blocks, `logged, `mine, `early, `trace
      ensures Traced() && old(trace) <= trace && blocks == AllocBlocks(sb, old(blocks), b)
      ensures logged == old(logged) + {sb.BBlock(b), b} && mine == old(mine) + {sb.BBlock(b), b}
      ensures early == old(mine) + {sb.BBlock(b)}
    {
      hide BitAt, PutBit, Tied;
      var bp := blocks[sb.BBlock(b)];
      LogWrite(sb.BBlock(b), PutBit(bp, b % BPB, true));
      Bzero(b);
    }

    // Takes the first free block of the map and zeroes it; fails (a panic) only on a full disk.
    method Balloc() returns (ok: bool, b: nat)
      requires sb.Valid() && |blocks| == sb.size && BitmapExact(sb, blocks, owner) && MetaOwned(sb, owner) && Traced()
      modifies `blocks, `logged, `mine, `early, `trace
      ensures Traced() && old(trace) <= trace
      ensures ok ==> sb.Nmeta() <= b < sb.size && b !in owner && TakenUpTo(owner, b)
      ensures ok ==> blocks == AllocBlocks(sb, old(blocks), b)
      ensures ok ==> logged == old(logged) + {sb.BBlock(b), b} && mine == old(mine) + {sb.BBlock(b), b}
      ensures ok ==> early == old(mine) + {sb.BBlock(b)}
      ensures !ok ==> Full(sb, owner)
      ensures !ok ==> unchanged(`blocks, `logged, `mine, `early, `trace)
    {
      hide BitAt, BitmapExact, Tied, AllocBlocks;
      var b0 := 0;
      while b0 < sb.size
        invariant b0 % BPB == 0 && unchanged(`blocks, `logged, `mine, `early, `trace)
        invariant forall c :: 0 <= c < b0 && c < sb.size ==> c in owner
      {
        var bp := blocks[sb.BBlock(b0)];
        var bi := 0;
        while bi < BPB && b0 + bi < sb.size
          invariant 0 <= bi <= BPB && unchanged(`blocks, `logged, `mine, `early, `trace)
          invariant forall c :: 0 <= c < b0 + bi && c < sb.size ==> c in owner
        {
          MapScan(sb, blocks, owner, b0, bi);
          if !BitAt(bp, bi) {
            Take(b0 + bi);
            return true, b0 + bi;
          }
          bi := bi + 1;
        }
        b0 := b0 + BPB;
      }
      return false, 0;
    }

    // addrs[k], allocated if it is zero.
    method RootBlock(i: nat, k: nat) returns (ok: bool, a: Word)
      requires Ready(sb, St()) && Traced() && i < sb.ninodes && k < 13
      modifies `blocks, `inodes, `logged, `mine, `early, `trace, `owner
      ensures Traced() && old(trace) <= trace
      ensures ok ==> Extends(sb, i, old(St()), St(), {RootSlot(i, k)})
      ensures ok ==> a != 0 && Ptr(St().img, RootSlot(i, k)) == a
      ensures old(inodes[i].addrs[k]) != 0 ==> ok && St() == old(St()) && trace == old(trace)
      ensures !ok ==> Full(sb, owner)
    {
      hide Ready, Extends, Owned, BitmapExact, MetaOwned, AllocBlocks, Full, Tied;
      ghost var st := St();
      ReadyFacts(sb, st, RootSlot(i, k));
      a := inodes[i].addrs[k];
      if a == 0 {
        var b;
        ok, b := Balloc();
        if !ok {
          return;
        }
        inodes := inodes[i := inodes[i].(addrs := inodes[i].addrs[k := b])];
        owner := owner[b := RootSlot(i, k)];
        a := b;
        RootStep(sb, st, i, k, b);
        assert St() == RootState(sb, st, i, k, b);
      } else {
        ok := true;
        ExtendsRefl(sb, i, st, {RootSlot(i, k)});
      }
    }

    // a[k] = b, then log_write of the block and of the double-indirect block above it, if any.
    method PutEntry(a: nat, k: nat, b: Word, above: nat)
      requires Traced() && sb.Home(a) && k < NINDIRECT && (above != 0 ==> sb.Home(above)) && |blocks| == sb.size
      modifies `blocks, `logged, `mine, `early, `trace
      ensures Traced() && old(trace) <= trace && blocks == old(blocks)[a := PutWord(old(blocks)[a], k, b)]
      ensures logged == old(logged) + {a} + (if above != 0 then {above} else {})
      ensures mine == old(mine) + {a} + (if above != 0 then {above} else {})
      ensures early == old(mine) + (if above != 0 then {a} else {})
    {
      hide Tied, PutWord;
      LogWrite(a, PutWord(blocks[a], k, b));
      if above != 0 {
        LogWrite(above, blocks[above]);
      }
    }

    // Entry k of index block a, allocated if it is zero; then `above`, the double-indirect block over a leaf,
    // is logged as well.
    method EntryBlock(i: nat, ghost p: Slot, a: Word, k: nat, above: Word) returns (ok: bool, x: Word, added: bool)
      requires Ready(sb, St()) && Traced() && i < sb.ninodes && IsIndex(p)
      requires Ptr(St().img, p) == a != 0 && k < NINDIRECT
      requires if p.Leaf? then Ptr(St().img, DInd(p.ino)) == above != 0 else above == 0
      modifies `blocks, `logged, `mine, `early, `trace, `owner
      ensures Traced() && old(trace) <= trace
      ensures ok ==> Extends(sb, i, old(St()), St(), {p, Child(p, k)})
      ensures ok ==> x != 0 && Ptr(St().img, Child(p, k)) == x
      ensures added <==> old(Ptr(St().img, Child(p, k))) == 0
      ensures !added ==> ok && St() == old(St()) && trace == old(trace)
      ensures ok && added && above != 0 ==> above in mine
      ensures !ok ==> Full(sb, owner)
    {
      hide Ready, Extends, Owned, Ptr, BitmapExact, MetaOwned, PutWord, WordAt, AllocBlocks, Full, Tied;
      ghost var st := St();
      ReadyFacts(sb, st, p);
      EntryFacts(sb, st, p, k);
      x := WordAt(blocks[a], k);
      added := x == 0;
      if added {
        var b;
        ok, b := Balloc();
        if !ok {
          return;
        }
        if above != 0 {
          ReadyFacts(sb, st, DInd(p.ino));
        }
        PutEntry(a, k, b, above);
        owner := owner[b := Child(p, k)];
        x := b;
        EntryStep(sb, st, i, p, k, b);
        assert St() == EntryState(sb, st, p, k, b);
      } else {
        ok := true;
        ExtendsRefl(sb, i, st, {p, Child(p, k)});
      }
    }

    // The disk block of the bn-th block of inode i, allocating whatever is missing on the way.
    method Bmap(i: nat, bn: nat) returns (ok: bool, a: Word)
      requires Ready(sb, St()) && Traced() && i < sb.ninodes && bn < MAXFILE
      modifies `blocks, `inodes, `logged, `mine, `early, `trace, `owner
      ensures Traced() && old(trace) <= trace
      ensures ok ==> Extends(sb, i, old(St()), St(), PathSlots(i, bn))
      ensures ok ==> a != 0 && Ptr(St().img, DataSlot(i, bn)) == a
      ensures old(Ptr(St().img, DataSlot(i, bn))) != 0 ==> ok && St() == old(St()) && trace == old(trace)
      ensures ok && bn >= NDIRECT + NINDIRECT && old(Ptr(St().img, DataSlot(i, bn))) == 0 ==>
        Ptr(St().img, DInd(i)) in mine
      ensures !ok ==> Full(sb, owner)
    {
      hide Ready, Extends, Ptr, Full, Tied;
      ghost var st := St();
      ReadyFacts(sb, st, Meta);
      if Ptr(st.img, DataSlot(i, bn)) != 0 {
        PathMapped(st.img, i, bn);
      }
      var n := bn;
      if n < NDIRECT {
        ok, a := RootBlock(i, n);
        return;
      }
      n := n - NDIRECT;
      if n < NINDIRECT {
        ok, a := RootBlock(i, NDIRECT);
        if !ok {
          return;
        }
        ghost var st1 := St();
        ExtendsReady(sb, i, st, st1, {Ind(i)});
        var added;
        ok, a, added := EntryBlock(i, Ind(i), a, n, 0);
        if ok {
          ExtendsTrans(sb, i, st, st1, {Ind(i)}, St(), {Ind(i), IndData(i, n)});
          assert {Ind(i)} + {Ind(i), IndData(i, n)} == PathSlots(i, bn);
        }
        return;
      }
      ok, a := DoubleBmap(i, n - NINDIRECT);
    }

    // bmap, third part, first half: the double-indirect block d of inode i and the k-th block below it.
    method LeafBlock(i: nat, k: nat) returns (ok: bool, d: Word, a: Word)
      requires Ready(sb, St()) && Traced() && i < sb.ninodes && k < NINDIRECT
      modifies `blocks, `inodes, `logged, `mine, `early, `trace, `owner
      ensures Traced() && old(trace) <= trace
      ensures ok ==> Extends(sb, i, old(St()), St(), {DInd(i), Leaf(i, k)})
      ensures ok ==> d != 0 && Ptr(St().img, DInd(i)) == d && a != 0 && Ptr(St().img, Leaf(i, k)) == a
      ensures old(inodes[i].addrs[NDIRECT + 1]) != 0 && old(Ptr(St().img, Leaf(i, k))) != 0 ==>
        ok && St() == old(St()) && trace == old(trace)
      ensures !ok ==> Full(sb, owner)
    {
      hide Ready, Extends, Ptr, Full, Tied;
      ghost var st := St();
      a := 0;
      ok, d := RootBlock(i, NDIRECT + 1);
      if !ok {
        return;
      }
      ghost var st1 := St();
      ExtendsReady(sb, i, st, st1, {DInd(i)});
      var added;
      ok, a, added := EntryBlock(i, DInd(i), d, k, 0);
      if ok {
        ExtendsPtr(sb, i, st1, St(), {DInd(i), Leaf(i, k)}, DInd(i));
        ExtendsTrans(sb, i, st, st1, {DInd(i)}, St(), {DInd(i), Leaf(i, k)});
        assert {DInd(i)} + {DInd(i), Leaf(i, k)} == {DInd(i), Leaf(i, k)};
      }
    }

    // bmap, third part: block n below the double-indirect block. A new data block logs that block again.
    method DoubleBmap(i: nat, n: nat) returns (ok: bool, a: Word)
      requires Ready(sb, St()) && Traced() && i < sb.ninodes && n < NDINDIRECT
      modifies `blocks, `inodes, `logged, `mine, `early, `trace, `owner
      ensures Traced() && old(trace) <= trace
      ensures ok ==> Extends(sb, i, old(St()), St(), PathSlots(i, NDIRECT + NINDIRECT + n))
      ensures ok ==> a != 0 && Ptr(St().img, LeafData(i, n / NINDIRECT, n % NINDIRECT)) == a
      ensures ok && old(Ptr(St().img, LeafData(i, n / NINDIRECT, n % NINDIRECT))) == 0 ==>
        Ptr(St().img, DInd(i)) in mine
      ensures old(inodes[i].addrs[NDIRECT + 1]) != 0 && old(Ptr(St().img, Leaf(i, n / NINDIRECT))) != 0 &&
              old(Ptr(St().img, LeafData(i, n / NINDIRECT, n % NINDIRECT))) != 0 ==>
        ok && St() == old(St()) && trace == old(trace)
      ensures !ok ==> Full(sb, owner)
    {
      hide Ready, Extends, Ptr, Full, Tied, PathSlots;
      ghost var st := St();
      ghost var S := {DInd(i), Leaf(i, n / NINDIRECT)};
      ghost var S' := {Leaf(i, n / NINDIRECT), LeafData(i, n / NINDIRECT, n % NINDIRECT)};
      var d, added;
      ok, d, a := LeafBlock(i, n / NINDIRECT);
      if !ok {
        return;
      }
      ghost var st2 := St();
      ExtendsReady(sb, i, st, st2, S);
      ExtendsPtr(sb, i, st, st2, S, LeafData(i, n / NINDIRECT, n % NINDIRECT));
      ok, a, added := EntryBlock(i, Leaf(i, n / NINDIRECT), a, n % NINDIRECT, d);
      if ok {
        ghost var st3 := St();
        ExtendsTrans(sb, i, st, st2, S, st3, S');
        DoublePath(i, n);
        ExtendsPtr(sb, i, st2, st3, S', DInd(i));
      }
    }

    // The in-memory inode reaches its place in the inode blocks.
    method Iupdate(i: nat)
      requires sb.Valid() && |blocks| == sb.size && |inodes| == sb.ninodes && i < sb.ninodes && Traced()
      modifies `blocks, `logged, `mine, `early, `trace
      ensures Traced() && old(trace) <= trace
      ensures St() == Iupdated(sb, old(St()), i)
      ensures OnDisk(sb, blocks, i) == inodes[i]
    {
      hide Tied, PutDinode, DinodeAt;
      InodeStored(sb, blocks, i, inodes[i]);
      var ib := sb.IBlock(i);
      LogWrite(ib, PutDinode(blocks[ib], i % IPB, inodes[i]));
    }

    // Reads the inode from disk unless it is in memory already; an inode without a type is a panic.
    method Ilock(i: nat) returns (ok: bool)
      requires Good(sb, St(), {}) && i < sb.ninodes
      modifies `inodes, `valid
      ensures St() == old(St()) && valid == old(valid) + {i}
      ensures ok <==> i in old(valid) || inodes[i].typ != 0
    {
      ok := true;
      if i !in valid {
        assert Synced(sb, St(), i);
        inodes := inodes[i := OnDisk(sb, blocks, i)];
        valid := valid + {i};
        ok := inodes[i].typ != 0;
      }
    }

    // One pass of writei's loop: up to one block of src goes to the block bmap names.
    method WriteBlock(i: nat, src: seq<Byte>, off: Word, tot: nat, ghost st0: State, ghost S: set<Slot>)
      returns (ok: bool, m: nat)
      requires Ready(sb, st0) && i < |st0.img.inodes| && NoHoles(st0.img, i) && i < sb.ninodes && Traced()
      requires Writing(sb, i, st0, St(), off, src, tot, S) && tot < |src| && off + |src| <= MAXFILE * BSIZE
      requires AtBoundary(off, tot)
      modifies `blocks, `inodes, `logged, `mine, `early, `trace, `owner
      ensures Traced() && old(trace) <= trace
      ensures ok ==> 0 < m <= |src| - tot && (tot + m == |src| || AtBoundary(off, tot + m))
      ensures ok ==> Writing(sb, i, st0, St(), off, src, tot + m, S + PathSlots(i, (off + tot) / BSIZE))
      ensures !ok ==> Full(sb, owner) && st0.img.inodes[i].size < off + |src|
    {
      hide Ready, Owned, Ptr, Writing, Extends, Logs, Splice, NoHoles, Full, Run, BlocksFor, PathSlots, Keeps, Same,
        Bytes, Mapped, Tied, AtBoundary;
      var pos := off + tot;
      ghost var st := St();
      WritingFacts(sb, i, st0, st, off, src, tot, S);
      BlockOf(off, pos, off + |src|);
      var a;
      ok, a := Bmap(i, pos / BSIZE);
      if !ok {
        UnmappedIsPastEnd(st0.img, st.img, i, pos / BSIZE);
        return ok, 0;
      }
      ghost var st1 := St();
      m := Run(pos, |src| - tot);
      RunToBoundary(off, tot, |src| - tot);
      WriteStep(sb, i, st0, st, off, src, tot, S, st1, m);
      DataHome(sb, i, st, st1, PathSlots(i, pos / BSIZE), DataSlot(i, pos / BSIZE));
      LogWrite(a, Splice(blocks[a], pos % BSIZE, src[tot..tot + m]));
      assert St() == Copied(st1, a, pos % BSIZE, src[tot..tot + m]);
    }

    // Copies src over bytes off.. of file i, growing the file if needed.
    method Writei(i: nat, src: seq<Byte>, off: Word) returns (r: WriteResult)
      requires Good(sb, St(), {}) && Traced() && i < sb.ninodes
      requires i < |inodes| && inodes[i].typ != 0 && |src| < UINT_LIMIT
      modifies `blocks, `inodes, `logged, `mine, `early, `trace, `owner
      ensures Traced() && old(trace) <= trace
      ensures r.WriteDevice? <==> old(inodes[i].typ) == T_DEV
      ensures r.WriteFailed? <==>
        && old(inodes[i].typ) != T_DEV
        && (off > old(inodes[i].size) || off + |src| >= UINT_LIMIT || off + |src| > MAXFILE * BSIZE)
      ensures r.WriteDevice? || r.WriteFailed? ==> St() == old(St()) && trace == old(trace)
      ensures r.WritePanic? ==> Full(sb, owner) && off + |src| > old(inodes[i].size)
      ensures r.Wrote? ==> r.n == |src| && Written(sb, i, old(St()), St(), off, src)
    {
      hide Ready, Owned, Ptr, Good, Writing, Content, OnDisk, NoHoles, FreeIsEmpty, Full, Written, BlocksFor,
        WriteSlots, PathSlots, Keeps, Same, Bytes, Mapped, Logs, Tied;
      assert AtBoundary(off, 0);
      hide AtBoundary;
      GoodFacts(sb, St(), i);
      if inodes[i].typ == T_DEV {
        return WriteDevice;
      }
      var n := |src|;
      if off > inodes[i].size || AddU32(off, n) < off {
        return WriteFailed;
      }
      if AddU32(off, n) > MAXFILE * BSIZE {
        return WriteFailed;
      }
      ghost var st0 := St();
      ghost var S: set<Slot> := {};
      var tot := 0;
      WriteStart(sb, i, st0, off, src);
      while tot < n
        invariant 0 <= tot <= n && Traced() && old(trace) <= trace
        invariant tot == n || AtBoundary(off, tot)
        invariant Writing(sb, i, st0, St(), off, src, tot, S)
        invariant S <= WriteSlots(i, off / BSIZE, BlocksFor(off + n))
      {
        var ok, m := WriteBlock(i, src, off, tot, st0, S);
        if !ok {
          return WritePanic;
        }
        BlockOf(off, off + tot, off + n);
        PathInWrite(i, off / BSIZE, BlocksFor(off + n), (off + tot) / BSIZE);
        S := S + PathSlots(i, (off + tot) / BSIZE);
        tot := tot + m;
      }
      ghost var st := St();
      WritingFacts(sb, i, st0, st, off, src, n, S);
      if n > 0 && off + n > inodes[i].size {
        inodes := inodes[i := inodes[i].(size := off + n)];
        Iupdate(i);
        WriteGrown(sb, i, st0, st, off, src, S);
      } else {
        WriteSettled(sb, i, st0, st, off, src, S);
      }
      return Wrote(n);
    }

    // Bytes off.. of file i. It calls bmap, which allocates when it finds a hole: there are none.
    method Readi(i: nat, off: Word, n: Word) returns (r: ReadResult)
      requires Good(sb, St(), {}) && Traced() && i < sb.ninodes && i < |inodes|
      modifies `blocks, `inodes, `logged, `mine, `early, `trace, `owner
      ensures St() == old(St()) && trace == old(trace) && Traced()
      ensures r.ReadDevice? <==> inodes[i].typ == T_DEV
      ensures r.ReadFailed? <==> (inodes[i].typ != T_DEV && (off > inodes[i].size || off + n >= UINT_LIMIT))
      ensures r.Read? ==> off <= inodes[i].size
      ensures r.Read? ==>
        r.data == Content(St().img, i)[off..if off + n < inodes[i].size then off + n else inodes[i].size]
    {
      hide Ready, Owned, Ptr, Good, Extends, OnDisk, Full, FreeIsEmpty, ByteAt, Run, NoHoles, Content, Tied;
      GoodFacts(sb, St(), i);
      if inodes[i].typ == T_DEV {
        return ReadDevice;
      }
      if off > inodes[i].size || AddU32(off, n) < off {
        return ReadFailed;
      }
      var len := if AddU32(off, n) > inodes[i].size then inodes[i].size - off else n;
      ghost var st := St();
      ghost var c := Content(st.img, i);
      var dst: seq<Byte> := [];
      var tot, pos := 0, off;
      while tot < len
        invariant 0 <= tot <= len && pos == off + tot && St() == st && trace == old(trace) && Traced()
        invariant dst == c[off..pos]
      {
        var m := Run(pos, len - tot);
        ReadStep(sb, st, i, off, pos, m);
        var ok, a := Bmap(i, pos / BSIZE);
        dst := dst + blocks[a][pos % BSIZE..pos % BSIZE + m];
        tot, pos := tot + m, pos + m;
      }
      return Read(dst);
    }

    // Clears the free-map bit of b, the block of slot s; "freeing free block" cannot happen.
    method Bfree(b: Word, ghost i: nat, ghost s: Slot, ghost dead: set<Slot>, ghost but: set<nat>)
      returns (panicked: bool)
      requires Owned(sb, St().img, owner, dead) && Agrees(sb, St(), but) && Traced()
      requires Ptr(St().img, s) == b != 0 && s !in dead && OfInode(s, i)
      modifies `blocks, `logged, `mine, `early, `trace, `owner
      ensures Traced() && old(trace) <= trace
      ensures !panicked
      ensures Owned(sb, St().img, owner, dead + {s}) && Agrees(sb, St(), but)
      ensures SamePointers(old(St()).img, St().img) && Shrunk(sb, i, old(St()), St())
    {
      hide Owned, Agrees, Ptr, PutBit, BitAt, SamePointers, Shrunk, Tied;
      ghost var st := St();
      OwnedPtr(sb, st.img, owner, dead, s);
      FreeStep(sb, i, st, dead, s, but);
      var bp := blocks[sb.BBlock(b)];
      var bi := b % BPB;
      if !BitAt(bp, bi) {
        return true;
      }
      LogWrite(sb.BBlock(b), PutBit(bp, bi, false));
      owner := owner - {b};
      assert St() == Freed(sb, st, b);
      return false;
    }

    // Frees the blocks named in index block a of slot p, then a itself.
    method FreeIndex(a: Word, ghost i: nat, ghost p: Slot, ghost but: set<nat>) returns (ghost dead: set<Slot>)
      requires Owned(sb, St().img, owner, {}) && Agrees(sb, St(), but) && Traced()
      requires (p.Ind? || p.Leaf?) && OfInode(p, i) && Ptr(St().img, p) == a != 0
      modifies `blocks, `logged, `mine, `early, `trace, `owner
      ensures Traced() && old(trace) <= trace
      ensures Owned(sb, St().img, owner, dead) && Agrees(sb, St(), but)
      ensures SamePointers(old(St()).img, St().img) && Shrunk(sb, i, old(St()), St())
      ensures forall s :: Below(s, p) && Ptr(St().img, s) != 0 ==> s in dead
      ensures forall s :: s in dead ==> Below(s, p)
    {
      hide Owned, Agrees, Ptr, SamePointers, Shrunk, Below, Tied;
      ghost var st0 := St();
      OwnedPtr(sb, st0.img, owner, {}, p);
      ShrunkRefl(sb, i, st0);
      SamePointersRefl(st0.img);
      dead := {};
      var j := 0;
      while j < NINDIRECT
        invariant 0 <= j <= NINDIRECT && Traced() && old(trace) <= trace
        invariant Owned(sb, St().img, owner, dead) && Agrees(sb, St(), but)
        invariant SamePointers(st0.img, St().img) && Shrunk(sb, i, st0, St())
        invariant forall k :: 0 <= k < j && Ptr(st0.img, Child(p, k)) != 0 ==> Child(p, k) in dead
        invariant forall s :: s in dead ==> exists k :: 0 <= k < j && s == Child(p, k)
      {
        ghost var st := St();
        SamePtr(st0.img, st.img, p);
        SamePtr(st0.img, st.img, Child(p, j));
        ChildNotIn(dead, p, j);
        OwnedPtr(sb, st.img, owner, dead, p);
        ChildPtrWord(sb, st.img, p, j);
        var x := WordAt(blocks[a], j);
        if x != 0 {
          var panicked := Bfree(x, i, Child(p, j), dead, but);
          dead := dead + {Child(p, j)};
          SamePointersTrans(st0.img, st.img, St().img);
          ShrunkTrans(sb, i, st0, st, St());
        }
        j := j + 1;
      }
      ghost var st := St();
      SamePtr(st0.img, st.img, p);
      ChildNotIn(dead, p, NINDIRECT);
      var panicked := Bfree(a, i, p, dead, but);
      dead := dead + {p};
      SamePointersTrans(st0.img, st.img, St().img);
      ShrunkTrans(sb, i, st0, st, St());
      SubtreeDead(st0.img, St().img, p, dead);
    }

    // itrunc, first loop: the direct blocks.
    method TruncDirect(i: nat, ghost st0: State)
      requires Truncating(sb, i, st0, St(), {}) && Traced()
      modifies `blocks, `inodes, `logged, `mine, `early, `trace, `owner
      ensures Traced() && old(trace) <= trace
      ensures Truncating(sb, i, st0, St(), {}) && i < |old(inodes)| && i < |inodes|
      ensures forall c :: 0 <= c < 13 ==> inodes[i].addrs[c] == if c < NDIRECT then 0 else old(inodes)[i].addrs[c]
    {
      hide Owned, Agrees, Ptr, SamePointers, Shrunk, Truncating, Below, Tied;
      TruncatingFacts(sb, i, st0, St(), {});
      var k := 0;
      while k < NDIRECT
        invariant 0 <= k <= NDIRECT && Truncating(sb, i, st0, St(), {})
        invariant i < |inodes| && Traced() && old(trace) <= trace
        invariant forall c :: 0 <= c < 13 ==> inodes[i].addrs[c] == if c < k then 0 else old(inodes)[i].addrs[c]
      {
        if inodes[i].addrs[k] != 0 {
          ghost var st := St();
          TruncatingFacts(sb, i, st0, st, {});
          RootPtr(st.img, i, k);
          var panicked := Bfree(inodes[i].addrs[k], i, Direct(i, k), {}, {});
          ShrunkTrans(sb, i, st0, st, St());
          BelowLeaf(Direct(i, k));
          assert {} + {Direct(i, k)} == {Direct(i, k)};
          RootGone(sb, i, k, st0, St(), {Direct(i, k)}, {});
          inodes := inodes[i := inodes[i].(addrs := inodes[i].addrs[k := 0])];
        }
        k := k + 1;
      }
    }

    // itrunc, second part: the blocks below the indirect block, and that block itself.
    method TruncIndirect(i: nat, ghost st0: State)
      requires Truncating(sb, i, st0, St(), {}) && Traced() && i < |inodes|
      modifies `blocks, `inodes, `logged, `mine, `early, `trace, `owner
      ensures Traced() && old(trace) <= trace
      ensures Truncating(sb, i, st0, St(), {})
      ensures inodes == old(inodes)[i := old(inodes)[i].(addrs := old(inodes)[i].addrs[NDIRECT := 0])]
    {
      hide Owned, Agrees, Ptr, SamePointers, Shrunk, Truncating, Below, Tied;
      ghost var st := St();
      TruncatingFacts(sb, i, st0, st, {});
      RootPtr(st.img, i, NDIRECT);
      if inodes[i].addrs[NDIRECT] != 0 {
        ghost var dead := FreeIndex(inodes[i].addrs[NDIRECT], i, Ind(i), {});
        ShrunkTrans(sb, i, st0, st, St());
        RootGone(sb, i, NDIRECT, st0, St(), dead, {});
        inodes := inodes[i := inodes[i].(addrs := inodes[i].addrs[NDIRECT := 0])];
      } else {
        assert inodes[i].addrs[NDIRECT := 0] == inodes[i].addrs;
      }
    }

    // itrunc, third part: the blocks below the double-indirect block, and that block itself.
    method TruncDouble(i: nat, ghost st0: State, ghost but: set<nat>)
      requires Truncating(sb, i, st0, St(), but) && i < |inodes| && Traced()
      requires inodes[i].addrs[NDIRECT + 1] != 0 && inodes[i].addrs[NDIRECT + 1] in but
      modifies `blocks, `inodes, `logged, `mine, `early, `trace, `owner
      ensures Traced() && old(trace) <= trace
      ensures Truncating(sb, i, st0, St(), but)
      ensures inodes == old(inodes)[i := old(inodes)[i].(addrs := old(inodes)[i].addrs[NDIRECT + 1 := 0])]
    {
      hide Owned, Agrees, Ptr, SamePointers, Shrunk, Truncating, Below, PutWord, WordAt, Tied;
      var a := inodes[i].addrs[NDIRECT + 1];
      var k := 0;
      while k < NINDIRECT
        invariant 0 <= k <= NINDIRECT && Truncating(sb, i, st0, St(), but) && inodes == old(inodes)
        invariant Traced() && old(trace) <= trace
        invariant forall c :: 0 <= c < k ==> Ptr(St().img, Leaf(i, c)) == 0
      {
        ghost var st := St();
        TruncatingFacts(sb, i, st0, st, but);
        RootPtr(st.img, i, NDIRECT + 1);
        OwnedPtr(sb, st.img, owner, {}, DInd(i));
        ChildPtrWord(sb, st.img, DInd(i), k);
        var x := WordAt(blocks[a], k);
        if x != 0 {
          ghost var dead := FreeIndex(x, i, Leaf(i, k), but);
          ghost var st1 := St();
          ShrunkTrans(sb, i, st0, st, st1);
          SamePtr(st.img, st1.img, DInd(i));
          EntryGone(sb, i, k, st0, st1, dead, but);
          Scribble(a, PutWord(blocks[a], k, 0));
          assert St() == EntryClearedState(st1, a, k);
          LeavesGone(st.img, st1.img, St().img, i, k);
        }
        k := k + 1;
      }
      ghost var st := St();
      TruncatingFacts(sb, i, st0, st, but);
      RootPtr(st.img, i, NDIRECT + 1);
      var panicked := Bfree(a, i, DInd(i), {}, but);
      ShrunkTrans(sb, i, st0, st, St());
      NothingBelow(st.img, St().img, i);
      assert {} + {DInd(i)} == {DInd(i)};
      RootGone(sb, i, NDIRECT + 1, st0, St(), {DInd(i)}, but);
      inodes := inodes[i := inodes[i].(addrs := inodes[i].addrs[NDIRECT + 1 := 0])];
    }

    // All of the above: the tree of inode i is gone, and only its double-indirect block may hold an
    // unlogged change.
    method TruncTree(i: nat, ghost st0: State) returns (ghost but: set<nat>)
      requires Truncating(sb, i, st0, St(), {}) && Traced()
      modifies `blocks, `inodes, `logged, `mine, `early, `trace, `owner
      ensures Traced() && old(trace) <= trace
      ensures Truncating(sb, i, st0, St(), but) && i < |inodes| && inodes[i].addrs == NoAddrs()
      ensures forall b :: b in but ==> b in st0.owner && OfInode(st0.owner[b], i)
    {
      hide Owned, Agrees, Ptr, SamePointers, Shrunk, Truncating, Below, Tied;
      TruncDirect(i, st0);
      TruncIndirect(i, st0);
      but := {};
      if inodes[i].addrs[NDIRECT + 1] != 0 {
        but := {inodes[i].addrs[NDIRECT + 1]};
        DoubleBlock(sb, i, st0, St());
        TruncDouble(i, st0, but);
      }
    }

    // Discards the contents of inode i.
    method Itrunc(i: nat)
      requires Good(sb, St(), {}) && Traced() && i < sb.ninodes
      modifies `blocks, `inodes, `logged, `mine, `early, `trace, `owner
      ensures Traced() && old(trace) <= trace
      ensures Truncated(sb, i, old(St()), St()) && early == old(mine) + FreedMap(sb, old(St()), St())
    {
      hide Owned, Agrees, Ptr, SamePointers, Shrunk, Good, Truncating, Truncated, Below, Tied, NoAddrs, FreedMap,
        Iupdated;
      ghost var st0 := St();
      TruncStart(sb, i, st0);
      ghost var but := TruncTree(i, st0);
      ghost var st := St();
      TruncatingFacts(sb, i, st0, st, but);
      TruncFinish(sb, i, st0, st, but);
      inodes := inodes[i := inodes[i].(size := 0)];
      IupdateNoted(sb, St(), i);
      Iupdate(i);
      ShrunkNoted(sb, i, st0, st, St());
    }

    // The first inode whose disk type is zero gets a type; none left is a panic.
    method Ialloc(typ: Half) returns (ok: bool, inum: nat)
      requires Good(sb, St(), {}) && Traced() && typ != 0
      modifies `blocks, `inodes, `logged, `mine, `early, `trace
      ensures Traced() && old(trace) <= trace
      ensures ok ==> 1 <= inum < sb.ninodes && inum < |old(inodes)| && old(inodes)[inum].typ == 0
      ensures ok ==> Good(sb, St(), {}) && |inodes| == |old(inodes)| == sb.ninodes
      ensures ok ==> inodes == old(inodes)[inum := Inode(typ, 0, 0, 0, 0, NoAddrs())]
      ensures ok ==> mine == old(mine) + {sb.IBlock(inum)}
      ensures ok ==> forall j :: 0 <= j < sb.ninodes ==> Content(St().img, j) == Content(old(St()).img, j)
      ensures !ok ==> St() == old(St()) && forall j :: 1 <= j < sb.ninodes && j < |inodes| ==> inodes[j].typ != 0
    {
      hide Ready, Ptr, ByteAt, NoHoles, OnDisk, Content, Good, Tied;
      ghost var st := St();
      inum := 1;
      while inum < sb.ninodes
        invariant 1 <= inum && St() == st && Traced() && trace == old(trace)
        invariant forall j :: 1 <= j < inum && j < |inodes| ==> inodes[j].typ != 0
      {
        GoodFacts(sb, st, inum);
        SyncedFacts(sb, st, inum);
        if OnDisk(sb, blocks, inum).typ == 0 {
          InodeAllocated(sb, st, inum, typ);
          inodes := inodes[inum := Inode(typ, 0, 0, 0, 0, NoAddrs())];
          Iupdate(inum);
          return true, inum;
        }
        inum := inum + 1;
      }
      ok := false;
    }

    // Dropping one of `refs` references: the last one to an unlinked inode frees it and its contents.
    method Iput(i: nat, refs: nat)
      requires Good(sb, St(), {}) && Traced() && i < sb.ninodes && i < |inodes|
      modifies `blocks, `inodes, `logged, `mine, `early, `trace, `owner, `valid
      ensures Traced() && old(trace) <= trace
      ensures Good(sb, St(), {}) && |inodes| == |old(inodes)|
      ensures !(i in old(valid) && old(inodes)[i].nlink == 0 && refs == 1) ==>
        St() == old(St()) && valid == old(valid) && trace == old(trace)
      ensures i in old(valid) && old(inodes)[i].nlink == 0 && refs == 1 ==>
        Truncated(sb, i, WithType(old(St()), i, 0), St()) && valid == old(valid) - {i} && early == mine
    {
      hide Good, Truncated, WithType, Iupdated, OnDisk, Tied;
      if i in valid && inodes[i].nlink == 0 {
        if refs == 1 {
          ghost var st := St();
          Itrunc(i);
          InodeFreed(sb, i, st, St());
          TruncatedNoted(sb, i, st, St());
          inodes := inodes[i := inodes[i].(typ := 0)];
          IupdateNoted(sb, St(), i);
          Iupdate(i);
          valid := valid - {i};
        }
      }
    }

    // begin_op: what follows is done by a new operation, which has logged nothing.
    method BeginOp()
      requires Traced()
      modifies `op, `begun, `mine, `early, `turn
      ensures op == old(begun) && begun == old(begun) + 1 && mine == early == {} && turn == |trace| && Traced()
      ensures old(Good(sb, St(), {})) ==> Good(sb, St(), {})
    {
      hide Good, Tied;
      TieBegin(sb, Record());
      if Good(sb, St(), {}) {
        AnyOperation(sb, St(), {}, {});
      }
      op, begun, mine, early, turn := begun, begun + 1, {}, {}, |trace|;
    }

    // The processor turns to operation o.
    method Resume(o: nat)
      requires Traced() && o < begun
      modifies `op, `mine, `early, `turn
      ensures op == o && mine == Footprint(trace, o) && early == Early(trace, o) && turn == |trace| && Traced()
      ensures old(Good(sb, St(), {})) ==> Good(sb, St(), {})
    {
      hide Good;
      op, mine, early, turn := o, Footprint(trace, o), Early(trace, o), |trace|;
      if old(Good(sb, St(), {})) {
        AnyOperation(sb, old(St()), mine, early);
      }
    }

    // end_op: the last operation out commits.
    method EndOp(last: bool)
      requires Good(sb, St(), {}) && Traced() && Recoverable()
      modifies `ended, `prior, `logged, `mine, `early, `trace, `base, `baseOwner, `turn, `start, `stray
      ensures Good(sb, St(), {}) && Traced() && Recoverable()
      ensures ended == old(ended) + [old(mine)] && prior == old(prior) + [old(early)]
      ensures |old(base)| == |old(blocks)| && (last ==> Record() == Committed(old(Record())))
      ensures !last ==> unchanged(`logged, `mine, `early, `trace, `base, `baseOwner, `turn, `start, `stray)
      ensures last ==> trace == [] && logged == mine == early == {} && stray == Loose(old(stray), old(trace))
      ensures last ==> base == LogSafety.Apply(old(base), Pending(old(trace))) && baseOwner == owner
      ensures last ==> Mounted(sb, base, baseOwner).img.inodes == inodes
      ensures last ==> forall i :: 0 <= i < |inodes| ==>
        Content(Mounted(sb, base, baseOwner).img, i) == Content(St().img, i)
    {
      hide Good, Content, Tied;
      TieCommit(sb, Record());
      ended, prior := ended + [mine], prior + [early];
      if last {
        Commit();
      }
    }

    // commit: the logged blocks reach their home locations.
    method Commit()
      requires Good(sb, St(), {}) && Traced()
      modifies `logged, `mine, `early, `trace, `base, `baseOwner, `turn, `start, `stray
      ensures Good(sb, St(), {}) && Traced() && logged == mine == early == {} && trace == [] && Recoverable()
      ensures |old(base)| == |blocks| && Record() == Committed(old(Record()))
      ensures base == Installed(old(base), blocks, old(logged)) && baseOwner == owner
      ensures base == LogSafety.Apply(old(base), Pending(old(trace))) && stray == Loose(old(stray), old(trace))
      ensures Mounted(sb, base, baseOwner).img.inodes == inodes
      ensures forall i :: 0 <= i < |inodes| ==> Content(Mounted(sb, base, baseOwner).img, i) == Content(St().img, i)
    {
      hide Good, Content, Tied;
      ghost var st := St();
      CommitIsDurable(sb, st);
      CommittedGood(sb, st);
      TieCommit(sb, Record());
      CommitApplies(sb, Record());
      stray := Loose(stray, trace);
      base := Installed(base, blocks, logged);
      logged, mine, early, trace := {}, {}, {}, [];
      baseOwner, turn, start := owner, 0, blocks;
    }

    // A crash and a completed recovery: memory is lost, and the disk, whose home blocks are those of the
    // last commit, mounts to the files of the last commit.
    method Crash(disk: seq<Block>)
      requires Recoverable() && |disk| == sb.size && forall b :: sb.Home(b) ==> disk[b] == base[b]
      modifies this
      ensures Good(sb, St(), {}) && Recoverable() && Traced() && valid == {} && trace == [] && stray == {}
      ensures St() == Mounted(sb, disk, old(baseOwner)) && baseOwner == old(baseOwner)
      ensures ended == old(ended) && prior == old(prior) && begun == old(begun) + 1
      ensures inodes == Mounted(sb, old(base), old(baseOwner)).img.inodes
      ensures forall i :: 0 <= i < |inodes| ==>
        Content(St().img, i) == Content(Mounted(sb, old(base), old(baseOwner)).img, i)
    {
      hide Good, Content, Tied;
      HomesDecide(sb, base, disk, baseOwner);
      blocks, inodes, valid, logged := disk, DiskInodes(sb, disk), {}, {};
      op, begun, mine, early, trace := begun, begun + 1, {}, {}, [];
      owner, base, turn, start, stray := baseOwner, disk, 0, disk, {};
      assert St() == Mounted(sb, disk, baseOwner);
      TieMounted(sb, Record());
    }
  }
}
