/** The buffer cache under the log (kernel/bio.c, kernel/log.c): what the buffers and the disk together
    read as is the log machine's cache, each buffer operation is a step of that machine or none, and the
    pinned buffers are the header's blocks. */
module CacheLog {
  import opened Blocks
  import opened Params
  import opened Cache
  import opened LogMachine
  import LogSpace

  type Buffer = Cache.Rec

  predicate Serves(v: seq<Buffer>, n: nat, i: int) {
    0 <= i < |v| && v[i].Holds(n) && v[i].valid
  }

  // bread of block n returns cache[n]: the valid buffer that holds it, or the disk.
  ghost predicate Reads(v: seq<Buffer>, disk: seq<Block>, cache: seq<Block>) {
    && |cache| == |disk|
    && (forall n, i :: 0 <= n < |disk| && Serves(v, n, i) ==> v[i].data == cache[n])
    && (forall n :: 0 <= n < |disk| && (forall i :: !Serves(v, n, i)) ==> disk[n] == cache[n])
  }

  // The blocks of the header that are not installed yet.
  function Pinned(s: State): seq<nat> {
    match s.phase
    case Idle => s.lh
    case Logging(_) => s.lh
    case Heading => s.lh
    case Installing(tail) => if tail <= |s.lh| then s.lh[tail..] else []
    case _ => []
  }

  // Exactly those have a dirty buffer, and no other block of the header has an unlogged change.
  ghost predicate Pins(c: Config, v: seq<Buffer>, s: State, stray: set<nat>) {
    && (forall b :: DirtyAt(v, b) <==> b in Pinned(s))
    && (forall i :: 0 <= i < |v| && v[i].dirty ==> v[i].dev == ROOTDEV)
    && (forall b :: b in stray ==> c.Home(b) && (b in s.lh ==> b in Pinned(s)))
  }

  ghost predicate Refines(c: Config, v: seq<Buffer>, disk: seq<Block>, s: State, stray: set<nat>) {
    s.disk == disk && Reads(v, disk, s.cache) && Pins(c, v, s, stray)
  }

  predicate SameBuffer(r: Buffer, r': Buffer) {
    r'.valid == r.valid && r'.dirty == r.dirty && r'.dev == r.dev && r'.blockno == r.blockno && r'.data == r.data
  }

  // The same buffers in another order: buffer i of v is buffer to[i] of v', and back.
  predicate SameBuffers(v: seq<Buffer>, v': seq<Buffer>, to: seq<nat>, back: seq<nat>) {
    && |to| == |v| && (forall i :: 0 <= i < |v| ==> to[i] < |v'| && SameBuffer(v[i], v'[to[i]]))
    && |back| == |v'| && (forall j :: 0 <= j < |v'| ==> back[j] < |v| && SameBuffer(v[back[j]], v'[j]))
  }

  // Only whether a block has a dirty buffer matters to the pins.
  lemma PinsKept(c: Config, v: seq<Buffer>, v': seq<Buffer>, s: State, stray: set<nat>)
    requires Pins(c, v, s, stray) && forall b :: DirtyAt(v', b) <==> DirtyAt(v, b)
    requires forall i :: 0 <= i < |v'| && v'[i].dirty ==> v'[i].dev == ROOTDEV
    ensures Pins(c, v', s, stray)
  {
  }

  lemma SameRefines(v: seq<Buffer>, v': seq<Buffer>, to: seq<nat>, back: seq<nat>, disk: seq<Block>, s: State,
                    c: Config, stray: set<nat>)
    requires Refines(c, v, disk, s, stray) && SameBuffers(v, v', to, back)
    ensures Refines(c, v', disk, s, stray)
  {
    forall n, j | 0 <= n < |disk| && Serves(v', n, j)
      ensures v'[j].data == s.cache[n]
    {
      assert Serves(v, n, back[j]);
    }
    forall n, i | 0 <= n < |disk| && Serves(v, n, i)
      ensures Serves(v', n, to[i])
    {
    }
    forall b
      ensures DirtyAt(v', b) <==> DirtyAt(v, b)
    {
      SameDirty(v, v', to, back, b);
    }
    PinsKept(c, v, v', s, stray);
  }

  lemma SameDirty(v: seq<Buffer>, v': seq<Buffer>, to: seq<nat>, back: seq<nat>, b: nat)
    requires SameBuffers(v, v', to, back)
    ensures DirtyAt(v', b) <==> DirtyAt(v, b)
  {
    if DirtyAt(v, b) {
      var i :| 0 <= i < |v| && v[i].Holds(b) && v[i].dirty;
      assert v'[to[i]].Holds(b) && v'[to[i]].dirty;
    }
    if DirtyAt(v', b) {
      var j :| 0 <= j < |v'| && v'[j].Holds(b) && v'[j].dirty;
      assert v[back[j]].Holds(b) && v[back[j]].dirty;
    }
  }

  lemma InPlaceRefines(v: seq<Buffer>, v': seq<Buffer>, disk: seq<Block>, s: State, c: Config, stray: set<nat>)
    requires Refines(c, v, disk, s, stray) && |v'| == |v| && forall i :: 0 <= i < |v| ==> SameBuffer(v[i], v'[i])
    ensures Refines(c, v', disk, s, stray)
  {
    var id := seq(|v|, i requires 0 <= i => i);
    SameRefines(v, v', id, id, disk, s, c, stray);
  }

  // bget on a hit, and brelse: no step.
  lemma ReferenceRefines(v: seq<Buffer>, disk: seq<Block>, s: State, c: Config, stray: set<nat>, k: nat)
    requires Refines(c, v, disk, s, stray) && k < |v|
    ensures Refines(c, Referenced(v, k), disk, s, stray)
  {
    InPlaceRefines(v, Referenced(v, k), disk, s, c, stray);
  }

  lemma ReleaseRefines(v: seq<Buffer>, disk: seq<Block>, s: State, c: Config, stray: set<nat>, k: nat, clock: nat)
    requires Refines(c, v, disk, s, stray) && k < |v| && v[k].refcnt > 0
    ensures Refines(c, Released(v, k, clock), disk, s, stray)
  {
    hide Refines, First;
    var v1 := v[k := Dropped(v[k], clock)];
    InPlaceRefines(v, v1, disk, s, c, stray);
    FrontRefines(v1, disk, s, c, stray, k);
  }

  lemma FrontRefines(v: seq<Buffer>, disk: seq<Block>, s: State, c: Config, stray: set<nat>, k: nat)
    requires Refines(c, v, disk, s, stray) && k < |v|
    ensures Refines(c, First(v, k), disk, s, stray)
  {
    hide Refines, First, SameBuffers;
    FirstAt(v, k);
    var v' := First(v, k);
    var to := seq(|v|, i requires 0 <= i => if i == k then 0 else if i < k then i + 1 else i);
    var back := seq(|v|, j requires 0 <= j => From(j, k));
    SameIsSame(v, v', to, back);
    SameRefines(v, v', to, back, disk, s, c, stray);
  }

  lemma SameIsSame(v: seq<Buffer>, v': seq<Buffer>, to: seq<nat>, back: seq<nat>)
    requires |v| == |v'| == |to| == |back|
    requires forall i :: 0 <= i < |v| ==> to[i] < |v| && back[to[i]] == i
    requires forall i :: 0 <= i < |v| ==> back[i] < |v| && v'[i] == v[back[i]]
    ensures SameBuffers(v, v', to, back)
  {
  }

  // Buffer k gets record r, which holds no other block and no dirt that was not there.
  lemma OneDirt(v: seq<Buffer>, k: nat, r: Buffer, b: nat)
    requires k < |v| && Unique(v)
    ensures DirtyAt(v[k := r], b) <==> (r.dirty && r.Holds(b)) || (DirtyAt(v, b) && !(v[k].dirty && v[k].Holds(b)))
  {
    var v' := v[k := r];
    if r.dirty && r.Holds(b) {
      assert v'[k].Holds(b) && v'[k].dirty;
    }
    if DirtyAt(v, b) {
      var i :| 0 <= i < |v| && v[i].Holds(b) && v[i].dirty;
      assert i != k ==> v'[i].Holds(b) && v'[i].dirty;
      assert v[k].dirty && v[k].Holds(b) ==> i == k;
    }
  }

  // The read of bread: no step.
  lemma ReadRefines(v: seq<Buffer>, disk: seq<Block>, s: State, c: Config, stray: set<nat>, k: nat)
    requires Refines(c, v, disk, s, stray) && Unique(v) && k < |v| && v[k].dev == ROOTDEV && v[k].blockno < |disk|
    ensures Refines(c, v[k := Read(v[k], disk)], disk, s, stray)
    ensures Read(v[k], disk).data == s.cache[v[k].blockno]
  {
    hide Pins, Unique, DirtyAt;
    var v', n := v[k := Read(v[k], disk)], v[k].blockno;
    Alone(v, k);
    forall m, i | 0 <= m < |disk| && Serves(v', m, i)
      ensures v'[i].data == s.cache[m]
    {
      assert i != k ==> Serves(v, m, i);
      assert v[k].valid ==> Serves(v, n, k);
    }
    forall m | 0 <= m < |disk| && (forall i :: !Serves(v', m, i))
      ensures disk[m] == s.cache[m]
    {
      forall i ensures !Serves(v, m, i) {
        assert Serves(v, m, i) ==> Serves(v', m, i);
      }
    }
    ReplacedPins(c, v, k, v'[k], s, stray);
  }

  // Buffer k changes without becoming dirty or clean.
  lemma ReplacedPins(c: Config, v: seq<Buffer>, k: nat, r: Buffer, s: State, stray: set<nat>)
    requires Pins(c, v, s, stray) && Unique(v) && k < |v| && r.dirty == v[k].dirty
    requires r.dirty ==> r.dev == v[k].dev && r.blockno == v[k].blockno
    ensures Pins(c, v[k := r], s, stray)
  {
    forall b
      ensures DirtyAt(v[k := r], b) <==> DirtyAt(v, b)
    {
      OneDirt(v, k, r, b);
      if v[k].dirty && v[k].Holds(b) {
        OnlyDirt(v, k, b);
      }
    }
    PinsKept(c, v, v[k := r], s, stray);
  }

  lemma OnlyDirt(v: seq<Buffer>, k: nat, b: nat)
    requires k < |v| && v[k].dirty && v[k].Holds(b)
    ensures DirtyAt(v, b)
  {
  }

  // Nobody but buffer k serves its block.
  lemma Alone(v: seq<Buffer>, k: nat)
    requires Unique(v) && k < |v| && v[k].dev == ROOTDEV
    ensures forall i :: Serves(v, v[k].blockno, i) ==> i == k
    ensures DirtyAt(v, v[k].blockno) <==> v[k].dirty
  {
    OnlyHolder(v, k);
  }

  // Recycling a buffer that holds an unlogged change is the machine's Evict, at any moment. Any other clean
  // buffer holds what is on disk, and recycling it is no step.
  lemma RecycleRefines(v: seq<Buffer>, disk: seq<Block>, s: State, current: seq<Block>, stray: set<nat>, c: Config,
                       k: nat, n: nat)
    requires Refines(c, v, disk, s, stray) && Coherent(v, disk, current, stray) && WellFormed(c, s)
    requires k < |v| && v[k].Recyclable() && n < |disk| && forall i :: 0 <= i < |v| ==> !v[i].Holds(n)
    ensures var v', b := v[k := Recycled(v[k], n)], v[k].blockno;
            if v[k].dev == ROOTDEV && b in stray then
              Enabled(c, s, Evict(b)) && Refines(c, v', disk, Next(c, s, Evict(b)), Evicted(v[k], stray))
            else Refines(c, v', disk, s, Evicted(v[k], stray))
  {
    hide DirtyAt, Pins;
    var v', b := v[k := Recycled(v[k], n)], v[k].blockno;
    assert RecOk(v[k], current, stray);
    ReplacedPins(c, v, k, v'[k], s, stray);
    FewerStray(c, v', s, stray, Evicted(v[k], stray));
    if v[k].dev == ROOTDEV {
      Alone(v, k);
      Emptied(v, disk, s.cache, k, n);
      if b in stray {
        StrayIsOut(c, v, s, stray, b);
        EvictPins(c, v', s, Evicted(v[k], stray), b);
      } else {
        CleanIsHome(v, disk, s.cache, current, stray, k);
        assert s.cache[b := disk[b]] == s.cache;
      }
    } else {
      EmptiedOther(v, disk, s.cache, k, n);
    }
  }

  lemma StrayIsOut(c: Config, v: seq<Buffer>, s: State, stray: set<nat>, b: nat)
    requires Pins(c, v, s, stray) && b in stray && !DirtyAt(v, b)
    ensures c.Home(b) && b !in s.lh
  {
  }

  lemma EvictPins(c: Config, v: seq<Buffer>, s: State, stray: set<nat>, b: nat)
    requires Pins(c, v, s, stray) && WellFormed(c, s) && Enabled(c, s, Evict(b))
    ensures Pins(c, v, Next(c, s, Evict(b)), stray)
  {
    hide DirtyAt;
    assert Pinned(Next(c, s, Evict(b))) == Pinned(s);
  }

  lemma FewerStray(c: Config, v: seq<Buffer>, s: State, stray: set<nat>, stray': set<nat>)
    requires Pins(c, v, s, stray) && stray' <= stray
    ensures Pins(c, v, s, stray')
  {
  }

  lemma CleanIsHome(v: seq<Buffer>, disk: seq<Block>, cache: seq<Block>, current: seq<Block>, stray: set<nat>, k: nat)
    requires Reads(v, disk, cache) && Coherent(v, disk, current, stray) && k < |v| && !v[k].dirty
    requires v[k].dev == ROOTDEV && v[k].blockno !in stray
    ensures v[k].blockno < |disk| && disk[v[k].blockno] == cache[v[k].blockno]
  {
    assert RecOk(v[k], current, stray);
    Alone(v, k);
    assert v[k].valid ==> Serves(v, v[k].blockno, k);
  }

  lemma Emptied(v: seq<Buffer>, disk: seq<Block>, cache: seq<Block>, k: nat, n: nat)
    requires Reads(v, disk, cache) && Unique(v) && k < |v| && v[k].dev == ROOTDEV && v[k].blockno < |disk|
    ensures var b := v[k].blockno; Reads(v[k := Recycled(v[k], n)], disk, cache[b := disk[b]])
  {
    var v', b := v[k := Recycled(v[k], n)], v[k].blockno;
    Alone(v, k);
    forall m, i | 0 <= m < |disk| && Serves(v', m, i)
      ensures v'[i].data == cache[b := disk[b]][m]
    {
      assert Serves(v, m, i) && i != k;
    }
    forall m | 0 <= m < |disk| && m != b && (forall i :: !Serves(v', m, i))
      ensures disk[m] == cache[m]
    {
      forall i ensures !Serves(v, m, i) {
        assert Serves(v, m, i) ==> Serves(v', m, i);
      }
    }
  }

  lemma EmptiedOther(v: seq<Buffer>, disk: seq<Block>, cache: seq<Block>, k: nat, n: nat)
    requires Reads(v, disk, cache) && k < |v| && v[k].dev != ROOTDEV
    ensures Reads(v[k := Recycled(v[k], n)], disk, cache)
  {
    var v' := v[k := Recycled(v[k], n)];
    forall m, i
      ensures Serves(v', m, i) <==> Serves(v, m, i)
    {
    }
  }

  lemma Changed(v: seq<Buffer>, disk: seq<Block>, cache: seq<Block>, k: nat, r: Buffer, x: Block)
    requires Reads(v, disk, cache) && Unique(v) && k < |v| && v[k].dev == ROOTDEV && v[k].blockno < |disk|
    requires r.dev == ROOTDEV && r.blockno == v[k].blockno && r.valid && r.data == x
    ensures Reads(v[k := r], disk, cache[v[k].blockno := x])
    ensures Reads(v[k := r], disk[v[k].blockno := x], cache[v[k].blockno := x])
  {
    var v', b := v[k := r], v[k].blockno;
    Alone(v, k);
    assert Serves(v', b, k);
    forall m, i | 0 <= m < |disk| && Serves(v', m, i)
      ensures v'[i].data == cache[b := x][m]
    {
      assert i != k ==> Serves(v, m, i);
    }
    forall m | 0 <= m < |disk| && (forall i :: !Serves(v', m, i))
      ensures m != b && disk[m] == cache[m]
    {
      forall i ensures !Serves(v, m, i) {
        assert Serves(v, m, i) ==> Serves(v', m, i);
      }
    }
  }

  // The holder of a buffer changes it: Scribble. Then log_write: Write.
  lemma ModifyRefines(v: seq<Buffer>, disk: seq<Block>, s: State, c: Config, stray: set<nat>, k: nat, o: nat, x: Block)
    requires Refines(c, v, disk, s, stray) && Unique(v) && WellFormed(c, s)
    requires k < |v| && v[k].dev == ROOTDEV && v[k].valid && Enabled(c, s, Scribble(o, v[k].blockno, x))
    ensures var b := v[k].blockno;
            Refines(c, v[k := v[k].(data := x)], disk, Next(c, s, Scribble(o, b, x)), stray + {b})
  {
    hide DirtyAt, Unique;
    var v' := v[k := v[k].(data := x)];
    Changed(v, disk, s.cache, k, v'[k], x);
    ReplacedPins(c, v, k, v'[k], s, stray);
    assert Pinned(Next(c, s, Scribble(o, v[k].blockno, x))) == Pinned(s) == s.lh;
  }

  lemma PinRefines(v: seq<Buffer>, disk: seq<Block>, s: State, c: Config, stray: set<nat>, k: nat, o: nat)
    requires Refines(c, v, disk, s, stray) && Unique(v) && WellFormed(c, s)
    requires k < |v| && v[k].dev == ROOTDEV && v[k].valid && Enabled(c, s, Write(o, v[k].blockno, v[k].data))
    ensures var b := v[k].blockno;
            Refines(c, v[k := v[k].(dirty := true)], disk, Next(c, s, Write(o, b, v[k].data)), stray - {b})
  {
    hide DirtyAt, Unique;
    var v', b := v[k := v[k].(dirty := true)], v[k].blockno;
    Changed(v, disk, s.cache, k, v'[k], v[k].data);
    var s' := Next(c, s, Write(o, b, v[k].data));
    forall x
      ensures DirtyAt(v', x) <==> x in Pinned(s')
    {
      OneDirt(v, k, v'[k], x);
      assert x in s'.lh <==> x in s.lh || x == b;
    }
  }

  // ---- the block writes of commit and recovery ----

  // Which block the next one goes to, and with what contents.
  function Target(c: Config, s: State): nat
    requires WellFormed(c, s)
  {
    match s.phase
    case Logging(tail) => c.start + 1 + tail
    case Installing(tail) => s.lh[tail]
    case Recovering(tail) => s.lh[tail]
    case _ => c.start
  }

  function Payload(c: Config, s: State): Block
    requires WellFormed(c, s)
  {
    match s.phase
    case Logging(tail) => s.cache[s.lh[tail]]
    case Heading => PutHead(s.disk[c.start], s.lh)
    case Installing(tail) => s.disk[c.start + 1 + tail]
    case Recovering(tail) => s.disk[c.start + 1 + tail]
    case _ => PutHead(s.disk[c.start], [])
  }

  lemma WriteTarget(c: Config, s: State)
    requires WellFormed(c, s) && Enabled(c, s, DiskWrite)
    ensures Target(c, s) < c.nblocks
    ensures DiskStep(c, s).disk == s.disk[Target(c, s) := Payload(c, s)]
    ensures DiskStep(c, s).cache == s.cache[Target(c, s) := Payload(c, s)]
  {
    hide PutHead;
  }

  // It unpins the block it goes to and no other.
  lemma WriteUnpins(c: Config, s: State, b: nat)
    requires WellFormed(c, s) && Enabled(c, s, DiskWrite)
    ensures b in Pinned(DiskStep(c, s)) <==> b in Pinned(s) && b != Target(c, s)
    ensures b in DiskStep(c, s).lh ==> b in s.lh
  {
    hide PutHead, WellFormed;
    if s.phase.Installing? {
      InstallUnpins(c, s, b);
    } else {
      LoggedIsHome(c, s, b);
    }
  }

  lemma LoggedIsHome(c: Config, s: State, b: nat)
    requires WellFormed(c, s)
    ensures b in s.lh ==> c.Home(b)
    ensures !s.phase.Installing? && !s.phase.Recovering? ==> !c.Home(Target(c, s))
  {
  }

  lemma InstallUnpins(c: Config, s: State, b: nat)
    requires WellFormed(c, s) && s.phase.Installing?
    ensures b in Pinned(DiskStep(c, s)) <==> b in Pinned(s) && b != Target(c, s)
    ensures DiskStep(c, s).lh == s.lh
  {
    var rest := s.lh[s.phase.tail + 1..];
    assert s.lh[s.phase.tail..] == [s.lh[s.phase.tail]] + rest;
    assert s.lh[s.phase.tail] !in rest;
  }

  // A buffer for it is filled and written: the machine's disk step.
  lemma BwriteRefines(v: seq<Buffer>, disk: seq<Block>, s: State, c: Config, stray: set<nat>, k: nat)
    requires Refines(c, v, disk, s, stray) && Unique(v) && WellFormed(c, s) && Enabled(c, s, DiskWrite)
    requires k < |v| && v[k].Holds(Target(c, s))
    ensures var b, x := Target(c, s), Payload(c, s);
            Refines(c, v[k := v[k].(data := x, dirty := false, valid := true)], disk[b := x], Next(c, s, DiskWrite),
                    stray - {b})
  {
    hide DirtyAt, Unique, DiskStep, PutHead, Reads, Payload;
    var b, x := Target(c, s), Payload(c, s);
    var v', s' := v[k := v[k].(data := x, dirty := false, valid := true)], DiskStep(c, s);
    WriteTarget(c, s);
    Changed(v, disk, s.cache, k, v'[k], x);
    OnlyHolder(v, k);
    forall y
      ensures DirtyAt(v', y) <==> y in Pinned(s')
    {
      OneDirt(v, k, v'[k], y);
      WriteUnpins(c, s, y);
    }
    forall y | y in stray - {b}
      ensures c.Home(y) && (y in s'.lh ==> y in Pinned(s'))
    {
      WriteUnpins(c, s, y);
    }
  }

  // begin_op and end_op touch no buffer; after a crash there are only empty ones, and reading the header
  // takes a clean buffer.
  lemma RestRefines(v: seq<Buffer>, disk: seq<Block>, s: State, c: Config, stray: set<nat>, e: Event)
    requires Refines(c, v, disk, s, stray) && WellFormed(c, s) && Enabled(c, s, e)
    requires e.Begin? || e.End? || (e.ReadHead? && stray == {})
    ensures Refines(c, v, disk, Next(c, s, e), stray)
  {
    hide DirtyAt, Reads, HeadOf;
    assert e.ReadHead? ==> Pinned(Next(c, s, e)) == Pinned(s) == [];
  }

  lemma CrashRefines(v: seq<Buffer>, disk: seq<Block>, s: State, c: Config, stray: set<nat>, v': seq<Buffer>)
    requires Refines(c, v, disk, s, stray) && WellFormed(c, s)
    requires forall i :: 0 <= i < |v'| ==> v'[i].dev != ROOTDEV && !v'[i].dirty
    ensures Refines(c, v', disk, Next(c, s, Crash), {})
  {
  }

  // ---- when the cache runs out of buffers ----

  // Why a buffer cannot be recycled, or that it can.
  datatype Use = Pin | Hold | Spare

  function UseOf(r: Buffer): Use {
    if r.dirty then Pin else if r.refcnt > 0 then Hold else Spare
  }

  function Using(v: seq<Buffer>, u: Use): set<nat> {
    set i | 0 <= i < |v| && UseOf(v[i]) == u
  }

  // Clean buffers somebody references.
  function Held(v: seq<Buffer>): set<nat> {
    Using(v, Hold)
  }

  // Each pinned block has one dirty buffer.
  lemma {:induction false} DirtyCount(v: seq<Buffer>, D: set<nat>, bs: seq<nat>)
    requires Unique(v) && (forall i, j :: 0 <= i < j < |bs| ==> bs[i] != bs[j])
    requires forall i :: i in D ==> i < |v| && v[i].dev == ROOTDEV && v[i].blockno in bs
    requires forall b :: b in bs ==> exists i :: i in D && v[i].Holds(b)
    ensures |D| == |bs|
    decreases |bs|
  {
    if bs == [] {
      assert D == {};
    } else {
      var b, rest := bs[0], bs[1..];
      assert b in bs;
      var i :| i in D && v[i].Holds(b);
      forall x | x in rest
        ensures exists j :: j in D - {i} && v[j].Holds(x)
      {
        assert x in bs && x != b;
        var j :| j in D && v[j].Holds(x);
        assert j in D - {i};
      }
      forall j | j in D - {i}
        ensures v[j].blockno in rest
      {
        assert v[j].blockno != b;
      }
      DirtyCount(v, D - {i}, rest);
    }
  }

  lemma PinnedDistinct(c: Config, s: State)
    requires WellFormed(c, s)
    ensures forall i, j :: 0 <= i < j < |Pinned(s)| ==> Pinned(s)[i] != Pinned(s)[j]
  {
  }

  lemma PinnedBuffers(v: seq<Buffer>, s: State, c: Config, stray: set<nat>)
    requires Pins(c, v, s, stray) && Unique(v) && WellFormed(c, s)
    ensures |Using(v, Pin)| == |Pinned(s)|
  {
    PinnedDistinct(c, s);
    forall b | b in Pinned(s)
      ensures exists i :: i in Using(v, Pin) && v[i].Holds(b)
    {
      assert DirtyAt(v, b);
      var i :| 0 <= i < |v| && v[i].Holds(b) && v[i].dirty;
      assert i in Using(v, Pin);
    }
    forall i | i in Using(v, Pin)
      ensures v[i].blockno in Pinned(s)
    {
      assert v[i].Holds(v[i].blockno);
      assert DirtyAt(v, v[i].blockno);
    }
    DirtyCount(v, Using(v, Pin), Pinned(s));
  }

  lemma UsingStep(v: seq<Buffer>, u: Use)
    requires |v| > 0
    ensures var n := |v| - 1; |Using(v, u)| == |Using(v[..n], u)| + if UseOf(v[n]) == u then 1 else 0
  {
    var n := |v| - 1;
    assert Using(v, u) == Using(v[..n], u) + if UseOf(v[n]) == u then {n} else {};
  }

  // Every buffer is pinned, held or free.
  lemma {:induction false} EachBuffer(v: seq<Buffer>)
    ensures |Using(v, Pin)| + |Using(v, Hold)| + |Using(v, Spare)| == |v|
  {
    hide Using, UseOf;
    if |v| > 0 {
      EachBuffer(v[..|v| - 1]);
      UsingStep(v, Pin);
      UsingStep(v, Hold);
      UsingStep(v, Spare);
    } else {
      NoBuffers(v);
    }
  }

  lemma NoBuffers(v: seq<Buffer>)
    requires v == []
    ensures forall u :: Using(v, u) == {}
  {
  }

  // bget finds nothing to recycle exactly when the blocks the header pins and the clean buffers somebody
  // holds are as many as there are buffers.
  lemma OutOfBuffers(v: seq<Buffer>, disk: seq<Block>, s: State, c: Config, stray: set<nat>)
    requires Refines(c, v, disk, s, stray) && Unique(v) && WellFormed(c, s)
    ensures |Pinned(s)| + |Held(v)| <= |v|
    ensures (forall i :: 0 <= i < |v| ==> !v[i].Recyclable()) <==> |Pinned(s)| + |Held(v)| == |v|
  {
    hide Pins, Unique, WellFormed;
    PinnedBuffers(v, s, c, stray);
    EachBuffer(v);
    if forall i :: 0 <= i < |v| ==> !v[i].Recyclable() {
      assert Using(v, Spare) == {};
    } else {
      var i :| 0 <= i < |v| && v[i].Recyclable();
      assert i in Using(v, Spare);
    }
  }

  // NBUF is LOGSIZE. So with nobody else holding a buffer the log blocks of write_log find one exactly when
  // the header is not full; a log of at most LOGSIZE blocks, as the image builder makes it, never fills it.
  lemma CommitBuffer(v: seq<Buffer>, disk: seq<Block>, s: State, c: Config, stray: set<nat>)
    requires Refines(c, v, disk, s, stray) && Unique(v) && WellFormed(c, s) && s.phase.Logging?
    requires |v| == LOGSIZE && Held(v) == {}
    ensures (exists i :: 0 <= i < |v| && v[i].Recyclable()) <==> |s.lh| < LOGSIZE
    ensures c.size <= LOGSIZE ==> exists i :: 0 <= i < |v| && v[i].Recyclable()
  {
    hide Pins, Unique, Held;
    OutOfBuffers(v, disk, s, c, stray);
  }

  // With a larger log it can be filled, by operations that all keep to their reservation, and then the commit
  // finds no buffer for its first log block, whatever the buffers are: bget panics.
  lemma CommitStarves(c: Config, init: seq<Block>) returns (run: seq<Event>, s: State, w: seq<Buffer>)
    requires LogSpace.Spacious(c, init) && c.size > LOGSIZE
    ensures LogSpace.ReachesWithin(c, init, run, s, MAXOPBLOCKS - 1) && WellFormed(c, s) && s.phase == Logging(0)
    ensures Refines(c, w, s.disk, s, {}) && Unique(w) && |w| == LOGSIZE
    ensures forall v: seq<Buffer>, disk, stray, i ::
      Refines(c, v, disk, s, stray) && Unique(v) && 0 <= i < |v| == LOGSIZE ==>
        !v[i].Recyclable() && !v[i].Holds(Target(c, s))
  {
    hide Refines, Unique, Target, WellFormed, LogSpace.ReachesWithin;
    run, s := LogSpace.FullCommit(c, init);
    w := HeaderCached(c, s);
    forall v: seq<Buffer>, disk, stray, i | Refines(c, v, disk, s, stray) && Unique(v) && 0 <= i < |v| == LOGSIZE
      ensures !v[i].Recyclable() && !v[i].Holds(Target(c, s))
    {
      AllPinned(v, disk, s, c, stray, i);
    }
  }

  // A cache that holds the blocks of the header and no other.
  lemma HeaderCached(c: Config, s: State) returns (w: seq<Buffer>)
    requires WellFormed(c, s) && s.phase.Logging? && LogSpace.Clean(s)
    ensures Refines(c, w, s.disk, s, {}) && Unique(w) && |w| == |s.lh|
  {
    w := seq(|s.lh|, i requires 0 <= i < |s.lh| =>
      Cache.Rec(true, true, ROOTDEV, s.lh[i], false, 0, s.cache[s.lh[i]], |s.lh| - i));
    forall b
      ensures DirtyAt(w, b) <==> b in s.lh
    {
      if b in s.lh {
        var i :| 0 <= i < |s.lh| && s.lh[i] == b;
        assert w[i].Holds(b) && w[i].dirty;
      }
    }
    forall n | 0 <= n < |s.disk| && (forall i :: !Serves(w, n, i))
      ensures s.disk[n] == s.cache[n]
    {
      if n in s.lh {
        var i :| 0 <= i < |s.lh| && s.lh[i] == n;
        assert Serves(w, n, i);
      }
    }
  }

  lemma AllPinned(v: seq<Buffer>, disk: seq<Block>, s: State, c: Config, stray: set<nat>, i: nat)
    requires Refines(c, v, disk, s, stray) && Unique(v) && WellFormed(c, s) && s.phase.Logging?
    requires i < |v| == |s.lh|
    ensures !v[i].Recyclable() && !v[i].Holds(Target(c, s))
  {
    hide Unique, Reads;
    OutOfBuffers(v, disk, s, c, stray);
    assert !v[i].Recyclable();
    if v[i].Holds(Target(c, s)) {
      NoneHeld(v, i);
      OnlyDirt(v, i, v[i].blockno);
      LoggedIsHome(c, s, v[i].blockno);
    }
  }

  lemma NoneHeld(v: seq<Buffer>, i: nat)
    requires i < |v| && Held(v) == {} && !v[i].Recyclable()
    ensures v[i].dirty
  {
    assert i !in Held(v);
  }
}
