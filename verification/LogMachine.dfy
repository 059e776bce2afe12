/** The redo log (kernel/log.c) as a machine whose steps are the operations of concurrent system
    calls, single block writes, crashes and recovery. */
module LogMachine {
  import opened Blocks
  import opened Params

  type OpId = nat

  // log.start, log.size and the number of blocks on disk.
  datatype Config = Config(start: nat, size: nat, nblocks: nat) {
    predicate Valid() {
      1 <= size && start + size <= nblocks < UINT_LIMIT
    }

    // A block with a home location: outside the log area.
    predicate Home(b: int) {
      0 <= b < nblocks && !(start <= b < start + size)
    }
  }

  // One log_write: which operation, which block, with what contents.
  datatype Rec = Rec(op: OpId, b: nat, data: Block)

  datatype Phase =
    | Idle                        // no commit running
    | Logging(tail: nat)          // write_log
    | Heading                     // write_head, the commit point
    | Installing(tail: nat)       // install_trans
    | Clearing                    // write_head with n = 0
    | Down                        // crashed
    | Recovering(tail: nat)       // install_trans from recover_from_log
    | RecoveryClearing            // its write_head with n = 0

  datatype State = State(
    disk: seq<Block>,
    cache: seq<Block>,            // block contents as bread returns them
    lh: seq<nat>,                 // log.lh.block[0..log.lh.n]
    ops: map<OpId, set<nat>>,     // outstanding operations and the blocks each called log_write for
    phase: Phase,
    // what happened, for stating the properties:
    durable: seq<Rec>,            // log_writes of committed transactions
    pending: seq<Rec>,            // log_writes of the open transaction
    wrote: map<OpId, seq<Rec>>,   // every log_write of every operation so far
    loose: set<nat>)              // blocks changed in the cache and not log_written

  datatype Event =
    | Begin(op: OpId)             // begin_op got through
    | Write(op: OpId, b: nat, data: Block)
    | Scribble(op: OpId, b: nat, data: Block)   // a buffer changed without log_write
    | Evict(b: nat)               // a buffer that is not pinned is recycled
    | End(op: OpId)
    | DiskWrite                   // the next block write of commit or recovery
    | Crash
    | ReadHead                    // recovery starts

  // ---- the header block ----

  function PutEntries(blk: Block, h: seq<nat>, k: nat): Block
    requires k <= |h| <= LOGSIZE && forall i :: 0 <= i < |h| ==> h[i] < UINT_LIMIT
    decreases k
  {
    if k == 0 then blk else PutWord(PutEntries(blk, h, k - 1), k, h[k - 1])
  }

  // write_head: n, then block[0..n], over what the block held before.
  function PutHead(blk: Block, h: seq<nat>): Block
    requires |h| <= LOGSIZE && forall i :: 0 <= i < |h| ==> h[i] < UINT_LIMIT
  {
    PutEntries(PutWord(blk, 0, |h|), h, |h|)
  }

  // read_head. A header with n beyond the array is not one write_head wrote.
  function HeadOf(blk: Block): (h: seq<nat>)
    ensures |h| <= LOGSIZE
  {
    var n := WordAt(blk, 0);
    if n <= LOGSIZE then seq(n, i requires 0 <= i < n => WordAt(blk, 1 + i) as nat) else []
  }

  lemma {:induction false} PutEntriesAt(blk: Block, h: seq<nat>, k: nat, j: nat)
    requires k <= |h| <= LOGSIZE && j <= LOGSIZE && forall i :: 0 <= i < |h| ==> h[i] < UINT_LIMIT
    ensures WordAt(PutEntries(blk, h, k), j) == if 1 <= j <= k then h[j - 1] else WordAt(blk, j)
    decreases k
  {
    hide WordAt, PutWord;
    if k > 0 {
      PutEntriesAt(blk, h, k - 1, j);
      PutWordAt(PutEntries(blk, h, k - 1), k, h[k - 1], j);
    }
  }

  lemma HeadRoundTrip(blk: Block, h: seq<nat>)
    requires |h| <= LOGSIZE && forall i :: 0 <= i < |h| ==> h[i] < UINT_LIMIT
    ensures HeadOf(PutHead(blk, h)) == h && WordAt(PutHead(blk, h), 0) == |h|
  {
    hide WordAt, PutWord;
    var b0 := PutWord(blk, 0, |h|);
    PutEntriesAt(b0, h, |h|, 0);
    PutWordAt(blk, 0, |h|, 0);
    forall i | 0 <= i < |h|
      ensures WordAt(PutHead(blk, h), 1 + i) == h[i]
    {
      PutEntriesAt(b0, h, |h|, 1 + i);
    }
  }

  // ---- steps ----

  // The panics of log_write.
  predicate TooBig(c: Config, s: State) {
    |s.lh| >= LOGSIZE || |s.lh| >= c.size - 1
  }

  predicate Enabled(c: Config, s: State, e: Event) {
    match e
    case Begin(o) => s.phase.Idle? && o !in s.wrote && |s.lh| + (|s.ops| + 1) * MAXOPBLOCKS <= LOGSIZE
    case Write(o, b, data) => s.phase.Idle? && o in s.ops && c.Home(b) && !TooBig(c, s)
    case Scribble(o, b, data) => s.phase.Idle? && o in s.ops && c.Home(b)
    case Evict(b) => c.Home(b) && b !in s.lh
    case End(o) => s.phase.Idle? && o in s.ops
    case DiskWrite => !s.phase.Idle? && !s.phase.Down?
    case Crash => true
    case ReadHead => s.phase.Down?
  }

  // install_trans and write_log leave their loop when tail reaches lh.n.
  function AfterLogging(s: State, tail: nat): Phase {
    if tail < |s.lh| then Logging(tail) else Heading
  }

  function AfterInstalling(s: State, tail: nat): Phase {
    if tail < |s.lh| then Installing(tail) else Clearing
  }

  function AfterRecovering(lh: seq<nat>, tail: nat): Phase {
    if tail < |lh| then Recovering(tail) else RecoveryClearing
  }

  // The shape every reachable state has; it makes Next total.
  predicate WellFormed(c: Config, s: State) {
    && c.Valid() && |s.disk| == |s.cache| == c.nblocks
    && |s.lh| <= LOGSIZE && |s.lh| <= c.size - 1
    && (forall i :: 0 <= i < |s.lh| ==> c.Home(s.lh[i]))
    && (forall i, j :: 0 <= i < j < |s.lh| ==> s.lh[i] != s.lh[j])
    && (s.phase.Logging? || s.phase.Installing? || s.phase.Recovering? ==> s.phase.tail < |s.lh|)
    && (forall o :: o in s.ops ==> o in s.wrote)
  }

  // bwrite: the buffer's contents, which the cache keeps, reach the disk.
  function Bwritten(s: State, b: nat, data: Block): State
    requires b < |s.disk| && b < |s.cache|
  {
    s.(disk := s.disk[b := data], cache := s.cache[b := data])
  }

  function Next(c: Config, s: State, e: Event): State
    requires WellFormed(c, s) && Enabled(c, s, e)
  {
    match e
    case Begin(o) => s.(ops := s.ops[o := {}], wrote := s.wrote[o := []])
    case Write(o, b, data) =>
      s.(cache := s.cache[b := data],
         lh := if b in s.lh then s.lh else s.lh + [b],     // log absorption
         ops := s.ops[o := s.ops[o] + {b}],
         pending := s.pending + [Rec(o, b, data)],
         wrote := s.wrote[o := s.wrote[o] + [Rec(o, b, data)]],
         loose := s.loose - {b})
    case Scribble(o, b, data) =>
      // commit copies what the buffer holds, so a logged block is committed with the change
      if b in s.lh then
        s.(cache := s.cache[b := data],
           pending := s.pending + [Rec(o, b, data)],
           wrote := s.wrote[o := s.wrote[o] + [Rec(o, b, data)]])
      else s.(cache := s.cache[b := data], loose := s.loose + {b})
    case Evict(b) => s.(cache := s.cache[b := s.disk[b]], loose := s.loose - {b})
    case End(o) =>
      var ops' := s.ops - {o};
      s.(ops := ops', phase := if |ops'| == 0 && |s.lh| > 0 then Logging(0) else Idle)
    case Crash => s.(cache := s.disk, lh := [], ops := map[], phase := Down, pending := [], loose := {})
    case ReadHead =>
      var h := HeadOf(s.disk[c.start]);
      s.(lh := h, phase := AfterRecovering(h, 0))
    case DiskWrite => DiskStep(c, s)
  }

  // The next block write of commit or recovery.
  function DiskStep(c: Config, s: State): State
    requires WellFormed(c, s)
  {
    match s.phase
    case Logging(tail) => Bwritten(s, c.start + 1 + tail, s.cache[s.lh[tail]]).(phase := AfterLogging(s, tail + 1))
    case Heading =>
      Bwritten(s, c.start, PutHead(s.disk[c.start], s.lh))
      .(phase := AfterInstalling(s, 0), durable := s.durable + s.pending, pending := [])
    case Installing(tail) => Bwritten(s, s.lh[tail], s.disk[c.start + 1 + tail]).(phase := AfterInstalling(s, tail + 1))
    case Clearing => Bwritten(s, c.start, PutHead(s.disk[c.start], [])).(lh := [], phase := Idle)
    case Recovering(tail) =>
      Bwritten(s, s.lh[tail], s.disk[c.start + 1 + tail]).(phase := AfterRecovering(s.lh, tail + 1))
    case RecoveryClearing => Bwritten(s, c.start, PutHead(s.disk[c.start], [])).(lh := [], phase := Idle)
    case _ => s
  }
}
