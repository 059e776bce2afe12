/** Crash atomicity and group commit of the log, over every run of the machine. */
module LogSafety {
  import opened Blocks
  import opened Params
  import opened LogMachine

  // ---- applying and selecting log_writes ----

  function Apply(d: seq<Block>, recs: seq<Rec>): (r: seq<Block>)
    ensures |r| == |d|
  {
    if |recs| == 0 then d
    else
      var d' := Apply(d, recs[..|recs| - 1]);
      var r := recs[|recs| - 1];
      if r.b < |d'| then d'[r.b := r.data] else d'
  }

  // The log_writes of operation o, in order.
  function Mine(recs: seq<Rec>, o: OpId): seq<Rec> {
    if |recs| == 0 then []
    else Mine(recs[..|recs| - 1], o) + (if recs[|recs| - 1].op == o then [recs[|recs| - 1]] else [])
  }

  lemma ApplySnoc(d: seq<Block>, recs: seq<Rec>, r: Rec)
    ensures Apply(d, recs + [r]) == if r.b < |d| then Apply(d, recs)[r.b := r.data] else Apply(d, recs)
  {
    assert (recs + [r])[..|recs|] == recs;
  }

  lemma {:induction false} ApplyConcat(d: seq<Block>, a: seq<Rec>, b: seq<Rec>)
    ensures Apply(d, a + b) == Apply(Apply(d, a), b)
    decreases |b|
  {
    if |b| == 0 {
      assert a + b == a;
    } else {
      ApplyConcat(d, a, b[..|b| - 1]);
      assert (a + b)[..|a + b| - 1] == a + b[..|b| - 1];
    }
  }

  lemma {:induction false} ApplyOther(d: seq<Block>, recs: seq<Rec>, b: nat)
    requires b < |d| && forall r :: r in recs ==> r.b != b
    ensures Apply(d, recs)[b] == d[b]
    decreases |recs|
  {
    if |recs| > 0 {
      assert recs[|recs| - 1] in recs;
      ApplyOther(d, recs[..|recs| - 1], b);
    }
  }

  lemma MineSnoc(recs: seq<Rec>, r: Rec, o: OpId)
    ensures Mine(recs + [r], o) == Mine(recs, o) + (if r.op == o then [r] else [])
  {
    assert (recs + [r])[..|recs|] == recs;
  }

  lemma {:induction false} MineConcat(a: seq<Rec>, b: seq<Rec>, o: OpId)
    ensures Mine(a + b, o) == Mine(a, o) + Mine(b, o)
    decreases |b|
  {
    if |b| == 0 {
      assert a + b == a;
    } else {
      MineConcat(a, b[..|b| - 1], o);
      assert (a + b)[..|a + b| - 1] == a + b[..|b| - 1];
    }
  }

  lemma {:induction false} MineNone(recs: seq<Rec>, o: OpId)
    requires forall r :: r in recs ==> r.op != o
    ensures Mine(recs, o) == []
    decreases |recs|
  {
    if |recs| > 0 {
      assert recs[|recs| - 1] in recs;
      MineNone(recs[..|recs| - 1], o);
    }
  }

  // ---- what the disk is worth ----

  // Recovery from this disk yields exactly the home blocks of base: the blocks the header names come
  // from the log, the others are home already.
  ghost predicate Worth(c: Config, disk: seq<Block>, base: seq<Block>)
    requires c.Valid()
  {
    && |disk| == |base| == c.nblocks && WordAt(disk[c.start], 0) <= LOGSIZE
    && var h := HeadOf(disk[c.start]);
       && HeadValid(c, h)
       && (forall i :: 0 <= i < |h| ==> disk[c.start + 1 + i] == base[h[i]])
       && (forall b :: c.Home(b) && b !in h ==> disk[b] == base[b])
  }

  predicate HeadValid(c: Config, h: seq<nat>) {
    && |h| <= c.size - 1
    && (forall i :: 0 <= i < |h| ==> c.Home(h[i]))
    && (forall i, j :: 0 <= i < j < |h| ==> h[i] != h[j])
  }

  // ---- the invariant ----

  // Blocks lh[0..k] are home already.
  ghost predicate HomeUpTo(c: Config, s: State, base: seq<Block>, k: nat)
    requires WellFormed(c, s) && |base| == c.nblocks && k <= |s.lh|
  {
    HeadOf(s.disk[c.start]) == s.lh && forall i :: 0 <= i < k ==> s.disk[s.lh[i]] == base[s.lh[i]]
  }

  // Log slots 0..k hold the cached blocks lh names, and nothing is committed yet.
  ghost predicate LoggedUpTo(c: Config, s: State, k: nat)
    requires WellFormed(c, s) && k <= |s.lh|
  {
    HeadOf(s.disk[c.start]) == [] && forall i :: 0 <= i < k ==> s.disk[c.start + 1 + i] == s.cache[s.lh[i]]
  }

  // But for loose blocks the cache is the committed state plus the open transaction, whose blocks lh names.
  ghost predicate CacheOk(c: Config, s: State, base: seq<Block>)
    requires WellFormed(c, s) && |base| == c.nblocks
  {
    && (forall b :: c.Home(b) && b !in s.loose ==> s.cache[b] == Apply(base, s.pending)[b])
    && (forall b :: b in s.loose ==> b !in s.lh)
    && (forall r :: r in s.pending ==> r.b in s.lh) && (s.lh == [] ==> s.pending == [])
  }

  ghost predicate PhaseOk(c: Config, s: State, base: seq<Block>)
    requires WellFormed(c, s) && |base| == c.nblocks
  {
    && (!s.phase.Idle? ==> s.ops == map[])
    && match s.phase
       case Idle => LoggedUpTo(c, s, 0) && CacheOk(c, s, base)
       case Logging(tail) => LoggedUpTo(c, s, tail) && CacheOk(c, s, base)
       case Heading => LoggedUpTo(c, s, |s.lh|) && CacheOk(c, s, base)
       case Installing(tail) => HomeUpTo(c, s, base, tail) && CacheOk(c, s, base) && s.pending == []
       case Clearing => HomeUpTo(c, s, base, |s.lh|) && CacheOk(c, s, base) && s.pending == []
       case Down => s.lh == [] && s.pending == [] && s.cache == s.disk && s.loose == {}
       case Recovering(tail) => HomeUpTo(c, s, base, tail) && s.pending == [] && s.cache == s.disk && s.loose == {}
       case RecoveryClearing => HomeUpTo(c, s, base, |s.lh|) && s.pending == [] && s.cache == s.disk && s.loose == {}
  }

  // Every operation's log_writes are all durable or none is, and they stay together.
  ghost predicate WholeOps(s: State) {
    && (forall r :: r in s.pending || r in s.durable ==> r.op in s.wrote)
    && (forall o :: o in s.wrote ==>
          && (Mine(s.durable, o) == [] || (Mine(s.durable, o) == s.wrote[o] && Mine(s.pending, o) == [] && o !in s.ops))
          && (Mine(s.pending, o) == [] || Mine(s.pending, o) == s.wrote[o])
          && (o in s.ops ==> Mine(s.pending, o) == s.wrote[o]))
  }

  ghost predicate Inv(c: Config, init: seq<Block>, s: State) {
    && WellFormed(c, s) && |init| == c.nblocks
    && Worth(c, s.disk, Apply(init, s.durable))
    && PhaseOk(c, s, Apply(init, s.durable))
    && WholeOps(s)
  }

  // ---- disk writes ----

  // Writing log slot tail while the header is empty cannot matter.
  lemma LogSlotStep(c: Config, s: State, base: seq<Block>, tail: nat)
    requires WellFormed(c, s) && Worth(c, s.disk, base) && s.phase == Logging(tail) && PhaseOk(c, s, base)
    ensures var s' := DiskStep(c, s); WellFormed(c, s') && Worth(c, s'.disk, base) && PhaseOk(c, s', base)
  {
    hide HeadOf, WordAt, Apply;
    var s' := DiskStep(c, s);
    assert s'.disk[c.start] == s.disk[c.start];
  }

  // The header write commits: from here on recovery yields the new contents.
  lemma HeadStep(c: Config, s: State, base: seq<Block>)
    requires WellFormed(c, s) && Worth(c, s.disk, base) && s.phase.Heading? && PhaseOk(c, s, base)
    ensures var s' := DiskStep(c, s);
            WellFormed(c, s') && Worth(c, s'.disk, Apply(base, s.pending)) && PhaseOk(c, s', Apply(base, s.pending))
  {
    hide HeadOf, WordAt, Apply, PutHead;
    var s' := DiskStep(c, s);
    var base' := Apply(base, s.pending);
    HeadRoundTrip(s.disk[c.start], s.lh);
    EmptyApply(base');
    forall b | c.Home(b) && b !in s.lh
      ensures s'.disk[b] == base'[b]
    {
      ApplyOther(base, s.pending, b);
    }
  }

  lemma EmptyApply(d: seq<Block>)
    ensures Apply(d, []) == d
  {
  }

  // Installing a block the log holds changes nothing recovery would see.
  lemma InstallKeepsWorth(c: Config, disk: seq<Block>, base: seq<Block>, tail: nat)
    requires c.Valid() && Worth(c, disk, base) && tail < |HeadOf(disk[c.start])|
    ensures var h := HeadOf(disk[c.start]);
            var disk' := disk[h[tail] := disk[c.start + 1 + tail]];
            && Worth(c, disk', base) && disk'[c.start] == disk[c.start]
            && disk'[h[tail]] == base[h[tail]]
  {
    hide HeadOf, WordAt;
  }

  lemma InstallOne(c: Config, s: State, base: seq<Block>, tail: nat, phase: Phase)
    requires WellFormed(c, s) && Worth(c, s.disk, base) && tail < |s.lh| && HomeUpTo(c, s, base, tail)
    requires phase.Logging? || phase.Installing? || phase.Recovering? ==> phase.tail < |s.lh|
    ensures var s' := Bwritten(s, s.lh[tail], s.disk[c.start + 1 + tail]).(phase := phase);
            && WellFormed(c, s') && Worth(c, s'.disk, base) && HomeUpTo(c, s', base, tail + 1)
            && s'.cache[s.lh[tail]] == base[s.lh[tail]]
  {
    hide HeadOf, WordAt;
    InstallKeepsWorth(c, s.disk, base, tail);
    hide Worth;
  }

  lemma InstallStep(c: Config, s: State, base: seq<Block>, tail: nat)
    requires WellFormed(c, s) && Worth(c, s.disk, base) && PhaseOk(c, s, base) && |base| == c.nblocks
    requires s.phase == Installing(tail) || s.phase == Recovering(tail)
    ensures var s' := DiskStep(c, s); WellFormed(c, s') && Worth(c, s'.disk, base) && PhaseOk(c, s', base)
  {
    hide HeadOf, WordAt, Worth, CacheOk, HomeUpTo, LoggedUpTo, PutHead;
    var s' := DiskStep(c, s);
    InstallOne(c, s, base, tail, s'.phase);
    if s.phase.Installing? {
      CacheFrame(c, s, s', base);
    }
  }

  // Writing the committed contents of a block into its buffer keeps the cache right.
  lemma CacheFrame(c: Config, s: State, s': State, base: seq<Block>)
    requires WellFormed(c, s) && WellFormed(c, s') && |base| == c.nblocks && CacheOk(c, s, base)
    requires s'.pending == s.pending == [] && s'.lh == s.lh && s'.loose == s.loose
    requires forall b :: c.Home(b) ==> s'.cache[b] == s.cache[b] || s'.cache[b] == base[b]
    ensures CacheOk(c, s', base)
  {
    EmptyApply(base);
    hide Apply;
  }

  // Clearing the header once everything is home.
  lemma ClearStep(c: Config, s: State, base: seq<Block>)
    requires WellFormed(c, s) && Worth(c, s.disk, base) && PhaseOk(c, s, base)
    requires s.phase.Clearing? || s.phase.RecoveryClearing?
    ensures var s' := DiskStep(c, s); WellFormed(c, s') && Worth(c, s'.disk, base) && PhaseOk(c, s', base)
    ensures forall b :: c.Home(b) ==> DiskStep(c, s).disk[b] == base[b]
  {
    hide HeadOf, WordAt, Apply, PutHead;
    var s' := DiskStep(c, s);
    HeadRoundTrip(s.disk[c.start], []);
    EmptyApply(base);
    forall b | c.Home(b)
      ensures s'.disk[b] == base[b]
    {
      assert b in s.lh ==> exists i :: 0 <= i < |s.lh| && s.lh[i] == b;
    }
  }

  // ---- steps that only change memory ----

  lemma WriteStep(c: Config, s: State, base: seq<Block>, o: OpId, b: nat, data: Block)
    requires WellFormed(c, s) && |base| == c.nblocks && PhaseOk(c, s, base) && Enabled(c, s, Write(o, b, data))
    ensures var s' := Next(c, s, Write(o, b, data)); WellFormed(c, s') && PhaseOk(c, s', base)
  {
    hide HeadOf, WordAt, Apply;
    var s' := Next(c, s, Write(o, b, data));
    ApplySnoc(base, s.pending, Rec(o, b, data));
    assert forall r :: r in s'.pending ==> r in s.pending || r == Rec(o, b, data);
  }

  lemma ScribbleStep(c: Config, s: State, base: seq<Block>, o: OpId, b: nat, data: Block)
    requires WellFormed(c, s) && |base| == c.nblocks && PhaseOk(c, s, base) && Enabled(c, s, Scribble(o, b, data))
    ensures var s' := Next(c, s, Scribble(o, b, data)); WellFormed(c, s') && PhaseOk(c, s', base)
  {
    hide HeadOf, WordAt, Apply;
    var s' := Next(c, s, Scribble(o, b, data));
    ApplySnoc(base, s.pending, Rec(o, b, data));
    assert forall r :: r in s'.pending ==> r in s.pending || r == Rec(o, b, data);
  }

  // A buffer that is not pinned agrees with the disk, or did not matter.
  lemma EvictStep(c: Config, s: State, base: seq<Block>, b: nat)
    requires WellFormed(c, s) && Worth(c, s.disk, base) && PhaseOk(c, s, base) && |base| == c.nblocks
    requires Enabled(c, s, Evict(b))
    ensures var s' := Next(c, s, Evict(b)); WellFormed(c, s') && PhaseOk(c, s', base)
  {
    hide HeadOf, WordAt, Apply;
    var s' := Next(c, s, Evict(b));
    if !s.phase.Down? && !s.phase.Recovering? && !s.phase.RecoveryClearing? {
      assert s.disk[b] == base[b];
      ApplyOther(base, s.pending, b);
    }
  }

  lemma EndStep(c: Config, s: State, base: seq<Block>, o: OpId)
    requires WellFormed(c, s) && |base| == c.nblocks && PhaseOk(c, s, base) && Enabled(c, s, End(o))
    ensures var s' := Next(c, s, End(o)); WellFormed(c, s') && PhaseOk(c, s', base)
  {
    hide HeadOf, WordAt, Apply;
    var s' := Next(c, s, End(o));
    assert |s'.ops| == 0 ==> s'.ops == map[];
  }

  // Leaving memory behind: the disk is worth what it was worth.
  lemma MemoryStep(c: Config, s: State, base: seq<Block>, e: Event)
    requires WellFormed(c, s) && Worth(c, s.disk, base) && PhaseOk(c, s, base) && |base| == c.nblocks
    requires Enabled(c, s, e) && (e.Begin? || e.Crash? || e.ReadHead?)
    ensures var s' := Next(c, s, e); WellFormed(c, s') && PhaseOk(c, s', base)
  {
    hide HeadOf, WordAt, Apply;
  }

  // ---- whole operations ----

  lemma WholeOpsWrite(c: Config, s: State, o: OpId, b: nat, data: Block)
    requires WellFormed(c, s) && Enabled(c, s, Write(o, b, data)) && WholeOps(s)
    ensures WholeOps(Next(c, s, Write(o, b, data)))
  {
    hide Mine;
    var s' := Next(c, s, Write(o, b, data));
    forall q | q in s'.wrote
      ensures Mine(s'.pending, q) == Mine(s.pending, q) + (if q == o then [Rec(o, b, data)] else [])
    {
      MineSnoc(s.pending, Rec(o, b, data), q);
    }
  }

  lemma WholeOpsScribble(c: Config, s: State, o: OpId, b: nat, data: Block)
    requires WellFormed(c, s) && Enabled(c, s, Scribble(o, b, data)) && WholeOps(s)
    ensures WholeOps(Next(c, s, Scribble(o, b, data)))
  {
    hide Mine;
    var s' := Next(c, s, Scribble(o, b, data));
    if b in s.lh {
      forall q | q in s'.wrote
        ensures Mine(s'.pending, q) == Mine(s.pending, q) + (if q == o then [Rec(o, b, data)] else [])
      {
        MineSnoc(s.pending, Rec(o, b, data), q);
      }
    }
  }

  lemma WholeOpsBegin(c: Config, s: State, o: OpId)
    requires WellFormed(c, s) && Enabled(c, s, Begin(o)) && WholeOps(s)
    ensures WholeOps(Next(c, s, Begin(o)))
  {
    MineNone(s.pending, o);
    MineNone(s.durable, o);
    hide Mine;
  }

  // The commit point moves whole operations: no operation is outstanding then.
  lemma WholeOpsDisk(c: Config, s: State, base: seq<Block>)
    requires WellFormed(c, s) && |base| == c.nblocks && PhaseOk(c, s, base) && Enabled(c, s, DiskWrite) && WholeOps(s)
    ensures WholeOps(DiskStep(c, s))
  {
    hide Mine, HeadOf, Apply, PutHead;
    var s' := DiskStep(c, s);
    if s.phase.Heading? {
      forall o | o in s.wrote
        ensures Mine(s'.durable, o) == Mine(s.durable, o) + Mine(s.pending, o) && Mine(s'.pending, o) == []
      {
        MineConcat(s.durable, s.pending, o);
        MineNone([], o);
      }
    }
  }

  // Forgetting the open transaction, or ending operations, splits none.
  lemma WholeOpsKept(s: State, s': State)
    requires WholeOps(s) && s'.durable == s.durable && s'.wrote == s.wrote && s'.ops.Keys <= s.ops.Keys
    requires s'.pending == s.pending || (s'.pending == [] && s'.ops == map[])
    ensures WholeOps(s')
  {
    hide Mine;
    forall o | o in s.wrote
      ensures Mine([], o) == []
    {
      MineNone([], o);
    }
    assert forall o :: o in s'.ops ==> o in s'.ops.Keys;
  }

  lemma WholeOpsMemory(c: Config, s: State, e: Event)
    requires WellFormed(c, s) && Enabled(c, s, e) && WholeOps(s) && (e.End? || e.Crash? || e.ReadHead? || e.Evict?)
    ensures WholeOps(Next(c, s, e))
  {
    hide Mine, HeadOf, WholeOps;
    WholeOpsKept(s, Next(c, s, e));
  }

  // ---- runs ----

  ghost predicate Start(c: Config, init: seq<Block>, s: State) {
    && c.Valid() && |init| == c.nblocks && WordAt(init[c.start], 0) == 0
    && s == State(init, init, [], map[], Idle, [], [], map[], {})
  }

  // s is reached from a clean disk `init` by some run of the machine.
  ghost predicate Reaches(c: Config, init: seq<Block>, run: seq<Event>, s: State)
    decreases |run|
  {
    if |run| == 0 then Start(c, init, s)
    else
      exists s1 ::
        && Reaches(c, init, run[..|run| - 1], s1) && WellFormed(c, s1) && Enabled(c, s1, run[|run| - 1])
        && s == Next(c, s1, run[|run| - 1])
  }

  lemma InvStep(c: Config, init: seq<Block>, s: State, e: Event)
    requires Inv(c, init, s) && Enabled(c, s, e)
    ensures Inv(c, init, Next(c, s, e)) && s.durable <= Next(c, s, e).durable
  {
    hide Worth, PhaseOk, WholeOps, Apply, HeadOf, WordAt, PutHead;
    var base := Apply(init, s.durable);
    match e
    case Begin(o) =>
      MemoryStep(c, s, base, e);
      WholeOpsBegin(c, s, o);
    case Write(o, b, data) =>
      WriteStep(c, s, base, o, b, data);
      WholeOpsWrite(c, s, o, b, data);
    case Scribble(o, b, data) =>
      ScribbleStep(c, s, base, o, b, data);
      WholeOpsScribble(c, s, o, b, data);
    case Evict(b) =>
      EvictStep(c, s, base, b);
      WholeOpsMemory(c, s, e);
    case DiskWrite =>
      DiskWriteStep(c, s, base);
      ApplyConcat(init, s.durable, s.pending);
      WholeOpsDisk(c, s, base);
    case End(o) =>
      EndStep(c, s, base, o);
      WholeOpsMemory(c, s, e);
    case _ =>
      MemoryStep(c, s, base, e);
      WholeOpsMemory(c, s, e);
  }

  lemma DiskWriteStep(c: Config, s: State, base: seq<Block>)
    requires WellFormed(c, s) && Worth(c, s.disk, base) && PhaseOk(c, s, base) && |base| == c.nblocks
    requires Enabled(c, s, DiskWrite)
    ensures var s' := DiskStep(c, s);
            var base' := if s.phase.Heading? then Apply(base, s.pending) else base;
            WellFormed(c, s') && Worth(c, s'.disk, base') && PhaseOk(c, s', base')
  {
    match s.phase
    case Logging(tail) => LogSlotStep(c, s, base, tail);
    case Heading => HeadStep(c, s, base);
    case Installing(tail) => InstallStep(c, s, base, tail);
    case Recovering(tail) => InstallStep(c, s, base, tail);
    case Clearing => ClearStep(c, s, base);
    case RecoveryClearing => ClearStep(c, s, base);
  }

  lemma InvStart(c: Config, init: seq<Block>, s: State)
    requires Start(c, init, s)
    ensures Inv(c, init, s)
  {
  }

  // In every reachable state: recovery yields the committed log_writes and nothing else, and each
  // operation's log_writes are durable all together or not at all.
  lemma {:induction false} CrashAtomicity(c: Config, init: seq<Block>, run: seq<Event>, s: State)
    requires Reaches(c, init, run, s)
    ensures Inv(c, init, s)
    ensures c.Valid() && Worth(c, s.disk, Apply(init, s.durable))
    ensures forall o :: o in s.wrote ==> Mine(s.durable, o) == [] || (Mine(s.durable, o) == s.wrote[o] && o !in s.ops)
    decreases |run|
  {
    if |run| == 0 {
      InvStart(c, init, s);
    } else {
      var s1 :| && Reaches(c, init, run[..|run| - 1], s1) && WellFormed(c, s1) && Enabled(c, s1, run[|run| - 1])
                && s == Next(c, s1, run[|run| - 1]);
      CrashAtomicity(c, init, run[..|run| - 1], s1);
      hide Worth, PhaseOk, Apply, HeadOf, Mine, Next;
      InvStep(c, init, s1, run[|run| - 1]);
    }
  }
}
