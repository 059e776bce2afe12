/** The file system over the log: what a machine finds on disk after any crash is a consistent file
    system, either the one before the open transaction or the one after it. */
module Tower {
  import opened Blocks
  import opened Params
  import opened FsLayout
  import opened FsOwnership
  import FsState
  import opened FsWrite
  import opened FsCommit
  import opened FsTrace
  import opened LogMachine
  import opened LogSafety
  import opened LogRuns
  import Log
  import LogSpace
  import FsFootprint

  // initlog: the log area of the superblock is the log's.
  function LogOf(sb: Superblock): Config {
    Config(sb.logstart, sb.nlog, sb.size)
  }

  lemma SameHomes(sb: Superblock, b: int)
    ensures LogOf(sb).Home(b) <==> sb.Home(b)
  {
  }

  // The log's state is the one the file system's calls since the last commit make, on every home block.
  ghost predicate Joined(c: Config, init: seq<Block>, s: State, t: Tape) {
    && |init| == |s.cache| == |t.base| == |t.blocks| == c.nblocks
    && s.pending == Pending(t.trace) && s.loose == Loose(t.stray, t.trace)
    && (forall b :: b in s.lh <==> b in t.logged)
    && (forall o :: o in s.ops ==> s.ops[o] == Footprint(t.trace, o))
    && (forall o :: o in s.wrote ==> o < t.begun)
    && (forall b :: c.Home(b) ==> t.base[b] == Apply(init, s.durable)[b])
    && (forall b :: c.Home(b) ==> s.cache[b] == t.blocks[b])
  }

  // What of it survives a panic: the disk is worth the files of the last commit.
  ghost predicate Worthy(c: Config, init: seq<Block>, s: State, base: seq<Block>, begun: nat) {
    && |init| == |base| == c.nblocks
    && (forall b :: c.Home(b) ==> base[b] == Apply(init, s.durable)[b])
    && (forall o :: o in s.wrote ==> o < begun)
  }

  lemma JoinedWorthy(c: Config, init: seq<Block>, s: State, t: Tape)
    requires Joined(c, init, s, t)
    ensures Worthy(c, init, s, t.base, t.begun)
  {
  }

  // A machine that has just mounted the disk.
  lemma JoinedStart(sb: Superblock, init: seq<Block>, t: Tape)
    requires |init| == sb.size && t.base == t.blocks == init && t.trace == [] && t.logged == {} && t.stray == {}
    ensures Joined(LogOf(sb), init, State(init, init, [], map[], Idle, [], [], map[], {}), t)
  {
  }

  // No operation has the next number.
  lemma NextIsNew(sb: Superblock, c: Config, init: seq<Block>, s: State, t: Tape)
    requires Tied(sb, t) && Joined(c, init, s, t)
    ensures t.begun !in s.wrote && Footprint(t.trace, t.begun) == {}
  {
    FootprintNone(sb, t.begun, t.trace, t.begun);
  }

  // begin_op: the new operation has logged nothing.
  lemma JoinedBegin(c: Config, init: seq<Block>, s: State, t: Tape)
    requires WellFormed(c, s) && Enabled(c, s, Begin(t.begun))
    requires Joined(c, init, s, t) && Footprint(t.trace, t.begun) == {}
    ensures var s' := Next(c, s, Begin(t.begun));
            && Joined(c, init, s', t.(op := t.begun, begun := t.begun + 1, mine := {}, early := {}, turn := |t.trace|))
            && s'.phase.Idle? && s'.ops == s.ops[t.begun := {}]
  {
    hide Apply;
  }

  // ---- one call reaches the log ----

  lemma FeedWrite(c: Config, init: seq<Block>, s: State, t: Tape, k: nat)
    requires |t.start| == |t.base| && k < |t.trace| && Joined(c, init, s, Rewound(t, k)) && t.trace[k].Write?
    requires WellFormed(c, s) && Enabled(c, s, t.trace[k])
    ensures Joined(c, init, Next(c, s, t.trace[k]), Rewound(t, k + 1))
  {
    hide Apply;
    var e, s' := t.trace[k], Next(c, s, t.trace[k]);
    Cut(t.trace, k);
    assert forall b :: b in s'.lh <==> b in s.lh || b == e.b by { LhGrows(s.lh, e.b); }
  }

  lemma LhGrows(lh: seq<nat>, b: nat)
    ensures forall x :: x in (if b in lh then lh else lh + [b]) <==> x in lh || x == b
  {
  }

  lemma Cut(tr: seq<Event>, k: nat)
    requires k < |tr|
    ensures |tr[..k + 1]| == k + 1 && tr[..k + 1][..k] == tr[..k] && tr[..k + 1][k] == tr[k]
  {
  }

  lemma FeedScribble(c: Config, init: seq<Block>, s: State, t: Tape, k: nat)
    requires |t.start| == |t.base| && k < |t.trace| && Joined(c, init, s, Rewound(t, k)) && t.trace[k].Scribble?
    requires WellFormed(c, s) && Enabled(c, s, t.trace[k])
    ensures Joined(c, init, Next(c, s, t.trace[k]), Rewound(t, k + 1))
  {
    hide Apply;
    Cut(t.trace, k);
  }

  lemma FeedEvict(c: Config, init: seq<Block>, s: State, t: Tape, k: nat)
    requires |t.start| == |t.base| && k < |t.trace| && Joined(c, init, s, Rewound(t, k)) && t.trace[k].Evict?
    requires Inv(c, init, s) && s.phase.Idle? && Enabled(c, s, t.trace[k])
    ensures Joined(c, init, Next(c, s, t.trace[k]), Rewound(t, k + 1))
  {
    hide Apply, Worth, PhaseOk, WholeOps;
    Cut(t.trace, k);
    HomeOnDisk(c, init, s, t.trace[k].b);
  }

  // While nothing is committing, a block the header does not name is on disk as the last commit left it.
  lemma HomeOnDisk(c: Config, init: seq<Block>, s: State, b: nat)
    requires Inv(c, init, s) && s.phase.Idle? && c.Home(b)
    ensures s.disk[b] == Apply(init, s.durable)[b]
  {
    hide Apply, HeadOf, WordAt;
  }

  // The k-th call is one the log admits, but for lack of space.
  lemma EventFacts(sb: Superblock, init: seq<Block>, s: State, t: Tape, k: nat)
    requires Tied(sb, t) && t.turn <= k < |t.trace| && Joined(LogOf(sb), init, s, Rewound(t, k))
    requires t.op in s.ops && s.phase.Idle?
    ensures var e := t.trace[k];
            && (e.Write? || e.Scribble? || e.Evict?) && LogOf(sb).Home(e.b)
            && (e.Write? || e.Scribble? ==> e.op == t.op) && (e.Evict? ==> e.b !in s.lh)
            && (Enabled(LogOf(sb), s, e) <==> (e.Write? ==> !TooBig(LogOf(sb), s)))
  {
    ProperAt(sb, t.begun, t.trace, k);
  }

  lemma FeedStep(sb: Superblock, init: seq<Block>, run: seq<Event>, s: State, t: Tape, k: nat)
    requires Tied(sb, t) && t.turn <= k < |t.trace| && Joined(LogOf(sb), init, s, Rewound(t, k))
    requires Reaches(LogOf(sb), init, run, s) && s.phase.Idle?
    requires WellFormed(LogOf(sb), s) && Enabled(LogOf(sb), s, t.trace[k])
    ensures var s' := Next(LogOf(sb), s, t.trace[k]);
            && Joined(LogOf(sb), init, s', Rewound(t, k + 1)) && Worthy(LogOf(sb), init, s', t.base, t.begun)
            && s'.phase.Idle? && s'.ops.Keys == s.ops.Keys && s'.durable == s.durable
  {
    hide Joined, Reaches;
    ProperAt(sb, t.begun, t.trace, k);
    var c, e := LogOf(sb), t.trace[k];
    if e.Write? {
      FeedWrite(c, init, s, t, k);
    } else if e.Scribble? {
      FeedScribble(c, init, s, t, k);
    } else {
      CrashAtomicity(c, init, run, s);
      FeedEvict(c, init, s, t, k);
    }
    JoinedWorthy(c, init, Next(c, s, e), Rewound(t, k + 1));
  }

  // An operation that had logged fewer than MAXOPBLOCKS blocks at its last log_write keeps its reservation, so
  // a log of more than LOGSIZE blocks has room for each of its calls.
  lemma FeedCalm(sb: Superblock, init: seq<Block>, run: seq<Event>, s: State, t: Tape, k: nat)
    requires Tied(sb, t) && t.turn <= k < |t.trace| && Joined(LogOf(sb), init, s, Rewound(t, k))
    requires LogSpace.ReachesWithin(LogOf(sb), init, run, s, MAXOPBLOCKS - 1) && |t.early| < MAXOPBLOCKS
    requires t.op in s.ops && s.phase.Idle? && WellFormed(LogOf(sb), s)
    ensures Enabled(LogOf(sb), s, t.trace[k]) ==>
      LogSpace.ReachesWithin(LogOf(sb), init, run + [t.trace[k]], Next(LogOf(sb), s, t.trace[k]), MAXOPBLOCKS - 1)
    ensures sb.nlog > LOGSIZE ==> Enabled(LogOf(sb), s, t.trace[k])
  {
    hide LogSpace.ReachesWithin, Next, WellFormed;
    var c, e := LogOf(sb), t.trace[k];
    EventFacts(sb, init, s, t, k);
    if e.Write? {
      EarlyAtLast(t.trace, t.op, k);
      FsFootprint.SubsetCard(Footprint(t.trace[..k], t.op), t.early);
      assert s.ops[t.op] == Footprint(t.trace[..k], t.op);
      LogSpace.ReservedAlways(c, init, run, s, MAXOPBLOCKS - 1);
      if sb.nlog > LOGSIZE {
        LogSpace.NeverTooBig(c, s, MAXOPBLOCKS, t.op);
      }
    }
    if Enabled(c, s, e) {
      LogSpace.WithinStep(c, init, run, s, MAXOPBLOCKS - 1, e);
    }
  }

  // ---- the end of an operation, and the start of its commit ----

  // end_op and the writes into the log area move no home block and no call.
  lemma JoinedEnd(c: Config, init: seq<Block>, s: State, t: Tape, o: OpId)
    requires WellFormed(c, s) && Enabled(c, s, End(o)) && Joined(c, init, s, t)
    ensures Joined(c, init, Next(c, s, End(o)), t)
  {
    hide Apply;
  }

  lemma JoinedLogging(c: Config, init: seq<Block>, s: State, t: Tape)
    requires WellFormed(c, s) && s.phase.Logging? && Joined(c, init, s, t)
    ensures Joined(c, init, Next(c, s, DiskWrite), t)
  {
    hide Apply;
  }

  // A commit: the calls are over, and both sides start the next transaction from the same blocks.
  lemma JoinedCommit(sb: Superblock, init: seq<Block>, s: State, t: Tape, run': seq<Event>, s': State)
    requires Tied(sb, t) && Joined(LogOf(sb), init, s, t) && |t.base| == |t.blocks|
    requires Reaches(LogOf(sb), init, run', s') && s'.phase.Idle? && s'.lh == [] && s'.ops == map[]
    requires s'.pending == [] && s'.durable == s.durable + s.pending && s'.wrote == s.wrote && s'.loose == s.loose
    requires Log.Apart(LogOf(sb), s.cache, s'.cache, s.lh)
    ensures Joined(LogOf(sb), init, s', Committed(t))
  {
    hide Apply, Tied, Reaches, Loose, Pending, Footprint;
    var c, t' := LogOf(sb), Committed(t);
    Log.Quiet(c, init, run', s');
    NoCalls(t'.stray);
    forall b | c.Home(b)
      ensures t'.base[b] == Apply(init, s'.durable)[b] && s'.cache[b] == t'.blocks[b]
    {
      SameHomes(sb, b);
      CommitInstalls(sb, init, s, t, b);
      if b in s.lh {
        LoggedNotLoose(sb, t, b);
      }
    }
  }

  // From the header write on, the disk is worth the files in memory.
  lemma WorthyCommit(sb: Superblock, init: seq<Block>, s: State, t: Tape, s': State)
    requires Tied(sb, t) && Joined(LogOf(sb), init, s, t) && |t.base| == |t.blocks|
    requires s'.durable == s.durable + s.pending && s'.wrote == s.wrote
    ensures Worthy(LogOf(sb), init, s', Committed(t).base, t.begun)
  {
    hide Apply, Tied, Loose, Pending, Footprint;
    var t' := Committed(t);
    forall b | LogOf(sb).Home(b)
      ensures t'.base[b] == Apply(init, s'.durable)[b]
    {
      SameHomes(sb, b);
      CommitInstalls(sb, init, s, t, b);
    }
  }

  lemma NoCalls(stray: set<nat>)
    ensures Pending([]) == [] && Loose(stray, []) == stray
  {
  }

  lemma LoggedNotLoose(sb: Superblock, t: Tape, b: nat)
    requires Tied(sb, t) && b in t.logged
    ensures b !in Loose(t.stray, t.trace)
  {
    LooseNotLogged(t.stray, t.trace, b);
  }

  // Recovery: both sides start from the disk.
  lemma JoinedRecovered(sb: Superblock, init: seq<Block>, s': State, t': Tape)
    requires |init| == sb.size && s'.lh == [] && s'.ops == map[] && s'.pending == [] && s'.loose == {}
    requires |s'.disk| == |s'.cache| == sb.size
    requires forall b :: LogOf(sb).Home(b) ==> s'.disk[b] == s'.cache[b] == Apply(init, s'.durable)[b]
    requires forall o :: o in s'.wrote ==> o < t'.begun
    requires t'.base == t'.blocks == s'.disk && t'.trace == [] && t'.logged == {} && t'.stray == {}
    ensures Joined(LogOf(sb), init, s', t')
  {
    hide Apply;
    NoCalls({});
  }

  // ---- what the next commit installs ----

  lemma {:induction false} ApplySame(d: seq<Block>, d': seq<Block>, recs: seq<Rec>, b: nat)
    requires |d| == |d'| && b < |d| && d[b] == d'[b]
    ensures Apply(d, recs)[b] == Apply(d', recs)[b]
    decreases |recs|
  {
    if |recs| > 0 {
      ApplySame(d, d', recs[..|recs| - 1], b);
    }
  }

  lemma CommitInstalls(sb: Superblock, init: seq<Block>, s: State, t: Tape, b: nat)
    requires Tied(sb, t) && Joined(LogOf(sb), init, s, t) && sb.Home(b)
    ensures |t.base| == |t.blocks|
    ensures Apply(init, s.durable + s.pending)[b] == Installed(t.base, t.blocks, t.logged)[b]
  {
    hide Apply, Tied;
    assert LogOf(sb).Home(b);
    CommitApplies(sb, t);
    ApplyConcat(init, s.durable, s.pending);
    ApplySame(Apply(init, s.durable), t.base, s.pending, b);
  }

  // ---- files after a crash ----

  // The file-system state in memory, with its calls.
  ghost predicate Holds(sb: Superblock, st: FsState.State, t: Tape) {
    && Good(sb, st, {}) && Tied(sb, t)
    && st.img.blocks == t.blocks && st.base == t.base && st.logged == t.logged
  }

  // A disk that mounts to the files of m.
  ghost predicate MountsTo(sb: Superblock, disk: seq<Block>, owner: map<nat, Slot>, m: Image) {
    && sb.Valid() && |disk| == sb.size && |m.inodes| == sb.ninodes
    && var st := Mounted(sb, disk, owner);
       && Good(sb, st, {}) && st.img.inodes == m.inodes
       && forall i :: 0 <= i < sb.ninodes ==> Content(st.img, i) == Content(m, i)
  }

  ghost predicate Recoverable(sb: Superblock, base: seq<Block>, owner: map<nat, Slot>) {
    sb.Valid() && |base| == sb.size && Good(sb, Mounted(sb, base, owner), {})
  }

  lemma NewFiles(sb: Superblock, init: seq<Block>, s: State, st: FsState.State, t: Tape, run': seq<Event>, s': State)
    requires Holds(sb, st, t) && Joined(LogOf(sb), init, s, t)
    requires Reaches(LogOf(sb), init, run', s') && s'.phase.Idle? && s'.lh == [] && s'.durable == s.durable + s.pending
    ensures MountsTo(sb, s'.disk, st.owner, st.img)
  {
    hide Good, Content, Apply, Reaches, FsState.OnDisk, Joined, Tied, Pending;
    CommitIsDurable(sb, st);
    Log.Quiet(LogOf(sb), init, run', s');
    var base := Installed(st.base, st.img.blocks, st.logged);
    forall b | sb.Home(b)
      ensures s'.disk[b] == base[b]
    {
      SameHomes(sb, b);
      CommitInstalls(sb, init, s, t, b);
    }
    HomesDecide(sb, base, s'.disk, st.owner);
  }

  lemma OldFiles(sb: Superblock, init: seq<Block>, s: State, t: Tape, owner: map<nat, Slot>, run': seq<Event>,
                 s': State)
    requires Recoverable(sb, t.base, owner) && Joined(LogOf(sb), init, s, t)
    requires Reaches(LogOf(sb), init, run', s') && s'.phase.Idle? && s'.lh == [] && s'.durable == s.durable
    ensures MountsTo(sb, s'.disk, owner, Mounted(sb, t.base, owner).img)
  {
    hide Good, Content, Apply, Reaches, FsState.OnDisk, Pending;
    Log.Quiet(LogOf(sb), init, run', s');
    forall b | sb.Home(b)
      ensures s'.disk[b] == t.base[b]
    {
      SameHomes(sb, b);
    }
    HomesDecide(sb, t.base, s'.disk, owner);
  }

  // No operation changes a block.
  predicate NoWrites(es: seq<Event>) {
    forall e :: e in es ==> !e.Write? && !e.Scribble?
  }

  // Then what is durable either stays or gains the whole open transaction.
  lemma {:induction false} NothingNew(c: Config, init: seq<Block>, run: seq<Event>, s: State, more: seq<Event>,
                                      s': State)
    requires Reaches(c, init, run, s) && Reaches(c, init, run + more, s') && NoWrites(more)
    ensures || (s'.durable == s.durable && (s'.pending == s.pending || s'.pending == []))
            || (s'.durable == s.durable + s.pending && s'.pending == [])
    decreases |more|
  {
    hide Reaches, Next, Enabled, WellFormed;
    if |more| == 0 {
      assert run + more == run;
      SameState(c, init, run, s, s');
    } else {
      var all, e := run + more, more[|more| - 1];
      assert all[..|all| - 1] == run + more[..|more| - 1] && all[|all| - 1] == e && e in more;
      var s1 := LastStep(c, init, all, s');
      NothingNew(c, init, run, s, more[..|more| - 1], s1);
      QuietStep(c, s1, e);
      assert s.durable + [] == s.durable;
    }
  }

  lemma QuietStep(c: Config, s: State, e: Event)
    requires WellFormed(c, s) && Enabled(c, s, e) && !e.Write? && !e.Scribble?
    ensures var s' := Next(c, s, e);
            || (s'.durable == s.durable && (s'.pending == s.pending || s'.pending == []))
            || (s'.durable == s.durable + s.pending && s'.pending == [])
  {
  }

  // From any moment on at which the log holds the file system's calls - between calls, or anywhere in a
  // commit before its header write - let any crashes, recoveries and commit steps happen. When the log
  // is idle and empty again, the disk mounts either to the files of the last commit or to the files in
  // memory.
  lemma AllOrNothing(sb: Superblock, init: seq<Block>, run: seq<Event>, s: State, st: FsState.State, t: Tape,
                     owner: map<nat, Slot>, more: seq<Event>, s': State)
    requires Holds(sb, st, t) && Recoverable(sb, t.base, owner) && Joined(LogOf(sb), init, s, t)
    requires Reaches(LogOf(sb), init, run, s) && Reaches(LogOf(sb), init, run + more, s') && NoWrites(more)
    requires s'.phase.Idle? && s'.lh == []
    ensures || MountsTo(sb, s'.disk, st.owner, st.img)
            || MountsTo(sb, s'.disk, owner, Mounted(sb, t.base, owner).img)
  {
    hide Holds, Recoverable, Joined, Reaches, MountsTo, NoWrites;
    NothingNew(LogOf(sb), init, run, s, more, s');
    if s'.durable == s.durable + s.pending {
      NewFiles(sb, init, s, st, t, run + more, s');
    } else {
      OldFiles(sb, init, s, t, owner, run + more, s');
    }
  }

  // Once the header is written it is the files in memory, whatever happens next.
  lemma CommittedFilesSurvive(sb: Superblock, init: seq<Block>, run: seq<Event>, s: State, st: FsState.State, t: Tape,
                              more: seq<Event>, s': State)
    requires Holds(sb, st, t) && Joined(LogOf(sb), init, s, t)
    requires Reaches(LogOf(sb), init, run, s) && s.phase.Heading?
    requires Reaches(LogOf(sb), init, run + [DiskWrite] + more, s') && NoWrites(more) && s'.phase.Idle? && s'.lh == []
    ensures MountsTo(sb, s'.disk, st.owner, st.img)
  {
    hide Holds, Joined, Reaches, MountsTo, NoWrites, Next;
    Log.ReachedShape(LogOf(sb), init, run, s);
    var s1 := Next(LogOf(sb), s, DiskWrite);
    ReachesStep(LogOf(sb), init, run, s, DiskWrite);
    HeadingCommits(LogOf(sb), s);
    NothingNew(LogOf(sb), init, run + [DiskWrite], s1, more, s');
    assert s1.durable + [] == s1.durable;
    NewFiles(sb, init, s, st, t, run + [DiskWrite] + more, s');
  }

  // A crash before that brings back the files of the last commit.
  lemma UncommittedFilesVanish(sb: Superblock, init: seq<Block>, run: seq<Event>, s: State, t: Tape,
                               owner: map<nat, Slot>, more: seq<Event>, s': State)
    requires Recoverable(sb, t.base, owner) && Joined(LogOf(sb), init, s, t)
    requires Reaches(LogOf(sb), init, run, s)
    requires Reaches(LogOf(sb), init, run + [Crash] + more, s') && NoWrites(more) && s'.phase.Idle? && s'.lh == []
    ensures MountsTo(sb, s'.disk, owner, Mounted(sb, t.base, owner).img)
  {
    hide Recoverable, Joined, Reaches, MountsTo, NoWrites;
    Log.ReachedShape(LogOf(sb), init, run, s);
    var s1 := Next(LogOf(sb), s, Crash);
    ReachesStep(LogOf(sb), init, run, s, Crash);
    NothingNew(LogOf(sb), init, run + [Crash], s1, more, s');
    assert s1.durable + [] == s1.durable;
    OldFiles(sb, init, s, t, owner, run + [Crash] + more, s');
  }
}
