/** Consequences of the log invariant over whole runs: recovery completes and commits are group commits. */
module LogRuns {
  import opened Blocks
  import opened Params
  import opened LogMachine
  import opened LogSafety

  // ---- recovery, however often it is interrupted ----

  function Writes(n: nat): (r: seq<Event>)
    ensures |r| == n
  {
    if n == 0 then [] else Writes(n - 1) + [DiskWrite]
  }

  lemma ReachesStep(c: Config, init: seq<Block>, run: seq<Event>, s: State, e: Event)
    requires Reaches(c, init, run, s) && WellFormed(c, s) && Enabled(c, s, e)
    ensures Reaches(c, init, run + [e], Next(c, s, e))
  {
    assert (run + [e])[..|run|] == run;
  }

  // How many block writes recovery still has to do.
  function Left(s: State): (n: nat)
  {
    if s.phase.Recovering? && s.phase.tail < |s.lh| then 1 + |s.lh| - s.phase.tail else 1
  }

  // From install_trans on, the remaining writes of recovery bring every home block to base.
  lemma {:induction false} RecoveryRuns(c: Config, init: seq<Block>, run: seq<Event>, s: State) returns (s': State)
    requires Reaches(c, init, run, s) && (s.phase.Recovering? || s.phase.RecoveryClearing?)
    ensures Reaches(c, init, run + Writes(Left(s)), s')
    ensures s'.phase.Idle? && s'.durable == s.durable && c.Valid() && |s'.disk| == |s'.cache| == |init| == c.nblocks
    ensures forall b :: c.Home(b) ==> s'.disk[b] == s'.cache[b] == Apply(init, s.durable)[b]
    decreases Left(s), s.phase.Recovering?
  {
    hide Worth, PhaseOk, WholeOps, Apply, HeadOf, PutHead, Reaches, DiskStep, Writes;
    CrashAtomicity(c, init, run, s);
    ReachesStep(c, init, run, s, DiskWrite);
    var s1 := Next(c, s, DiskWrite);
    if s.phase.Recovering? {
      RecoverPhase(c, s);
      s' := RecoveryRuns(c, init, run + [DiskWrite], s1);
      WritesCons(Left(s1));
      assert run + [DiskWrite] + Writes(Left(s1)) == run + Writes(Left(s));
    } else {
      s' := s1;
      ClearStep(c, s, Apply(init, s.durable));
      ClearedState(c, s);
      RecoveringCache(c, init, s);
      WritesOne();
    }
  }

  lemma RecoveringCache(c: Config, init: seq<Block>, s: State)
    requires Inv(c, init, s) && s.phase.RecoveryClearing?
    ensures s.cache == s.disk
  {
  }

  lemma WritesOne()
    ensures Writes(1) == [DiskWrite]
  {
  }

  lemma RecoverPhase(c: Config, s: State)
    requires WellFormed(c, s) && s.phase.Recovering?
    ensures var s1 := DiskStep(c, s);
            && s1.lh == s.lh && s1.durable == s.durable && s1.phase == AfterRecovering(s.lh, s.phase.tail + 1)
            && Left(s) == Left(s1) + 1
  {
  }

  lemma ClearedState(c: Config, s: State)
    requires WellFormed(c, s) && s.phase.RecoveryClearing?
    ensures var s1 := DiskStep(c, s);
            s1.phase.Idle? && s1.durable == s.durable && (s.cache == s.disk ==> s1.cache == s1.disk)
  {
    hide PutHead;
  }

  lemma {:induction false} WritesCons(n: nat)
    ensures Writes(n + 1) == [DiskWrite] + Writes(n)
    decreases n
  {
    if n > 0 {
      WritesCons(n - 1);
    }
  }

  // Whatever happened before, crashes inside earlier recoveries included: one recovery that is left
  // alone ends with every home block holding exactly the committed log_writes.
  lemma RecoveryCompletes(c: Config, init: seq<Block>, run: seq<Event>, s: State) returns (s': State)
    requires Reaches(c, init, run, s) && s.phase.Down?
    ensures c.Valid() && |s.disk| == c.nblocks
    ensures Reaches(c, init, run + [ReadHead] + Writes(1 + |HeadOf(s.disk[c.start])|), s')
    ensures s'.phase.Idle? && s'.durable == s.durable && |s'.disk| == |s'.cache| == |init| == c.nblocks
    ensures forall b :: c.Home(b) ==> s'.disk[b] == s'.cache[b] == Apply(init, s.durable)[b]
  {
    hide Apply, HeadOf, Reaches, Inv, WellFormed, Writes, Next, Left, Enabled;
    DownFacts(c, init, run, s);
    var s1 := Next(c, s, ReadHead);
    s' := RecoveryRuns(c, init, run + [ReadHead], s1);
  }

  lemma DownFacts(c: Config, init: seq<Block>, run: seq<Event>, s: State)
    requires Reaches(c, init, run, s) && s.phase.Down?
    ensures WellFormed(c, s) && c.Valid() && |s.disk| == |init| == c.nblocks && Enabled(c, s, ReadHead)
    ensures var s1 := Next(c, s, ReadHead);
            && Reaches(c, init, run + [ReadHead], s1)
            && (s1.phase.Recovering? || s1.phase.RecoveryClearing?) && s1.durable == s.durable
            && Left(s1) == 1 + |HeadOf(s.disk[c.start])|
  {
    hide Worth, PhaseOk, WholeOps, Apply, HeadOf, PutHead, Reaches, DiskStep;
    CrashAtomicity(c, init, run, s);
    ReachesStep(c, init, run, s, ReadHead);
  }

  // ---- group commit ----

  // While a commit or recovery runs no operation is outstanding, so a transaction is made of whole ones.
  lemma GroupCommit(c: Config, init: seq<Block>, run: seq<Event>, s: State)
    requires Reaches(c, init, run, s)
    ensures !s.phase.Idle? ==> s.ops == map[]
  {
    CrashAtomicity(c, init, run, s);
  }

  // The header write makes the open transaction durable, and nothing ever undoes that.
  lemma {:induction false} CommitPoint(c: Config, init: seq<Block>, run: seq<Event>, s: State, more: seq<Event>,
                                       s': State)
    requires Reaches(c, init, run, s) && s.phase.Heading? && Reaches(c, init, run + [DiskWrite] + more, s')
    ensures s.durable + s.pending <= s'.durable
    decreases |more|
  {
    hide Inv, Reaches, Next, WellFormed, Enabled;
    var all := run + [DiskWrite] + more;
    var s1 := LastStep(c, init, all, s');
    if |more| == 0 {
      assert all[..|all| - 1] == run && all[|all| - 1] == DiskWrite;
      SameState(c, init, run, s, s1);
      HeadingCommits(c, s);
    } else {
      assert all[..|all| - 1] == run + [DiskWrite] + more[..|more| - 1];
      CommitPoint(c, init, run, s, more[..|more| - 1], s1);
      CrashAtomicity(c, init, all[..|all| - 1], s1);
      InvStep(c, init, s1, all[|all| - 1]);
    }
  }

  lemma HeadingCommits(c: Config, s: State)
    requires WellFormed(c, s) && s.phase.Heading? && Enabled(c, s, DiskWrite)
    ensures Next(c, s, DiskWrite).durable == s.durable + s.pending && Next(c, s, DiskWrite).pending == []
  {
  }

  lemma LastStep(c: Config, init: seq<Block>, run: seq<Event>, s: State) returns (s1: State)
    requires Reaches(c, init, run, s) && |run| > 0
    ensures Reaches(c, init, run[..|run| - 1], s1) && WellFormed(c, s1)
    ensures Enabled(c, s1, run[|run| - 1]) && s == Next(c, s1, run[|run| - 1])
  {
    s1 :| && Reaches(c, init, run[..|run| - 1], s1) && WellFormed(c, s1) && Enabled(c, s1, run[|run| - 1])
          && s == Next(c, s1, run[|run| - 1]);
  }

  // The machine is deterministic given the events.
  lemma {:induction false} SameState(c: Config, init: seq<Block>, run: seq<Event>, s: State, t: State)
    requires Reaches(c, init, run, s) && Reaches(c, init, run, t)
    ensures s == t
    decreases |run|
  {
    if |run| > 0 {
      var s1 :| && Reaches(c, init, run[..|run| - 1], s1) && WellFormed(c, s1) && Enabled(c, s1, run[|run| - 1])
                && s == Next(c, s1, run[|run| - 1]);
      var t1 :| && Reaches(c, init, run[..|run| - 1], t1) && WellFormed(c, t1) && Enabled(c, t1, run[|run| - 1])
                && t == Next(c, t1, run[|run| - 1]);
      SameState(c, init, run[..|run| - 1], s1, t1);
    }
  }

  lemma ReachesStart(c: Config, init: seq<Block>)
    requires c.Valid() && |init| == c.nblocks && WordAt(init[c.start], 0) == 0
    ensures Reaches(c, init, [], State(init, init, [], map[], Idle, [], [], map[], {}))
  {
    hide HeadOf;
  }
}
