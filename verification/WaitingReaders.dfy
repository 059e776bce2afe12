/** Readers asleep at a pipe: its write end is open, and the ring is empty unless a writer left bytes in it
    without a wakeup, which takes a kill or a closed read end. */
module WaitingReaders {
  import opened Blocks
  import opened Ring
  import opened Waiting
  import opened WaitingSafety
  import opened WaitingRuns

  // ---- the write end ----

  predicate Writable(sh: Shared, n: int) {
    n in sh.pipes && sh.pipes[n].writeopen
  }

  // A process about to wake every sleeper on c.
  predicate Waking(pc: Pc, c: Chan) {
    (pc.Wake1? || pc.Wake2?) && pc.c == c
  }

  ghost predicate AboutToWake(procs: map<int, Proc>, c: Chan) {
    exists q :: q in procs && Waking(procs[q].pc, c)
  }

  // A reader waits only at a pipe whose write end is open, or will be woken by whoever closed it.
  ghost predicate OpenInv(s: State) {
    forall p, n :: p in s.procs && Waits(s.procs[p], ReadChan(n)) ==>
      Writable(s.sh, n) || AboutToWake(s.procs, ReadChan(n))
  }

  // The move from x makes no reader wait without a writer, and closing the write end promises a wakeup.
  ghost predicate FairOpen(sh: Shared, x: Proc, m: Move) {
    forall n ::
      && (Waits(m.me, ReadChan(n)) ==> Waits(x, ReadChan(n)) || Writable(m.sh, n))
      && (Waking(x.pc, ReadChan(n)) ==> Waking(m.me.pc, ReadChan(n)))
      && (Writable(sh, n) ==> Writable(m.sh, n) || Waking(m.me.pc, ReadChan(n)))
  }

  lemma OpenMoved(s: State, s': State, p: int)
    requires OpenInv(s) && p in s.procs && p in s'.procs && s'.procs == s.procs[p := s'.procs[p]]
    requires FairOpen(s.sh, s.procs[p], Move(s'.procs[p], s'.sh))
    ensures OpenInv(s')
  {
    hide Waits, Waking, Writable;
    forall q, n | q in s'.procs && Waits(s'.procs[q], ReadChan(n))
      ensures Writable(s'.sh, n) || AboutToWake(s'.procs, ReadChan(n))
    {
      if Waking(s'.procs[p].pc, ReadChan(n)) {
        assert AboutToWake(s'.procs, ReadChan(n));
      } else if Waits(s.procs[q], ReadChan(n)) && AboutToWake(s.procs, ReadChan(n)) {
        var r :| r in s.procs && Waking(s.procs[r].pc, ReadChan(n));
        assert r != p ==> s'.procs[r] == s.procs[r];
      }
    }
  }

  lemma QuietFairOpen(sh: Shared, x: Proc, p: int)
    requires ProcOk(sh.pipes, x) && IsQuiet(x.pc) && PipesThere(sh.pipes, x.pc)
    ensures FairOpen(sh, x, Quiet(sh, x, p))
  {
    hide Quiet, Waits, Writable;
    QuietWriteEnd(sh, x, p);
    QuietReader(sh, x, p);
  }

  // Only closing the write end clears writeopen, and it goes on to wake the readers.
  lemma QuietWriteEnd(sh: Shared, x: Proc, p: int)
    requires ProcOk(sh.pipes, x) && IsQuiet(x.pc) && PipesThere(sh.pipes, x.pc)
    ensures var m := Quiet(sh, x, p);
            forall n :: Writable(sh, n) ==> Writable(m.sh, n) || Waking(m.me.pc, ReadChan(n))
  {
  }

  // A reader goes to sleep only while the write end is open.
  lemma QuietReader(sh: Shared, x: Proc, p: int)
    requires ProcOk(sh.pipes, x) && IsQuiet(x.pc) && PipesThere(sh.pipes, x.pc)
    ensures var m := Quiet(sh, x, p);
            forall n :: Waits(m.me, ReadChan(n)) ==> Waits(x, ReadChan(n)) || Writable(m.sh, n)
  {
    hide Store, Take;
  }

  lemma StepFairOpen(s: State, e: Event)
    requires Inv(s) && Enabled(s, e) && PipesThere(s.sh.pipes, s.procs[e.p].pc)
    requires !s.procs[e.p].pc.Wake2? && !s.procs[e.p].pc.Kill2?
    ensures OpenInv(s) ==> OpenInv(Next(s, e))
  {
    hide OpenInv, LockInv, PipesOk, HoldInv, LogInv, WaitInv, Quiet;
    var x, s' := s.procs[e.p], Next(s, e);
    assert ProcOk(s.sh.pipes, x);
    if e.Run? && IsQuiet(x.pc) {
      QuietFairOpen(s.sh, x, e.p);
    }
    if OpenInv(s) {
      OpenMoved(s, s', e.p);
    }
  }

  // wakeup leaves no reader waiting on its channel.
  lemma WakeOpen(s: State, p: int)
    requires BaseInv(s) && WaitInv(s) && OpenInv(s)
    requires p in s.procs && s.procs[p].pc.Wake2? && PipesThere(s.sh.pipes, s.procs[p].pc)
    ensures OpenInv(RunStep(s, p))
  {
    hide BaseInv, WaitInv, Waits, Blocked;
    var s', w := RunStep(s, p), s.procs[p].pc.c;
    WaitWake(s, p);
    WakeMakesNoWait(s, p);
    forall q, n | q in s'.procs && Waits(s'.procs[q], ReadChan(n))
      ensures Writable(s'.sh, n) || AboutToWake(s'.procs, ReadChan(n))
    {
      assert Waits(s.procs[q], ReadChan(n)) && ReadChan(n) != w;
      if AboutToWake(s.procs, ReadChan(n)) {
        var r :| r in s.procs && Waking(s.procs[r].pc, ReadChan(n));
        assert r != p && Waking(s'.procs[r].pc, ReadChan(n));
      }
    }
  }

  lemma WakeMakesNoWait(s: State, p: int)
    requires p in s.procs && s.procs[p].pc.Wake2? && PipesThere(s.sh.pipes, s.procs[p].pc)
    ensures forall q, c :: q in RunStep(s, p).procs && Waits(RunStep(s, p).procs[q], c) ==>
      q in s.procs && Waits(s.procs[q], c)
  {
  }

  lemma KillOpen(s: State, p: int)
    requires OpenInv(s) && p in s.procs && s.procs[p].pc.Kill2? && PipesThere(s.sh.pipes, s.procs[p].pc)
    ensures OpenInv(RunStep(s, p))
  {
    var s' := RunStep(s, p);
    forall q, n | q in s'.procs && Waits(s'.procs[q], ReadChan(n))
      ensures Writable(s'.sh, n) || AboutToWake(s'.procs, ReadChan(n))
    {
      assert Waits(s.procs[q], ReadChan(n));
      if AboutToWake(s.procs, ReadChan(n)) {
        var r :| r in s.procs && Waking(s.procs[r].pc, ReadChan(n));
        assert r != p && Waking(s'.procs[r].pc, ReadChan(n));
      }
    }
  }

  lemma OpenStep(s: State, e: Event)
    requires Inv(s) && OpenInv(s) && Enabled(s, e) && PipesThere(s.sh.pipes, s.procs[e.p].pc)
    ensures OpenInv(Next(s, e))
  {
    hide BaseInv, HoldInv, LogInv, WaitInv, OpenInv, RunStep;
    var pc := s.procs[e.p].pc;
    if pc.Wake2? && e.Run? {
      WakeOpen(s, e.p);
    } else if pc.Kill2? && e.Run? {
      KillOpen(s, e.p);
    } else {
      StepFairOpen(s, e);
    }
  }

  lemma {:induction false} LeadsOpen(s: State, es: seq<Event>, t: State)
    requires Inv(s) && OpenInv(s) && Leads(s, es, t)
    ensures OpenInv(t)
    decreases es
  {
    hide Inv, OpenInv, Next, Enabled, PipesThere;
    if es != [] {
      InvStep(s, es[0]);
      OpenStep(s, es[0]);
      LeadsOpen(Next(s, es[0]), es[1..], t);
    }
  }

  lemma ReachableOpen(s: State)
    requires Reachable(s)
    ensures OpenInv(s)
  {
    hide Inv, Leads;
    var s0, es :| Init(s0) && Leads(s0, es, s);
    InitInv(s0);
    LeadsOpen(s0, es, s);
  }

  // Asleep in piperead, with the pipe's lock free: the write end is open, and the ring is empty if and only
  // if no writer left bytes in it without a wakeup.
  lemma ReaderSleeper(s: State, p: int, n: int)
    requires Reachable(s) && p in s.procs && SleepsOn(s.procs[p], ReadChan(n)) && PipeLock(n) !in s.spin
    ensures n in s.sh.pipes && s.sh.pipes[n].writeopen
    ensures s.sh.pipes[n].stored == s.sh.pipes[n].got <==> !s.sh.pipes[n].dropped
  {
    NoLostWakeup(s, p, ReadChan(n));
    ReachableOpen(s);
    ReachableInv(s);
    CountersExact(s.sh.pipes[n]);
    assert Waits(s.procs[p], ReadChan(n));
    if AboutToWake(s.procs, ReadChan(n)) {
      var q :| q in s.procs && Waking(s.procs[q].pc, ReadChan(n));
      OwesHolds(s.procs[q].pc, ReadChan(n));
    }
  }

  // ---- runs without kills ----

  // Nobody was killed, nobody closes the read end of pipe n, and nobody left it without a wakeup.
  ghost predicate Peaceful(s: State, n: int) {
    && (forall p :: p in s.procs ==> !s.procs[p].killed && !Disturbs(s.procs[p].pc, n))
    && (n in s.sh.pipes ==> s.sh.pipes[n].readopen && !s.sh.pipes[n].dropped)
  }

  predicate Disturbs(pc: Pc, n: int) {
    pc.Kill1? || pc.Kill2? || ((pc.Enter? || pc.Test?) && pc.op == CloseRead(n))
  }

  predicate Peace(e: Event, n: int) {
    !e.Kill? && (e.Call? ==> e.op != CloseRead(n))
  }

  lemma PeaceStep(s: State, e: Event, n: int)
    requires Inv(s) && Peaceful(s, n) && Peace(e, n) && Enabled(s, e) && PipesThere(s.sh.pipes, s.procs[e.p].pc)
    ensures Peaceful(Next(s, e), n)
  {
    hide LockInv, PipesOk, HoldInv, LogInv, WaitInv;
    var x, s' := s.procs[e.p], Next(s, e);
    assert ProcOk(s.sh.pipes, x);
    if e.Run? && IsQuiet(x.pc) {
      QuietPeace(s.sh, x, e.p, n);
    }
  }

  lemma QuietPeace(sh: Shared, x: Proc, p: int, n: int)
    requires ProcOk(sh.pipes, x) && IsQuiet(x.pc) && PipesThere(sh.pipes, x.pc) && !x.killed && !Disturbs(x.pc, n)
    requires n in sh.pipes ==> sh.pipes[n].readopen && !sh.pipes[n].dropped
    ensures var m := Quiet(sh, x, p);
            && !m.me.killed && !Disturbs(m.me.pc, n)
            && (n in m.sh.pipes ==> m.sh.pipes[n].readopen && !m.sh.pipes[n].dropped)
  {
  }

  lemma {:induction false} LeadsPeace(s: State, es: seq<Event>, t: State, n: int)
    requires Inv(s) && Peaceful(s, n) && Leads(s, es, t) && forall e :: e in es ==> Peace(e, n)
    ensures Peaceful(t, n)
    decreases es
  {
    hide Inv, Peaceful, Next, Enabled, PipesThere, Peace;
    if es != [] {
      assert es[0] in es;
      InvStep(s, es[0]);
      PeaceStep(s, es[0], n);
      LeadsPeace(Next(s, es[0]), es[1..], t, n);
    }
  }

  // In a run in which nobody is killed and nobody closes the read end of pipe n, a reader asleep at it with
  // its lock free sleeps at an empty ring whose write end is open.
  lemma ReaderSleepsForCause(s0: State, es: seq<Event>, s: State, p: int, n: int)
    requires Init(s0) && Leads(s0, es, s) && forall q :: q in s0.procs ==> !s0.procs[q].killed
    requires forall e :: e in es ==> Peace(e, n)
    requires p in s.procs && SleepsOn(s.procs[p], ReadChan(n)) && PipeLock(n) !in s.spin
    ensures n in s.sh.pipes && s.sh.pipes[n].stored == s.sh.pipes[n].got && s.sh.pipes[n].writeopen
  {
    hide Leads, Inv;
    assert Reachable(s);
    InitInv(s0);
    LeadsPeace(s0, es, s, n);
    ReaderSleeper(s, p, n);
  }
}
