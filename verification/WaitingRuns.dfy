/** Whole runs of the waiting machine: mutual exclusion, no lost wakeup, pipes in order. */
module WaitingRuns {
  import opened Blocks
  import opened Ring
  import opened Waiting
  import opened WaitingSafety

  function NewPipe(data: seq<int>): Pipe {
    Pipe(data, 0, 0, true, true, [], [], false)
  }

  // No process has done anything yet.
  ghost predicate Init(s: State) {
    && (forall p :: p in s.procs ==> s.procs[p] == Proc(Idle, false, s.procs[p].killed, {}, false))
    && s.spin == map[] && s.sh.owner == map[] && s.sh.log == Log(0, false, 0)
    && (forall n :: n in s.sh.pipes ==>
          |s.sh.pipes[n].data| == PIPESIZE && s.sh.pipes[n] == NewPipe(s.sh.pipes[n].data))
  }

  // The events es lead from s to t.
  ghost predicate Leads(s: State, es: seq<Event>, t: State)
    decreases es
  {
    if es == [] then s == t
    else Enabled(s, es[0]) && PipesThere(s.sh.pipes, s.procs[es[0].p].pc) && Leads(Next(s, es[0]), es[1..], t)
  }

  ghost predicate Reachable(s: State) {
    exists s0, es :: Init(s0) && Leads(s0, es, s)
  }

  lemma InitInv(s: State)
    requires Init(s)
    ensures Inv(s)
  {
    forall p ensures p !in InOps(s.procs) {
      assert p in s.procs ==> !s.procs[p].inop;
    }
    assert InOps(s.procs) == {};
  }

  lemma {:induction false} LeadsInv(s: State, es: seq<Event>, t: State)
    requires Inv(s) && Leads(s, es, t)
    ensures Inv(t)
    decreases es
  {
    if es != [] {
      InvStep(s, es[0]);
      LeadsInv(Next(s, es[0]), es[1..], t);
    }
  }

  lemma ReachableInv(s: State)
    requires Reachable(s)
    ensures Inv(s)
  {
    hide Inv;
    var s0, es :| Init(s0) && Leads(s0, es, s);
    InitInv(s0);
    LeadsInv(s0, es, s);
  }

  // Two processes never have the same sleep lock.
  lemma SleepLockExclusion(s: State, p: int, q: int, l: int)
    requires Reachable(s) && p in s.procs && q in s.procs && l in s.procs[p].holds && l in s.procs[q].holds
    ensures p == q && l in s.sh.owner && s.sh.owner[l] == p
  {
    ReachableInv(s);
    assert s.sh.owner[l] == p;
    assert s.sh.owner[l] == q;
  }

  // While its lock is free, a process asleep on a channel still has reason to sleep.
  lemma NoLostWakeup(s: State, p: int, c: Chan)
    requires Reachable(s) && p in s.procs && SleepsOn(s.procs[p], c) && LockOf(c) !in s.spin
    ensures Blocked(s.sh, c)
  {
    ReachableInv(s);
    assert Waits(s.procs[p], c);
    if Owed(s.procs, c) {
      var q :| q in s.procs && Owes(s.procs[q].pc, c);
      OwesHolds(s.procs[q].pc, c);
    }
  }

  // Asleep in acquiresleep: another process, or it itself, has the lock and will release it.
  lemma SleepLockSleeper(s: State, p: int, l: int)
    requires Reachable(s) && p in s.procs && SleepsOn(s.procs[p], SleepChan(l)) && SleepLock(l) !in s.spin
    ensures l in s.sh.owner && s.sh.owner[l] in s.procs && l in s.procs[s.sh.owner[l]].holds
  {
    NoLostWakeup(s, p, SleepChan(l));
    ReachableInv(s);
  }

  lemma Member(xs: set<int>) returns (x: int)
    requires |xs| > 0
    ensures x in xs
  {
    assert (forall y :: y !in xs) ==> xs == {};
    x :| x in xs;
  }

  // Asleep in begin_op: a commit is in progress or an operation outstanding, so end_op will come.
  lemma BeginOpSleeper(s: State, p: int)
    requires Reachable(s) && p in s.procs && SleepsOn(s.procs[p], LogChan) && LogLock !in s.spin
    ensures s.sh.log.committing || exists q :: q in s.procs && s.procs[q].inop
  {
    NoLostWakeup(s, p, LogChan);
    ReachableInv(s);
    if !s.sh.log.committing {
      assert s.sh.log.outstanding > 0;
      var q := Member(InOps(s.procs));
      assert s.procs[q].inop;
    }
  }

  // A commit runs alone: nobody is inside an operation, and nobody else commits.
  lemma CommitAlone(s: State, p: int, q: int)
    requires Reachable(s) && p in s.procs && q in s.procs && InCommit(s.procs[p].pc)
    ensures s.sh.log.committing && !s.procs[q].inop && (InCommit(s.procs[q].pc) ==> q == p)
  {
    ReachableInv(s);
    assert q in InOps(s.procs) <==> s.procs[q].inop;
  }

  // Asleep in pipewrite: the ring is full and somebody may still read it.
  lemma WriterSleeper(s: State, p: int, n: int)
    requires Reachable(s) && p in s.procs && SleepsOn(s.procs[p], WriteChan(n)) && PipeLock(n) !in s.spin
    ensures n in s.sh.pipes && |s.sh.pipes[n].stored| == |s.sh.pipes[n].got| + PIPESIZE && s.sh.pipes[n].readopen
  {
    NoLostWakeup(s, p, WriteChan(n));
    ReachableInv(s);
    CountersExact(s.sh.pipes[n]);
  }

  // The bytes read from a pipe are, in order, a prefix of the bytes written to it.
  lemma PipeOrder(s: State, n: int)
    requires Reachable(s) && n in s.sh.pipes
    ensures s.sh.pipes[n].got <= s.sh.pipes[n].stored
    ensures 0 <= |s.sh.pipes[n].stored| - |s.sh.pipes[n].got| <= PIPESIZE
  {
    ReachableInv(s);
  }

  // ---- a reader that is not woken ----

  lemma {:induction false} LeadsOn(s: State, es: seq<Event>, t: State, e: Event)
    requires Leads(s, es, t) && Enabled(t, e) && PipesThere(t.sh.pipes, t.procs[e.p].pc)
    ensures Leads(s, es + [e], Next(t, e))
    decreases es
  {
    hide Enabled, Next, PipesThere;
    if es == [] {
      assert (es + [e])[0] == e && (es + [e])[1..] == [];
      assert Leads(Next(t, e), [], Next(t, e));
    } else {
      LeadsOn(Next(s, es[0]), es[1..], t, e);
      assert (es + [e])[0] == es[0] && (es + [e])[1..] == es[1..] + [e];
    }
  }

  lemma Go(s0: State, es: seq<Event>, s: State, e: Event) returns (es': seq<Event>, t: State)
    requires Leads(s0, es, s) && Enabled(s, e) && PipesThere(s.sh.pipes, s.procs[e.p].pc)
    ensures t == Next(s, e) && Leads(s0, es', t)
  {
    hide Leads;
    LeadsOn(s0, es, s, e);
    es', t := es + [e], Next(s, e);
  }

  // sleep up to where it holds ptable.lock alone.
  lemma LetGo(s0: State, es: seq<Event>, s: State, p: int, op: Op) returns (es': seq<Event>, t: State)
    requires Leads(s0, es, s) && p in s.procs && s.procs[p].pc == Sleep1(op)
    requires Ptable !in s.spin && OpLock(op) != Ptable
    ensures Leads(s0, es', t) && t.sh == s.sh && t.spin == (s.spin - {OpLock(op)})[Ptable := p]
    ensures t.procs == s.procs[p := s.procs[p].(pc := Sleep3(op))]
  {
    hide Leads;
    es', t := Go(s0, es, s, Run(p));
    es', t := Go(s0, es', t, Run(p));
  }

  // From the call of sleep to being off the CPU.
  lemma FallAsleep(s0: State, es: seq<Event>, s: State, p: int, op: Op) returns (es': seq<Event>, t: State)
    requires Leads(s0, es, s) && p in s.procs && s.procs[p].pc == Sleep1(op)
    requires Ptable !in s.spin && OpLock(op) != Ptable
    ensures Leads(s0, es', t) && t.sh == s.sh && t.spin == s.spin - {OpLock(op)}
    ensures t.procs == s.procs[p := s.procs[p].(pc := Asleep(op), sleeping := true)]
  {
    hide Leads;
    es', t := LetGo(s0, es, s, p, op);
    es', t := Go(s0, es', t, Run(p));
    es', t := Go(s0, es', t, Run(p));
  }

  lemma ReaderSleeps(s0: State, es: seq<Event>, s: State, p: int, n: int) returns (es': seq<Event>, t: State)
    requires Leads(s0, es, s) && p in s.procs && s.procs[p].pc.Idle? && !s.procs[p].killed && s.spin == map[]
    requires n in s.sh.pipes && s.sh.pipes[n].Empty() && s.sh.pipes[n].writeopen
    ensures Leads(s0, es', t) && t.sh == s.sh && t.spin == map[]
    ensures t.procs == s.procs[p := s.procs[p].(pc := Asleep(Read(n, 1)), sleeping := true)]
  {
    hide Leads;
    var op := Read(n, 1);
    es', t := Go(s0, es, s, Call(p, op));
    es', t := Go(s0, es', t, Run(p));
    es', t := Go(s0, es', t, Run(p));
    es', t := FallAsleep(s0, es', t, p, op);
  }

  lemma Killed(s0: State, es: seq<Event>, s: State, p: int, q: int) returns (es': seq<Event>, t: State)
    requires Leads(s0, es, s) && p in s.procs && q in s.procs && q != p && s.procs[p].pc.Idle? && s.spin == map[]
    ensures Leads(s0, es', t) && t.sh == s.sh && t.spin == map[]
    ensures t.procs == s.procs[q := s.procs[q].(killed := true, sleeping := false)]
  {
    hide Leads;
    es', t := Go(s0, es, s, Kill(p, q));
    es', t := Go(s0, es', t, Run(p));
    es', t := Go(s0, es', t, Run(p));
    es', t := Go(s0, es', t, Run(p));
  }

  // The bytes of a write go into the ring as long as there is room.
  lemma {:induction false} Stores(s0: State, es: seq<Event>, s: State, p: int, n: int, bytes: seq<int>,
                                  some: bool, k: nat)
    returns (es': seq<Event>, t: State)
    requires Leads(s0, es, s) && p in s.procs && s.procs[p].pc == Storing(n, bytes, some)
    requires n in s.sh.pipes && Fifo(s.sh.pipes[n])
    requires |s.sh.pipes[n].stored| + k <= |s.sh.pipes[n].got| + PIPESIZE && k <= |bytes|
    ensures Leads(s0, es', t) && t.spin == s.spin
    ensures t.procs == s.procs[p := s.procs[p].(pc := Storing(n, bytes[k..], some || k > 0))]
    ensures t.sh.pipes.Keys == s.sh.pipes.Keys && Fifo(t.sh.pipes[n]) && t.sh.pipes[n].got == s.sh.pipes[n].got
    ensures |t.sh.pipes[n].stored| == |s.sh.pipes[n].stored| + k
    decreases k
  {
    hide Leads, Fifo;
    es', t := es, s;
    if k > 0 {
      var q := s.sh.pipes[n];
      CountersExact(q);
      StoreFifo(q, bytes[0]);
      FifoShape(q);
      es', t := Go(s0, es, s, Run(p));
      es', t := Stores(s0, es', t, p, n, bytes[1..], true, k - 1);
      assert bytes[1..][k - 1..] == bytes[k..];
    }
  }

  lemma FifoShape(q: Pipe)
    requires Fifo(q)
    ensures |q.data| == PIPESIZE
  {
  }

  // A killed writer fills the ring and leaves.
  lemma KilledWriter(s0: State, es: seq<Event>, s: State, p: int, n: int) returns (es': seq<Event>, t: State)
    requires Leads(s0, es, s) && p in s.procs && s.procs[p].pc.Idle? && s.procs[p].killed && s.spin == map[]
    requires n in s.sh.pipes && Fifo(s.sh.pipes[n]) && s.sh.pipes[n].stored == s.sh.pipes[n].got
    ensures Leads(s0, es', t) && t.spin == map[] && t.procs == s.procs
    ensures n in t.sh.pipes && |t.sh.pipes[n].stored| == |t.sh.pipes[n].got| + PIPESIZE
  {
    hide Leads, Fifo;
    var bytes := seq(PIPESIZE + 1, _ => 0);
    es', t := Go(s0, es, s, Call(p, Write(n, bytes)));
    es', t := Go(s0, es', t, Run(p));
    es', t := Stores(s0, es', t, p, n, bytes, false, PIPESIZE);
    es', t := WriterLeaves(s0, es', t, p, n, bytes[PIPESIZE..]);
  }

  lemma WriterLeaves(s0: State, es: seq<Event>, s: State, p: int, n: int, bytes: seq<int>)
    returns (es': seq<Event>, t: State)
    requires Leads(s0, es, s) && p in s.procs && s.procs[p].pc == Storing(n, bytes, true)
    requires bytes != [] && s.procs[p].killed
    requires n in s.sh.pipes && Fifo(s.sh.pipes[n]) && |s.sh.pipes[n].stored| == |s.sh.pipes[n].got| + PIPESIZE
    ensures Leads(s0, es', t) && t.spin == s.spin - {PipeLock(n)} && t.procs == s.procs[p := s.procs[p].(pc := Idle)]
    ensures n in t.sh.pipes && |t.sh.pipes[n].stored| == |t.sh.pipes[n].got| + PIPESIZE
  {
    hide Leads, Fifo;
    CountersExact(s.sh.pipes[n]);
    FifoShape(s.sh.pipes[n]);
    es', t := Go(s0, es, s, Run(p));
    es', t := Go(s0, es', t, Run(p));
  }

  // So a reader can stay asleep at a full ring whose lock is free: no wakeup was promised to it.
  lemma ReaderLeftAsleep() returns (s: State)
    ensures Reachable(s) && 1 in s.procs && SleepsOn(s.procs[1], ReadChan(0)) && PipeLock(0) !in s.spin
    ensures 0 in s.sh.pipes && |s.sh.pipes[0].stored| == |s.sh.pipes[0].got| + PIPESIZE
  {
    hide Leads;
    var idle, pipe := Proc(Idle, false, false, {}, false), NewPipe(seq(PIPESIZE, _ => 0));
    var s0 := State(map[0 := idle, 1 := idle, 2 := idle], map[], Shared(map[], Log(0, false, 0), map[0 := pipe]));
    var es: seq<Event> := [];
    assert Leads(s0, es, s0) by { LeadsNil(s0); }
    assert Init(s0);
    s := s0;
    es, s := ReaderSleeps(s0, es, s, 1, 0);
    es, s := Killed(s0, es, s, 2, 0);
    es, s := KilledWriter(s0, es, s, 0, 0);
  }

  lemma LeadsNil(s: State)
    ensures Leads(s, [], s)
  {
  }
}
