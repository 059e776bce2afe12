/** What every step of the waiting machine keeps, and what holds in every state a run reaches. */
module WaitingSafety {
  import opened Blocks
  import opened Ring
  import opened Waiting

  // ---- one process ----

  predicate HasOp(pc: Pc) {
    pc.Enter? || pc.Test? || Sleeper(pc)
  }

  predicate Sleeper(pc: Pc) {
    pc.Sleep1? || pc.Sleep2? || pc.Sleep3? || pc.Sleep4? || pc.Asleep? || pc.Woke?
  }

  predicate Waker(pc: Pc) {
    pc.Wake1? || pc.Wake2? || pc.Wake3?
  }

  // What holds of a pending operation.
  predicate OpOk(pipes: map<int, Pipe>, x: Proc, op: Op) {
    match op
    case Acquire(_) => true
    case Release(l) => l in x.holds
    case Begin => !x.inop
    case LogWrite(_) => x.inop
    case End => x.inop
    case Finish => true
    case Write(n, _) => n in pipes
    case Read(n, _) => n in pipes
    case CloseRead(n) => n in pipes
    case CloseWrite(n) => n in pipes
  }

  predicate ProcOk(pipes: map<int, Pipe>, x: Proc) {
    && (x.sleeping ==> x.pc.Sleep4? || x.pc.Asleep?)
    && (HasOp(x.pc) ==> OpOk(pipes, x, x.pc.op))
    && (Sleeper(x.pc) ==> CanSleep(x.pc.op))
    && (x.pc.Test? ==> !x.pc.op.Write?)
    && (x.pc.Storing? || x.pc.Copying? ==> x.pc.n in pipes)
    && (Waker(x.pc) && x.pc.after.GoSleep? ==>
          x.pc.after.op.Write? && x.pc.after.op.n in pipes && x.pc.c == ReadChan(x.pc.after.op.n))
    && (x.pc.Leave? ==> x.pc.lock != Ptable)
  }

  ghost predicate PipesOk(pipes: map<int, Pipe>) {
    forall n :: n in pipes ==> Fifo(pipes[n])
  }

  ghost predicate ProcsOk(s: State) {
    forall p :: p in s.procs ==> ProcOk(s.sh.pipes, s.procs[p])
  }

  lemma Runnable(pipes: map<int, Pipe>, x: Proc)
    requires PipesOk(pipes) && ProcOk(pipes, x)
    ensures PipesThere(pipes, x.pc)
  {
  }

  lemma TakingOk(pipes: map<int, Pipe>, x: Proc)
    requires ProcOk(pipes, x) && IsTaking(x.pc) && !x.sleeping
    ensures ProcOk(pipes, x.(pc := AfterTaking(x.pc)))
    ensures forall k :: Holds(AfterTaking(x.pc), k) <==> Holds(x.pc, k) || k == TakenLock(x.pc)
  {
  }

  lemma DroppingOk(pipes: map<int, Pipe>, x: Proc)
    requires ProcOk(pipes, x) && IsDropping(x.pc)
    ensures ProcOk(pipes, x.(pc := AfterDropping(x.pc)))
    ensures Holds(x.pc, DroppedLock(x.pc))
    ensures forall k :: Holds(AfterDropping(x.pc), k) <==> Holds(x.pc, k) && k != DroppedLock(x.pc)
  {
  }

  // Process x moved to m, keeping its locks and the pipes in order.
  ghost predicate MoveOk(sh: Shared, x: Proc, m: Move) {
    && ProcOk(m.sh.pipes, m.me) && m.sh.pipes.Keys == sh.pipes.Keys && PipesOk(m.sh.pipes)
    && forall k :: Holds(m.me.pc, k) <==> Holds(x.pc, k)
  }

  lemma TestOk(sh: Shared, x: Proc, p: int, op: Op)
    requires ProcOk(sh.pipes, x) && x.pc == Test(op) && PipesOk(sh.pipes)
    ensures MoveOk(sh, x, TestStep(sh, x, p, op))
  {
    hide MoveOk, SleepLockStep, LogStep, PipeStep;
    if op.Acquire? || op.Release? {
      SleepTestOk(sh, x, p, op);
    } else if IsLogOp(op) {
      LogTestOk(sh, x, op);
    } else {
      PipeTestOk(sh, x, op);
    }
  }

  lemma SleepTestOk(sh: Shared, x: Proc, p: int, op: Op)
    requires ProcOk(sh.pipes, x) && x.pc == Test(op) && PipesOk(sh.pipes) && (op.Acquire? || op.Release?)
    ensures MoveOk(sh, x, SleepLockStep(sh, x, p, op))
  {
  }

  lemma LogTestOk(sh: Shared, x: Proc, op: Op)
    requires ProcOk(sh.pipes, x) && x.pc == Test(op) && PipesOk(sh.pipes) && IsLogOp(op)
    ensures MoveOk(sh, x, LogStep(sh, x, op))
  {
  }

  lemma PipeTestOk(sh: Shared, x: Proc, op: Op)
    requires ProcOk(sh.pipes, x) && x.pc == Test(op) && PipesOk(sh.pipes)
    requires (op.Read? || op.CloseRead? || op.CloseWrite?)
    ensures MoveOk(sh, x, PipeStep(sh, x, op))
  {
    var q := sh.pipes[op.n];
    assert Fifo(q) && Fifo(q.(readopen := false)) && Fifo(q.(writeopen := false));
    hide Fifo;
  }

  lemma StoreOk(sh: Shared, x: Proc, n: int, bytes: seq<int>, some: bool)
    requires ProcOk(sh.pipes, x) && x.pc == Storing(n, bytes, some) && PipesOk(sh.pipes)
    ensures MoveOk(sh, x, StoreStep(sh, x, n, bytes, some))
  {
    hide Store;
    CountersExact(sh.pipes[n]);
    if bytes != [] && !sh.pipes[n].Full() {
      StoreFifo(sh.pipes[n], bytes[0]);
    }
  }

  lemma CopyOk(sh: Shared, x: Proc, n: int, k: nat)
    requires ProcOk(sh.pipes, x) && x.pc == Copying(n, k) && PipesOk(sh.pipes)
    ensures MoveOk(sh, x, CopyStep(sh, x, n, k))
  {
    hide Take;
    if !sh.pipes[n].Empty() {
      TakeFifo(sh.pipes[n]);
    }
  }

  lemma QuietOk(sh: Shared, x: Proc, p: int)
    requires ProcOk(sh.pipes, x) && PipesOk(sh.pipes) && IsQuiet(x.pc)
    ensures PipesThere(sh.pipes, x.pc) && MoveOk(sh, x, Quiet(sh, x, p))
  {
    hide ProcOk, Fifo, TestStep, StoreStep, CopyStep;
    Runnable(sh.pipes, x);
    match x.pc
    case Test(op) => TestOk(sh, x, p, op);
    case Storing(n, bytes, some) => StoreOk(sh, x, n, bytes, some);
    case Copying(n, k) => CopyOk(sh, x, n, k);
    case _ => OtherOk(sh, x, p);
  }

  lemma OtherOk(sh: Shared, x: Proc, p: int)
    requires ProcOk(sh.pipes, x) && PipesOk(sh.pipes) && (x.pc.Sleep3? || x.pc.Commit?)
    ensures MoveOk(sh, x, Quiet(sh, x, p))
  {
  }

  // ---- spinlocks ----

  ghost predicate LockInv(s: State) {
    forall l, p :: (l in s.spin && s.spin[l] == p) <==> (p in s.procs && Holds(s.procs[p].pc, l))
  }

  // Two processes never hold the same spinlock.
  lemma SpinExclusion(s: State, p: int, q: int, l: Lock)
    requires LockInv(s) && p in s.procs && q in s.procs && Holds(s.procs[p].pc, l) && Holds(s.procs[q].pc, l)
    ensures p == q
  {
    assert s.spin[l] == p;
  }

  // Only process p moved; it holds what it held, and took or dropped l if d says so.
  lemma LockMoved(s: State, s': State, p: int)
    requires LockInv(s) && p in s.procs && p in s'.procs && s'.procs == s.procs[p := s'.procs[p]]
    requires || (s'.spin == s.spin && forall k :: Holds(s'.procs[p].pc, k) <==> Holds(s.procs[p].pc, k))
             || (exists l :: l !in s.spin && s'.spin == s.spin[l := p]
                   && forall k :: Holds(s'.procs[p].pc, k) <==> Holds(s.procs[p].pc, k) || k == l)
             || (exists l :: Holds(s.procs[p].pc, l) && s'.spin == s.spin - {l}
                   && forall k :: Holds(s'.procs[p].pc, k) <==> Holds(s.procs[p].pc, k) && k != l)
    ensures LockInv(s')
  {
    hide Holds;
  }

  // Waking others moves no process.
  lemma LockWoken(s: State, procs': map<int, Proc>)
    requires LockInv(s) && procs'.Keys == s.procs.Keys
    requires forall q :: q in s.procs ==> q in procs' && procs'[q].pc == s.procs[q].pc
    ensures LockInv(s.(procs := procs'))
  {
    hide Holds;
    assert forall q :: q in procs' <==> q in procs'.Keys;
    assert forall q :: q in s.procs <==> q in s.procs.Keys;
  }

  // ---- what holds in every state ----

  ghost predicate BaseInv(s: State) {
    LockInv(s) && ProcsOk(s) && PipesOk(s.sh.pipes)
  }

  // A sleep lock is locked exactly when one process has it, the one whose pid it records.
  ghost predicate HoldInv(s: State) {
    && (forall l :: l in s.sh.owner ==> s.sh.owner[l] in s.procs)
    && (forall p, l :: p in s.procs ==> (l in s.procs[p].holds <==> l in s.sh.owner && s.sh.owner[l] == p))
  }

  predicate AfterCommit(pc: Pc) {
    (pc.Enter? || pc.Test?) && pc.op.Finish?
  }

  predicate InCommit(pc: Pc) {
    (pc.Leave? && pc.commit) || pc.Commit? || AfterCommit(pc)
  }

  function InOps(procs: map<int, Proc>): set<int> {
    set p | p in procs && procs[p].inop
  }

  // outstanding counts the processes inside an operation, at most one process commits, and then none is
  // inside; the log is empty when none is inside and none commits.
  ghost predicate LogInv(s: State) {
    var log := s.sh.log;
    && log.n >= 0 && log.outstanding == |InOps(s.procs)|
    && (log.committing ==> log.outstanding == 0)
    && (log.outstanding == 0 && !log.committing ==> log.n == 0)
    && (forall p :: p in s.procs && InCommit(s.procs[p].pc) ==> log.committing)
    && (forall p :: p in s.procs && AfterCommit(s.procs[p].pc) ==> log.n == 0)
    && (forall p, q :: p in s.procs && q in s.procs && InCommit(s.procs[p].pc) && InCommit(s.procs[q].pc) ==> p == q)
  }

  // What sleepers on a channel wait for has not happened.
  predicate Blocked(sh: Shared, c: Chan) {
    match c
    case SleepChan(l) => l in sh.owner
    case LogChan => LogFull(sh.log)
    case WriteChan(n) => n in sh.pipes && sh.pipes[n].Full() && sh.pipes[n].readopen
    case ReadChan(n) => n in sh.pipes && (sh.pipes[n].Empty() || sh.pipes[n].dropped)
  }

  // A process on its way to sleep on c, or asleep on it.
  predicate Waits(x: Proc, c: Chan) {
    || SleepsOn(x, c)
    || ((x.pc.Sleep1? || x.pc.Sleep2? || x.pc.Sleep3?) && CanSleep(x.pc.op) && ChanOf(x.pc.op) == c)
    || (Waker(x.pc) && x.pc.after.GoSleep? && CanSleep(x.pc.after.op) && ChanOf(x.pc.after.op) == c)
  }

  // A process that will still wake the sleepers on c before it releases their lock.
  predicate Owes(pc: Pc, c: Chan) {
    match pc
    case Wake1(d, _) => c == d
    case Wake2(d, _) => c == d
    case Copying(n, _) => c == WriteChan(n)
    case Storing(n, _, some) => some && c == ReadChan(n)
    case _ => false
  }

  ghost predicate Owed(procs: map<int, Proc>, c: Chan) {
    exists q :: q in procs && Owes(procs[q].pc, c)
  }

  ghost predicate WaitInv(s: State) {
    forall p, c :: p in s.procs && Waits(s.procs[p], c) ==> Blocked(s.sh, c) || Owed(s.procs, c)
  }

  ghost predicate Inv(s: State) {
    BaseInv(s) && HoldInv(s) && LogInv(s) && WaitInv(s)
  }

  // A debtor holds the lock of the channel.
  lemma OwesHolds(pc: Pc, c: Chan)
    requires Owes(pc, c)
    ensures Holds(pc, LockOf(c))
  {
  }

  // ---- waiting ----

  // The move from x under sh makes no new sleeper without cause, drops no debt, and pays for what it unblocks.
  ghost predicate Fair(sh: Shared, x: Proc, m: Move) {
    forall c ::
      && (Waits(m.me, c) ==> Waits(x, c) || Blocked(m.sh, c))
      && (Owes(x.pc, c) ==> Owes(m.me.pc, c) || Blocked(m.sh, c))
      && (Blocked(sh, c) ==> Blocked(m.sh, c) || Owes(m.me.pc, c))
  }

  lemma WaitMoved(s: State, s': State, p: int)
    requires WaitInv(s) && p in s.procs && p in s'.procs && s'.procs == s.procs[p := s'.procs[p]]
    requires Fair(s.sh, s.procs[p], Move(s'.procs[p], s'.sh))
    ensures WaitInv(s')
  {
    hide Waits, Owes, Blocked;
    forall q, c | q in s'.procs && Waits(s'.procs[q], c)
      ensures Blocked(s'.sh, c) || Owed(s'.procs, c)
    {
      if Owes(s'.procs[p].pc, c) {
        assert Owed(s'.procs, c);
      } else if Waits(s.procs[q], c) && Owed(s.procs, c) {
        var r :| r in s.procs && Owes(s.procs[r].pc, c);
        assert r != p ==> s'.procs[r] == s.procs[r];
      }
    }
  }

  lemma TakingFair(sh: Shared, x: Proc)
    requires IsTaking(x.pc) && !x.sleeping
    ensures Fair(sh, x, Move(x.(pc := AfterTaking(x.pc)), sh))
  {
    hide Blocked;
  }

  lemma DroppingFair(sh: Shared, x: Proc)
    requires IsDropping(x.pc) && ProcOk(sh.pipes, x)
    ensures Fair(sh, x, Move(x.(pc := AfterDropping(x.pc)), sh))
  {
    hide Blocked;
  }

  lemma SleepLockFair(sh: Shared, x: Proc, p: int, op: Op)
    requires x.pc == Test(op) && (op.Acquire? || op.Release?)
    ensures Fair(sh, x, SleepLockStep(sh, x, p, op))
  {
  }

  lemma LogFair(sh: Shared, x: Proc, op: Op)
    requires x.pc == Test(op) && IsLogOp(op)
    ensures Fair(sh, x, LogStep(sh, x, op))
  {
  }

  lemma PipeFair(sh: Shared, x: Proc, op: Op)
    requires x.pc == Test(op) && (op.Read? || op.CloseRead? || op.CloseWrite?) && op.n in sh.pipes
    ensures Fair(sh, x, PipeStep(sh, x, op))
  {
  }

  lemma StoreFair(sh: Shared, x: Proc, n: int, bytes: seq<int>, some: bool)
    requires x.pc == Storing(n, bytes, some) && n in sh.pipes && |sh.pipes[n].data| == PIPESIZE
    ensures Fair(sh, x, StoreStep(sh, x, n, bytes, some))
  {
  }

  lemma CopyFair(sh: Shared, x: Proc, n: int, k: nat)
    requires x.pc == Copying(n, k) && n in sh.pipes && Fifo(sh.pipes[n])
    ensures Fair(sh, x, CopyStep(sh, x, n, k))
  {
    if !sh.pipes[n].Empty() {
      CountersExact(sh.pipes[n]);
      TakeFifo(sh.pipes[n]);
      CountersExact(Take(sh.pipes[n]));
    }
    hide Fifo;
  }

  lemma QuietFair(sh: Shared, x: Proc, p: int)
    requires ProcOk(sh.pipes, x) && PipesOk(sh.pipes) && IsQuiet(x.pc) && PipesThere(sh.pipes, x.pc)
    requires x.pc.Commit? ==> sh.log.committing
    ensures Fair(sh, x, Quiet(sh, x, p))
  {
    hide Fair, SleepLockStep, LogStep, PipeStep, StoreStep, CopyStep, Fifo;
    match x.pc
    case Test(op) =>
      if op.Acquire? || op.Release? {
        SleepLockFair(sh, x, p, op);
      } else if IsLogOp(op) {
        LogFair(sh, x, op);
      } else {
        PipeFair(sh, x, op);
      }
    case Storing(n, bytes, some) => StoreFair(sh, x, n, bytes, some);
    case Copying(n, k) => CopyFair(sh, x, n, k);
    case _ => OtherFair(sh, x, p);
  }

  lemma OtherFair(sh: Shared, x: Proc, p: int)
    requires (x.pc.Sleep3? || x.pc.Commit?) && (x.pc.Commit? ==> sh.log.committing) && PipesThere(sh.pipes, x.pc)
    ensures Fair(sh, x, Quiet(sh, x, p))
  {
  }

  // wakeup with both locks held: nobody is left asleep on c or on the way to it.
  lemma WaitWake(s: State, p: int)
    requires BaseInv(s) && WaitInv(s) && p in s.procs && s.procs[p].pc.Wake2? && PipesThere(s.sh.pipes, s.procs[p].pc)
    ensures WaitInv(RunStep(s, p))
    ensures forall q :: q in s.procs ==> q in RunStep(s, p).procs && !Waits(RunStep(s, p).procs[q], s.procs[p].pc.c)
  {
    hide Blocked, LockInv, ProcsOk, PipesOk;
    var s', w := RunStep(s, p), s.procs[p].pc.c;
    forall q | q in s.procs
      ensures q in s'.procs && !Waits(s'.procs[q], w)
    {
      if Waits(s.procs[q], w) {
        NoneWaits(s, p, q);
      }
    }
    forall q, c | q in s'.procs && Waits(s'.procs[q], c)
      ensures Blocked(s'.sh, c) || Owed(s'.procs, c)
    {
      assert Waits(s.procs[q], c);
      if c == w {
        NoneWaits(s, p, q);
      } else {
        ClearKeeps(s.sh, w, c);
        if Owed(s.procs, c) {
          var r :| r in s.procs && Owes(s.procs[r].pc, c);
          assert r != p && Owes(s'.procs[r].pc, c);
        }
      }
    }
  }

  lemma ClearKeeps(sh: Shared, w: Chan, c: Chan)
    requires c != w
    ensures Blocked(sh, c) ==> Blocked(ClearDropped(sh, w), c)
  {
  }

  lemma NoneWaits(s: State, p: int, q: int)
    requires BaseInv(s) && p in s.procs && q in s.procs && s.procs[p].pc.Wake2?
    requires Waits(s.procs[q], s.procs[p].pc.c)
    ensures SleepsOn(s.procs[q], s.procs[p].pc.c) && q != p
  {
    var c, y := s.procs[p].pc.c, s.procs[q].pc;
    assert ProcOk(s.sh.pipes, s.procs[p]) && ProcOk(s.sh.pipes, s.procs[q]);
    if y.Sleep3? {
      SpinExclusion(s, p, q, Ptable);
    } else if y.Sleep1? || y.Sleep2? || Waker(y) {
      SpinExclusion(s, p, q, LockOf(c));
    }
  }

  lemma WaitKill(s: State, p: int)
    requires BaseInv(s) && WaitInv(s) && p in s.procs && s.procs[p].pc.Kill2? && PipesThere(s.sh.pipes, s.procs[p].pc)
    ensures WaitInv(RunStep(s, p))
  {
    hide Blocked, LockInv, ProcsOk, PipesOk;
    var s' := RunStep(s, p);
    forall q, c | q in s'.procs && Waits(s'.procs[q], c)
      ensures Blocked(s'.sh, c) || Owed(s'.procs, c)
    {
      assert Waits(s.procs[q], c);
      if Owed(s.procs, c) {
        var r :| r in s.procs && Owes(s.procs[r].pc, c);
        assert r != p && Owes(s'.procs[r].pc, c);
      }
    }
  }

  // ---- sleep locks ----

  lemma HoldSame(s: State, s': State)
    requires HoldInv(s) && s'.sh.owner == s.sh.owner && s'.procs.Keys == s.procs.Keys
    requires forall q :: q in s.procs ==> q in s'.procs && s'.procs[q].holds == s.procs[q].holds
    ensures HoldInv(s')
  {
    assert forall q :: q in s'.procs <==> q in s'.procs.Keys;
    assert forall q :: q in s.procs <==> q in s.procs.Keys;
  }

  lemma HoldTest(s: State, p: int, op: Op)
    requires HoldInv(s) && p in s.procs && s.procs[p].pc == Test(op) && (op.Acquire? || op.Release?)
    requires ProcOk(s.sh.pipes, s.procs[p])
    ensures var m := SleepLockStep(s.sh, s.procs[p], p, op);
            HoldInv(s.(procs := s.procs[p := m.me], sh := m.sh))
  {
  }

  // ---- the log ----

  lemma LogSame(s: State, s': State)
    requires LogInv(s) && s'.sh.log == s.sh.log && s'.procs.Keys == s.procs.Keys
    requires forall q :: q in s.procs ==> q in s'.procs && s'.procs[q].inop == s.procs[q].inop
    requires forall q :: q in s.procs && q in s'.procs ==>
        && (InCommit(s'.procs[q].pc) ==> InCommit(s.procs[q].pc))
        && (AfterCommit(s'.procs[q].pc) ==> AfterCommit(s.procs[q].pc))
    ensures LogInv(s')
  {
    forall q
      ensures q in s'.procs <==> q in s.procs
      ensures q in InOps(s'.procs) <==> q in InOps(s.procs)
    {
      assert q in s'.procs <==> q in s'.procs.Keys;
    }
    assert InOps(s'.procs) == InOps(s.procs);
  }

  lemma LogMoved(s: State, p: int, m: Move)
    requires LogInv(s) && p in s.procs && m.sh.log == s.sh.log && m.me.inop == s.procs[p].inop
    requires InCommit(m.me.pc) ==> InCommit(s.procs[p].pc)
    requires AfterCommit(m.me.pc) ==> AfterCommit(s.procs[p].pc)
    ensures LogInv(s.(procs := s.procs[p := m.me], sh := m.sh))
  {
    hide InCommit, AfterCommit;
    LogSame(s, s.(procs := s.procs[p := m.me], sh := m.sh));
  }

  lemma OpsUpdate(procs: map<int, Proc>, p: int, x: Proc)
    requires p in procs
    ensures InOps(procs[p := x]) == if x.inop then InOps(procs) + {p} else InOps(procs) - {p}
    ensures p in InOps(procs) <==> procs[p].inop
  {
  }

  lemma LogTest(s: State, p: int, op: Op)
    requires LogInv(s) && p in s.procs && s.procs[p].pc == Test(op) && IsLogOp(op) && OpOk(s.sh.pipes, s.procs[p], op)
    ensures var m := LogStep(s.sh, s.procs[p], op);
            LogInv(s.(procs := s.procs[p := m.me], sh := m.sh))
  {
    hide InOps, LogFull;
    var m := LogStep(s.sh, s.procs[p], op);
    OpsUpdate(s.procs, p, m.me);
    if op.Begin? {
      LogBegin(s, p);
    } else if op.End? {
      LogEnd(s, p);
    } else {
      assert m.me.inop == s.procs[p].inop;
      assert InOps(s.procs[p := m.me]) == InOps(s.procs);
    }
  }

  lemma LogBegin(s: State, p: int)
    requires LogInv(s) && p in s.procs && s.procs[p].pc == Test(Begin) && !s.procs[p].inop
    ensures var m := LogStep(s.sh, s.procs[p], Begin);
            LogInv(s.(procs := s.procs[p := m.me], sh := m.sh))
  {
    hide InOps;
    var m := LogStep(s.sh, s.procs[p], Begin);
    OpsUpdate(s.procs, p, m.me);
    assert !m.me.inop ==> InOps(s.procs[p := m.me]) == InOps(s.procs);
  }

  lemma LogEnd(s: State, p: int)
    requires LogInv(s) && p in s.procs && s.procs[p].pc == Test(End) && s.procs[p].inop
    ensures !s.sh.log.committing
    ensures var m := LogStep(s.sh, s.procs[p], End);
            LogInv(s.(procs := s.procs[p := m.me], sh := m.sh))
  {
    hide InOps;
    var m := LogStep(s.sh, s.procs[p], End);
    OpsUpdate(s.procs, p, m.me);
    assert |InOps(s.procs)| >= 1;
    assert InOps(s.procs) == InOps(s.procs[p := m.me]) + {p};
  }

  lemma LogCommit(s: State, p: int)
    requires LogInv(s) && p in s.procs && s.procs[p].pc.Commit? && PipesThere(s.sh.pipes, s.procs[p].pc)
    ensures LogInv(RunStep(s, p))
  {
    assert InOps(RunStep(s, p).procs) == InOps(s.procs);
  }

  // ---- every step ----

  lemma ProcsMoved(s: State, s': State, p: int)
    requires ProcsOk(s) && p in s'.procs && p in s.procs && s'.procs == s.procs[p := s'.procs[p]]
    requires s'.sh.pipes.Keys == s.sh.pipes.Keys && ProcOk(s'.sh.pipes, s'.procs[p])
    ensures ProcsOk(s')
  {
    forall q | q in s'.procs && q != p
      ensures ProcOk(s'.sh.pipes, s'.procs[q])
    {
      assert ProcOk(s.sh.pipes, s.procs[q]);
      SamePipes(s.sh.pipes, s'.sh.pipes, s.procs[q]);
    }
  }

  lemma SamePipes(pipes: map<int, Pipe>, pipes': map<int, Pipe>, x: Proc)
    requires ProcOk(pipes, x) && pipes'.Keys == pipes.Keys
    ensures ProcOk(pipes', x)
  {
    assert forall n :: n in pipes' <==> n in pipes'.Keys;
    assert forall n :: n in pipes <==> n in pipes.Keys;
  }

  // A step in which p moves and nothing shared changes but spin.
  lemma PlainStep(s: State, s': State, p: int)
    requires Inv(s) && p in s.procs && p in s'.procs
    requires s'.procs == s.procs[p := s'.procs[p]] && s'.sh == s.sh && LockInv(s')
    requires ProcOk(s.sh.pipes, s'.procs[p]) && Fair(s.sh, s.procs[p], Move(s'.procs[p], s.sh))
    requires s'.procs[p].holds == s.procs[p].holds && s'.procs[p].inop == s.procs[p].inop
    requires InCommit(s'.procs[p].pc) ==> InCommit(s.procs[p].pc)
    requires AfterCommit(s'.procs[p].pc) ==> AfterCommit(s.procs[p].pc)
    ensures Inv(s')
  {
    hide LockInv, ProcsOk, PipesOk, HoldInv, LogInv, WaitInv, InCommit, AfterCommit, Fair, ProcOk;
    ProcsMoved(s, s', p);
    WaitMoved(s, s', p);
    HoldSame(s, s');
    LogSame(s, s');
  }

  lemma CallStep(s: State, e: Event)
    requires Inv(s) && Enabled(s, e) && !e.Run? && PipesThere(s.sh.pipes, s.procs[e.p].pc)
    ensures Inv(Next(s, e))
  {
    hide LockInv, PipesOk, HoldInv, LogInv, WaitInv, Blocked;
    assert ProcOk(s.sh.pipes, s.procs[e.p]);
    LockMoved(s, Next(s, e), e.p);
    PlainStep(s, Next(s, e), e.p);
  }

  lemma TakingStep(s: State, p: int)
    requires Inv(s) && Enabled(s, Run(p)) && IsTaking(s.procs[p].pc) && PipesThere(s.sh.pipes, s.procs[p].pc)
    ensures Inv(RunStep(s, p))
  {
    hide LockInv, PipesOk, HoldInv, LogInv, WaitInv, Fair, Holds;
    var x, s' := s.procs[p], RunStep(s, p);
    assert ProcOk(s.sh.pipes, x);
    TakingOk(s.sh.pipes, x);
    TakingFair(s.sh, x);
    LockMoved(s, s', p);
    PlainStep(s, s', p);
  }

  lemma DroppingStep(s: State, p: int)
    requires Inv(s) && p in s.procs && IsDropping(s.procs[p].pc) && PipesThere(s.sh.pipes, s.procs[p].pc)
    ensures Inv(RunStep(s, p))
  {
    hide LockInv, PipesOk, HoldInv, LogInv, WaitInv, Fair, Holds;
    var x, s' := s.procs[p], RunStep(s, p);
    assert ProcOk(s.sh.pipes, x);
    DroppingOk(s.sh.pipes, x);
    DroppingFair(s.sh, x);
    LockMoved(s, s', p);
    PlainStep(s, s', p);
  }

  predicate IsSleepTest(pc: Pc) {
    pc.Test? && (pc.op.Acquire? || pc.op.Release?)
  }

  predicate IsLogTest(pc: Pc) {
    pc.Test? && IsLogOp(pc.op)
  }

  // Which part of the shared state a quiet step touches.
  lemma QuietShared(sh: Shared, x: Proc, p: int)
    requires IsQuiet(x.pc) && PipesThere(sh.pipes, x.pc)
    ensures var m := Quiet(sh, x, p);
            && (!IsSleepTest(x.pc) ==> m.sh.owner == sh.owner && m.me.holds == x.holds)
            && (!IsLogTest(x.pc) && !x.pc.Commit? ==> m.sh.log == sh.log && m.me.inop == x.inop && !InCommit(m.me.pc))
  {
  }

  lemma QuietStep(s: State, p: int)
    requires Inv(s) && p in s.procs && IsQuiet(s.procs[p].pc) && PipesThere(s.sh.pipes, s.procs[p].pc)
    ensures Inv(RunStep(s, p))
  {
    hide LockInv, PipesOk, HoldInv, WaitInv, Fair, Holds, Quiet, SleepLockStep, LogStep;
    var x, s' := s.procs[p], RunStep(s, p);
    var m := Quiet(s.sh, x, p);
    assert ProcOk(s.sh.pipes, x);
    assert InCommit(x.pc) ==> s.sh.log.committing;
    hide LogInv, ProcOk, ProcsOk;
    QuietOk(s.sh, x, p);
    QuietFair(s.sh, x, p);
    QuietShared(s.sh, x, p);
    LockMoved(s, s', p);
    ProcsMoved(s, s', p);
    WaitMoved(s, s', p);
    QuietHold(s, p);
    QuietLog(s, p);
  }

  lemma QuietHold(s: State, p: int)
    requires HoldInv(s) && p in s.procs && IsQuiet(s.procs[p].pc)
    requires PipesThere(s.sh.pipes, s.procs[p].pc) && ProcOk(s.sh.pipes, s.procs[p])
    ensures HoldInv(RunStep(s, p))
  {
    hide HoldInv, SleepLockStep, LogStep, PipeStep, StoreStep, CopyStep;
    var x := s.procs[p];
    QuietShared(s.sh, x, p);
    if IsSleepTest(x.pc) {
      HoldTest(s, p, x.pc.op);
    } else {
      HoldSame(s, RunStep(s, p));
    }
  }

  lemma QuietLog(s: State, p: int)
    requires LogInv(s) && p in s.procs && IsQuiet(s.procs[p].pc)
    requires PipesThere(s.sh.pipes, s.procs[p].pc) && ProcOk(s.sh.pipes, s.procs[p])
    ensures LogInv(RunStep(s, p))
  {
    hide LogInv, SleepLockStep, LogStep, PipeStep, StoreStep, CopyStep;
    var x := s.procs[p];
    QuietShared(s.sh, x, p);
    if IsLogTest(x.pc) {
      LogTest(s, p, x.pc.op);
    } else if x.pc.Commit? {
      LogCommit(s, p);
    } else {
      LogMoved(s, p, Quiet(s.sh, x, p));
    }
  }

  // What waking or killing others leaves of them.
  predicate Woken(procs: map<int, Proc>, procs': map<int, Proc>) {
    && procs'.Keys == procs.Keys
    && forall q :: q in procs ==>
         && q in procs' && procs'[q].pc == procs[q].pc && procs'[q].holds == procs[q].holds
         && procs'[q].inop == procs[q].inop && (procs'[q].sleeping ==> procs[q].sleeping)
  }

  // Others were woken, then p went on to pc.
  lemma WokenStep(s: State, procs1: map<int, Proc>, sh1: Shared, p: int, pc: Pc)
    requires BaseInv(s) && HoldInv(s) && LogInv(s) && p in s.procs && Woken(s.procs, procs1) && p in procs1
    requires sh1.owner == s.sh.owner && sh1.log == s.sh.log && sh1.pipes.Keys == s.sh.pipes.Keys && PipesOk(sh1.pipes)
    requires (forall k :: Holds(pc, k) <==> Holds(s.procs[p].pc, k)) && !InCommit(pc)
    requires forall x: Proc :: x.pc == pc && !x.sleeping && ProcOk(s.sh.pipes, s.procs[p]) ==> ProcOk(s.sh.pipes, x)
    requires !procs1[p].sleeping
    ensures var s' := State(At(procs1, p, pc), s.spin, sh1); BaseInv(s') && HoldInv(s') && LogInv(s')
  {
    hide LockInv, HoldInv, LogInv, PipesOk, Holds, InCommit, ProcOk;
    var s' := State(At(procs1, p, pc), s.spin, sh1);
    HoldSame(s, s');
    WokenLog(s, s', p);
    LockWoken(s, procs1);
    LockMoved(s.(procs := procs1), s', p);
    forall q | q in s'.procs ensures ProcOk(s'.sh.pipes, s'.procs[q]) {
      assert ProcOk(s.sh.pipes, s.procs[q]);
      if q != p { WokenOk(s.sh.pipes, s.procs[q], s'.procs[q]); }
      SamePipes(s.sh.pipes, sh1.pipes, s'.procs[q]);
    }
  }

  lemma WokenLog(s: State, s': State, p: int)
    requires LogInv(s) && s'.sh.log == s.sh.log && p in s'.procs
    requires !InCommit(s'.procs[p].pc) && s'.procs.Keys == s.procs.Keys
    requires forall q :: q in s.procs ==>
      q in s'.procs && s'.procs[q].inop == s.procs[q].inop && (q != p ==> s'.procs[q].pc == s.procs[q].pc)
    ensures LogInv(s')
  {
    LogSame(s, s');
  }

  lemma WokenOk(pipes: map<int, Pipe>, x: Proc, y: Proc)
    requires ProcOk(pipes, x) && y.pc == x.pc && y.holds == x.holds && y.inop == x.inop && (y.sleeping ==> x.sleeping)
    ensures ProcOk(pipes, y)
  {
  }

  lemma WakeStep(s: State, p: int)
    requires Inv(s) && p in s.procs && s.procs[p].pc.Wake2? && PipesThere(s.sh.pipes, s.procs[p].pc)
    ensures Inv(RunStep(s, p))
  {
    hide WaitInv, LogInv, HoldInv, LockInv;
    var c := s.procs[p].pc.c;
    WaitWake(s, p);
    ClearOk(s.sh, c);
    hide PipesOk, Blocked;
    assert ProcOk(s.sh.pipes, s.procs[p]);
    WokenStep(s, WakeAll(s.procs, c), ClearDropped(s.sh, c), p, Wake3(c, s.procs[p].pc.after));
  }

  lemma ClearOk(sh: Shared, c: Chan)
    requires PipesOk(sh.pipes)
    ensures PipesOk(ClearDropped(sh, c).pipes) && ClearDropped(sh, c).pipes.Keys == sh.pipes.Keys
    ensures ClearDropped(sh, c).owner == sh.owner && ClearDropped(sh, c).log == sh.log
  {
  }

  lemma KillStep(s: State, p: int)
    requires Inv(s) && p in s.procs && s.procs[p].pc.Kill2? && PipesThere(s.sh.pipes, s.procs[p].pc)
    ensures Inv(RunStep(s, p))
  {
    hide WaitInv, LogInv, HoldInv, LockInv, PipesOk, Blocked;
    WaitKill(s, p);
    assert ProcOk(s.sh.pipes, s.procs[p]);
    WokenStep(s, KillOne(s.procs, s.procs[p].pc.q), s.sh, p, Kill3);
  }

  lemma InvStep(s: State, e: Event)
    requires Inv(s) && Enabled(s, e)
    ensures PipesThere(s.sh.pipes, s.procs[e.p].pc) && Inv(Next(s, e))
  {
    assert ProcOk(s.sh.pipes, s.procs[e.p]);
    Runnable(s.sh.pipes, s.procs[e.p]);
    hide Inv, RunStep;
    var pc := s.procs[e.p].pc;
    if !e.Run? {
      CallStep(s, e);
    } else if IsTaking(pc) {
      TakingStep(s, e.p);
    } else if IsDropping(pc) {
      DroppingStep(s, e.p);
    } else if IsQuiet(pc) {
      QuietStep(s, e.p);
    } else if pc.Wake2? {
      WakeStep(s, e.p);
    } else {
      KillStep(s, e.p);
    }
  }
}
