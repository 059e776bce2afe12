/** Every process of the kernel as a machine of small steps: sleep and wakeup (kernel/proc.c), sleep locks
    (kernel/sleeplock.c), the waiting of log operations (kernel/log.c) and pipes (kernel/pipe.c), over any
    number of processes, sleep locks and pipes. One step is what a process does between two points where
    another may run: taking or releasing one spinlock, or the shared accesses made while holding one. */
module Waiting {
  import opened Params
  import opened Ring

  // The spinlocks: ptable.lock, the inner lock of a sleep lock, log.lock, the lock of a pipe.
  datatype Lock = Ptable | SleepLock(l: int) | LogLock | PipeLock(n: int)

  // The channels processes sleep on: a sleep lock, the log, &nwrite and &nread of a pipe.
  datatype Chan = SleepChan(l: int) | LogChan | WriteChan(n: int) | ReadChan(n: int)

  function LockOf(c: Chan): Lock {
    match c
    case SleepChan(l) => SleepLock(l)
    case LogChan => LogLock
    case WriteChan(n) => PipeLock(n)
    case ReadChan(n) => PipeLock(n)
  }

  // acquiresleep, releasesleep, begin_op, log_write, end_op, the end of a commit, pipewrite with the bytes
  // left, piperead, and pipeclose of either end.
  datatype Op = Acquire(l: int) | Release(l: int) | Begin | LogWrite(absorbed: bool) | End | Finish
    | Write(n: int, bytes: seq<int>) | Read(n: int, count: nat) | CloseRead(n: int) | CloseWrite(n: int)

  function OpLock(op: Op): Lock {
    match op
    case Acquire(l) => SleepLock(l)
    case Release(l) => SleepLock(l)
    case Begin => LogLock
    case LogWrite(_) => LogLock
    case End => LogLock
    case Finish => LogLock
    case Write(n, _) => PipeLock(n)
    case Read(n, _) => PipeLock(n)
    case CloseRead(n) => PipeLock(n)
    case CloseWrite(n) => PipeLock(n)
  }

  predicate CanSleep(op: Op) {
    op.Acquire? || op.Begin? || op.Write? || op.Read?
  }

  // Where an operation sleeps.
  function ChanOf(op: Op): Chan
    requires CanSleep(op)
  {
    match op
    case Acquire(l) => SleepChan(l)
    case Begin => LogChan
    case Write(n, _) => WriteChan(n)
    case Read(n, _) => ReadChan(n)
  }

  // What follows a wakeup: sleep(&nwrite, &lock) in pipewrite, else releasing the lock.
  datatype After = GoSleep(op: Op) | GoLeave

  // The program counter of a process. Sleep1 to Sleep4 are the steps of sleep before sched returns to
  // the scheduler, Woke is the rest of it; Wake1 to Wake3 are wakeup.
  datatype Pc = Idle | Enter(op: Op) | Test(op: Op)
    | Storing(n: int, bytes: seq<int>, some: bool) | Copying(n: int, count: nat)
    | Sleep1(op: Op) | Sleep2(op: Op) | Sleep3(op: Op) | Sleep4(op: Op) | Asleep(op: Op) | Woke(op: Op)
    | Wake1(c: Chan, after: After) | Wake2(c: Chan, after: After) | Wake3(c: Chan, after: After)
    | Leave(lock: Lock, commit: bool) | Commit | Kill1(q: int) | Kill2(q: int) | Kill3

  // The spinlocks held at each point.
  predicate Holds(pc: Pc, l: Lock) {
    match pc
    case Test(op) => l == OpLock(op)
    case Storing(n, _, _) => l == PipeLock(n)
    case Copying(n, _) => l == PipeLock(n)
    case Sleep1(op) => l == OpLock(op)
    case Sleep2(op) => l == OpLock(op) || l == Ptable
    case Sleep3(op) => l == Ptable
    case Sleep4(op) => l == Ptable
    case Woke(op) => l == Ptable
    case Wake1(c, _) => l == LockOf(c)
    case Wake2(c, _) => l == LockOf(c) || l == Ptable
    case Wake3(c, _) => l == LockOf(c) || l == Ptable
    case Leave(k, _) => l == k
    case Kill2(_) => l == Ptable
    case Kill3 => l == Ptable
    case _ => false
  }

  // sleeping is p->state == SLEEPING; p->chan is the channel of the operation asleep. holds are the
  // sleep locks it has, inop says it is between begin_op and end_op.
  datatype Proc = Proc(pc: Pc, sleeping: bool, killed: bool, holds: set<int>, inop: bool)

  datatype Log = Log(outstanding: int, committing: bool, n: int)

  // owner maps every sleep lock that is locked to its pid.
  datatype Shared = Shared(owner: map<int, int>, log: Log, pipes: map<int, Pipe>)

  // spin maps every spinlock that is held to its holder.
  datatype State = State(procs: map<int, Proc>, spin: map<Lock, int>, sh: Shared)

  datatype Event = Call(p: int, op: Op) | Kill(p: int, q: int) | Run(p: int)

  predicate LogFull(log: Log) {
    log.committing || log.n + (log.outstanding + 1) * MAXOPBLOCKS > LOGSIZE
  }

  // What callers keep to: release what you hold, no nested operations, writes and end_op inside one.
  predicate CanCall(sh: Shared, me: Proc, op: Op) {
    match op
    case Release(l) => l in me.holds
    case Begin => !me.inop
    case LogWrite(_) => me.inop
    case End => me.inop
    case Finish => false
    case Write(n, _) => n in sh.pipes
    case Read(n, _) => n in sh.pipes
    case CloseRead(n) => n in sh.pipes
    case CloseWrite(n) => n in sh.pipes
    case Acquire(_) => true
  }

  // A process waits for a spinlock that is held, and while it is asleep.
  predicate CanRun(s: State, me: Proc) {
    match me.pc
    case Idle => false
    case Enter(op) => OpLock(op) !in s.spin
    case Sleep1(_) => Ptable !in s.spin
    case Asleep(_) => !me.sleeping && Ptable !in s.spin
    case Wake1(_, _) => Ptable !in s.spin
    case Kill1(_) => Ptable !in s.spin
    case _ => true
  }

  predicate Enabled(s: State, e: Event) {
    && e.p in s.procs
    && match e
       case Call(p, op) => s.procs[p].pc.Idle? && CanCall(s.sh, s.procs[p], op)
       case Kill(p, q) => s.procs[p].pc.Idle? && q in s.procs
       case Run(p) => CanRun(s, s.procs[p])
  }

  // ---- steps that take and release no spinlock ----

  datatype Move = Move(me: Proc, sh: Shared)

  // acquiresleep and releasesleep with the inner lock held.
  function SleepLockStep(sh: Shared, me: Proc, p: int, op: Op): Move
    requires op.Acquire? || op.Release?
  {
    match op
    case Acquire(l) =>
      if l in sh.owner then Move(me.(pc := Sleep1(op)), sh)
      else Move(me.(pc := Leave(SleepLock(l), false), holds := me.holds + {l}), sh.(owner := sh.owner[l := p]))
    case Release(l) =>
      Move(me.(pc := Wake1(SleepChan(l), GoLeave), holds := me.holds - {l}), sh.(owner := sh.owner - {l}))
  }

  predicate IsLogOp(op: Op) {
    op.Begin? || op.LogWrite? || op.End? || op.Finish?
  }

  // begin_op, log_write and end_op with log.lock held.
  function LogStep(sh: Shared, me: Proc, op: Op): Move
    requires IsLogOp(op)
  {
    var log := sh.log;
    match op
    case Begin =>
      if LogFull(log) then Move(me.(pc := Sleep1(op)), sh)
      else Move(me.(pc := Leave(LogLock, false), inop := true), sh.(log := log.(outstanding := log.outstanding + 1)))
    case LogWrite(absorbed) =>
      Move(me.(pc := Leave(LogLock, false)), sh.(log := log.(n := if absorbed then log.n else log.n + 1)))
    case End =>
      var k := log.outstanding - 1;
      Move(me.(pc := if k == 0 then Leave(LogLock, true) else Wake1(LogChan, GoLeave), inop := false),
           sh.(log := log.(outstanding := k, committing := log.committing || k == 0)))
    case Finish =>
      Move(me.(pc := Wake1(LogChan, GoLeave)), sh.(log := log.(committing := false)))
  }

  // piperead before it copies, and pipeclose, with the pipe's lock held.
  function PipeStep(sh: Shared, me: Proc, op: Op): Move
    requires (op.Read? || op.CloseRead? || op.CloseWrite?) && op.n in sh.pipes
  {
    var q := sh.pipes[op.n];
    match op
    case Read(n, k) =>
      Move(me.(pc := if q.Empty() && q.writeopen then (if me.killed then Leave(PipeLock(n), false) else Sleep1(op))
                     else Copying(n, k)), sh)
    case CloseRead(n) =>
      Move(me.(pc := Wake1(WriteChan(n), GoLeave)), sh.(pipes := sh.pipes[n := q.(readopen := false)]))
    case CloseWrite(n) =>
      Move(me.(pc := Wake1(ReadChan(n), GoLeave)), sh.(pipes := sh.pipes[n := q.(writeopen := false)]))
  }

  function TestStep(sh: Shared, me: Proc, p: int, op: Op): Move
    requires op.Read? || op.CloseRead? || op.CloseWrite? ==> op.n in sh.pipes
  {
    if op.Acquire? || op.Release? then SleepLockStep(sh, me, p, op)
    else if IsLogOp(op) then LogStep(sh, me, op)
    else if op.Write? then Move(me, sh)
    else PipeStep(sh, me, op)
  }

  // One round of pipewrite's loop.
  function StoreStep(sh: Shared, me: Proc, n: int, bytes: seq<int>, some: bool): Move
    requires n in sh.pipes && |sh.pipes[n].data| == PIPESIZE
  {
    var q := sh.pipes[n];
    if bytes == [] then Move(me.(pc := Wake1(ReadChan(n), GoLeave)), sh)
    else if q.Full() then
      if !q.readopen || me.killed then
        Move(me.(pc := Leave(PipeLock(n), false)), sh.(pipes := sh.pipes[n := q.(dropped := q.dropped || some)]))
      else Move(me.(pc := Wake1(ReadChan(n), GoSleep(Write(n, bytes)))), sh)
    else Move(me.(pc := Storing(n, bytes[1..], true)), sh.(pipes := sh.pipes[n := Store(q, bytes[0])]))
  }

  // One round of piperead's copying loop.
  function CopyStep(sh: Shared, me: Proc, n: int, k: nat): Move
    requires n in sh.pipes && |sh.pipes[n].data| == PIPESIZE
  {
    var q := sh.pipes[n];
    if k == 0 || q.Empty() then Move(me.(pc := Wake1(WriteChan(n), GoLeave)), sh)
    else Move(me.(pc := Copying(n, k - 1)), sh.(pipes := sh.pipes[n := Take(q)]))
  }

  // The pipes an operation at pc works on are there.
  predicate PipesThere(pipes: map<int, Pipe>, pc: Pc) {
    && (pc.Storing? || pc.Copying? ==> pc.n in pipes && |pipes[pc.n].data| == PIPESIZE)
    && (pc.Test? && (pc.op.Read? || pc.op.CloseRead? || pc.op.CloseWrite?) ==> pc.op.n in pipes)
  }

  predicate IsQuiet(pc: Pc) {
    pc.Test? || pc.Storing? || pc.Copying? || pc.Sleep3? || pc.Commit?
  }

  function Quiet(sh: Shared, me: Proc, p: int): Move
    requires PipesThere(sh.pipes, me.pc) && IsQuiet(me.pc)
  {
    match me.pc
    case Test(op) => TestStep(sh, me, p, op)
    case Storing(n, bytes, some) => StoreStep(sh, me, n, bytes, some)
    case Copying(n, k) => CopyStep(sh, me, n, k)
    case Sleep3(op) => Move(me.(pc := Sleep4(op), sleeping := true), sh)
    case Commit => Move(me.(pc := Enter(Finish)), sh.(log := sh.log.(n := 0)))
  }

  // ---- steps that take a spinlock, and steps that release one ----

  predicate IsTaking(pc: Pc) {
    pc.Enter? || pc.Sleep1? || pc.Asleep? || pc.Wake1? || pc.Kill1?
  }

  function TakenLock(pc: Pc): Lock {
    if pc.Enter? then OpLock(pc.op) else Ptable
  }

  function AfterTaking(pc: Pc): Pc
    requires IsTaking(pc)
  {
    match pc
    case Enter(op) => if op.Write? then Storing(op.n, op.bytes, false) else Test(op)
    case Sleep1(op) => Sleep2(op)
    case Asleep(op) => Woke(op)
    case Wake1(c, after) => Wake2(c, after)
    case Kill1(q) => Kill2(q)
  }

  predicate IsDropping(pc: Pc) {
    pc.Sleep2? || pc.Sleep4? || pc.Woke? || pc.Wake3? || pc.Leave? || pc.Kill3?
  }

  function DroppedLock(pc: Pc): Lock {
    if pc.Sleep2? then OpLock(pc.op) else if pc.Leave? then pc.lock else Ptable
  }

  function AfterDropping(pc: Pc): Pc
    requires IsDropping(pc)
  {
    match pc
    case Sleep2(op) => Sleep3(op)
    case Sleep4(op) => Asleep(op)
    case Woke(op) => Enter(op)
    case Wake3(c, after) => if after.GoSleep? then Sleep1(after.op) else Leave(LockOf(c), false)
    case Leave(l, commit) => if commit then Commit else Idle
    case Kill3 => Idle
  }

  // ---- waking others ----

  predicate SleepsOn(x: Proc, c: Chan) {
    && x.sleeping
    && match x.pc
       case Sleep4(op) => CanSleep(op) && ChanOf(op) == c
       case Asleep(op) => CanSleep(op) && ChanOf(op) == c
       case _ => false
  }

  // wakeup1: every process asleep on c becomes RUNNABLE.
  function WakeAll(procs: map<int, Proc>, c: Chan): (r: map<int, Proc>)
    ensures r.Keys == procs.Keys
  {
    map p | p in procs :: if SleepsOn(procs[p], c) then procs[p].(sleeping := false) else procs[p]
  }

  function ClearDropped(sh: Shared, c: Chan): Shared {
    if c.ReadChan? && c.n in sh.pipes then sh.(pipes := sh.pipes[c.n := sh.pipes[c.n].(dropped := false)]) else sh
  }

  function KillOne(procs: map<int, Proc>, q: int): (r: map<int, Proc>)
    ensures r.Keys == procs.Keys
  {
    if q in procs then procs[q := procs[q].(killed := true, sleeping := false)] else procs
  }

  // ---- the machine ----

  function At(procs: map<int, Proc>, p: int, pc: Pc): map<int, Proc>
    requires p in procs
  {
    procs[p := procs[p].(pc := pc)]
  }

  function RunStep(s: State, p: int): State
    requires p in s.procs && PipesThere(s.sh.pipes, s.procs[p].pc)
  {
    var pc := s.procs[p].pc;
    if IsTaking(pc) then s.(procs := At(s.procs, p, AfterTaking(pc)), spin := s.spin[TakenLock(pc) := p])
    else if IsDropping(pc) then s.(procs := At(s.procs, p, AfterDropping(pc)), spin := s.spin - {DroppedLock(pc)})
    else if IsQuiet(pc) then
      var m := Quiet(s.sh, s.procs[p], p);
      s.(procs := s.procs[p := m.me], sh := m.sh)
    else if pc.Wake2? then
      s.(procs := At(WakeAll(s.procs, pc.c), p, Wake3(pc.c, pc.after)), sh := ClearDropped(s.sh, pc.c))
    else if pc.Kill2? then s.(procs := At(KillOne(s.procs, pc.q), p, Kill3))
    else s
  }

  function Next(s: State, e: Event): State
    requires Enabled(s, e) && PipesThere(s.sh.pipes, s.procs[e.p].pc)
  {
    match e
    case Call(p, op) => s.(procs := At(s.procs, p, Enter(op)))
    case Kill(p, q) => s.(procs := At(s.procs, p, Kill1(q)))
    case Run(p) => RunStep(s, p)
  }
}
