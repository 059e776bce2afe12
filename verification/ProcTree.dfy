/** The process table (kernel/proc.c) as a value: states, parents, wait channels, and which exits were
    collected. A slot number stands for a pointer to a struct proc, -1 for a null one. */
module ProcTree {
  datatype PState = UNUSED | EMBRYO | SLEEPING | RUNNABLE | RUNNING | ZOMBIE

  // A process sleeps on its own slot in wait, elsewhere on other addresses.
  datatype Chan = NoChan | Slot(i: int) | Other(a: int)

  datatype Proc = Proc(state: PState, pid: int, parent: int, killed: bool, chan: Chan)

  type Table = seq<Proc>

  predicate Alive(x: Proc) {
    x.state.SLEEPING? || x.state.RUNNABLE? || x.state.RUNNING?
  }

  predicate In(T: Table, i: int) {
    0 <= i < |T|
  }

  predicate ChildOf(T: Table, q: int, p: int) {
    In(T, q) && T[q].parent == p
  }

  predicate InWait(T: Table, p: int) {
    In(T, p) && T[p].state.SLEEPING? && T[p].chan == Slot(p)
  }

  // A parent is alive, so a zombie has no children; all but init have a parent.
  predicate ParentOk(T: Table, init: int, q: int) {
    In(T, q) ==>
      && (T[q].parent != -1 ==> In(T, T[q].parent) && T[q].parent != q && Alive(T[T[q].parent]) && !T[q].state.UNUSED?)
      && (q != init && (Alive(T[q]) || T[q].state.ZOMBIE?) ==> T[q].parent != -1)
  }

  ghost predicate Tree(T: Table, init: int) {
    && In(T, init) && Alive(T[init]) && T[init].parent == -1
    && forall q :: ParentOk(T, init, q)
  }

  // Whoever sleeps in wait has a child, and none that it could collect.
  ghost predicate WaiterOk(T: Table, p: int) {
    && (In(T, p) && T[p].state.SLEEPING? && T[p].chan.Slot? ==> T[p].chan.i == p)
    && (InWait(T, p) ==> exists q :: ChildOf(T, q, p))
    && (InWait(T, p) ==> forall q :: ChildOf(T, q, p) ==> !T[q].state.ZOMBIE?)
  }

  ghost predicate Waiters(T: Table) {
    forall p :: WaiterOk(T, p)
  }

  predicate PidOk(T: Table, p: int, nextpid: int, exited: set<int>, reaped: set<int>) {
    In(T, p) ==>
      && (!T[p].state.UNUSED? ==> T[p].pid < nextpid)
      && (Alive(T[p]) || T[p].state.EMBRYO? ==> T[p].pid !in exited)
      && (T[p].state.ZOMBIE? ==> T[p].pid in exited && T[p].pid !in reaped)
  }

  predicate PidsDiffer(T: Table, p: int, q: int) {
    In(T, p) && In(T, q) && p != q && !T[p].state.UNUSED? && !T[q].state.UNUSED? ==> T[p].pid != T[q].pid
  }

  predicate ZombieWith(T: Table, p: int, z: int) {
    In(T, p) && T[p].state.ZOMBIE? && T[p].pid == z
  }

  // Pids are unique, and the zombies are exactly the exits not collected yet.
  ghost predicate Pids(T: Table, nextpid: int, exited: set<int>, reaped: set<int>) {
    && (forall p :: PidOk(T, p, nextpid, exited, reaped))
    && (forall p, q :: PidsDiffer(T, p, q))
    && (forall z :: z in exited && z !in reaped ==> exists p :: ZombieWith(T, p, z))
    && (forall z :: z in exited ==> z < nextpid) && reaped <= exited
  }

  ghost predicate Inv(T: Table, init: int, nextpid: int, exited: set<int>, reaped: set<int>) {
    Tree(T, init) && Waiters(T) && Pids(T, nextpid, exited, reaped)
  }

  // ---- wakeup1 ----

  function Woken(x: Proc, c: Chan): Proc {
    if x.state.SLEEPING? && x.chan == c then x.(state := RUNNABLE) else x
  }

  function WakeAll(T: Table, c: Chan): (r: Table)
    ensures |r| == |T| && forall i :: 0 <= i < |T| ==> r[i] == Woken(T[i], c)
  {
    seq(|T|, i requires 0 <= i < |T| => Woken(T[i], c))
  }

  // x may have been woken or run, nothing else.
  predicate OnlyWoke(x: Proc, y: Proc) {
    && y.pid == x.pid && y.parent == x.parent
    && (y.state == x.state || (Alive(x) && Alive(y) && !y.state.SLEEPING?))
    && (y.state.SLEEPING? ==> y.chan == x.chan)
  }

  ghost predicate AllWoke(T: Table, T': Table) {
    |T'| == |T| && forall i :: 0 <= i < |T| ==> OnlyWoke(T[i], T'[i])
  }

  lemma WokeTree(T: Table, T': Table, init: int)
    requires Tree(T, init) && AllWoke(T, T')
    ensures Tree(T', init)
  {
    forall q ensures ParentOk(T', init, q) {
      assert ParentOk(T, init, q);
    }
  }

  lemma WokeWaiters(T: Table, T': Table)
    requires Waiters(T) && AllWoke(T, T')
    ensures Waiters(T')
  {
    forall p ensures WaiterOk(T', p) {
      assert WaiterOk(T, p);
      if InWait(T', p) {
        var q :| ChildOf(T, q, p);
        assert ChildOf(T', q, p);
        assert forall r :: ChildOf(T', r, p) ==> ChildOf(T, r, p);
      }
    }
  }

  lemma WokePids(T: Table, T': Table, nextpid: int, exited: set<int>, reaped: set<int>)
    requires Pids(T, nextpid, exited, reaped) && AllWoke(T, T')
    ensures Pids(T', nextpid, exited, reaped)
  {
    forall p ensures PidOk(T', p, nextpid, exited, reaped) {
      assert PidOk(T, p, nextpid, exited, reaped);
    }
    forall p, q ensures PidsDiffer(T', p, q) {
      assert PidsDiffer(T, p, q);
    }
    forall z | z in exited && z !in reaped
      ensures exists p :: ZombieWith(T', p, z)
    {
      var p :| ZombieWith(T, p, z);
      assert ZombieWith(T', p, z);
    }
  }

  lemma WokeInv(T: Table, T': Table, init: int, nextpid: int, exited: set<int>, reaped: set<int>)
    requires Inv(T, init, nextpid, exited, reaped) && AllWoke(T, T')
    ensures Inv(T', init, nextpid, exited, reaped)
  {
    hide Tree, Waiters, Pids, AllWoke;
    WokeTree(T, T', init);
    WokeWaiters(T, T');
    WokePids(T, T', nextpid, exited, reaped);
  }

  // ---- exit ----

  ghost predicate HasZombie(T: Table, p: int) {
    exists q :: ChildOf(T, q, p) && T[q].state.ZOMBIE?
  }

  // What exit makes of a process other than cur, zombie telling whether cur leaves a zombie behind.
  function ExitOther(x: Proc, parent: int, cur: int, init: int, zombie: bool): Proc {
    var y := Woken(x, Slot(parent));
    var z := if y.parent == cur then y.(parent := init) else y;
    if zombie then Woken(z, Slot(init)) else z
  }

  ghost predicate Exited(T: Table, T': Table, cur: int, init: int) {
    && In(T, cur) && |T'| == |T|
    && (forall i :: 0 <= i < |T| && i != cur ==> T'[i] == ExitOther(T[i], T[cur].parent, cur, init, HasZombie(T, cur)))
    && T'[cur] == T[cur].(state := ZOMBIE)
  }

  predicate CanExit(T: Table, cur: int, init: int) {
    In(T, cur) && T[cur].state.RUNNING? && cur != init
  }

  lemma ExitTree(T: Table, T': Table, cur: int, init: int)
    requires Tree(T, init) && Exited(T, T', cur, init) && CanExit(T, cur, init)
    ensures Tree(T', init)
  {
    forall q ensures ParentOk(T', init, q) {
      assert ParentOk(T, init, q);
    }
    assert ParentOk(T, init, init);
  }

  lemma ExitWaiter(T: Table, T': Table, cur: int, init: int, p: int)
    requires Tree(T, init) && WaiterOk(T, p) && Exited(T, T', cur, init) && CanExit(T, cur, init)
    ensures WaiterOk(T', p)
  {
    if InWait(T', p) {
      assert InWait(T, p) && p != T[cur].parent && (p == init ==> !HasZombie(T, cur));
      var q :| ChildOf(T, q, p);
      assert ChildOf(T', q, p);
      forall r | ChildOf(T', r, p)
        ensures !T'[r].state.ZOMBIE?
      {
        assert ChildOf(T, r, p) || (ChildOf(T, r, cur) && p == init);
      }
    }
  }

  lemma ExitPids(T: Table, T': Table, cur: int, init: int, nextpid: int, exited: set<int>, reaped: set<int>)
    requires Pids(T, nextpid, exited, reaped) && Exited(T, T', cur, init) && CanExit(T, cur, init)
    ensures Pids(T', nextpid, exited + {T[cur].pid}, reaped) && T[cur].pid !in exited
  {
    assert PidOk(T, cur, nextpid, exited, reaped);
    forall p ensures PidOk(T', p, nextpid, exited + {T[cur].pid}, reaped) {
      assert PidOk(T, p, nextpid, exited, reaped) && PidsDiffer(T, p, cur);
    }
    forall p, q ensures PidsDiffer(T', p, q) {
      assert PidsDiffer(T, p, q);
    }
    forall z | z in exited + {T[cur].pid} && z !in reaped
      ensures exists p :: ZombieWith(T', p, z)
    {
      if z == T[cur].pid {
        assert ZombieWith(T', cur, z);
      } else {
        var p :| ZombieWith(T, p, z);
        assert ZombieWith(T', p, z);
      }
    }
  }

  lemma ExitInv(T: Table, T': Table, cur: int, init: int, nextpid: int, exited: set<int>, reaped: set<int>)
    requires Inv(T, init, nextpid, exited, reaped) && Exited(T, T', cur, init) && CanExit(T, cur, init)
    ensures Inv(T', init, nextpid, exited + {T[cur].pid}, reaped) && T[cur].pid !in exited
  {
    hide Tree, WaiterOk, Pids, Exited;
    ExitTree(T, T', cur, init);
    forall p ensures WaiterOk(T', p) {
      ExitWaiter(T, T', cur, init, p);
    }
    ExitPids(T, T', cur, init, nextpid, exited, reaped);
  }

  // ---- wait ----

  function Reaped(T: Table, k: int): Table
    requires In(T, k)
  {
    T[k := Proc(UNUSED, 0, -1, false, T[k].chan)]
  }

  lemma ReapInv(T: Table, init: int, nextpid: int, exited: set<int>, reaped: set<int>, k: int)
    requires Inv(T, init, nextpid, exited, reaped) && In(T, k) && T[k].state.ZOMBIE?
    ensures Inv(Reaped(T, k), init, nextpid, exited, reaped + {T[k].pid}) && T[k].pid in exited && T[k].pid !in reaped
  {
    var T' := Reaped(T, k);
    assert PidOk(T, k, nextpid, exited, reaped);
    forall q ensures ParentOk(T', init, q) {
      assert ParentOk(T, init, q);
    }
    forall p ensures WaiterOk(T', p) {
      assert WaiterOk(T, p);
      if InWait(T', p) {
        var q :| ChildOf(T, q, p);
        assert ChildOf(T', q, p);
        assert forall r :: ChildOf(T', r, p) ==> ChildOf(T, r, p) || p == -1;
      }
    }
    ReapPids(T, nextpid, exited, reaped, k);
  }

  lemma ReapPids(T: Table, nextpid: int, exited: set<int>, reaped: set<int>, k: int)
    requires Pids(T, nextpid, exited, reaped) && In(T, k) && T[k].state.ZOMBIE?
    ensures Pids(Reaped(T, k), nextpid, exited, reaped + {T[k].pid})
  {
    var T' := Reaped(T, k);
    assert PidOk(T, k, nextpid, exited, reaped);
    forall p ensures PidOk(T', p, nextpid, exited, reaped + {T[k].pid}) {
      assert PidOk(T, p, nextpid, exited, reaped) && PidsDiffer(T, p, k);
    }
    forall p, q ensures PidsDiffer(T', p, q) {
      assert PidsDiffer(T, p, q);
    }
    forall z | z in exited && z !in reaped + {T[k].pid}
      ensures exists p :: ZombieWith(T', p, z)
    {
      var p :| ZombieWith(T, p, z);
      assert ZombieWith(T', p, z);
    }
  }

  // ---- one slot changes ----

  // The change of slot i from x to y is allowed as it is: no parent lost, no zombie made or removed.
  ghost predicate SlotStep(T: Table, init: int, nextpid: int, exited: set<int>, i: int, y: Proc)
    requires In(T, i)
  {
    var x := T[i];
    && (Alive(x) ==> Alive(y) && y.parent == x.parent && y.pid == x.pid)
    && (x.state.ZOMBIE? <==> y.state.ZOMBIE?) && (x.state.ZOMBIE? ==> y == x)
    && (y.state.UNUSED? ==> y.parent == -1)
    && (y.parent == x.parent || (x.parent == -1 && In(T, y.parent) && y.parent != i && T[y.parent].state.RUNNING?))
    && (!Alive(x) && Alive(y) ==> y.parent != -1)
    && (!y.state.UNUSED? ==> (!x.state.UNUSED? && y.pid == x.pid) || (y.pid == nextpid && !Alive(y)))
    && (y.state.SLEEPING? && !x.state.SLEEPING? ==> y.chan.Other? || y.chan == Slot(i))
    && (y.state.SLEEPING? && x.state.SLEEPING? ==> y.chan == x.chan)
  }

  lemma SlotTree(T: Table, init: int, nextpid: int, exited: set<int>, i: int, y: Proc)
    requires Tree(T, init) && In(T, i) && SlotStep(T, init, nextpid, exited, i, y)
    ensures Tree(T[i := y], init)
  {
    var T' := T[i := y];
    assert ParentOk(T, init, i);
    forall q ensures ParentOk(T', init, q) {
      assert ParentOk(T, init, q);
    }
  }

  lemma SlotPids(T: Table, init: int, nextpid: int, exited: set<int>, reaped: set<int>, i: int, y: Proc, nextpid': int)
    requires Pids(T, nextpid, exited, reaped) && In(T, i) && SlotStep(T, init, nextpid, exited, i, y)
    requires nextpid <= nextpid' && (!y.state.UNUSED? ==> y.pid < nextpid')
    ensures Pids(T[i := y], nextpid', exited, reaped)
  {
    var T' := T[i := y];
    assert PidOk(T, i, nextpid, exited, reaped);
    forall p ensures PidOk(T', p, nextpid', exited, reaped) {
      assert PidOk(T, p, nextpid, exited, reaped);
    }
    forall p, q ensures PidsDiffer(T', p, q) {
      assert PidsDiffer(T, p, q) && PidOk(T, p, nextpid, exited, reaped) && PidOk(T, q, nextpid, exited, reaped);
    }
    forall z | z in exited && z !in reaped
      ensures exists p :: ZombieWith(T', p, z)
    {
      var p :| ZombieWith(T, p, z);
      assert ZombieWith(T', p, z);
    }
  }

  lemma SlotWaiters(T: Table, init: int, nextpid: int, exited: set<int>, i: int, y: Proc)
    requires Waiters(T) && In(T, i) && SlotStep(T, init, nextpid, exited, i, y)
    requires y.state.SLEEPING? && y.chan.Slot? && !T[i].state.SLEEPING? ==>
               (exists q :: ChildOf(T, q, i)) && forall q :: ChildOf(T, q, i) ==> !T[q].state.ZOMBIE?
    ensures Waiters(T[i := y])
  {
    var T' := T[i := y];
    forall p ensures WaiterOk(T', p) {
      assert WaiterOk(T, p) && WaiterOk(T, i);
      if InWait(T', p) {
        assert exists q :: ChildOf(T, q, p);
        var q :| ChildOf(T, q, p);
        assert ChildOf(T', q, p);
        assert forall r :: ChildOf(T', r, p) ==> ChildOf(T, r, p) || r == i;
      }
    }
  }

  lemma SlotInv(T: Table, init: int, nextpid: int, exited: set<int>, reaped: set<int>, i: int, y: Proc, nextpid': int)
    requires Inv(T, init, nextpid, exited, reaped) && In(T, i) && SlotStep(T, init, nextpid, exited, i, y)
    requires nextpid <= nextpid' && (!y.state.UNUSED? ==> y.pid < nextpid')
    requires y.state.SLEEPING? && y.chan.Slot? && !T[i].state.SLEEPING? ==>
               (exists q :: ChildOf(T, q, i)) && forall q :: ChildOf(T, q, i) ==> !T[q].state.ZOMBIE?
    ensures Inv(T[i := y], init, nextpid', exited, reaped)
  {
    hide Tree, Pids, Waiters, SlotStep;
    SlotTree(T, init, nextpid, exited, i, y);
    SlotWaiters(T, init, nextpid, exited, i, y);
    SlotPids(T, init, nextpid, exited, reaped, i, y, nextpid');
  }

  // ---- whole runs ----

  datatype Sys = Sys(T: Table, nextpid: int, exited: set<int>, reaped: set<int>)

  ghost predicate SysInv(a: Sys, init: int) {
    Inv(a.T, init, a.nextpid, a.exited, a.reaped)
  }

  // One stretch of code under ptable.lock: an exit, a collecting wait, a slot taken, named, started,
  // abandoned or put to sleep, or processes woken, killed and run.
  ghost predicate Step(a: Sys, b: Sys, init: int) {
    || (exists cur :: CanExit(a.T, cur, init) && Exited(a.T, b.T, cur, init)
                        && b == Sys(b.T, a.nextpid, a.exited + {a.T[cur].pid}, a.reaped))
    || (exists k :: In(a.T, k) && a.T[k].state.ZOMBIE?
                      && b == Sys(Reaped(a.T, k), a.nextpid, a.exited, a.reaped + {a.T[k].pid}))
    || (exists i :: In(a.T, i) && i < |b.T| && TakesSlot(a, i, b.T[i], init, b.nextpid)
                      && b == Sys(a.T[i := b.T[i]], b.nextpid, a.exited, a.reaped))
    || (AllWoke(a.T, b.T) && b == Sys(b.T, a.nextpid, a.exited, a.reaped))
  }

  ghost predicate TakesSlot(a: Sys, i: int, y: Proc, init: int, nextpid: int)
    requires In(a.T, i)
  {
    && SlotStep(a.T, init, a.nextpid, a.exited, i, y) && a.nextpid <= nextpid && (!y.state.UNUSED? ==> y.pid < nextpid)
    && (y.state.SLEEPING? && y.chan.Slot? && !a.T[i].state.SLEEPING? ==>
          (exists q :: ChildOf(a.T, q, i)) && forall q :: ChildOf(a.T, q, i) ==> !a.T[q].state.ZOMBIE?)
  }

  lemma StepInv(a: Sys, b: Sys, init: int)
    requires SysInv(a, init) && Step(a, b, init)
    ensures SysInv(b, init) && a.exited <= b.exited && a.reaped <= b.reaped
  {
    hide Tree, Waiters, Pids, Exited, SlotStep, AllWoke, Reaped;
    if cur :| CanExit(a.T, cur, init) && Exited(a.T, b.T, cur, init)
              && b == Sys(b.T, a.nextpid, a.exited + {a.T[cur].pid}, a.reaped) {
      ExitInv(a.T, b.T, cur, init, a.nextpid, a.exited, a.reaped);
    } else if k :| In(a.T, k) && a.T[k].state.ZOMBIE?
                   && b == Sys(Reaped(a.T, k), a.nextpid, a.exited, a.reaped + {a.T[k].pid}) {
      ReapInv(a.T, init, a.nextpid, a.exited, a.reaped, k);
    } else if i :| In(a.T, i) && i < |b.T| && TakesSlot(a, i, b.T[i], init, b.nextpid)
                   && b == Sys(a.T[i := b.T[i]], b.nextpid, a.exited, a.reaped) {
      SlotInv(a.T, init, a.nextpid, a.exited, a.reaped, i, b.T[i], b.nextpid);
    } else {
      WokeInv(a.T, b.T, init, a.nextpid, a.exited, a.reaped);
    }
  }

  // After userinit: process 1 in the first of n slots, the others unused.
  function UserInit(n: nat): Sys {
    Sys(seq(n, i => if i == 0 then Proc(RUNNABLE, 1, -1, false, NoChan) else Proc(UNUSED, 0, -1, false, NoChan)),
        2, {}, {})
  }

  lemma UserInitInv(n: nat)
    requires n > 0
    ensures SysInv(UserInit(n), 0)
  {
    var T := UserInit(n).T;
    assert forall q :: ParentOk(T, 0, q);
    assert forall p :: WaiterOk(T, p);
    assert forall p :: PidOk(T, p, 2, {}, {});
    assert forall p, q :: PidsDiffer(T, p, q);
  }

  ghost predicate IsRun(run: seq<Sys>, init: int) {
    && |run| > 0 && |run[0].T| > 0 && run[0] == UserInit(|run[0].T|) && init == 0
    && forall i :: 0 <= i < |run| - 1 ==> Step(run[i], run[i + 1], init)
  }

  lemma {:induction false} RunInv(run: seq<Sys>, init: int, k: nat)
    requires IsRun(run, init) && k < |run|
    ensures SysInv(run[k], init)
  {
    hide SysInv, Step, UserInit;
    if k == 0 {
      UserInitInv(|run[0].T|);
    } else {
      RunInv(run, init, k - 1);
      StepInv(run[k - 1], run[k], init);
    }
  }

  lemma {:induction false} RunGrows(run: seq<Sys>, init: int, j: nat, k: nat)
    requires IsRun(run, init) && j <= k < |run|
    ensures run[j].reaped <= run[k].reaped && run[j].exited <= run[k].exited
    decreases k
  {
    hide SysInv, Step;
    if j < k {
      RunGrows(run, init, j, k - 1);
      RunInv(run, init, k - 1);
      StepInv(run[k - 1], run[k], init);
    }
  }

  // In every state of every run parents are alive, zombies are childless, and nobody sleeps in wait who
  // has a child to collect.
  lemma TreeSafe(run: seq<Sys>, init: int, k: nat, q: int, p: int)
    requires IsRun(run, init) && k < |run| && ChildOf(run[k].T, q, p) && p != -1
    ensures In(run[k].T, p) && Alive(run[k].T[p])
    ensures run[k].T[q].state.ZOMBIE? ==> !InWait(run[k].T, p)
  {
    RunInv(run, init, k);
    var T := run[k].T;
    assert ParentOk(T, init, q) && WaiterOk(T, p);
  }

  // A pid is collected once: it was not before, and it stays collected.
  lemma CollectedOnce(run: seq<Sys>, init: int, j: nat, k: nat, z: int)
    requires IsRun(run, init) && j < k < |run| && z in run[j].reaped
    ensures z in run[k].reaped && z in run[k].exited
    ensures forall p :: In(run[k].T, p) && run[k].T[p].state.ZOMBIE? ==> run[k].T[p].pid != z
  {
    RunGrows(run, init, j, k);
    RunInv(run, init, k);
    forall p | In(run[k].T, p) && run[k].T[p].state.ZOMBIE?
      ensures run[k].T[p].pid != z
    {
      assert PidOk(run[k].T, p, run[k].nextpid, run[k].exited, run[k].reaped);
    }
  }
}
