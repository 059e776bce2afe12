/** Processes (kernel/proc.c): each method is one stretch of code under ptable.lock, or one of the accesses
    fork makes without it, on the table of slots. */
module Procs {
  import opened ProcTree

  datatype WaitResult = Collected(pid: int) | Nothing | Sleeps

  class Ptable {
    const table: array<Proc>
    const init: int
    var nextpid: int
    // The pids that exited, and those a wait returned.
    ghost var exited: set<int>
    ghost var reaped: set<int>

    ghost predicate Valid()
      reads this, table
    {
      Inv(table[..], init, nextpid, exited, reaped)
    }

    ghost function View(): Sys
      reads this, table
    {
      Sys(table[..], nextpid, exited, reaped)
    }

    // userinit: the first process, waiting to run.
    constructor (nproc: nat)
      requires nproc > 0
      ensures Valid() && table.Length == nproc && fresh(table) && View() == UserInit(nproc) && init == 0
    {
      table := new Proc[nproc](i => if i == 0 then Proc(RUNNABLE, 1, -1, false, NoChan)
                                    else Proc(UNUSED, 0, -1, false, NoChan));
      init, nextpid := 0, 2;
      exited, reaped := {}, {};
      new;
      assert table[..] == UserInit(nproc).T;
      UserInitInv(nproc);
    }

    method Wakeup1(c: Chan)
      modifies table
      ensures table[..] == WakeAll(old(table[..]), c)
    {
      for i := 0 to table.Length
        invariant forall j :: 0 <= j < i ==> table[j] == Woken(old(table[j]), c)
        invariant forall j :: i <= j < table.Length ==> table[j] == old(table[j])
      {
        if table[i].state.SLEEPING? && table[i].chan == c {
          table[i] := table[i].(state := RUNNABLE);
        }
      }
    }

    method Wakeup(c: Chan)
      requires Valid()
      modifies table
      ensures Step(old(View()), View(), init)
      ensures Valid() && table[..] == WakeAll(old(table[..]), c)
    {
      Wakeup1(c);
      WokeInv(old(table[..]), table[..], init, nextpid, exited, reaped);
    }

    // The first part of allocproc: the first free slot gets a new pid, or there is none.
    method Allocproc() returns (i: int)
      requires Valid()
      modifies table, this`nextpid
      ensures Step(old(View()), View(), init)
      ensures Valid()
      ensures i == -1 <==> forall j :: 0 <= j < table.Length ==> !old(table[j]).state.UNUSED?
      ensures i == -1 ==> table[..] == old(table[..]) && nextpid == old(nextpid)
      ensures i != -1 ==> 0 <= i < table.Length && old(table[i]).state.UNUSED? && nextpid == old(nextpid) + 1
      ensures i != -1 ==> table[..] == old(table[..])[i := old(table[i]).(state := EMBRYO, pid := old(nextpid))]
    {
      i := 0;
      while i < table.Length && !table[i].state.UNUSED?
        invariant 0 <= i <= table.Length && forall j :: 0 <= j < i ==> !table[j].state.UNUSED?
      {
        i := i + 1;
      }
      if i == table.Length {
        return -1;
      }
      var y := table[i].(state := EMBRYO, pid := nextpid);
      UnusedSlot(table[..], init, i);
      SlotInv(table[..], init, nextpid, exited, reaped, i, y, nextpid + 1);
      table[i] := y;
      nextpid := nextpid + 1;
      assert table[..] == old(table[..])[i := y];
    }

    // allocproc or fork gives the slot back when memory runs out.
    method Abandon(i: int)
      requires Valid() && 0 <= i < table.Length && table[i].state.EMBRYO? && table[i].parent == -1
      modifies table
      ensures Step(old(View()), View(), init)
      ensures Valid() && table[..] == old(table[..])[i := old(table[i]).(state := UNUSED)]
    {
      SlotInv(table[..], init, nextpid, exited, reaped, i, table[i].(state := UNUSED), nextpid);
      table[i] := table[i].(state := UNUSED);
      assert table[..] == old(table[..])[i := old(table[i]).(state := UNUSED)];
    }

    // fork names the parent of the new process, without the lock.
    method SetParent(i: int, cur: int)
      requires Valid() && 0 <= i < table.Length && table[i].state.EMBRYO? && table[i].parent == -1
      requires 0 <= cur < table.Length && table[cur].state.RUNNING?
      modifies table
      ensures Step(old(View()), View(), init)
      ensures Valid() && table[..] == old(table[..])[i := old(table[i]).(parent := cur)]
    {
      EmbryoPid(table[..], nextpid, exited, reaped, i);
      SlotInv(table[..], init, nextpid, exited, reaped, i, table[i].(parent := cur), nextpid);
      table[i] := table[i].(parent := cur);
      assert table[..] == old(table[..])[i := old(table[i]).(parent := cur)];
    }

    // The last part of fork.
    method Start(i: int)
      requires Valid() && 0 <= i < table.Length && table[i].state.EMBRYO? && table[i].parent != -1
      modifies table
      ensures Step(old(View()), View(), init)
      ensures Valid() && table[..] == old(table[..])[i := old(table[i]).(state := RUNNABLE)]
    {
      EmbryoPid(table[..], nextpid, exited, reaped, i);
      SlotInv(table[..], init, nextpid, exited, reaped, i, table[i].(state := RUNNABLE), nextpid);
      table[i] := table[i].(state := RUNNABLE);
      assert table[..] == old(table[..])[i := old(table[i]).(state := RUNNABLE)];
    }

    // exit's loop: the children of cur go to init, which is woken if one of them can be collected.
    method Adopt(cur: int)
      requires 0 <= init < table.Length && init != cur
      modifies table
      ensures forall j :: 0 <= j < table.Length ==>
                table[j] == Adopted(old(table[j]), cur, init, true, HasZombie(old(table[..]), cur))
    {
      ghost var T, z := table[..], false;
      for i := 0 to table.Length
        invariant z <==> exists j :: 0 <= j < i && ChildOf(T, j, cur) && T[j].state.ZOMBIE?
        invariant forall j :: 0 <= j < table.Length ==> table[j] == Adopted(T[j], cur, init, j < i, z)
      {
        assert ChildOf(T, i, cur) <==> table[i].parent == cur;
        if table[i].parent == cur {
          table[i] := table[i].(parent := init);
          if table[i].state.ZOMBIE? {
            Wakeup1(Slot(init));
            z := true;
          }
        }
      }
      assert z <==> HasZombie(T, cur);
    }

    // exit, from the lock to sched: the parent may be waiting, the children go to init, and cur stays
    // until somebody waits for it. exit of init is a panic.
    method Exit(cur: int)
      requires Valid() && CanExit(table[..], cur, init)
      modifies table, this`exited
      ensures Step(old(View()), View(), init)
      ensures Valid() && Exited(old(table[..]), table[..], cur, init)
      ensures exited == old(exited) + {old(table[cur]).pid} && old(table[cur]).pid !in old(exited)
    {
      ghost var T := table[..];
      assert ParentOk(T, init, cur);
      Wakeup1(Slot(table[cur].parent));
      assert HasZombie(table[..], cur) <==> HasZombie(T, cur) by { WakeZombies(T, Slot(T[cur].parent), cur); }
      Adopt(cur);
      table[cur] := table[cur].(state := ZOMBIE);
      ExitInv(T, table[..], cur, init, nextpid, exited, reaped);
      exited := exited + {table[cur].pid};
    }

    // One scan of wait: a zombie child is collected, or there is no reason to wait, or the process sleeps.
    method Wait(cur: int) returns (r: WaitResult)
      requires Valid() && 0 <= cur < table.Length && table[cur].state.RUNNING?
      modifies table, this`reaped
      ensures Step(old(View()), View(), init)
      ensures Valid()
      ensures r.Collected? ==> r.pid in exited && r.pid !in old(reaped) && reaped == old(reaped) + {r.pid}
      ensures r.Collected? ==> exists k ::
        && ChildOf(old(table[..]), k, cur) && ZombieWith(old(table[..]), k, r.pid)
        && table[..] == Reaped(old(table[..]), k)
      ensures r.Collected? <==> HasZombie(old(table[..]), cur)
      ensures !r.Collected? ==> reaped == old(reaped)
      ensures r.Nothing? <==>
        !HasZombie(old(table[..]), cur) && (old(table[cur]).killed || forall q :: !ChildOf(old(table[..]), q, cur))
      ensures r.Nothing? ==> table[..] == old(table[..])
      ensures r.Sleeps? ==> table[..] == old(table[..])[cur := old(table[cur]).(state := SLEEPING, chan := Slot(cur))]
    {
      var havekids := false;
      ghost var T := table[..];
      for i := 0 to table.Length
        invariant table[..] == T
        invariant havekids <==> exists j :: 0 <= j < i && ChildOf(T, j, cur)
        invariant forall j :: 0 <= j < i && ChildOf(T, j, cur) ==> !T[j].state.ZOMBIE?
      {
        if table[i].parent == cur {
          havekids := true;
          assert ChildOf(T, i, cur);
          if table[i].state.ZOMBIE? {
            var pid := table[i].pid;
            ReapInv(T, init, nextpid, exited, reaped, i);
            table[i] := Proc(UNUSED, 0, -1, false, table[i].chan);
            assert table[..] == Reaped(T, i) && ZombieWith(T, i, pid);
            reaped := reaped + {pid};
            return Collected(pid);
          }
        }
      }
      if !havekids || table[cur].killed {
        return Nothing;
      }
      var y := table[cur].(state := SLEEPING, chan := Slot(cur));
      EmbryoPid(T, nextpid, exited, reaped, cur);
      SlotInv(T, init, nextpid, exited, reaped, cur, y, nextpid);
      table[cur] := y;
      assert table[..] == T[cur := y];
      r := Sleeps;
    }

    // sleep on any other channel.
    method Sleep(cur: int, a: int)
      requires Valid() && 0 <= cur < table.Length && table[cur].state.RUNNING?
      modifies table
      ensures Step(old(View()), View(), init)
      ensures Valid() && table[..] == old(table[..])[cur := old(table[cur]).(state := SLEEPING, chan := Other(a))]
    {
      var y := table[cur].(state := SLEEPING, chan := Other(a));
      EmbryoPid(table[..], nextpid, exited, reaped, cur);
      SlotInv(table[..], init, nextpid, exited, reaped, cur, y, nextpid);
      table[cur] := y;
      assert table[..] == old(table[..])[cur := y];
    }

    // The scheduler picks a process, or a process yields; one that slept forgets its channel.
    method Switch(i: int, s: PState)
      requires Valid() && 0 <= i < table.Length
      requires (table[i].state.RUNNABLE? && s.RUNNING?) || (table[i].state.RUNNING? && s.RUNNABLE?)
      modifies table
      ensures Step(old(View()), View(), init)
      ensures Valid() && table[..] == old(table[..])[i := old(table[i]).(state := s, chan := NoChan)]
    {
      table[i] := table[i].(state := s, chan := NoChan);
      assert table[..] == old(table[..])[i := table[i]];
      WokeInv(old(table[..]), table[..], init, nextpid, exited, reaped);
    }

    // kill: the first slot with that pid is flagged and woken if asleep.
    method Kill(pid: int) returns (ok: bool)
      requires Valid()
      modifies table
      ensures Step(old(View()), View(), init)
      ensures Valid()
      ensures ok <==> exists i :: 0 <= i < table.Length && old(table[i]).pid == pid
      ensures !ok ==> table[..] == old(table[..])
      ensures ok ==> exists i ::
        && 0 <= i < table.Length && old(table[i]).pid == pid && (forall j :: 0 <= j < i ==> old(table[j]).pid != pid)
        && table[i].killed && !table[i].state.SLEEPING?
        && table[..] == old(table[..])[i := table[i]] && OnlyWoke(old(table[i]), table[i])
    {
      for i := 0 to table.Length
        invariant table[..] == old(table[..]) && forall j :: 0 <= j < i ==> old(table[j]).pid != pid
      {
        if table[i].pid == pid {
          table[i] := table[i].(killed := true);
          if table[i].state.SLEEPING? {
            table[i] := table[i].(state := RUNNABLE);
          }
          assert table[..] == old(table[..])[i := table[i]];
          WokeInv(old(table[..]), table[..], init, nextpid, exited, reaped);
          return true;
        }
      }
      ok := false;
    }
  }

  // A process in the middle of exit's loop: children already seen belong to init, and sleepers in init's
  // wait are woken once a zombie was seen.
  function Adopted(x: Proc, cur: int, init: int, seen: bool, z: bool): Proc {
    var y := if seen && x.parent == cur then x.(parent := init) else x;
    if z then Woken(y, Slot(init)) else y
  }

  lemma WakeZombies(T: Table, c: Chan, cur: int)
    ensures HasZombie(WakeAll(T, c), cur) <==> HasZombie(T, cur)
  {
    var T' := WakeAll(T, c);
    assert forall q :: ChildOf(T', q, cur) <==> ChildOf(T, q, cur);
    assert forall q :: In(T, q) ==> (T'[q].state.ZOMBIE? <==> T[q].state.ZOMBIE?);
  }

  lemma UnusedSlot(T: Table, init: int, i: int)
    requires Tree(T, init) && In(T, i) && T[i].state.UNUSED?
    ensures T[i].parent == -1
  {
    assert ParentOk(T, init, i);
  }

  lemma EmbryoPid(T: Table, nextpid: int, exited: set<int>, reaped: set<int>, i: int)
    requires Pids(T, nextpid, exited, reaped) && In(T, i) && !T[i].state.UNUSED?
    ensures T[i].pid < nextpid
  {
    assert PidOk(T, i, nextpid, exited, reaped);
  }
}
