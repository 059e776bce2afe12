/** Address spaces (kernel/vm.c) over the frame allocator (kernel/kalloc.c). Page directories and tables
    live in the frames themselves and are written in place; frame 0 stands for a null pointer. */
module Vm {
  import opened Blocks
  import opened PageTables

  const PGSIZE := 4096
  const KERNBASE := 0x8000_0000
  // Page numbers of KERNBASE, EXTMEM, PHYSTOP and DEVSPACE.
  const KERN := 0x8_0000
  const EXT := 0x100
  const PHYS := 0xE000
  const DEV := 0xF_E000

  const PTE_W := 2
  const PTE_U := 4

  datatype MapResult = Mapped | NoMemory | Remap

  class Kernel {
    // The first frame behind the kernel, the end of the managed frames, and the frame of the data segment.
    const lo: nat
    const hi: nat
    const data: nat
    var mem: Memory
    var free: seq<int>
    ghost var owner: Owners

    ghost predicate Valid()
      reads this
    {
      && EXT < data < PHYS && hi <= PHYS
      && Inv(lo, hi, mem, free, owner)
    }

    method Kalloc() returns (f: int)
      requires Valid()
      modifies this`free, this`owner
      ensures Valid()
      ensures f == 0 <==> old(free) == []
      ensures f == 0 ==> free == old(free) && owner == old(owner)
      ensures f != 0 ==>
        f !in old(owner) && owner == old(owner)[f := Held] && f in mem && 0 < f < 0x10_0000 && free == old(free)[1..]
    {
      hide Tables, Users;
      if free == [] {
        return 0;
      }
      PageTables.Kalloc(lo, hi, mem, free, owner);
      f := free[0];
      owner, free := owner[f := Held], free[1..];
    }

    // The page is filled with junk and put in front; a frame that is not managed would be a panic.
    method Kfree(f: int)
      requires lo <= f < hi
      modifies this`mem, this`free
      ensures mem == old(mem)[f := JunkPage()] && free == [f] + old(free)
    {
      mem := mem[f := JunkPage()];
      free := [f] + free;
    }

    // A held frame given back.
    method Release(f: int)
      requires Valid() && f in owner && owner[f].Held?
      modifies this
      ensures Valid()
      ensures owner == old(owner) - {f} && mem == old(mem)[f := JunkPage()] && free == [f] + old(free)
    {
      hide Tables, Users;
      PageTables.Kfree(lo, hi, mem, free, owner, f);
      Kfree(f);
      owner := owner - {f};
    }

    // Before kinit1 every frame behind the kernel is held by the boot code.
    constructor (lo: nat, hi: nat, data: nat, mem: Memory)
      requires 1 <= lo <= hi <= PHYS && EXT < data < PHYS && forall f :: lo <= f < hi ==> f in mem
      ensures Valid() && this.lo == lo && this.hi == hi && this.data == data && this.mem == mem
      ensures free == [] && owner == map f | f in mem && lo <= f < hi :: Held
    {
      this.lo, this.hi, this.data, this.mem, free := lo, hi, data, mem, [];
      owner := map f | f in mem && lo <= f < hi :: Held;
    }

    // kinit1 and kinit2 hand the whole pages of a range to the allocator.
    method Freerange(vstart: nat, vend: nat)
      requires Valid() && forall f :: Pages(vstart) <= f && (f + 1) * PGSIZE <= vend ==> f in owner && owner[f].Held?
      modifies this
      ensures Valid()
      ensures owner == map f | f in old(owner) && !(Pages(vstart) <= f && (f + 1) * PGSIZE <= vend) :: old(owner)[f]
    {
      hide Inv;
      var p := Pages(vstart);
      while p * PGSIZE + PGSIZE <= vend
        invariant Pages(vstart) <= p && Valid()
        invariant owner ==
          map f | f in old(owner) && !(Pages(vstart) <= f < p && (f + 1) * PGSIZE <= vend) :: old(owner)[f]
      {
        Release(p);
        p := p + 1;
      }
    }

    // The table for page v of directory d, or 0.
    method Walkpgdir(d: int, v: nat, alloc: bool) returns (t: int)
      requires Valid() && IsDir(owner, d) && v < 0x10_0000
      modifies this
      ensures Valid() && Extends(old(mem), old(owner), mem, owner, d, {})
      ensures forall u :: 0 <= u < 0x10_0000 ==> Entry(mem, d, u) == Entry(old(mem), d, u)
      ensures t != 0 ==> t in owner && t in mem && owner[t] == Table(d, v / 1024)
      ensures t == 0 ==> mem == old(mem) && owner == old(owner) && free == old(free) && Entry(mem, d, v) == 0
      ensures t == 0 ==> d in mem && !Present(mem[d][v / 1024]) && (alloc ==> free == [])
      ensures !alloc ==> mem == old(mem) && owner == old(owner) && free == old(free)
      ensures AddsTable(old(mem), mem, d, v, t != 0)
      ensures t != 0 ==> |free| == |old(free)| - if HasTable(old(mem), d, v) then 0 else 1
    {
      hide Users;
      var i := v / 1024;
      if Present(mem[d][i]) {
        return Frame(mem[d][i]);
      }
      if !alloc {
        return 0;
      }
      t := Kalloc();
      if t == 0 {
        return;
      }
      var e := MakeEntry(t, PTE_W + PTE_U);
      forall u | 0 <= u < 0x10_0000
        ensures Entry(mem[t := ZeroPage()][d := mem[d][i := e]], d, u) == Entry(mem, d, u)
      {
        TableEntries(lo, hi, mem, free, owner, d, i, t, e, d, u);
      }
      NewTable(lo, hi, mem, free, owner, d, i, t, e);
      mem := mem[t := ZeroPage()];
      mem := mem[d := mem[d][i := e]];
      owner := owner[t := Table(d, i)];
    }

    // One round of mappages: page v of d to frame p, which is handed over when v is in the user half.
    method MapPage(d: int, v: nat, p: nat, perm: nat, ghost x: set<int>) returns (r: MapResult)
      requires Valid() && IsDir(owner, d) && v < 0x10_0000 && p < 0x10_0000 && perm < 4096
      requires v < KERN ==> p in owner && owner[p].Held? && p in x
      modifies this
      ensures Valid() && Extends(old(mem), old(owner), mem, owner, d, x)
      ensures r == Remap <==> Present(Entry(old(mem), d, v))
      ensures r == NoMemory ==> mem == old(mem) && owner == old(owner)
      ensures forall u :: 0 <= u < 0x10_0000 ==>
          Entry(mem, d, u) == if u == v && r == Mapped then MakeEntry(p, perm) else Entry(old(mem), d, u)
      ensures v < KERN && r == Mapped ==> p in owner && owner[p] == User(d, v / 1024, v % 1024)
      ensures forall f :: f in old(owner) && (f != p || v >= KERN || r != Mapped) ==>
        f in owner && owner[f] == old(owner)[f]
      ensures AddsTable(old(mem), mem, d, v, r == Mapped)
      ensures |free| == |old(free)| - if r != Mapped || HasTable(old(mem), d, v) then 0 else 1
      ensures r == NoMemory ==> old(free) == [] && !HasTable(old(mem), d, v)
    {
      hide Frames, Tables, Users, MakeEntry, Entry;
      var t := Walkpgdir(d, v, true);
      if t == 0 {
        return NoMemory;
      }
      var j := v % 1024;
      WalkedEntry(d, v, t);
      if Present(mem[t][j]) {
        EntryHasTable(old(mem), d, v);
        return Remap;
      }
      var e := MakeEntry(p, perm);
      forall u | 0 <= u < 0x10_0000
        ensures Entry(mem[t := mem[t][j := e]], d, u) == if u == v then e else Entry(mem, d, u)
      {
        PutEntry(lo, hi, mem, free, owner, t, j, e, d, u);
      }
      if v < KERN {
        PutUser(lo, hi, mem, free, owner, t, j, p, e);
        mem, owner := mem[t := mem[t][j := e]], owner[p := User(d, v / 1024, j)];
      } else {
        PutKernel(lo, hi, mem, free, owner, t, j, e);
        mem := mem[t := mem[t][j := e]];
      }
      r := Mapped;
    }

    lemma WalkedEntry(d: int, v: nat, t: int)
      requires Valid() && IsDir(owner, d) && v < 0x10_0000 && t in owner && t in mem && owner[t] == Table(d, v / 1024)
      ensures Entry(mem, d, v) == mem[t][v % 1024]
    {
      hide Users;
      TableEntry(mem, owner, t);
    }

    /** Maps the pages of va .. va + size to consecutive frames from pa on, m of them before it stops.
        Frames that go into the user half must be held and are handed over. */
    method Mappages(d: int, va: nat, size: nat, pa: nat, perm: nat, ghost x: set<int>)
      returns (r: MapResult, ghost m: nat)
      requires Valid() && IsDir(owner, d) && perm < 4096
      requires size >= 1 && va + size <= UINT_LIMIT && pa % PGSIZE == 0
      requires pa / PGSIZE + (va + size - 1) / PGSIZE - va / PGSIZE < 0x10_0000
      requires forall f :: HandedOver(va, size, pa, f) ==> f in owner && owner[f].Held? && f in x
      modifies this
      ensures Valid() && Extends(old(mem), old(owner), mem, owner, d, x)
      ensures va / PGSIZE + m <= (va + size - 1) / PGSIZE + 1
      ensures r == Mapped <==> va / PGSIZE + m == (va + size - 1) / PGSIZE + 1
      ensures forall u :: 0 <= u < 0x10_0000 ==>
          Entry(mem, d, u) == if va / PGSIZE <= u < va / PGSIZE + m then MakeEntry(pa / PGSIZE + u - va / PGSIZE, perm)
                              else Entry(old(mem), d, u)
      ensures r == Remap ==> Present(Entry(old(mem), d, va / PGSIZE + m))
      ensures r == NoMemory && m == 0 ==> mem == old(mem) && owner == old(owner)
      ensures Handing(old(owner), owner, d, va, size, pa, m)
      ensures AddsTables(old(mem), mem, d, va / PGSIZE, m)
      ensures |free| == |old(free)| - TablesMissing(old(mem), d, va / PGSIZE, m)
      ensures r == NoMemory ==> |old(free)| < TablesMissing(old(mem), d, va / PGSIZE, m + 1)
    {
      hide Inv, MakeEntry, Entry, Extends, HasTable, AddsTable, AddsTables, TablesMissing, Handing, HandedOver;
      var a, last, p := va / PGSIZE, (va + size - 1) / PGSIZE, pa / PGSIZE;
      ghost var a0, p0 := a, p;
      m := 0;
      Unchanged(lo, hi, mem, free, owner, d, x);
      NoTablesYet(mem, d, a);
      NothingHanded(owner, d, va, size, pa);
      while true
        invariant a == a0 + m <= last && p == p0 + m
        invariant Valid() && Extends(old(mem), old(owner), mem, owner, d, x)
        invariant IsDir(owner, d) && old(owner).Keys <= owner.Keys
        invariant m == 0 ==> mem == old(mem) && owner == old(owner)
        invariant AddsTables(old(mem), mem, d, a0, m)
        invariant |free| == |old(free)| - TablesMissing(old(mem), d, a0, m)
        invariant forall u :: 0 <= u < 0x10_0000 ==>
            Entry(mem, d, u) == if a0 <= u < a0 + m then MakeEntry(p0 + u - a0, perm) else Entry(old(mem), d, u)
        invariant Handing(old(owner), owner, d, va, size, pa, m)
        decreases last - a
      {
        NextHanded(old(owner), owner, d, va, size, pa, m);
        ghost var mem1, owner1 := mem, owner;
        r := MapPage(d, a, p, perm, x);
        HandedMore(old(owner), owner1, owner, d, va, size, pa, m, r == Mapped);
        TablesMore(old(mem), mem1, mem, d, a0, m, r == Mapped);
        ExtendsDir(mem1, owner1, mem, owner, d, x);
        ExtendsTrans(old(mem), old(owner), mem1, owner1, mem, owner, d, x);
        if r != Mapped {
          return;
        }
        m := m + 1;
        if a == last {
          return;
        }
        a, p := a + 1, p + 1;
      }
    }

    // One round of deallocuvm where page v has a table.
    method FreePage(d: int, v: nat, t: int)
      requires Valid() && IsDir(owner, d) && v < KERN && t in owner && t in mem && owner[t] == Table(d, v / 1024)
      modifies this
      ensures Valid() && Shrinks(old(mem), old(owner), mem, owner, d, v, v + 1)
    {
      hide Frames, Tables, Users, Entry;
      var j := v % 1024;
      if Present(mem[t][j]) {
        var f := Frame(mem[t][j]);
        ShrinkPage(lo, hi, mem, free, owner, t, v);
        Kfree(f);
        mem := mem[t := mem[t][j := 0]];
        owner := owner - {f};
      } else {
        WalkedEntry(d, v, t);
        ShrinkNone(lo, hi, mem, free, owner, d, v, v + 1);
      }
    }

    // One round of deallocuvm; without a table it goes on behind the last page of that table.
    method FreeRound(d: int, v: nat) returns (next: nat)
      requires Valid() && IsDir(owner, d) && v < KERN
      modifies this
      ensures Valid() && Shrinks(old(mem), old(owner), mem, owner, d, v, next) && IsDir(owner, d)
      ensures v < next && forall u :: v + 1 <= u < next && u < 0x10_0000 ==> Entry(old(mem), d, u) == 0
    {
      hide Frames, Tables, Users, Entry, Shrinks;
      var t := Walkpgdir(d, v, false);
      next := v;
      if t == 0 {
        next := (v / 1024 + 1) * 1024 - 1;
        forall u | v <= u < next + 1 ensures u < 0x10_0000 && Entry(mem, d, u) == 0 {
          NoTable(mem, d, v, u);
        }
        ShrinkNone(lo, hi, mem, free, owner, d, v, next + 1);
      } else {
        FreePage(d, v, t);
        ShrinksDir(old(mem), old(owner), mem, owner, d, v, v + 1);
      }
      next := next + 1;
    }

    method Deallocuvm(d: int, oldsz: nat, newsz: nat) returns (sz: nat)
      requires Valid() && IsDir(owner, d) && oldsz <= KERNBASE
      modifies this
      ensures Valid() && Shrinks(old(mem), old(owner), mem, owner, d, Pages(newsz), Pages(oldsz))
      ensures IsDir(owner, d) && sz == if newsz >= oldsz then oldsz else newsz
    {
      hide Frames, Tables, Users, Entry, Shrinks;
      if newsz >= oldsz {
        ShrinkNone(lo, hi, mem, free, owner, d, Pages(newsz), Pages(oldsz));
        return oldsz;
      }
      var v := Pages(newsz);
      ShrinksSelf(lo, hi, mem, free, owner, d, v);
      while v * PGSIZE < oldsz
        invariant Pages(newsz) <= v && Valid() && IsDir(owner, d)
        invariant Shrinks(old(mem), old(owner), mem, owner, d, Pages(newsz), v)
        invariant forall u :: Pages(oldsz) <= u < v && u < 0x10_0000 ==> Entry(old(mem), d, u) == 0
      {
        ghost var mem1, owner1, v1 := mem, owner, v;
        v := FreeRound(d, v);
        ShrinksTrans(old(mem), old(owner), mem1, owner1, mem, owner, d, Pages(newsz), v1, v);
        forall u | Pages(oldsz) <= u < v && u < 0x10_0000 ensures Entry(old(mem), d, u) == 0 {
          ShrinksRest(old(mem), old(owner), mem1, owner1, d, Pages(newsz), v1, u);
        }
      }
      ShrinksCut(lo, hi, old(mem), old(free), old(owner), mem, owner, d, Pages(newsz), Pages(oldsz), v);
      sz := newsz;
    }

    // One round of freevm.
    method FreeEntry(d: int, i: nat, ghost mem0: Memory, ghost owner1: Owners)
      requires Valid() && i < 1024 && Freeing(owner1, owner, d, i) && d in mem
      requires forall f :: f in owner ==> !IsPageOf(owner[f], d)
      requires SameFrames(mem0, mem, Gone(owner1, d))
      modifies this
      ensures Valid() && Freeing(owner1, owner, d, i + 1) && d in mem
      ensures forall f :: f in owner ==> !IsPageOf(owner[f], d)
      ensures SameFrames(mem0, mem, Gone(owner1, d))
    {
      hide Frames, Tables, Users;
      if Present(mem[d][i]) {
        FreeTable(lo, hi, mem, free, owner1, owner, d, i);
        var t := Frame(mem[d][i]);
        assert t !in Gone(owner1, d);
        Kfree(t);
        owner := owner[d := Dir(i + 1)] - {t};
      } else {
        NoFreeTable(lo, hi, mem, free, owner1, owner, d, i);
        owner := owner[d := Dir(i + 1)];
      }
    }

    // The directory, its tables and its user pages all go back to the allocator.
    method Freevm(d: int)
      requires Valid() && IsDir(owner, d)
      modifies this
      ensures Valid() && owner == Gone(old(owner), d)
      ensures SameFrames(old(mem), mem, owner)
    {
      hide Tables, Users, Entry;
      var _ := Deallocuvm(d, KERNBASE, 0);
      AllShrunk(lo, hi, old(mem), old(free), old(owner), mem, owner, d);
      ghost var owner1 := owner;
      TablesBound(mem, owner1, d);
      assert SameFrames(old(mem), mem, Gone(owner1, d));
      hide Shrinks;
      for i := 0 to 1024
        invariant Valid() && Freeing(owner1, owner, d, i) && d in mem
        invariant forall f :: f in owner ==> !IsPageOf(owner[f], d)
        invariant SameFrames(old(mem), mem, Gone(owner1, d))
      {
        FreeEntry(d, i, old(mem), owner1);
      }
      FreeDir(lo, hi, mem, free, owner1, owner, d);
      Kfree(d);
      owner := owner - {d};
    }

    // The k-th mapping of the kernel half; it never meets a page that is already there.
    method MapKernel(d: int, k: nat) returns (ok: bool)
      requires Valid() && IsDir(owner, d) && k < 4
      requires forall u :: 0 <= u < 0x10_0000 ==> Entry(mem, d, u) == KernelPart(data, k, u)
      requires forall u :: HasTable(mem, d, u) <==> KernelTable(data, k, u)
      modifies this
      ensures Valid() && Extends(old(mem), old(owner), mem, owner, d, {})
      ensures ok ==> forall u :: 0 <= u < 0x10_0000 ==> Entry(mem, d, u) == KernelPart(data, k + 1, u)
      ensures ok ==> forall u :: HasTable(mem, d, u) <==> KernelTable(data, k + 1, u)
      ensures ok <==> |old(free)| >= KernelTables(data, k + 1) - KernelTables(data, k)
      ensures ok ==> |free| == |old(free)| - (KernelTables(data, k + 1) - KernelTables(data, k))
    {
      hide Inv, Entry, MakeEntry, Extends, KernelPart, HasTable, AddsTables, TablesMissing, KernelTable,
        KernelTables, Handing;
      var e := Kmaps(data)[k];
      forall u | 0 <= u < 0x10_0000
        ensures KernelPart(data, k + 1, u) ==
                if KmapPages(data, k, u) then MakeEntry(e.start / PGSIZE + u - e.virt / PGSIZE, e.perm)
                                              else KernelPart(data, k, u)
        ensures KmapPages(data, k, u) ==> KernelPart(data, k, u) == 0
      {
        KernelNext(data, k, u);
      }
      var r;
      ghost var m;
      r, m := Mappages(d, e.virt, e.Size(), e.start, e.perm, {});
      assert r != Remap;
      ok := r == Mapped;
      KmapSpan(data, k);
      KernelTablesMore(data, k, old(mem), mem, d, m);
      forall u | ok && 0 <= u < 0x10_0000 ensures Entry(mem, d, u) == KernelPart(data, k + 1, u) {
        assert Entry(old(mem), d, u) == KernelPart(data, k, u);
        assert e.virt / PGSIZE <= u < e.virt / PGSIZE + m <==> KmapPages(data, k, u);
      }
    }

    // An address space with the kernel half only, or 0 and every frame back where it was.
    method Setupkvm() returns (d: int)
      requires Valid()
      modifies this
      ensures Valid()
      ensures d == 0 ==> owner == old(owner) && SameFrames(old(mem), mem, owner)
      ensures d != 0 ==> Beside(old(mem), old(owner), mem, owner, d)
      ensures d != 0 ==> forall u :: 0 <= u < 0x10_0000 ==> Entry(mem, d, u) == KernelEntry(data, u)
      ensures d != 0 <==> |old(free)| >= KERNEL_FRAMES
      ensures d != 0 ==> |free| == |old(free)| - KERNEL_FRAMES && forall u :: 0 <= u < KERN ==> !HasTable(mem, d, u)
    {
      hide Inv, Entry, Extends, KernelPart, Beside, Gone, HasTable;
      d := Kalloc();
      if d == 0 {
        SameSelf(lo, hi, mem, free, owner);
        return;
      }
      NewDir(lo, hi, mem, free, owner, d);
      BesideNew(lo, hi, mem, old(free), old(owner), d, ZeroPage());
      forall u | 0 <= u < 0x10_0000 ensures Entry(mem[d := ZeroPage()], d, u) == KernelPart(data, 0, u) {
        EmptyDir(mem, d, data, u);
      }
      NoTables(mem, d);
      mem, owner := mem[d := ZeroPage()], owner[d := Dir(0)];
      assert owner == old(owner)[d := Dir(0)];
      for k := 0 to 4
        invariant Valid() && Beside(old(mem), old(owner), mem, owner, d)
        invariant forall u :: 0 <= u < 0x10_0000 ==> Entry(mem, d, u) == KernelPart(data, k, u)
        invariant forall u :: HasTable(mem, d, u) <==> KernelTable(data, k, u)
        invariant |free| == |old(free)| - 1 - KernelTables(data, k)
      {
        ghost var mem1, owner1 := mem, owner;
        BesideDir(old(mem), old(owner), mem, owner, d);
        var ok := MapKernel(d, k);
        BesideExtends(lo, hi, old(mem), old(free), old(owner), mem1, owner1, mem, owner, d, {});
        if !ok {
          GoneBeside(lo, hi, old(mem), old(free), old(owner), mem, owner, d);
          BesideDir(old(mem), old(owner), mem, owner, d);
          ghost var mem2 := mem;
          Freevm(d);
          SameTrans(old(mem), mem2, mem, owner);
          return 0;
        }
      }
    }

    // A new frame, filled and mapped at page v. A frame that could not be mapped is returned held.
    method MapNew(d: int, v: nat, page: Page, perm: nat) returns (ok: bool, f: int)
      requires Valid() && IsDir(owner, d) && v < KERN && !Present(Entry(mem, d, v)) && perm < 4096
      modifies this
      ensures Valid()
      ensures ok ==> Grows(old(mem), old(owner), mem, owner, d) && 0 < f < 0x10_0000 && f !in old(owner)
      ensures ok ==> f in mem && mem[f] == page
      ensures ok ==> forall u :: 0 <= u < 0x10_0000 ==>
          Entry(mem, d, u) == if u == v then MakeEntry(f, perm) else Entry(old(mem), d, u)
      ensures !ok && f == 0 ==> mem == old(mem) && owner == old(owner)
      ensures !ok && f != 0 ==>
        f !in old(owner) && f in old(mem) && mem == old(mem)[f := page] && owner == old(owner)[f := Held]
      ensures ok <==> |old(free)| >= 1 + if HasTable(old(mem), d, v) then 0 else 1
      ensures ok ==>
        AddsTable(old(mem), mem, d, v, true) && |free| == |old(free)| - 1 - if HasTable(old(mem), d, v) then 0 else 1
    {
      hide Inv, Entry, Extends, Grows, MakeEntry, HasTable, AddsTable, AddsTables, TablesMissing, Handing;
      f := Kalloc();
      if f == 0 {
        return false, 0;
      }
      Fill(lo, hi, mem, free, owner, f, page);
      forall u | 0 <= u < 0x10_0000 ensures Entry(mem[f := page], d, u) == Entry(mem, d, u) {
        HeldHidden(lo, hi, mem, free, owner, f, page, d, u);
      }
      FilledTables(mem, d, f, page);
      mem := mem[f := page];
      ghost var mem1 := mem;
      var r;
      ghost var m;
      r, m := Mappages(d, v * PGSIZE, PGSIZE, f * PGSIZE, perm, {f});
      assert r != Remap;
      ok := r == Mapped;
      OneTable(old(mem), mem1, mem, d, v, m);
      if ok {
        OneHanded(old(owner)[f := Held], owner, d, v, f);
        GrowsMapped(old(mem), old(owner), f, page, mem, owner, d);
      }
    }

    // The state of allocuvm's loop before page v, for a process that started with mem0 and owner0.
    ghost predicate Growing(mem0: Memory, owner0: Owners, d: int, a: nat, v: nat)
      reads this
    {
      && Valid() && Grows(mem0, owner0, mem, owner, d)
      && (forall u :: 0 <= u < 0x10_0000 && !(a <= u < v) ==> Entry(mem, d, u) == Entry(mem0, d, u))
      && (forall u :: a <= u < v && u < 0x10_0000 ==> NewPage(mem, owner0, Entry(mem, d, u)))
    }

    lemma GrownPage(mem0: Memory, owner0: Owners, mem1: Memory, free1: seq<int>, owner1: Owners, d: int, a: nat,
                    v: nat, f: int)
      requires Inv(lo, hi, mem1, free1, owner1) && Grows(mem0, owner0, mem1, owner1, d) && a <= v < KERN
      requires forall u :: 0 <= u < 0x10_0000 && !(a <= u < v) ==> Entry(mem1, d, u) == Entry(mem0, d, u)
      requires forall u :: a <= u < v && u < 0x10_0000 ==> NewPage(mem1, owner0, Entry(mem1, d, u))
      requires Valid() && Grows(mem1, owner1, mem, owner, d) && 0 < f < 0x10_0000 && f !in owner1
      requires f in mem && mem[f] == ZeroPage()
      requires forall u :: 0 <= u < 0x10_0000 ==>
          Entry(mem, d, u) == if u == v then MakeEntry(f, PTE_W + PTE_U) else Entry(mem1, d, u)
      ensures Growing(mem0, owner0, d, a, v + 1)
    {
      hide Inv, Entry;
      GrowsTrans(mem0, owner0, mem1, owner1, mem, owner, d);
      assert f !in owner0;
      forall u | a <= u < v ensures NewPage(mem, owner0, Entry(mem, d, u)) {
        PageKept(lo, hi, mem1, free1, owner1, mem, owner, d, u);
      }
    }

    // allocuvm gives up: the pages made so far go back, and so does a frame that could not be mapped.
    method UndoAlloc(d: int, oldsz: nat, newsz: nat, f: int, ghost mem1: Memory, ghost free1: seq<int>,
                     ghost owner1: Owners)
      requires Valid() && Inv(lo, hi, mem1, free1, owner1) && IsDir(owner1, d) && newsz < KERNBASE
      requires f == 0 ==> mem == mem1 && owner == owner1
      requires f != 0 ==> f !in owner1 && f in mem1 && mem == mem1[f := ZeroPage()] && owner == owner1[f := Held]
      modifies this
      ensures Valid() && Shrinks(mem1, owner1, mem, owner, d, Pages(oldsz), Pages(newsz))
    {
      hide Inv, Shrinks;
      var _ := Deallocuvm(d, newsz, oldsz);
      if f != 0 {
        ShrinksHeld(lo, hi, mem1, owner1, old(free), mem, free, owner, d, Pages(oldsz), Pages(newsz), f);
        Release(f);
      }
    }

    /** Grows d from oldsz to newsz. The pages between must not be there yet, or mappages panics. On failure
        only page tables of d stay behind, and no page is left of those made. */
    method Allocuvm(d: int, oldsz: Word, newsz: Word) returns (sz: nat, ghost ok: bool)
      requires Valid() && IsDir(owner, d)
      requires forall u :: Pages(oldsz) <= u < Pages(newsz) && u < KERN ==> !Present(Entry(mem, d, u))
      modifies this
      ensures Valid()
      ensures newsz >= KERNBASE ==> !ok && sz == 0
      ensures newsz < KERNBASE && newsz < oldsz ==> ok && sz == oldsz
      ensures oldsz <= newsz < KERNBASE ==> sz == if ok then newsz else 0
      ensures ok ==> Growing(old(mem), old(owner), d, Pages(oldsz), Pages(newsz))
      ensures !ok ==> Extends(old(mem), old(owner), mem, owner, d, {})
      ensures !ok ==> forall u :: 0 <= u < 0x10_0000 ==>
          if Pages(oldsz) <= u < Pages(newsz) && u < KERN then !Present(Entry(mem, d, u))
          else Entry(mem, d, u) == Entry(old(mem), d, u)
      ensures oldsz <= newsz < KERNBASE ==> (ok <==> |old(free)| >= FramesFor(old(mem), d, Pages(oldsz), Pages(newsz)))
    {
      hide Inv, Entry, Extends, Grows, NewPage, Shrinks, HasTable, AddsTable, AddsTables, TablesMissing;
      if newsz >= KERNBASE {
        Unchanged(lo, hi, mem, free, owner, d, {});
        return 0, false;
      }
      Unchanged(lo, hi, mem, free, owner, d, {});
      if newsz < oldsz {
        return oldsz, true;
      }
      var v := Pages(oldsz);
      NoTablesYet(mem, d, v);
      while v * PGSIZE < newsz
        invariant Pages(oldsz) <= v <= Pages(newsz) && Growing(old(mem), old(owner), d, Pages(oldsz), v)
        invariant AddsTables(old(mem), mem, d, Pages(oldsz), v - Pages(oldsz))
        invariant |free| == |old(free)| - FramesFor(old(mem), d, Pages(oldsz), v)
      {
        GrowsDir(old(mem), old(owner), mem, owner, d);
        ghost var mem1, free1, owner1 := mem, free, owner;
        var done, f := MapNew(d, v, ZeroPage(), PTE_W + PTE_U);
        FramesMore(old(mem), mem1, mem, d, Pages(oldsz), v, Pages(newsz), done);
        if !done {
          UndoAlloc(d, oldsz, newsz, f, mem1, free1, owner1);
          GrowthUndone(lo, hi, old(mem), old(free), old(owner), mem1, free1, owner1, mem, owner, d, Pages(oldsz),
                       Pages(newsz));
          forall u | 0 <= u < 0x10_0000
            ensures if Pages(oldsz) <= u < Pages(newsz) then !Present(Entry(mem, d, u))
                    else Entry(mem, d, u) == Entry(old(mem), d, u)
          {
            ShrinksEntry(mem1, owner1, mem, owner, d, Pages(oldsz), Pages(newsz), u);
          }
          return 0, false;
        }
        GrownPage(old(mem), old(owner), mem1, free1, owner1, d, Pages(oldsz), v, f);
        v := v + 1;
      }
      return newsz, true;
    }

    // The state of copyuvm's loop before page v, for an old space d and a new one c.
    ghost predicate Copying(mem0: Memory, owner0: Owners, d: int, c: int, v: nat)
      reads this
    {
      && Valid() && Beside(mem0, owner0, mem, owner, c)
      && (forall u :: 0 <= u < v && u < 0x10_0000 ==> Copied(mem0, owner0, Entry(mem0, d, u), mem, Entry(mem, c, u)))
      && (forall u :: v <= u < 0x10_0000 ==> Entry(mem, c, u) == KernelEntry(data, u))
    }

    lemma CopiedPage(mem0: Memory, free0: seq<int>, owner0: Owners, mem1: Memory, free1: seq<int>,
                     owner1: Owners, d: int, c: int, v: nat, f: int)
      requires Inv(lo, hi, mem0, free0, owner0) && Inv(lo, hi, mem1, free1, owner1)
      requires Beside(mem0, owner0, mem1, owner1, c) && v < KERN
      requires forall u :: 0 <= u < v ==> Copied(mem0, owner0, Entry(mem0, d, u), mem1, Entry(mem1, c, u))
      requires forall u :: v <= u < 0x10_0000 ==> Entry(mem1, c, u) == KernelEntry(data, u)
      requires Valid() && Grows(mem1, owner1, mem, owner, c) && 0 < f < 0x10_0000 && f !in owner1
      requires Present(Entry(mem0, d, v)) && Frame(Entry(mem0, d, v)) in mem0
      requires f in mem && mem[f] == mem0[Frame(Entry(mem0, d, v))]
      requires forall u :: 0 <= u < 0x10_0000 ==>
          Entry(mem, c, u) == if u == v then MakeEntry(f, Flags(Entry(mem0, d, v))) else Entry(mem1, c, u)
      ensures Copying(mem0, owner0, d, c, v + 1)
    {
      hide Inv, Entry, KernelPart, Grows;
      BesideGrows(lo, hi, mem0, free0, owner0, mem1, owner1, mem, owner, c);
      PresentFlags(Entry(mem0, d, v));
      forall u | 0 <= u < v ensures Copied(mem0, owner0, Entry(mem0, d, u), mem, Entry(mem, c, u)) {
        PageKept(lo, hi, mem1, free1, owner1, mem, owner, c, u);
      }
    }

    // One round of copyuvm.
    method CopyPage(d: int, c: int, v: nat, ghost mem0: Memory, ghost free0: seq<int>, ghost owner0: Owners)
      returns (ok: bool)
      requires Inv(lo, hi, mem0, free0, owner0) && IsDir(owner0, d) && v < KERN && Present(Entry(mem0, d, v))
      requires Copying(mem0, owner0, d, c, v)
      modifies this
      ensures Valid() && Beside(mem0, owner0, mem, owner, c)
      ensures ok ==> Copying(mem0, owner0, d, c, v + 1)
      ensures ok <==> |old(free)| >= 1 + if HasTable(old(mem), c, v) then 0 else 1
      ensures ok ==>
        AddsTable(old(mem), mem, c, v, true) && |free| == |old(free)| - 1 - if HasTable(old(mem), c, v) then 0 else 1
    {
      hide Inv, Entry, Beside, Copied, Grows, MakeEntry, HasTable, AddsTable;
      BesideEntry(lo, hi, mem0, free0, owner0, mem, owner, c, d, v);
      CopySource(lo, hi, mem0, free0, owner0, mem, owner, c, d, v);
      ghost var mem1, free1, owner1 := mem, free, owner;
      var t := Walkpgdir(d, v, false);
      WalkedEntry(d, v, t);
      var e := mem[t][v % 1024];
      var f;
      ok, f := MapNew(c, v, mem[Frame(e)], Flags(e));
      if ok {
        CopiedPage(mem0, free0, owner0, mem1, free1, owner1, d, c, v, f);
      } else if f != 0 {
        Release(f);
        assert owner == owner1 && mem == mem1[f := JunkPage()];
        BesideHeld(mem0, owner0, mem1, owner1, mem, c, f);
      }
    }

    // A copy of the first sz bytes of d beside it, or 0 and every frame back where it was.
    method Copyuvm(d: int, sz: nat) returns (c: int)
      requires Valid() && IsDir(owner, d) && sz <= KERNBASE
      requires forall u :: 0 <= u < Pages(sz) ==> Present(Entry(mem, d, u))
      modifies this
      ensures Valid()
      ensures c == 0 ==> owner == old(owner) && SameFrames(old(mem), mem, owner)
      ensures c != 0 ==> Copying(old(mem), old(owner), d, c, Pages(sz))
      ensures c != 0 <==> |old(free)| >= KERNEL_FRAMES + Pages(sz) + (Pages(sz) + 1023) / 1024
    {
      hide Inv, Entry, Beside, Copied, Gone, HasTable, AddsTable, AddsTables, TablesMissing;
      c := Setupkvm();
      if c == 0 {
        return;
      }
      ghost var mem1 := mem;
      FramesFresh(mem1, c, Pages(sz));
      NoTablesYet(mem1, c, 0);
      var v := 0;
      while v * PGSIZE < sz
        invariant 0 <= v <= Pages(sz) && Copying(old(mem), old(owner), d, c, v)
        invariant AddsTables(mem1, mem, c, 0, v) && |free| == |old(free)| - KERNEL_FRAMES - FramesFor(mem1, c, 0, v)
      {
        ghost var mem3 := mem;
        var ok := CopyPage(d, c, v, old(mem), old(free), old(owner));
        FramesMore(mem1, mem3, mem, c, 0, v, Pages(sz), ok);
        if !ok {
          GoneBeside(lo, hi, old(mem), old(free), old(owner), mem, owner, c);
          BesideDir(old(mem), old(owner), mem, owner, c);
          ghost var mem2 := mem;
          Freevm(c);
          SameTrans(old(mem), mem2, mem, owner);
          return 0;
        }
        v := v + 1;
      }
    }
  }

  lemma PresentFlags(e: Word)
    ensures Present(e) <==> Flags(e) % 2 == 1
  {
  }

  // copyuvm finds the page it copies, which the new space has not touched.
  lemma CopySource(lo: nat, hi: nat, mem0: Memory, free0: seq<int>, o0: Owners, mem: Memory, o: Owners, c: int,
                   d: int, v: nat)
    requires Inv(lo, hi, mem0, free0, o0) && Beside(mem0, o0, mem, o, c)
    requires IsDir(o0, d) && v < KERN && Present(Entry(mem0, d, v))
    ensures IsDir(o, d) && IsDir(o, c) && Frame(Entry(mem0, d, v)) in mem0 && Frame(Entry(mem0, d, v)) in mem
    ensures mem[Frame(Entry(mem0, d, v))] == mem0[Frame(Entry(mem0, d, v))]
  {
    hide Tables, Users, Entry;
    PageFrame(lo, hi, mem0, free0, o0, d, v);
  }

  lemma BesideHeld(mem0: Memory, o0: Owners, mem1: Memory, o1: Owners, mem: Memory, c: int, f: int)
    requires Beside(mem0, o0, mem1, o1, c) && f !in o1 && f in mem1 && mem == mem1[f := JunkPage()]
    ensures Beside(mem0, o0, mem, o1, c)
  {
  }

  // Giving pages back while a frame is held, and then that frame.
  lemma ShrinksHeld(lo: nat, hi: nat, mem1: Memory, owner1: Owners, free1: seq<int>, mem2: Memory,
                    free2: seq<int>, owner2: Owners, d: int, a: int, b: int, f: int)
    requires f !in owner1 && f in mem1 && IsDir(owner1, d)
    requires Inv(lo, hi, mem1[f := ZeroPage()], free1, owner1[f := Held])
    requires Shrinks(mem1[f := ZeroPage()], owner1[f := Held], mem2, owner2, d, a, b)
    requires Inv(lo, hi, mem2, free2, owner2)
    ensures f in owner2 && owner2[f].Held? && Shrinks(mem1, owner1, mem2[f := JunkPage()], owner2 - {f}, d, a, b)
  {
    hide Inv, Entry;
    assert owner1[f := Held] - {f} == owner1;
    assert Without(owner1[f := Held], d, a, b) - {f} == Without(owner1, d, a, b);
    assert mem1 == mem1[f := ZeroPage()][f := mem1[f]];
    forall u | 0 <= u < 0x10_0000
      ensures Entry(mem1, d, u) == Entry(mem1[f := ZeroPage()], d, u)
      ensures Entry(mem2[f := JunkPage()], d, u) == Entry(mem2, d, u)
    {
      HeldHidden(lo, hi, mem1[f := ZeroPage()], free1, owner1[f := Held], f, mem1[f], d, u);
      HeldHidden(lo, hi, mem2, free2, owner2, f, JunkPage(), d, u);
    }
  }

  lemma ShrinksEntry(mem: Memory, owner: Owners, mem': Memory, owner': Owners, d: int, a: int, b: int, u: nat)
    requires Shrinks(mem, owner, mem', owner', d, a, b) && u < 0x10_0000
    ensures if a <= u < b then !Present(Entry(mem', d, u)) else Entry(mem', d, u) == Entry(mem, d, u)
  {
  }

  lemma Unchanged(lo: nat, hi: nat, mem: Memory, free: seq<int>, owner: Owners, d: int, x: set<int>)
    requires Inv(lo, hi, mem, free, owner) && IsDir(owner, d)
    ensures Extends(mem, owner, mem, owner, d, x) && Grows(mem, owner, mem, owner, d)
  {
    hide Tables, Users;
    ExtendsSelf(lo, hi, mem, free, owner, d, x);
    GrowsSelf(lo, hi, mem, free, owner, d);
  }

  lemma GrowsDir(mem: Memory, owner: Owners, mem': Memory, owner': Owners, d: int)
    requires Grows(mem, owner, mem', owner', d)
    ensures IsDir(owner, d) && IsDir(owner', d)
  {
  }

  // What is in a held frame is no part of any entry.
  lemma HeldHidden(lo: nat, hi: nat, mem: Memory, free: seq<int>, owner: Owners, f: int, page: Page, d: int, u: nat)
    requires Inv(lo, hi, mem, free, owner) && f in owner && owner[f].Held? && IsDir(owner, d) && u < 0x10_0000
    ensures Entry(mem[f := page], d, u) == Entry(mem, d, u)
  {
    hide Users;
  }

  datatype Kmap = Kmap(virt: Word, start: Word, end: Word, perm: nat) {
    // phys_end - phys_start, unsigned.
    function Size(): nat {
      (end - start) % UINT_LIMIT
    }
  }

  function Kmaps(data: nat): seq<Kmap>
    requires EXT < data < PHYS
  {
    [Kmap(KERNBASE, 0, EXT * PGSIZE, PTE_W),
     Kmap(KERNBASE + EXT * PGSIZE, EXT * PGSIZE, data * PGSIZE, 0),
     Kmap(KERNBASE + data * PGSIZE, data * PGSIZE, PHYS * PGSIZE, PTE_W),
     Kmap(DEV * PGSIZE, DEV * PGSIZE, 0, PTE_W)]
  }

  predicate KmapPages(data: nat, k: nat, u: nat)
    requires EXT < data < PHYS && k < 4
  {
    var e := Kmaps(data)[k];
    e.virt / PGSIZE <= u <= (e.virt + e.Size() - 1) / PGSIZE
  }

  lemma KernelNext(data: nat, k: nat, u: nat)
    requires EXT < data < PHYS && k < 4 && u < 0x10_0000
    ensures var e := Kmaps(data)[k];
            && (KmapPages(data, k, u) ==>
                  && e.start / PGSIZE + u - e.virt / PGSIZE < 0x10_0000 && KernelPart(data, k, u) == 0
                  && KernelPart(data, k + 1, u) == MakeEntry(e.start / PGSIZE + u - e.virt / PGSIZE, e.perm))
            && (!KmapPages(data, k, u) ==> KernelPart(data, k + 1, u) == KernelPart(data, k, u))
  {
    hide MakeEntry;
  }

  lemma EmptyDir(mem: Memory, d: int, data: nat, u: nat)
    requires u < 0x10_0000
    ensures Entry(mem[d := ZeroPage()], d, u) == KernelPart(data, 0, u)
  {
  }

  lemma SameSelf(lo: nat, hi: nat, mem: Memory, free: seq<int>, owner: Owners)
    requires Inv(lo, hi, mem, free, owner)
    ensures SameFrames(mem, mem, owner)
  {
  }

  lemma SameTrans(m0: Memory, m1: Memory, m2: Memory, o: Owners)
    requires SameFrames(m0, m1, o) && SameFrames(m1, m2, o)
    ensures SameFrames(m0, m2, o)
  {
  }

  lemma BesideDir(mem: Memory, o0: Owners, mem': Memory, o: Owners, d: int)
    requires Beside(mem, o0, mem', o, d)
    ensures IsDir(o, d) && SameFrames(mem, mem', o0)
  {
  }

  // The entries the first k mappings of the kernel half make.
  function KernelPart(data: nat, k: nat, u: nat): Word
    requires u < 0x10_0000
  {
    if k > 0 && KERN <= u < KERN + EXT then MakeEntry(u - KERN, PTE_W)
    else if k > 1 && KERN + EXT <= u < KERN + data then MakeEntry(u - KERN, 0)
    else if k > 2 && KERN + data <= u < KERN + PHYS && data >= EXT then MakeEntry(u - KERN, PTE_W)
    else if k > 3 && DEV <= u then MakeEntry(u, PTE_W)
    else 0
  }

  // The kernel half of every address space.
  function KernelEntry(data: nat, u: nat): Word
    requires u < 0x10_0000
  {
    KernelPart(data, 4, u)
  }

  // Frame f goes to a page of the user half.
  predicate HandedOver(va: nat, size: nat, pa: nat, f: int) {
    var k := f - pa / PGSIZE;
    size >= 1 && k >= 0 && va / PGSIZE + k <= (va + size - 1) / PGSIZE && va / PGSIZE + k < KERN
  }

  // The first m frames were handed over where they had to be; all other owners are as before.
  ghost predicate Handing(o0: Owners, o: Owners, d: int, va: nat, size: nat, pa: nat, m: nat) {
    && (forall f :: HandedOver(va, size, pa, f) && f < pa / PGSIZE + m ==> f in o && IsPageOf(o[f], d))
    && (forall f :: f in o0 && !(HandedOver(va, size, pa, f) && f < pa / PGSIZE + m) ==> f in o && o[f] == o0[f])
  }

  lemma NothingHanded(o: Owners, d: int, va: nat, size: nat, pa: nat)
    ensures Handing(o, o, d, va, size, pa, 0)
  {
  }

  lemma NextHanded(o0: Owners, o: Owners, d: int, va: nat, size: nat, pa: nat, m: nat)
    requires Handing(o0, o, d, va, size, pa, m) && size >= 1 && va / PGSIZE + m <= (va + size - 1) / PGSIZE
    requires forall f :: HandedOver(va, size, pa, f) ==> f in o0
    ensures var p := pa / PGSIZE + m;
            va / PGSIZE + m < KERN ==> HandedOver(va, size, pa, p) && p in o0 && p in o && o[p] == o0[p]
  {
  }

  lemma HandedMore(o0: Owners, o1: Owners, o2: Owners, d: int, va: nat, size: nat, pa: nat, m: nat, mapped: bool)
    requires Handing(o0, o1, d, va, size, pa, m) && size >= 1 && va / PGSIZE + m <= (va + size - 1) / PGSIZE
    requires var p, v := pa / PGSIZE + m, va / PGSIZE + m;
             && (forall f :: f in o1 && (f != p || v >= KERN || !mapped) ==> f in o2 && o2[f] == o1[f])
             && (v < KERN && mapped ==> p in o2 && IsPageOf(o2[p], d))
    ensures Handing(o0, o2, d, va, size, pa, if mapped then m + 1 else m)
  {
  }

  // ---- how many tables are needed ----

  // Directory d has a table for page v.
  predicate HasTable(mem: Memory, d: int, v: int) {
    d in mem && 0 <= v < 0x10_0000 && Present(mem[d][v / 1024])
  }

  lemma EntryHasTable(mem: Memory, d: int, v: nat)
    requires v < 0x10_0000
    ensures Present(Entry(mem, d, v)) ==> HasTable(mem, d, v)
  {
  }

  // Directory d has the tables it had and, if added, the one for page v.
  ghost predicate AddsTable(mem: Memory, mem': Memory, d: int, v: nat, added: bool) {
    forall u :: HasTable(mem', d, u) <==> HasTable(mem, d, u) || (added && 0 <= u < 0x10_0000 && u / 1024 == v / 1024)
  }

  // Directory d has the tables it had and those for the m pages from a on.
  ghost predicate AddsTables(mem: Memory, mem': Memory, d: int, a: nat, m: nat) {
    forall u :: HasTable(mem', d, u) <==>
                HasTable(mem, d, u) || (m > 0 && 0 <= u < 0x10_0000 && a / 1024 <= u / 1024 <= (a + m - 1) / 1024)
  }

  // How many tables are missing for the m pages from a on.
  function TablesMissing(mem: Memory, d: int, a: nat, m: nat): nat {
    if m == 0 then 0
    else TablesMissing(mem, d, a, m - 1)
         + if HasTable(mem, d, a + m - 1) || (m > 1 && (a + m - 1) / 1024 == (a + m - 2) / 1024) then 0 else 1
  }

  // A directory and the tables of the kernel half.
  const KERNEL_FRAMES := 65

  // The tables the first k mappings of the kernel half need, and how many they are.
  predicate KernelTable(data: nat, k: nat, u: int) {
    && 0 <= u < 0x10_0000
    && ((k >= 1 && u / 1024 == 512)
        || (k >= 2 && 512 <= u / 1024 <= (KERN + data - 1) / 1024)
        || (k >= 3 && 512 <= u / 1024 <= (KERN + PHYS - 1) / 1024)
        || (k >= 4 && DEV <= u))
  }

  function KernelTables(data: nat, k: nat): int {
    if k == 0 then 0 else if k == 1 then 1 else if k == 2 then (data - 1) / 1024 + 1 else if k == 3 then 56 else 64
  }

  lemma NoTables(mem: Memory, d: int)
    ensures var mem' := mem[d := ZeroPage()]; forall u :: !HasTable(mem', d, u)
  {
  }

  lemma {:induction false} TablesExact(mem: Memory, d: int, a: nat, m: nat)
    requires m > 0 && forall u :: a <= u < a + m && u / 1024 != a / 1024 ==> !HasTable(mem, d, u)
    requires forall u :: a <= u < a + m && u / 1024 == a / 1024 ==> (HasTable(mem, d, u) <==> HasTable(mem, d, a))
    ensures TablesMissing(mem, d, a, m) == (a + m - 1) / 1024 - a / 1024 + if HasTable(mem, d, a) then 0 else 1
    decreases m
  {
    hide HasTable;
    if m > 1 {
      TablesExact(mem, d, a, m - 1);
    } else {
      assert TablesMissing(mem, d, a, 0) == 0;
    }
  }

  lemma {:induction false} TablesGrow(mem: Memory, d: int, a: nat, m: nat, n: nat)
    requires m <= n
    ensures TablesMissing(mem, d, a, m) <= TablesMissing(mem, d, a, n)
    decreases n - m
  {
    if m < n {
      TablesGrow(mem, d, a, m, n - 1);
    }
  }

  // The first page of the k-th mapping and how many it has.
  function KmapFirst(data: nat, k: nat): nat {
    if k == 0 then KERN else if k == 1 then KERN + EXT else if k == 2 then KERN + data else DEV
  }

  function KmapCount(data: nat, k: nat): nat
    requires EXT < data < PHYS
  {
    if k == 0 then EXT else if k == 1 then data - EXT else if k == 2 then PHYS - data else 0x2000
  }

  lemma KmapSpan(data: nat, k: nat)
    requires EXT < data < PHYS && k < 4
    ensures var e := Kmaps(data)[k];
            && e.virt / PGSIZE == KmapFirst(data, k)
            && (e.virt + e.Size() - 1) / PGSIZE + 1 == KmapFirst(data, k) + KmapCount(data, k)
  {
  }

  // Of the k-th mapping at most the first table was there before.
  lemma KernelTableBefore(data: nat, k: nat, u: int)
    requires EXT < data < PHYS && k < 4 && KmapFirst(data, k) <= u < KmapFirst(data, k) + KmapCount(data, k)
    ensures KernelTable(data, k, u) <==>
      u / 1024 == KmapFirst(data, k) / 1024 && KernelTable(data, k, KmapFirst(data, k))
  {
  }

  lemma KernelTableAfter(data: nat, k: nat, u: int)
    requires EXT < data < PHYS && k < 4
    ensures KernelTable(data, k + 1, u) <==>
      KernelTable(data, k, u)
      || (0 <= u < 0x10_0000
          && KmapFirst(data, k) / 1024 <= u / 1024 <= (KmapFirst(data, k) + KmapCount(data, k) - 1) / 1024)
  {
  }

  lemma KernelTablesCount(data: nat, k: nat)
    requires EXT < data < PHYS && k < 4
    ensures KernelTables(data, k + 1) - KernelTables(data, k)
      == (KmapFirst(data, k) + KmapCount(data, k) - 1) / 1024 - KmapFirst(data, k) / 1024
         + if KernelTable(data, k, KmapFirst(data, k)) then 0 else 1
  {
  }

  // The tables of the k-th mapping.
  lemma KernelTablesMore(data: nat, k: nat, mem: Memory, mem': Memory, d: int, m: nat)
    requires EXT < data < PHYS && k < 4 && (forall u :: HasTable(mem, d, u) <==> KernelTable(data, k, u))
    requires AddsTables(mem, mem', d, KmapFirst(data, k), m) && m <= KmapCount(data, k)
    ensures var a, n := KmapFirst(data, k), KmapCount(data, k);
            && TablesMissing(mem, d, a, n) == KernelTables(data, k + 1) - KernelTables(data, k)
            && (m == n ==> forall u :: HasTable(mem', d, u) <==> KernelTable(data, k + 1, u))
            && (m < n ==> TablesMissing(mem, d, a, m + 1) <= TablesMissing(mem, d, a, n))
  {
    hide HasTable, TablesMissing, KernelTable, KernelTables;
    var a, n := KmapFirst(data, k), KmapCount(data, k);
    forall u | a <= u < a + n
      ensures HasTable(mem, d, u) <==> u / 1024 == a / 1024 && HasTable(mem, d, a)
    {
      KernelTableBefore(data, k, u);
    }
    TablesExact(mem, d, a, n);
    KernelTablesCount(data, k);
    if m < n {
      TablesGrow(mem, d, a, m + 1, n);
    } else {
      forall u ensures HasTable(mem', d, u) <==> KernelTable(data, k + 1, u) {
        KernelTableAfter(data, k, u);
      }
    }
  }

  // The frames for pages a .. b of d: one each, and the tables that are missing.
  function FramesFor(mem: Memory, d: int, a: nat, b: nat): nat
    requires a <= b
  {
    b - a + TablesMissing(mem, d, a, b - a)
  }

  lemma FramesMore(mem: Memory, mem1: Memory, mem2: Memory, d: int, a: nat, v: nat, b: nat, done: bool)
    requires a <= v < b <= 0x10_0000 && AddsTables(mem, mem1, d, a, v - a)
    requires (done ==> AddsTable(mem1, mem2, d, v, true))
    ensures FramesFor(mem, d, a, v + 1) == FramesFor(mem, d, a, v) + 1 + if HasTable(mem1, d, v) then 0 else 1
    ensures FramesFor(mem, d, a, v + 1) <= FramesFor(mem, d, a, b)
    ensures done ==> AddsTables(mem, mem2, d, a, v + 1 - a)
  {
    hide HasTable, TablesMissing;
    TablesMore(mem, mem1, if done then mem2 else mem1, d, a, v - a, done);
    TablesGrow(mem, d, a, v + 1 - a, b - a);
  }

  // In an address space with the kernel half only.
  lemma FramesFresh(mem: Memory, d: int, n: nat)
    requires n <= KERN && forall u :: 0 <= u < KERN ==> !HasTable(mem, d, u)
    ensures FramesFor(mem, d, 0, n) == n + (n + 1023) / 1024
  {
    hide HasTable, TablesMissing;
    if n > 0 {
      TablesExact(mem, d, 0, n);
    } else {
      NoTablesYet(mem, d, 0);
    }
  }

  lemma FilledTables(mem: Memory, d: int, f: int, page: Page)
    requires f != d
    ensures var mem' := mem[f := page]; forall u :: HasTable(mem', d, u) <==> HasTable(mem, d, u)
  {
  }

  lemma OneTable(mem: Memory, mem1: Memory, mem2: Memory, d: int, v: nat, m: nat)
    requires (forall u :: HasTable(mem1, d, u) <==> HasTable(mem, d, u)) && AddsTables(mem1, mem2, d, v, m) && m <= 1
    ensures TablesMissing(mem1, d, v, 0) == 0 && TablesMissing(mem1, d, v, 1) == if HasTable(mem, d, v) then 0 else 1
    ensures m == 1 ==> AddsTable(mem, mem2, d, v, true)
  {
    hide HasTable;
    assert TablesMissing(mem1, d, v, 0) == 0;
  }

  lemma OneHanded(o0: Owners, o: Owners, d: int, v: nat, f: nat)
    requires Handing(o0, o, d, v * PGSIZE, PGSIZE, f * PGSIZE, 1) && v < KERN
    ensures f in o && IsPageOf(o[f], d)
  {
    assert HandedOver(v * PGSIZE, PGSIZE, f * PGSIZE, f);
  }

  lemma NoTablesYet(mem: Memory, d: int, a: nat)
    ensures AddsTables(mem, mem, d, a, 0) && TablesMissing(mem, d, a, 0) == 0
  {
  }

  // The next page needs a table exactly if d has none for it by now.
  lemma TablesMore(mem: Memory, mem1: Memory, mem2: Memory, d: int, a: nat, m: nat, added: bool)
    requires AddsTables(mem, mem1, d, a, m) && AddsTable(mem1, mem2, d, a + m, added) && a + m < 0x10_0000
    ensures TablesMissing(mem, d, a, m + 1) == TablesMissing(mem, d, a, m) + if HasTable(mem1, d, a + m) then 0 else 1
    ensures AddsTables(mem, mem2, d, a, if added then m + 1 else m)
  {
    hide HasTable;
  }

  // PGROUNDUP(sz) / PGSIZE.
  function Pages(sz: nat): nat {
    (sz + PGSIZE - 1) / PGSIZE
  }
}
