/** Two-level page tables in physical memory (kernel/vm.c) and who owns every page frame. A frame number
    is a physical address divided by PGSIZE; a virtual page number is split into directory and table index. */
module PageTables {
  import opened Blocks

  const NENTRIES := 1024
  // Directory entries below KERNBASE.
  const NUSER := 512

  // A frame seen as 1024 words.
  type Page = s: seq<Word> | |s| == 1024 witness seq(1024, _ => 0)

  type Memory = map<int, Page>

  function ZeroPage(): Page {
    seq(1024, _ => 0)
  }

  // What kfree fills a page with.
  function JunkPage(): Page {
    seq(1024, _ => 0x01010101)
  }

  predicate Present(e: Word) {
    e % 2 == 1
  }

  function Frame(e: Word): nat {
    e / 4096
  }

  function Flags(e: Word): nat {
    e % 4096
  }

  // pa | perm | PTE_P for a page-aligned pa.
  function MakeEntry(f: nat, perm: nat): (e: Word)
    requires f < 0x10_0000 && perm < 4096
    ensures Present(e) && Frame(e) == f && Flags(e) == if perm % 2 == 1 then perm else perm + 1
  {
    var p := if perm % 2 == 1 then perm else perm + 1;
    EntryParts(f, p);
    f * 4096 + p
  }

  lemma EntryParts(f: nat, p: nat)
    requires p < 4096 && p % 2 == 1
    ensures (f * 4096 + p) % 2 == 1 && (f * 4096 + p) / 4096 == f && (f * 4096 + p) % 4096 == p
  {
    assert f * 4096 + p == 2 * (f * 2048 + p / 2) + 1;
  }

  /** Why a frame is not free: held by its allocator, a page directory whose first `freed` tables were
      already given back, the i-th table of directory d, or the user page behind entry j of that table. */
  datatype Owner = Held | Dir(freed: nat) | Table(d: int, i: nat) | User(d: int, i: nat, j: nat)

  type Owners = map<int, Owner>

  // Entry i of directory d is in use and leads to frame t.
  predicate DirEntry(mem: Memory, owner: Owners, d: int, i: nat, t: int) {
    && d in owner && d in mem && owner[d].Dir? && owner[d].freed <= i < 1024
    && Present(mem[d][i]) && Frame(mem[d][i]) == t
  }

  // Entry j of table i of directory d is in use and leads to frame f.
  predicate UserEntry(mem: Memory, owner: Owners, d: int, i: nat, j: nat, f: int) {
    && i < NUSER && j < 1024 && d in mem
    && var t := Frame(mem[d][i]);
       && DirEntry(mem, owner, d, i, t) && t in mem && t in owner && owner[t] == Table(d, i)
       && Present(mem[t][j]) && Frame(mem[t][j]) == f
  }

  predicate Distinct(s: seq<int>) {
    forall i, j :: 0 <= i < j < |s| ==> s[i] != s[j]
  }

  // Every frame is on the free list, once, or has an owner.
  ghost predicate Frames(lo: nat, hi: nat, mem: Memory, free: seq<int>, owner: Owners) {
    && 1 <= lo <= hi <= 0x10_0000
    && Distinct(free)
    && (forall f :: f in free <==> lo <= f < hi && f !in owner)
    && (forall f :: f in owner ==> lo <= f < hi)
    && (forall f :: lo <= f < hi ==> f in mem)
  }

  // The tables are those the directories point to.
  ghost predicate Tables(mem: Memory, owner: Owners) {
    && (forall d, i :: d in owner && d in mem && owner[d].Dir? && owner[d].freed <= i < 1024 && Present(mem[d][i]) ==>
          Frame(mem[d][i]) in owner && owner[Frame(mem[d][i])] == Table(d, i))
    && (forall t :: t in owner && owner[t].Table? ==> DirEntry(mem, owner, owner[t].d, owner[t].i, t))
  }

  // The user pages are those the user half of the tables points to.
  ghost predicate Users(mem: Memory, owner: Owners) {
    && (forall t, j :: t in owner && t in mem && owner[t].Table? && owner[t].i < NUSER && 0 <= j < 1024
                       && Present(mem[t][j]) ==>
          Frame(mem[t][j]) in owner && owner[Frame(mem[t][j])] == User(owner[t].d, owner[t].i, j))
    && (forall f :: f in owner && owner[f].User? ==> UserEntry(mem, owner, owner[f].d, owner[f].i, owner[f].j, f))
  }

  ghost predicate Inv(lo: nat, hi: nat, mem: Memory, free: seq<int>, owner: Owners) {
    Frames(lo, hi, mem, free, owner) && Tables(mem, owner) && Users(mem, owner)
  }

  // The entry for virtual page v, 0 where there is no table.
  function Entry(mem: Memory, d: int, v: nat): Word
    requires v < 0x10_0000
  {
    if d in mem && Present(mem[d][v / 1024]) && Frame(mem[d][v / 1024]) in mem
    then mem[Frame(mem[d][v / 1024])][v % 1024] else 0
  }

  predicate IsDir(owner: Owners, d: int) {
    d in owner && owner[d] == Dir(0)
  }

  // ---- kalloc and kfree ----

  lemma Kalloc(lo: nat, hi: nat, mem: Memory, free: seq<int>, owner: Owners)
    requires Inv(lo, hi, mem, free, owner) && |free| > 0
    ensures free[0] !in owner && lo <= free[0] < hi
    ensures Inv(lo, hi, mem, free[1..], owner[free[0] := Held])
  {
    var f, owner' := free[0], owner[free[0] := Held];
    assert f in free;
    forall g
      ensures g in free[1..] <==> g in free && g != f
    {
      if g in free && g != f {
        var k :| 0 <= k < |free| && free[k] == g;
        assert free[1..][k - 1] == g;
      }
    }
  }

  lemma Kfree(lo: nat, hi: nat, mem: Memory, free: seq<int>, owner: Owners, f: int)
    requires Inv(lo, hi, mem, free, owner) && f in owner && owner[f] == Held
    ensures Inv(lo, hi, mem[f := JunkPage()], [f] + free, owner - {f})
  {
    var free', owner', mem' := [f] + free, owner - {f}, mem[f := JunkPage()];
    assert forall g :: g in free' <==> g == f || g in free;
  }

  // ---- steps on the tables ----

  lemma FramesKept(lo: nat, hi: nat, mem: Memory, free: seq<int>, owner: Owners, mem': Memory, owner': Owners)
    requires Frames(lo, hi, mem, free, owner) && mem'.Keys == mem.Keys && owner'.Keys == owner.Keys
    ensures Frames(lo, hi, mem', free, owner')
  {
    assert forall f :: f in owner' <==> f in owner.Keys;
    assert forall f :: f in mem' <==> f in mem.Keys;
  }

  lemma TablesKept(mem: Memory, owner: Owners, t: int, page: Page, owner': Owners)
    requires Tables(mem, owner) && t in owner && t in mem && owner[t].Table?
    requires forall g :: g in owner <==> g in owner'
    requires forall g :: g in owner && owner'[g] != owner[g] ==>
      (owner[g].Held? || owner[g].User?) && (owner'[g].Held? || owner'[g].User?)
    ensures Tables(mem[t := page], owner')
  {
  }

  lemma TableEntry(mem: Memory, owner: Owners, t: int)
    requires Tables(mem, owner) && t in owner && owner[t].Table?
    ensures DirEntry(mem, owner, owner[t].d, owner[t].i, t)
  {
  }

  // What is in a held frame or a user page is nobody's concern.
  lemma Fill(lo: nat, hi: nat, mem: Memory, free: seq<int>, owner: Owners, f: int, page: Page)
    requires Inv(lo, hi, mem, free, owner) && f in owner && (owner[f].Held? || owner[f].User?)
    ensures Inv(lo, hi, mem[f := page], free, owner)
  {
  }

  lemma NewDir(lo: nat, hi: nat, mem: Memory, free: seq<int>, owner: Owners, d: int)
    requires Inv(lo, hi, mem, free, owner) && d in owner && owner[d].Held?
    ensures Inv(lo, hi, mem[d := ZeroPage()], free, owner[d := Dir(0)])
  {
    var mem', owner' := mem[d := ZeroPage()], owner[d := Dir(0)];
    assert forall i :: 0 <= i < 1024 ==> !Present(mem'[d][i]);
  }

  lemma NewTable(lo: nat, hi: nat, mem: Memory, free: seq<int>, owner: Owners, d: int, i: nat, t: int, e: Word)
    requires Inv(lo, hi, mem, free, owner) && IsDir(owner, d) && i < 1024 && d in mem && !Present(mem[d][i])
    requires t in owner && owner[t].Held? && Present(e) && Frame(e) == t
    ensures Inv(lo, hi, mem[t := ZeroPage()][d := mem[d][i := e]], free, owner[t := Table(d, i)])
  {
    var mem', owner' := mem[t := ZeroPage()][d := mem[d][i := e]], owner[t := Table(d, i)];
    assert forall j :: 0 <= j < 1024 ==> !Present(mem'[t][j]);
  }

  lemma PutUser(lo: nat, hi: nat, mem: Memory, free: seq<int>, owner: Owners, t: int, j: nat, f: int, e: Word)
    requires Inv(lo, hi, mem, free, owner) && t in owner && owner[t].Table? && owner[t].i < NUSER && j < 1024
    requires t in mem && !Present(mem[t][j]) && f in owner && owner[f].Held? && Present(e) && Frame(e) == f
    ensures Inv(lo, hi, mem[t := mem[t][j := e]], free, owner[f := User(owner[t].d, owner[t].i, j)])
  {
    hide Frames, Tables;
    var mem', owner' := mem[t := mem[t][j := e]], owner[f := User(owner[t].d, owner[t].i, j)];
    FramesKept(lo, hi, mem, free, owner, mem', owner');
    TablesKept(mem, owner, t, mem'[t], owner');
    TableEntry(mem, owner, t);
  }

  lemma PutKernel(lo: nat, hi: nat, mem: Memory, free: seq<int>, owner: Owners, t: int, j: nat, e: Word)
    requires Inv(lo, hi, mem, free, owner) && t in owner && owner[t].Table?
    requires owner[t].i >= NUSER && j < 1024 && t in mem
    ensures Inv(lo, hi, mem[t := mem[t][j := e]], free, owner)
  {
  }

  lemma ClearUser(lo: nat, hi: nat, mem: Memory, free: seq<int>, owner: Owners, t: int, j: nat)
    requires Inv(lo, hi, mem, free, owner) && t in owner && owner[t].Table? && owner[t].i < NUSER && j < 1024
    requires t in mem && Present(mem[t][j])
    ensures Frame(mem[t][j]) in owner && owner[Frame(mem[t][j])] == User(owner[t].d, owner[t].i, j)
    ensures Inv(lo, hi, mem[t := mem[t][j := 0]], free, owner[Frame(mem[t][j]) := Held])
  {
    hide Frames, Tables;
    var f := Frame(mem[t][j]);
    var mem', owner' := mem[t := mem[t][j := 0]], owner[f := Held];
    FramesKept(lo, hi, mem, free, owner, mem', owner');
    TablesKept(mem, owner, t, mem'[t], owner');
    TableEntry(mem, owner, t);
    forall u | u in owner && owner[u] == owner[t] ensures u == t {
      TableEntry(mem, owner, u);
    }
  }

  // freevm gives the k-th table back; the directory entry stays as it is.
  lemma DropTable(lo: nat, hi: nat, mem: Memory, free: seq<int>, owner: Owners, d: int, k: nat, t: int)
    requires Inv(lo, hi, mem, free, owner) && d in owner && owner[d] == Dir(k) && k < 1024 && d in mem
    requires Present(mem[d][k]) && Frame(mem[d][k]) == t
    requires forall f :: f in owner && owner[f].User? ==> owner[f].d != d
    ensures t in owner && owner[t] == Table(d, k)
    ensures Inv(lo, hi, mem, free, owner[t := Held][d := Dir(k + 1)])
  {
  }

  lemma SkipTable(lo: nat, hi: nat, mem: Memory, free: seq<int>, owner: Owners, d: int, k: nat)
    requires Inv(lo, hi, mem, free, owner) && d in owner && owner[d] == Dir(k) && k < 1024 && d in mem
    requires !Present(mem[d][k])
    ensures Inv(lo, hi, mem, free, owner[d := Dir(k + 1)])
  {
  }

  lemma DropDir(lo: nat, hi: nat, mem: Memory, free: seq<int>, owner: Owners, d: int)
    requires Inv(lo, hi, mem, free, owner) && d in owner && owner[d] == Dir(1024)
    ensures Inv(lo, hi, mem, free, owner[d := Held])
  {
  }

  // ---- what an operation on directory d leaves alone ----

  predicate IsTableOf(o: Owner, d: int) {
    o.Table? && o.d == d
  }

  predicate IsPageOf(o: Owner, d: int) {
    o.User? && o.d == d
  }

  // Only d and its tables were written, frames were taken only for tables of d, and of the frames of
  // others only those in x changed hands, to become pages of d.
  ghost predicate Extends(mem: Memory, owner: Owners, mem': Memory, owner': Owners, d: int, x: set<int>) {
    && IsDir(owner, d) && IsDir(owner', d)
    && (forall f :: f in owner ==>
          f in owner' && (owner'[f] == owner[f] || (f in x && owner[f].Held? && IsPageOf(owner'[f], d))))
    && (forall f :: f in owner' && f !in owner ==> IsTableOf(owner'[f], d))
    && (forall f :: f in owner && f != d && !IsTableOf(owner[f], d) ==> f in mem && f in mem' && mem'[f] == mem[f])
  }

  lemma ExtendsSelf(lo: nat, hi: nat, mem: Memory, free: seq<int>, owner: Owners, d: int, x: set<int>)
    requires Frames(lo, hi, mem, free, owner) && IsDir(owner, d)
    ensures Extends(mem, owner, mem, owner, d, x)
  {
  }

  lemma ExtendsDir(mem: Memory, owner: Owners, mem': Memory, owner': Owners, d: int, x: set<int>)
    requires Extends(mem, owner, mem', owner', d, x)
    ensures IsDir(owner', d) && owner.Keys <= owner'.Keys
  {
    forall f | f in owner.Keys ensures f in owner'.Keys {
      assert f in owner;
    }
  }

  lemma ExtendsTrans(m0: Memory, o0: Owners, m1: Memory, o1: Owners, m2: Memory, o2: Owners, d: int, x: set<int>)
    requires Extends(m0, o0, m1, o1, d, x) && Extends(m1, o1, m2, o2, d, x)
    ensures Extends(m0, o0, m2, o2, d, x)
  {
  }

  // Hence the other address spaces look as before.
  lemma OtherEntries(mem: Memory, owner: Owners, mem': Memory, owner': Owners, d: int, x: set<int>, c: int, v: nat)
    requires Tables(mem, owner) && Extends(mem, owner, mem', owner', d, x) && IsDir(owner, c) && c != d && v < 0x10_0000
    ensures Entry(mem', c, v) == Entry(mem, c, v)
  {
  }

  // A table entry that was written is the only one that changed.
  lemma PutEntry(lo: nat, hi: nat, mem: Memory, free: seq<int>, owner: Owners, t: int, j: nat, e: Word, c: int, v: nat)
    requires Inv(lo, hi, mem, free, owner) && t in owner && t in mem && owner[t].Table? && j < 1024
    requires IsDir(owner, c) && v < 0x10_0000
    ensures Entry(mem[t := mem[t][j := e]], c, v)
      == if c == owner[t].d && v == owner[t].i * 1024 + j then e else Entry(mem, c, v)
  {
    hide Users;
    assert DirEntry(mem, owner, owner[t].d, owner[t].i, t);
  }

  // A new table changes no entry.
  lemma TableEntries(lo: nat, hi: nat, mem: Memory, free: seq<int>, owner: Owners, d: int, i: nat, t: int,
                     e: Word, c: int, v: nat)
    requires Inv(lo, hi, mem, free, owner) && IsDir(owner, d) && i < 1024 && d in mem && !Present(mem[d][i])
    requires t in owner && owner[t].Held? && Present(e) && Frame(e) == t
    requires IsDir(owner, c) && v < 0x10_0000
    ensures Entry(mem[t := ZeroPage()][d := mem[d][i := e]], c, v) == Entry(mem, c, v)
  {
    hide Users;
  }

  // The pages of a directory are those its user entries show.
  lemma PagesShown(lo: nat, hi: nat, mem: Memory, free: seq<int>, owner: Owners, d: int, i: nat, j: nat)
    requires Inv(lo, hi, mem, free, owner) && IsDir(owner, d) && i < NUSER && j < 1024
    ensures Present(Entry(mem, d, i * 1024 + j)) ==>
        Frame(Entry(mem, d, i * 1024 + j)) in owner && owner[Frame(Entry(mem, d, i * 1024 + j))] == User(d, i, j)
    ensures forall f :: f in owner && owner[f] == User(d, i, j) ==>
        Present(Entry(mem, d, i * 1024 + j)) && Frame(Entry(mem, d, i * 1024 + j)) == f
  {
    assert (i * 1024 + j) / 1024 == i && (i * 1024 + j) % 1024 == j;
    assert d in mem;
    if Present(mem[d][i]) { assert owner[Frame(mem[d][i])] == Table(d, i); }
  }

  // ---- giving pages back ----

  predicate InSpan(o: Owner, d: int, a: int, b: int) {
    IsPageOf(o, d) && a <= o.i * 1024 + o.j < b
  }

  // The owners after the pages a .. b of d were given back.
  function Without(owner: Owners, d: int, a: int, b: int): Owners {
    map f | f in owner && !InSpan(owner[f], d, a, b) :: owner[f]
  }

  // Directory d lost its pages a .. b and nothing else changed.
  ghost predicate Shrinks(mem: Memory, owner: Owners, mem': Memory, owner': Owners, d: int, a: int, b: int) {
    && owner' == Without(owner, d, a, b)
    && (forall f :: f in owner' && !IsTableOf(owner[f], d) ==> f in mem && f in mem' && mem'[f] == mem[f])
    && (forall u :: 0 <= u < 0x10_0000 ==>
          Entry(mem', d, u) == if a <= u < b && Present(Entry(mem, d, u)) then 0 else Entry(mem, d, u))
  }

  lemma ShrinksSelf(lo: nat, hi: nat, mem: Memory, free: seq<int>, owner: Owners, d: int, a: int)
    requires Frames(lo, hi, mem, free, owner)
    ensures Shrinks(mem, owner, mem, owner, d, a, a)
  {
    assert forall f :: f in owner ==> !InSpan(owner[f], d, a, a);
    assert Without(owner, d, a, a) == owner;
  }

  // Page v given back: its frame is junk and free, its entry 0.
  lemma ShrinkPage(lo: nat, hi: nat, mem: Memory, free: seq<int>, owner: Owners, t: int, v: nat)
    requires Inv(lo, hi, mem, free, owner) && v < 0x8_0000
    requires t in owner && t in mem && owner[t].Table? && owner[t].i == v / 1024
    requires IsDir(owner, owner[t].d) && Present(mem[t][v % 1024])
    ensures var d, j, f := owner[t].d, v % 1024, Frame(mem[t][v % 1024]);
            && lo <= f < hi && f in owner && f != t
            && var mem' := mem[f := JunkPage()][t := mem[t][j := 0]];
               Inv(lo, hi, mem', [f] + free, owner - {f}) && Shrinks(mem, owner, mem', owner - {f}, d, v, v + 1)
  {
    hide Tables, Users, Entry;
    var d, i, j, f := owner[t].d, owner[t].i, v % 1024, Frame(mem[t][v % 1024]);
    ClearUser(lo, hi, mem, free, owner, t, j);
    var mem1 := mem[t := mem[t][j := 0]];
    Kfree(lo, hi, mem1, free, owner[f := Held], f);
    var mem', owner' := mem[f := JunkPage()][t := mem[t][j := 0]], owner - {f};
    assert mem' == mem1[f := JunkPage()];
    assert owner' == owner[f := Held] - {f};
    ShrinkPageEntries(lo, hi, mem, free, owner, t, v);
    ShrinkPageOwner(lo, hi, mem, free, owner, d, i, j, f);
  }

  lemma ShrinkPageOwner(lo: nat, hi: nat, mem: Memory, free: seq<int>, owner: Owners, d: int, i: nat, j: nat, f: int)
    requires Inv(lo, hi, mem, free, owner) && f in owner && owner[f] == User(d, i, j)
    ensures Without(owner, d, i * 1024 + j, i * 1024 + j + 1) == owner - {f}
  {
    hide Frames, Tables;
    forall g | g in owner
      ensures InSpan(owner[g], d, i * 1024 + j, i * 1024 + j + 1) <==> g == f
    {
      if owner[g].User? {
        assert UserEntry(mem, owner, owner[g].d, owner[g].i, owner[g].j, g);
      }
      assert UserEntry(mem, owner, d, i, j, f);
    }
  }

  lemma ShrinkPageEntries(lo: nat, hi: nat, mem: Memory, free: seq<int>, owner: Owners, t: int, v: nat)
    requires Inv(lo, hi, mem, free, owner) && v < 0x8_0000
    requires t in owner && t in mem && owner[t].Table? && owner[t].i == v / 1024
    requires IsDir(owner, owner[t].d) && Present(mem[t][v % 1024])
    ensures var d, f := owner[t].d, Frame(mem[t][v % 1024]);
            var mem' := mem[f := JunkPage()][t := mem[t][v % 1024 := 0]];
            forall u :: 0 <= u < 0x10_0000 ==>
              Entry(mem', d, u) == if v <= u < v + 1 && Present(Entry(mem, d, u)) then 0 else Entry(mem, d, u)
  {
    var d, f := owner[t].d, Frame(mem[t][v % 1024]);
    var mem1 := mem[t := mem[t][v % 1024 := 0]];
    var mem' := mem[f := JunkPage()][t := mem[t][v % 1024 := 0]];
    forall u | 0 <= u < 0x10_0000
      ensures Entry(mem', d, u) == if v <= u < v + 1 && Present(Entry(mem, d, u)) then 0 else Entry(mem, d, u)
    {
      PutEntry(lo, hi, mem, free, owner, t, v % 1024, 0, d, u);
      JunkHidden(lo, hi, mem, free, owner, t, mem1[t], f, d, u);
      TableEntry(mem, owner, t);
    }
  }

  // A user page's contents are no part of any entry.
  lemma JunkHidden(lo: nat, hi: nat, mem: Memory, free: seq<int>, owner: Owners, t: int, page: Page, f: int,
                   d: int, u: nat)
    requires Inv(lo, hi, mem, free, owner) && t in owner && owner[t].Table? && f in owner && owner[f].User?
    requires IsDir(owner, d) && u < 0x10_0000
    ensures Entry(mem[f := JunkPage()][t := page], d, u) == Entry(mem[t := page], d, u)
  {
    hide Users;
  }

  // Pages that are not there need no giving back.
  lemma ShrinkNone(lo: nat, hi: nat, mem: Memory, free: seq<int>, owner: Owners, d: int, a: nat, b: nat)
    requires Inv(lo, hi, mem, free, owner) && IsDir(owner, d)
    requires forall u :: a <= u < b && u < 0x10_0000 ==> !Present(Entry(mem, d, u))
    ensures Shrinks(mem, owner, mem, owner, d, a, b)
  {
    hide Entry, Users, Tables;
    forall f | f in owner
      ensures !InSpan(owner[f], d, a, b)
    {
      if IsPageOf(owner[f], d) {
        PageBounds(mem, owner, f);
        PagesShown(lo, hi, mem, free, owner, d, owner[f].i, owner[f].j);
      }
    }
    assert Without(owner, d, a, b) == owner;
  }

  lemma PageBounds(mem: Memory, owner: Owners, f: int)
    requires Users(mem, owner) && f in owner && owner[f].User?
    ensures owner[f].i < NUSER && owner[f].j < 1024
  {
  }

  lemma ShrinksTrans(m0: Memory, o0: Owners, m1: Memory, o1: Owners, m2: Memory, o2: Owners, d: int, a: int,
                     b: int, c: int)
    requires Shrinks(m0, o0, m1, o1, d, a, b) && Shrinks(m1, o1, m2, o2, d, b, c) && a <= b <= c
    ensures Shrinks(m0, o0, m2, o2, d, a, c)
  {
    hide Entry;
    forall f | f in o0
      ensures InSpan(o0[f], d, a, c) <==> InSpan(o0[f], d, a, b) || InSpan(o0[f], d, b, c)
    {
    }
    assert Without(Without(o0, d, a, b), d, b, c) == Without(o0, d, a, c);
  }

  // Where d has no table it has no entries.
  lemma NoTable(mem: Memory, d: int, v: nat, u: nat)
    requires d in mem && v < 0x10_0000 && !Present(mem[d][v / 1024]) && v <= u < (v / 1024 + 1) * 1024
    ensures u < 0x10_0000 && Entry(mem, d, u) == 0
  {
  }

  // Pages past the end that were not there do not matter.
  lemma ShrinksCut(lo: nat, hi: nat, mem: Memory, free: seq<int>, owner: Owners, mem': Memory, owner': Owners,
                   d: int, a: nat, b: nat, c: nat)
    requires Inv(lo, hi, mem, free, owner) && IsDir(owner, d)
    requires Shrinks(mem, owner, mem', owner', d, a, c) && a <= b <= c
    requires forall u :: b <= u < c && u < 0x10_0000 ==> Entry(mem, d, u) == 0
    ensures Shrinks(mem, owner, mem', owner', d, a, b)
  {
    hide Entry, Inv;
    forall f | f in owner
      ensures InSpan(owner[f], d, a, c) <==> InSpan(owner[f], d, a, b)
    {
      if InSpan(owner[f], d, b, c) {
        assert Inv(lo, hi, mem, free, owner);
        PageShown(lo, hi, mem, free, owner, d, f);
      }
    }
    assert Without(owner, d, a, c) == Without(owner, d, a, b);
  }

  lemma PageShown(lo: nat, hi: nat, mem: Memory, free: seq<int>, owner: Owners, d: int, f: int)
    requires Inv(lo, hi, mem, free, owner) && IsDir(owner, d) && f in owner && IsPageOf(owner[f], d)
    ensures owner[f].i < NUSER && owner[f].j < 1024
    ensures Present(Entry(mem, d, owner[f].i * 1024 + owner[f].j))
  {
    hide Entry, Tables, Frames;
    PageBounds(mem, owner, f);
    PagesShown(lo, hi, mem, free, owner, d, owner[f].i, owner[f].j);
  }

  lemma ShrinksDir(mem: Memory, owner: Owners, mem': Memory, owner': Owners, d: int, a: int, b: int)
    requires Shrinks(mem, owner, mem', owner', d, a, b) && IsDir(owner, d)
    ensures IsDir(owner', d)
  {
  }

  lemma ShrinksRest(mem: Memory, owner: Owners, mem': Memory, owner': Owners, d: int, a: int, b: int, u: nat)
    requires Shrinks(mem, owner, mem', owner', d, a, b) && b <= u < 0x10_0000
    ensures Entry(mem', d, u) == Entry(mem, d, u)
  {
  }

  // ---- giving an address space back ----

  // The owners o0 with the first k tables of d given back.
  ghost predicate Freeing(o0: Owners, o: Owners, d: int, k: nat) {
    && d in o && o[d] == Dir(k) && d in o0 && o0[d].Dir?
    && (forall f :: f in o <==> f in o0 && !(IsTableOf(o0[f], d) && o0[f].i < k))
    && (forall f :: f in o && f != d ==> o[f] == o0[f])
  }

  lemma FreeTable(lo: nat, hi: nat, mem: Memory, free: seq<int>, o0: Owners, owner: Owners, d: int, k: nat)
    requires Inv(lo, hi, mem, free, owner) && Freeing(o0, owner, d, k) && k < 1024 && d in mem && Present(mem[d][k])
    requires forall f :: f in owner ==> !IsPageOf(owner[f], d)
    ensures var t := Frame(mem[d][k]);
            && lo <= t < hi && t != d && t in owner
            && var owner' := owner[d := Dir(k + 1)] - {t};
               Inv(lo, hi, mem[t := JunkPage()], [t] + free, owner') && Freeing(o0, owner', d, k + 1)
  {
    hide Users;
    var t := Frame(mem[d][k]);
    DropTable(lo, hi, mem, free, owner, d, k, t);
    var owner1 := owner[t := Held][d := Dir(k + 1)];
    Kfree(lo, hi, mem, free, owner1, t);
    assert owner1 - {t} == owner[d := Dir(k + 1)] - {t};
    forall f | f in owner
      ensures IsTableOf(owner[f], d) && owner[f].i == k <==> f == t
    {
      if IsTableOf(owner[f], d) { assert DirEntry(mem, owner, d, owner[f].i, f); }
    }
  }

  lemma NoFreeTable(lo: nat, hi: nat, mem: Memory, free: seq<int>, o0: Owners, owner: Owners, d: int, k: nat)
    requires Inv(lo, hi, mem, free, owner) && Freeing(o0, owner, d, k) && k < 1024 && d in mem && !Present(mem[d][k])
    ensures Inv(lo, hi, mem, free, owner[d := Dir(k + 1)]) && Freeing(o0, owner[d := Dir(k + 1)], d, k + 1)
  {
    hide Users;
    SkipTable(lo, hi, mem, free, owner, d, k);
    forall f | f in owner && IsTableOf(owner[f], d)
      ensures owner[f].i != k
    {
      assert DirEntry(mem, owner, d, owner[f].i, f);
    }
  }

  // The owners when d, its tables and its pages are all given back.
  function Gone(owner: Owners, d: int): Owners {
    map f | f in owner && f != d && !IsTableOf(owner[f], d) && !IsPageOf(owner[f], d) :: owner[f]
  }

  lemma FreeDir(lo: nat, hi: nat, mem: Memory, free: seq<int>, o0: Owners, owner: Owners, d: int)
    requires Inv(lo, hi, mem, free, owner) && Freeing(o0, owner, d, 1024) && IsDir(o0, d)
    requires forall f :: f in owner ==> !IsPageOf(owner[f], d)
    requires forall f :: f in o0 && IsTableOf(o0[f], d) ==> o0[f].i < 1024
    ensures lo <= d < hi && Inv(lo, hi, mem[d := JunkPage()], [d] + free, owner - {d}) && owner - {d} == Gone(o0, d)
  {
    hide Users, Tables;
    DropDir(lo, hi, mem, free, owner, d);
    Kfree(lo, hi, mem, free, owner[d := Held], d);
    assert owner[d := Held] - {d} == owner - {d};
    forall f
      ensures f in owner - {d} <==> f in Gone(o0, d)
    {
      if f in owner { assert !IsPageOf(owner[f], d); }
    }
    assert owner - {d} == Gone(o0, d);
  }

  // After deallocuvm over the whole user half d has no pages left.
  lemma AllShrunk(lo: nat, hi: nat, mem: Memory, free: seq<int>, owner: Owners, mem': Memory, owner': Owners, d: int)
    requires Inv(lo, hi, mem, free, owner) && Shrinks(mem, owner, mem', owner', d, 0, 0x8_0000)
    ensures forall f :: f in owner' ==> !IsPageOf(owner'[f], d)
    ensures Gone(owner', d) == Gone(owner, d)
  {
    hide Tables, Entry;
    forall f | f in owner && IsPageOf(owner[f], d)
      ensures InSpan(owner[f], d, 0, 0x8_0000)
    {
      PageBounds(mem, owner, f);
    }
    assert Gone(owner', d) == Gone(owner, d);
  }

  lemma TablesBound(mem: Memory, owner: Owners, d: int)
    requires Tables(mem, owner)
    ensures forall f :: f in owner && IsTableOf(owner[f], d) ==> owner[f].i < 1024
  {
  }

  // The frames of o hold what they held.
  ghost predicate SameFrames(mem: Memory, mem': Memory, o: Owners) {
    forall f :: f in o ==> f in mem && f in mem' && mem'[f] == mem[f]
  }

  // Directory d was built beside the owners o0, which are as they were.
  ghost predicate Beside(mem: Memory, o0: Owners, mem': Memory, o: Owners, d: int) {
    && d !in o0 && IsDir(o, d) && SameFrames(mem, mem', o0)
    && (forall f :: f in o0 ==> f in o && o[f] == o0[f])
    && (forall f :: f in o && f !in o0 ==> f == d || IsTableOf(o[f], d) || IsPageOf(o[f], d))
  }

  // Giving the new address space back restores the owners exactly.
  lemma GoneBeside(lo: nat, hi: nat, mem: Memory, free: seq<int>, o0: Owners, mem': Memory, o: Owners, d: int)
    requires Inv(lo, hi, mem, free, o0) && Beside(mem, o0, mem', o, d)
    ensures Gone(o, d) == o0
  {
    hide Frames;
    forall f | f in o0
      ensures !IsTableOf(o0[f], d) && !IsPageOf(o0[f], d)
    {
      NotOf(mem, o0, f, d);
    }
    forall f
      ensures f in Gone(o, d) <==> f in o0
    {
      if f in o0 { assert f in o && o[f] == o0[f]; }
    }
    assert Gone(o, d) == o0;
  }

  // Only a directory that is in use has tables and pages.
  lemma NotOf(mem: Memory, owner: Owners, f: int, d: int)
    requires Tables(mem, owner) && Users(mem, owner) && f in owner && d !in owner
    ensures !IsTableOf(owner[f], d) && !IsPageOf(owner[f], d)
  {
    if owner[f].User? { assert UserEntry(mem, owner, owner[f].d, owner[f].i, owner[f].j, f); }
  }

  lemma BesideExtends(lo: nat, hi: nat, mem: Memory, free: seq<int>, o0: Owners, m1: Memory, o1: Owners,
                      m2: Memory, o2: Owners, d: int, x: set<int>)
    requires Inv(lo, hi, mem, free, o0) && Beside(mem, o0, m1, o1, d) && Extends(m1, o1, m2, o2, d, x)
    requires forall f :: f in x ==> f !in o0
    ensures Beside(mem, o0, m2, o2, d)
  {
    hide Frames;
    forall f | f in o0
      ensures !IsTableOf(o0[f], d)
    {
      NotOf(mem, o0, f, d);
    }
  }

  lemma BesideNew(lo: nat, hi: nat, mem: Memory, free: seq<int>, o0: Owners, d: int, page: Page)
    requires Inv(lo, hi, mem, free, o0) && d !in o0
    ensures Beside(mem, o0, mem[d := page], o0[d := Dir(0)], d)
  {
    hide Tables, Users;
  }

  // ---- growing ----

  // Like Extends, with frames taken for pages of d as well.
  ghost predicate Grows(mem: Memory, owner: Owners, mem': Memory, owner': Owners, d: int) {
    && IsDir(owner, d) && IsDir(owner', d)
    && (forall f :: f in owner ==> f in owner' && owner'[f] == owner[f])
    && (forall f :: f in owner' && f !in owner ==> IsTableOf(owner'[f], d) || IsPageOf(owner'[f], d))
    && (forall f :: f in owner && f != d && !IsTableOf(owner[f], d) ==> f in mem && f in mem' && mem'[f] == mem[f])
  }

  lemma GrowsTrans(m0: Memory, o0: Owners, m1: Memory, o1: Owners, m2: Memory, o2: Owners, d: int)
    requires Grows(m0, o0, m1, o1, d) && Grows(m1, o1, m2, o2, d)
    ensures Grows(m0, o0, m2, o2, d)
  {
  }

  lemma GrowsSelf(lo: nat, hi: nat, mem: Memory, free: seq<int>, owner: Owners, d: int)
    requires Frames(lo, hi, mem, free, owner) && IsDir(owner, d)
    ensures Grows(mem, owner, mem, owner, d)
  {
  }

  // A frame allocated, filled and then mapped.
  lemma GrowsMapped(mem: Memory, owner: Owners, f: int, page: Page, mem': Memory, owner': Owners, d: int)
    requires f !in owner && Extends(mem[f := page], owner[f := Held], mem', owner', d, {f})
    requires IsDir(owner, d) && (f in owner' ==> IsPageOf(owner'[f], d))
    ensures Grows(mem, owner, mem', owner', d) && f in mem' && mem'[f] == page
  {
  }

  // A page of d made since o0: present, writable, for the user, on a frame o0 did not have, all zero.
  ghost predicate NewPage(mem: Memory, o0: Owners, e: Word) {
    Present(e) && Flags(e) == 7 && Frame(e) !in o0 && Frame(e) in mem && mem[Frame(e)] == ZeroPage()
  }

  lemma PageFrame(lo: nat, hi: nat, mem: Memory, free: seq<int>, owner: Owners, d: int, u: nat)
    requires Inv(lo, hi, mem, free, owner) && IsDir(owner, d) && u < 0x8_0000 && Present(Entry(mem, d, u))
    ensures Frame(Entry(mem, d, u)) in owner && owner[Frame(Entry(mem, d, u))] == User(d, u / 1024, u % 1024)
  {
    hide Frames, Tables, Users, Entry;
    PagesShown(lo, hi, mem, free, owner, d, u / 1024, u % 1024);
  }

  // Pages other than those in x keep their contents while d grows.
  lemma PageKept(lo: nat, hi: nat, mem: Memory, free: seq<int>, owner: Owners, mem': Memory, owner': Owners,
                 d: int, u: nat)
    requires Inv(lo, hi, mem, free, owner) && Grows(mem, owner, mem', owner', d)
    requires u < 0x8_0000 && Present(Entry(mem, d, u))
    ensures var f := Frame(Entry(mem, d, u)); f in mem && f in mem' && mem'[f] == mem[f]
  {
    hide Frames, Tables, Users, Entry;
    PageFrame(lo, hi, mem, free, owner, d, u);
  }

  // Growth that was undone leaves only tables behind.
  lemma GrowthUndone(lo: nat, hi: nat, m0: Memory, f0: seq<int>, o0: Owners, m1: Memory, f1: seq<int>,
                     o1: Owners, m2: Memory, o2: Owners, d: int, a: nat, b: nat)
    requires Inv(lo, hi, m0, f0, o0) && Inv(lo, hi, m1, f1, o1)
    requires Grows(m0, o0, m1, o1, d) && Shrinks(m1, o1, m2, o2, d, a, b)
    requires b <= 0x8_0000
    requires forall u :: 0 <= u < 0x8_0000 && !(a <= u < b) ==> Entry(m1, d, u) == Entry(m0, d, u)
    requires forall u :: a <= u < b ==> !Present(Entry(m0, d, u))
    ensures Extends(m0, o0, m2, o2, d, {})
  {
    hide Frames, Tables, Users, Entry;
    forall f | f in o1 && IsPageOf(o1[f], d)
      ensures InSpan(o1[f], d, a, b) <==> f !in o0
    {
      PageBounds(m1, o1, f);
      var u := o1[f].i * 1024 + o1[f].j;
      PagesShown(lo, hi, m1, f1, o1, d, o1[f].i, o1[f].j);
      PagesShown(lo, hi, m0, f0, o0, d, o1[f].i, o1[f].j);
    }
  }

  lemma BesideGrows(lo: nat, hi: nat, mem: Memory, free: seq<int>, o0: Owners, m1: Memory, o1: Owners,
                    m2: Memory, o2: Owners, d: int)
    requires Inv(lo, hi, mem, free, o0) && Beside(mem, o0, m1, o1, d) && Grows(m1, o1, m2, o2, d)
    ensures Beside(mem, o0, m2, o2, d)
  {
    hide Frames;
    forall f | f in o0
      ensures !IsTableOf(o0[f], d)
    {
      NotOf(mem, o0, f, d);
    }
  }

  // The address spaces that were there look as before.
  lemma BesideEntry(lo: nat, hi: nat, mem: Memory, free: seq<int>, o0: Owners, mem': Memory, o: Owners, d: int,
                    c: int, u: nat)
    requires Inv(lo, hi, mem, free, o0) && Beside(mem, o0, mem', o, d) && IsDir(o0, c) && u < 0x10_0000
    ensures Entry(mem', c, u) == Entry(mem, c, u)
  {
    hide Users;
  }

  // Entry e' of the new space shows the same bytes with the same flags as e, on a frame of its own.
  ghost predicate Copied(mem0: Memory, o0: Owners, e: Word, mem: Memory, e': Word) {
    && Present(e') && Flags(e') == Flags(e) && Frame(e') !in o0
    && Frame(e) in mem0 && Frame(e') in mem && mem[Frame(e')] == mem0[Frame(e)]
  }
}
