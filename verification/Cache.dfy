/** The buffer cache (kernel/bio.c over kernel/memide.c): a circular doubly linked LRU list of buffers
    that, together with the disk, behaves as one block map. */
module Cache {
  import opened Blocks

  const ROOTDEV: nat := 1

  class Buf {
    var valid: bool          // B_VALID
    var dirty: bool          // B_DIRTY
    var dev: nat
    var blockno: nat
    var locked: bool
    var refcnt: nat
    var prev: Buf?
    var next: Buf?
    var data: Block
    ghost var stamp: nat     // when it last became unreferenced

    constructor ()
      ensures !valid && !dirty && dev == 0 && blockno == 0 && !locked && refcnt == 0
    {
      valid, dirty, dev, blockno, locked, refcnt := false, false, 0, 0, false, 0;
      prev, next, data, stamp := null, null, ZeroBlock(), 0;
    }
  }

  // The i-th node of the circle head, ring[0], ring[1], ..., head.
  function Node(head: Buf, ring: seq<Buf>, i: nat): Buf
  {
    if 1 <= i <= |ring| then ring[i - 1] else head
  }

  ghost function Nodes(head: Buf, ring: seq<Buf>): set<Buf> {
    {head} + set x | x in ring
  }

  ghost predicate Linked(head: Buf, ring: seq<Buf>)
    reads Nodes(head, ring)`next, Nodes(head, ring)`prev
  {
    forall i :: 0 <= i <= |ring| ==>
      Node(head, ring, i).next == Node(head, ring, i + 1) && Node(head, ring, i + 1).prev == Node(head, ring, i)
  }

  ghost predicate Distinct(head: Buf, ring: seq<Buf>) {
    head !in ring && forall i, j :: 0 <= i < j < |ring| ==> ring[i] != ring[j]
  }

  // s with its k-th element moved to the front
  function First<T>(s: seq<T>, k: nat): seq<T>
    requires k < |s|
  {
    [s[k]] + s[..k] + s[k + 1..]
  }

  // Where the i-th element was before element k moved to the front.
  function From(i: nat, k: nat): nat {
    if i == 0 then k else if i <= k then i - 1 else i
  }

  lemma FirstAt<T>(s: seq<T>, k: nat)
    requires k < |s|
    ensures |First(s, k)| == |s| && forall i :: 0 <= i < |s| ==> From(i, k) < |s| && First(s, k)[i] == s[From(i, k)]
  {
  }

  function Without(ring: seq<Buf>, k: nat): seq<Buf>
    requires k < |ring|
  {
    ring[..k] + ring[k + 1..]
  }

  // b->next->prev = b->prev; b->prev->next = b->next;
  method Unlink(head: Buf, ghost ring: seq<Buf>, b: Buf, ghost k: nat)
    requires k < |ring| && ring[k] == b && Distinct(head, ring) && Linked(head, ring)
    modifies Nodes(head, ring)`next, Nodes(head, ring)`prev
    ensures Linked(head, Without(ring, k)) && Distinct(head, Without(ring, k)) && b !in Without(ring, k)
  {
    assert Node(head, ring, k + 1) == b;
    assert b.next == Node(head, ring, k + 2) && b.prev == Node(head, ring, k);
    assert b.next in Nodes(head, ring) && b.prev in Nodes(head, ring);
    b.next.prev := b.prev;
    b.prev.next := b.next;
    ghost var rest := Without(ring, k);
    forall i | 0 <= i <= |rest|
      ensures Node(head, rest, i).next == Node(head, rest, i + 1) && Node(head, rest, i + 1).prev == Node(head, rest, i)
    {
      var j := if i <= k then i else i + 1;
      assert Node(head, rest, i) == Node(head, ring, j);
      assert Node(head, rest, i + 1) == Node(head, ring, if i + 1 <= k then i + 1 else i + 2);
    }
  }

  // b->next = head.next; b->prev = &head; head.next->prev = b; head.next = b;
  method PushFront(head: Buf, ghost ring: seq<Buf>, b: Buf)
    requires b !in ring && b != head && Distinct(head, ring) && Linked(head, ring)
    modifies Nodes(head, [b] + ring)`next, Nodes(head, [b] + ring)`prev
    ensures Linked(head, [b] + ring) && Distinct(head, [b] + ring)
  {
    assert Node(head, ring, 0) == head && head.next == Node(head, ring, 1);
    assert head.next in Nodes(head, ring);
    b.next := head.next;
    b.prev := head;
    head.next.prev := b;
    head.next := b;
    ghost var all := [b] + ring;
    forall i | 0 <= i <= |all|
      ensures Node(head, all, i).next == Node(head, all, i + 1) && Node(head, all, i + 1).prev == Node(head, all, i)
    {
      if i > 0 {
        assert i >= 2 ==> Node(head, all, i) == Node(head, ring, i - 1);
        assert Node(head, all, i + 1) == Node(head, ring, i);
      }
    }
  }

  // The list part of brelse.
  method MoveFirst(head: Buf, ghost ring: seq<Buf>, b: Buf, ghost k: nat)
    requires k < |ring| && ring[k] == b && Distinct(head, ring) && Linked(head, ring)
    modifies Nodes(head, ring)`next, Nodes(head, ring)`prev
    ensures Linked(head, First(ring, k)) && Distinct(head, First(ring, k))
  {
    assert b != head;
    assert [b] + Without(ring, k) == First(ring, k);
    hide Linked, Distinct;
    Unlink(head, ring, b, k);
    assert Nodes(head, [b] + Without(ring, k)) <= Nodes(head, ring);
    PushFront(head, Without(ring, k), b);
  }

  // ---- the buffers as values, in list order ----

  datatype Rec = Rec(valid: bool, dirty: bool, dev: nat, blockno: nat, locked: bool, refcnt: nat, data: Block,
                     stamp: nat)
  {
    predicate Holds(n: nat) {
      dev == ROOTDEV && blockno == n
    }

    predicate Recyclable() {
      refcnt == 0 && !dirty
    }
  }

  ghost function Snap(b: Buf): Rec
    reads b`valid, b`dirty, b`dev, b`blockno, b`locked, b`refcnt, b`data, b`stamp
  {
    Rec(b.valid, b.dirty, b.dev, b.blockno, b.locked, b.refcnt, b.data, b.stamp)
  }

  // The list is ordered by when each buffer last became unreferenced.
  ghost predicate Ordered(v: seq<Rec>, clock: nat) {
    && (forall i :: 0 <= i < |v| ==> v[i].stamp <= clock)
    && (forall i, j :: 0 <= i < j < |v| ==> v[i].stamp > v[j].stamp)
  }

  // No two buffers hold the same block of the root device.
  ghost predicate Unique(v: seq<Rec>) {
    forall i, j :: 0 <= i < j < |v| ==> !(v[i].dev == v[j].dev == ROOTDEV && v[i].blockno == v[j].blockno)
  }

  lemma OrderedCons(r: Rec, v: seq<Rec>, clock: nat)
    requires clock > 0 && Ordered(v, clock - 1) && r.stamp == clock
    ensures Ordered([r] + v, clock)
  {
  }

  ghost predicate RecOk(r: Rec, current: seq<Block>, stray: set<nat>) {
    && (r.locked ==> r.refcnt > 0)
    && (r.dirty ==> r.valid)
    && (r.dev == ROOTDEV ==> r.blockno < |current|)
    && (r.dev == ROOTDEV && r.valid && r.blockno !in stray ==> r.data == current[r.blockno])
  }

  ghost predicate DirtyAt(v: seq<Rec>, n: nat) {
    exists i :: 0 <= i < |v| && v[i].Holds(n) && v[i].dirty
  }

  // A block that is clean or not cached is current on disk.
  ghost predicate DiskOk(v: seq<Rec>, disk: seq<Block>, current: seq<Block>) {
    |disk| == |current| && forall n :: 0 <= n < |disk| && !DirtyAt(v, n) ==> disk[n] == current[n]
  }

  // Cached and valid means current; cache and disk together are one block map.
  ghost predicate Coherent(v: seq<Rec>, disk: seq<Block>, current: seq<Block>, stray: set<nat>) {
    && Unique(v)
    && (forall i :: 0 <= i < |v| ==> RecOk(v[i], current, stray))
    && DiskOk(v, disk, current)
  }

  function Referenced(v: seq<Rec>, k: nat): seq<Rec>
    requires k < |v|
  {
    v[k := v[k].(refcnt := v[k].refcnt + 1)]
  }

  // bget on a hit: one more reference.
  lemma HitStep(v: seq<Rec>, disk: seq<Block>, current: seq<Block>, stray: set<nat>, clock: nat, k: nat)
    requires Coherent(v, disk, current, stray) && Ordered(v, clock) && k < |v|
    ensures Coherent(Referenced(v, k), disk, current, stray) && Ordered(Referenced(v, k), clock)
  {
    var v' := Referenced(v, k);
    forall n | 0 <= n < |disk| && !DirtyAt(v', n)
      ensures disk[n] == current[n]
    {
      SameDirt(v, v', n);
    }
  }

  lemma SameDirt(v: seq<Rec>, v': seq<Rec>, n: nat)
    requires |v| == |v'| && forall i :: 0 <= i < |v| ==> (v[i].Holds(n) && v[i].dirty ==> v'[i].Holds(n) && v'[i].dirty)
    ensures DirtyAt(v, n) ==> DirtyAt(v', n)
  {
    if DirtyAt(v, n) {
      var i :| 0 <= i < |v| && v[i].Holds(n) && v[i].dirty;
      assert v'[i].Holds(n) && v'[i].dirty;
    }
  }

  // A recycled buffer: empty, referenced once, for block n.
  function Recycled(r: Rec, n: nat): Rec {
    r.(valid := false, dirty := false, dev := ROOTDEV, blockno := n, refcnt := 1)
  }

  // Evicting block n0 drops what was never logged or written.
  function Evicted(r: Rec, stray: set<nat>): set<nat> {
    if r.dev == ROOTDEV then stray - {r.blockno} else stray
  }

  lemma RecycleStep(v: seq<Rec>, disk: seq<Block>, current: seq<Block>, stray: set<nat>, clock: nat, k: nat, n: nat)
    requires Coherent(v, disk, current, stray) && Ordered(v, clock) && k < |v| && v[k].Recyclable() && n < |disk|
    requires forall i :: 0 <= i < |v| ==> !v[i].Holds(n)
    ensures var v' := v[k := Recycled(v[k], n)];
            Coherent(v', disk, current, Evicted(v[k], stray)) && Ordered(v', clock)
  {
    var v' := v[k := Recycled(v[k], n)];
    forall i | 0 <= i < |v'|
      ensures RecOk(v'[i], current, Evicted(v[k], stray))
    {
      assert RecOk(v[i], current, stray);
    }
    forall m | 0 <= m < |disk| && !DirtyAt(v', m)
      ensures disk[m] == current[m]
    {
      SameDirt(v, v', m);
    }
  }

  // acquiresleep and the read of iderw: a buffer that is not valid gets the disk's block.
  function Read(r: Rec, disk: seq<Block>): Rec
    requires r.blockno < |disk|
  {
    if r.valid then r.(locked := true) else r.(locked := true, valid := true, data := disk[r.blockno])
  }

  lemma ReadStep(v: seq<Rec>, disk: seq<Block>, current: seq<Block>, stray: set<nat>, clock: nat, k: nat)
    requires Coherent(v, disk, current, stray) && Ordered(v, clock) && k < |v| && v[k].refcnt > 0 && v[k].dev == ROOTDEV
    ensures v[k].blockno < |disk|
    ensures var v' := v[k := Read(v[k], disk)];
            && Coherent(v', disk, current, stray) && Ordered(v', clock)
            && (v[k].blockno !in stray ==> v'[k].data == current[v[k].blockno])
  {
    var v' := v[k := Read(v[k], disk)];
    if !v[k].valid {
      OnlyHolder(v, k);
    }
    forall i | 0 <= i < |v'|
      ensures RecOk(v'[i], current, stray)
    {
      assert RecOk(v[i], current, stray);
    }
    forall n | 0 <= n < |disk| && !DirtyAt(v', n)
      ensures disk[n] == current[n]
    {
      SameDirt(v, v', n);
    }
  }

  // Nobody else holds the block of buffer k, so it is dirty in the cache only if k is.
  lemma OnlyHolder(v: seq<Rec>, k: nat)
    requires Unique(v) && k < |v| && v[k].dev == ROOTDEV
    ensures DirtyAt(v, v[k].blockno) <==> v[k].dirty
  {
    if v[k].dirty {
      assert v[k].Holds(v[k].blockno);
    }
  }

  // The holder changes the data.
  lemma ModifyStep(v: seq<Rec>, disk: seq<Block>, current: seq<Block>, stray: set<nat>, clock: nat, k: nat, x: Block)
    requires Coherent(v, disk, current, stray) && Ordered(v, clock) && k < |v|
    ensures var v' := v[k := v[k].(data := x)];
            Coherent(v', disk, current, stray + {v[k].blockno}) && Ordered(v', clock)
  {
    var v' := v[k := v[k].(data := x)];
    forall i | 0 <= i < |v'|
      ensures RecOk(v'[i], current, stray + {v[k].blockno})
    {
      assert RecOk(v[i], current, stray);
    }
    forall n | 0 <= n < |disk| && !DirtyAt(v', n)
      ensures disk[n] == current[n]
    {
      SameDirt(v, v', n);
    }
  }

  // log_write: the buffer becomes what the block is, and is pinned.
  lemma LogStep(v: seq<Rec>, disk: seq<Block>, current: seq<Block>, stray: set<nat>, clock: nat, k: nat)
    requires Coherent(v, disk, current, stray) && Ordered(v, clock) && k < |v| && v[k].dev == ROOTDEV && v[k].valid
    ensures v[k].blockno < |current|
    ensures var v' := v[k := v[k].(dirty := true)];
            Coherent(v', disk, current[v[k].blockno := v[k].data], stray - {v[k].blockno}) && Ordered(v', clock)
  {
    assert RecOk(v[k], current, stray);
    var n := v[k].blockno;
    var v', current' := v[k := v[k].(dirty := true)], current[n := v[k].data];
    forall i | 0 <= i < |v'|
      ensures RecOk(v'[i], current', stray - {n})
    {
      assert RecOk(v[i], current, stray);
    }
    forall m | 0 <= m < |disk| && !DirtyAt(v', m)
      ensures disk[m] == current'[m]
    {
      SameDirt(v, v', m);
      OnlyHolder(v', k);
    }
  }

  // bwrite: the buffer reaches the disk and is clean.
  lemma WriteStep(v: seq<Rec>, disk: seq<Block>, current: seq<Block>, stray: set<nat>, clock: nat, k: nat)
    requires Coherent(v, disk, current, stray) && Ordered(v, clock) && k < |v| && v[k].dev == ROOTDEV
    ensures v[k].blockno < |current| == |disk|
    ensures var n := v[k].blockno;
            var v' := v[k := v[k].(dirty := false, valid := true)];
            Coherent(v', disk[n := v[k].data], current[n := v[k].data], stray - {n}) && Ordered(v', clock)
  {
    assert RecOk(v[k], current, stray);
    var n := v[k].blockno;
    var v', current' := v[k := v[k].(dirty := false, valid := true)], current[n := v[k].data];
    forall i | 0 <= i < |v'|
      ensures RecOk(v'[i], current', stray - {n})
    {
      assert RecOk(v[i], current, stray);
    }
    forall m | 0 <= m < |disk| && !DirtyAt(v', m) && m != n
      ensures disk[m] == current[m]
    {
      SameDirt(v, v', m);
    }
  }

  lemma ToFrontDirt(v: seq<Rec>, k: nat, n: nat)
    requires k < |v|
    ensures DirtyAt(v, n) ==> DirtyAt(First(v, k), n)
  {
    if DirtyAt(v, n) {
      var i :| 0 <= i < |v| && v[i].Holds(n) && v[i].dirty;
      var j := if i == k then 0 else if i < k then i + 1 else i;
      assert First(v, k)[j] == v[i];
    }
  }

  // The order of the list does not matter to coherence.
  lemma ToFrontCoherent(v: seq<Rec>, disk: seq<Block>, current: seq<Block>, stray: set<nat>, k: nat)
    requires Coherent(v, disk, current, stray) && k < |v|
    ensures Coherent(First(v, k), disk, current, stray)
  {
    hide First, RecOk, DirtyAt;
    var v' := First(v, k);
    FirstAt(v, k);
    forall i, j | 0 <= i < j < |v|
      ensures !(v'[i].dev == v'[j].dev == ROOTDEV && v'[i].blockno == v'[j].blockno)
    {
      var p, q := From(i, k), From(j, k);
      assert if p < q then !(v[p].dev == v[q].dev == ROOTDEV && v[p].blockno == v[q].blockno)
             else !(v[q].dev == v[p].dev == ROOTDEV && v[q].blockno == v[p].blockno);
    }
    forall n | 0 <= n < |disk| && !DirtyAt(v', n)
      ensures disk[n] == current[n]
    {
      ToFrontDirt(v, k, n);
    }
  }

  // brelse: one reference less; when it was the last, the buffer becomes the most recently released.
  function Dropped(r: Rec, clock: nat): Rec
    requires r.refcnt > 0
  {
    r.(locked := false, refcnt := r.refcnt - 1, stamp := if r.refcnt == 1 then clock + 1 else r.stamp)
  }

  function Released(v: seq<Rec>, k: nat, clock: nat): seq<Rec>
    requires k < |v| && v[k].refcnt > 0
  {
    var v1 := v[k := Dropped(v[k], clock)];
    if v[k].refcnt == 1 then First(v1, k) else v1
  }

  lemma DropCoherent(v: seq<Rec>, disk: seq<Block>, current: seq<Block>, stray: set<nat>, clock: nat, k: nat)
    requires Coherent(v, disk, current, stray) && k < |v| && v[k].refcnt > 0
    ensures Coherent(v[k := Dropped(v[k], clock)], disk, current, stray)
  {
    var v' := v[k := Dropped(v[k], clock)];
    forall i | 0 <= i < |v'|
      ensures RecOk(v'[i], current, stray)
    {
      assert RecOk(v[i], current, stray);
    }
    forall n | 0 <= n < |disk| && !DirtyAt(v', n)
      ensures disk[n] == current[n]
    {
      SameDirt(v, v', n);
    }
  }

  lemma ReleaseStep(v: seq<Rec>, disk: seq<Block>, current: seq<Block>, stray: set<nat>, clock: nat, k: nat)
    requires Coherent(v, disk, current, stray) && Ordered(v, clock) && k < |v| && v[k].refcnt > 0
    ensures Coherent(Released(v, k, clock), disk, current, stray) && Ordered(Released(v, k, clock), clock + 1)
  {
    hide Coherent, First;
    var v1 := v[k := Dropped(v[k], clock)];
    DropCoherent(v, disk, current, stray, clock, k);
    if v[k].refcnt == 1 {
      ToFrontCoherent(v1, disk, current, stray, k);
      FirstAt(v1, k);
    }
  }

  class BCache {
    const head: Buf
    var disk: seq<Block>
    ghost var ring: seq<Buf>            // head.next first: most recently released first
    ghost var clock: nat
    ghost var current: seq<Block>       // each block as last logged or written
    ghost var stray: set<nat>           // cached blocks changed by their holder but not logged or written

    ghost predicate Lists()
      reads this, head, ring
    {
      Distinct(head, ring) && Linked(head, ring)
    }

    ghost function View(): (v: seq<Rec>)
      reads this, ring
      ensures |v| == |ring| && forall i :: 0 <= i < |ring| ==> v[i] == Snap(ring[i])
    {
      seq(|ring|, i requires 0 <= i < |ring| reads this, ring => Snap(ring[i]))
    }

    ghost predicate Valid()
      reads this, head, ring
    {
      Lists() && Ordered(View(), clock) && Coherent(View(), disk, current, stray)
    }

    ghost function Bufs(): set<Buf>
      reads this
    {
      set x | x in ring
    }

    // binit: nbuf empty buffers in a circle.
    constructor (disk: seq<Block>, nbuf: nat)
      ensures Valid() && this.disk == disk == current && |ring| == nbuf && stray == {}
      ensures fresh(head) && forall x :: x in ring ==> fresh(x) && x.refcnt == 0 && !x.dirty
    {
      this.disk := disk;
      head := new Buf();
      ring, clock, current, stray := [], 0, disk, {};
      new;
      head.prev := head;
      head.next := head;
      assert Lists();
      hide Linked, Distinct, Coherent;
      var k := 0;
      while k < nbuf
        invariant 0 <= k <= nbuf && |ring| == k == clock && this.disk == disk == current && stray == {}
        invariant fresh(head) && forall x :: x in ring ==> fresh(x)
        invariant Lists() && Ordered(View(), clock) && forall i :: 0 <= i < |ring| ==> Empty(View()[i])
      {
        var b := new Buf();
        AddBuf(b);
        k := k + 1;
      }
      EmptyIsCoherent(View(), disk);
    }

    // The body of binit's loop.
    method AddBuf(b: Buf)
      requires Lists() && Ordered(View(), clock) && forall i :: 0 <= i < |ring| ==> Empty(View()[i])
      requires b != head && b !in ring && Empty(Snap(b))
      modifies `ring, `clock, b, Nodes(head, ring)`next, Nodes(head, ring)`prev
      ensures ring == [b] + old(ring) && clock == old(clock) + 1
      ensures Lists() && Ordered(View(), clock) && forall i :: 0 <= i < |ring| ==> Empty(View()[i])
    {
      hide Linked, Distinct, View, Ordered;
      ghost var v := View();
      clock := clock + 1;
      b.stamp := clock;
      PushFront(head, ring, b);
      ghost var r := Snap(b);
      ring := [b] + ring;
      assert View() == [r] + v;
      OrderedCons(r, v, clock);
    }

    // The scan of bget for a cached block: its place in the list, or the list's length.
    method Find(dev: nat, blockno: nat) returns (b: Buf, ghost k: nat)
      requires Lists()
      ensures k <= |ring| && b == Node(head, ring, k + 1)
      ensures k < |ring| ==> b.dev == dev && b.blockno == blockno
      ensures forall j :: 0 <= j < k ==> !(View()[j].dev == dev && View()[j].blockno == blockno)
    {
      k := 0;
      assert Node(head, ring, 0).next == Node(head, ring, 1);
      b := head.next;
      while b != head
        invariant 0 <= k <= |ring| && b == Node(head, ring, k + 1)
        invariant forall j :: 0 <= j < k ==> !(View()[j].dev == dev && View()[j].blockno == blockno)
        decreases |ring| - k
      {
        if b.dev == dev && b.blockno == blockno {
          return;
        }
        assert Node(head, ring, k + 1).next == Node(head, ring, k + 2);
        b := b.next;
        k := k + 1;
      }
    }

    // The scan of bget for a buffer to recycle, from the least recently released end.
    method FindFree() returns (b: Buf, ghost k: int)
      requires Lists()
      ensures -1 <= k < |ring| && b == Node(head, ring, k + 1)
      ensures k >= 0 ==> View()[k].Recyclable()
      ensures forall j :: k < j < |ring| ==> !View()[j].Recyclable()
    {
      k := |ring| - 1;
      assert Node(head, ring, |ring| + 1).prev == Node(head, ring, |ring|);
      b := head.prev;
      while b != head
        invariant -1 <= k < |ring| && b == Node(head, ring, k + 1)
        invariant forall j :: k < j < |ring| ==> !View()[j].Recyclable()
        decreases k
      {
        if b.refcnt == 0 && !b.dirty {
          return;
        }
        assert Node(head, ring, k + 1).prev == Node(head, ring, k);
        b := b.prev;
        k := k - 1;
      }
    }

    // One more reference to buffer b.
    method Reference(b: Buf, ghost k: nat)
      requires Valid() && k < |ring| && ring[k] == b
      modifies b`refcnt
      ensures Valid() && View() == Referenced(old(View()), k)
    {
      hide Linked, Coherent, Ordered, View;
      ghost var v := View();
      HitStep(v, disk, current, stray, clock, k);
      b.refcnt := b.refcnt + 1;
      assert View() == Referenced(v, k);
    }

    // Buffer b is emptied and given to block n.
    method Recycle(b: Buf, ghost k: nat, n: nat)
      requires Valid() && k < |ring| && ring[k] == b && View()[k].Recyclable() && n < |disk|
      requires forall i :: 0 <= i < |ring| ==> !View()[i].Holds(n)
      modifies `stray, b`refcnt, b`dev, b`blockno, b`valid, b`dirty
      ensures Valid() && View() == old(View())[k := Recycled(old(View())[k], n)]
      ensures stray == Evicted(old(View())[k], old(stray))
    {
      hide Linked, Coherent, Ordered, View;
      ghost var v := View();
      RecycleStep(v, disk, current, stray, clock, k, n);
      stray := Evicted(v[k], stray);
      b.dev, b.blockno, b.valid, b.dirty, b.refcnt := ROOTDEV, n, false, false, 1;
      assert View() == v[k := Recycled(v[k], n)];
    }

    // A buffer for the block, referenced once more: the one that holds it, or the least recently
    // released clean one nobody references. None left is a panic.
    method Bget(blockno: nat) returns (b: Buf?, ghost k: nat)
      requires Valid() && blockno < |disk|
      modifies `stray, Bufs()`refcnt, Bufs()`dev, Bufs()`blockno, Bufs()`valid, Bufs()`dirty
      ensures Valid()
      ensures b == null ==> View() == old(View()) && stray == old(stray) && forall i :: 0 <= i < |ring| ==>
        !View()[i].Holds(blockno) && !View()[i].Recyclable()
      ensures b != null ==> k < |ring| && ring[k] == b && Got(old(View()), View(), blockno, k)
      ensures b != null ==>
        stray == if old(View())[k].Holds(blockno) then old(stray) else Evicted(old(View())[k], old(stray))
    {
      hide Linked, Coherent;
      k := 0;
      var x, i := Find(ROOTDEV, blockno);
      if x != head {
        Reference(x, i);
        return x, i;
      }
      var y, j := FindFree();
      if y != head {
        Recycle(y, j, blockno);
        return y, j;
      }
      return null, 0;
    }

    // A locked buffer holding the block, as it was last logged or written.
    method Bread(blockno: nat) returns (b: Buf?, ghost k: nat)
      requires Valid() && blockno < |disk|
      requires forall i :: 0 <= i < |ring| && View()[i].Holds(blockno) ==> !View()[i].locked
      modifies `stray, Bufs()`refcnt, Bufs()`dev, Bufs()`blockno, Bufs()`valid, Bufs()`dirty, Bufs()`locked, Bufs()`data
      ensures Valid() && stray <= old(stray)
      ensures b == null ==> View() == old(View()) && forall i :: 0 <= i < |ring| ==>
        !View()[i].Holds(blockno) && !View()[i].Recyclable()
      ensures b != null ==>
        k < |ring| && ring[k] == b && b.locked && b.valid && b.dev == ROOTDEV && b.blockno == blockno && b.refcnt > 0
      ensures b != null && blockno !in stray ==> b.data == current[blockno]
    {
      hide Linked, Coherent, Ordered, View;
      b, k := Bget(blockno);
      if b == null {
        return;
      }
      Lock(b, k);
    }

    // acquiresleep on the buffer, then iderw unless it is valid.
    method Lock(b: Buf, ghost k: nat)
      requires Valid() && k < |ring| && ring[k] == b && View()[k].refcnt > 0 && View()[k].dev == ROOTDEV
      modifies b`locked, b`valid, b`data
      ensures Valid() && old(View())[k].blockno < |disk| && View() == old(View())[k := Read(old(View())[k], disk)]
      ensures View()[k].blockno !in stray ==> View()[k].data == current[View()[k].blockno]
    {
      hide Linked, Coherent, Ordered, View;
      ghost var v := View();
      ReadStep(v, disk, current, stray, clock, k);
      b.locked := true;
      if !b.valid {
        b.data := disk[b.blockno];
        b.valid := true;
      }
      assert View() == v[k := Read(v[k], disk)];
    }

    // The holder of the lock writes into the buffer.
    method Modify(b: Buf, ghost k: nat, x: Block)
      requires Valid() && k < |ring| && ring[k] == b && b.locked
      modifies b`data, `stray
      ensures Valid() && View() == old(View())[k := old(View())[k].(data := x)] && stray == old(stray) + {b.blockno}
    {
      hide Linked, Coherent, Ordered, View;
      ghost var v := View();
      ModifyStep(v, disk, current, stray, clock, k, x);
      b.data := x;
      stray := stray + {b.blockno};
      assert View() == v[k := v[k].(data := x)];
    }

    // log_write's mark: the block is now what the buffer holds, and the buffer may not be recycled.
    method Pin(b: Buf, ghost k: nat)
      requires Valid() && k < |ring| && ring[k] == b && b.locked && b.valid && b.dev == ROOTDEV
      modifies b`dirty, `stray, `current
      ensures Valid() && View() == old(View())[k := old(View())[k].(dirty := true)]
      ensures b.blockno < |old(current)| && current == old(current)[b.blockno := b.data]
      ensures stray == old(stray) - {b.blockno}
    {
      hide Linked, Coherent, Ordered, View;
      ghost var v := View();
      LogStep(v, disk, current, stray, clock, k);
      b.dirty := true;
      current, stray := current[b.blockno := b.data], stray - {b.blockno};
      assert View() == v[k := v[k].(dirty := true)];
    }

    // Writes the buffer to disk.
    method Bwrite(b: Buf, ghost k: nat)
      requires Valid() && k < |ring| && ring[k] == b && b.locked && b.dev == ROOTDEV
      modifies b`dirty, b`valid, `stray, `current, `disk
      ensures Valid() && View() == old(View())[k := old(View())[k].(dirty := false, valid := true)]
      ensures b.blockno < |old(current)| == |old(disk)| && stray == old(stray) - {b.blockno}
      ensures current == old(current)[b.blockno := b.data] && disk == old(disk)[b.blockno := b.data]
    {
      hide Linked, Coherent, Ordered, View;
      ghost var v := View();
      WriteStep(v, disk, current, stray, clock, k);
      b.dirty := true;
      // iderw
      b.dirty := false;
      disk := disk[b.blockno := b.data];
      b.valid := true;
      current, stray := current[b.blockno := b.data], stray - {b.blockno};
      assert View() == v[k := v[k].(dirty := false, valid := true)];
    }

    // Moves buffer b to the most recently used end of the list.
    method Promote(b: Buf, ghost k: nat)
      requires Lists() && k < |ring| && ring[k] == b
      modifies `ring, Nodes(head, ring)`next, Nodes(head, ring)`prev
      ensures Lists() && ring == First(old(ring), k)
      ensures k < |old(View())| && View() == First(old(View()), k)
    {
      hide Linked, Distinct, First, View;
      ghost var v := View();
      FirstAt(v, k);
      FirstAt(ring, k);
      MoveFirst(head, ring, b, k);
      ring := First(ring, k);
    }

    // Gives the buffer back; the last reference moves it to the most recently used end.
    method Brelse(b: Buf, ghost k: nat)
      requires Valid() && k < |ring| && ring[k] == b && b.locked && b.refcnt > 0
      modifies `ring, `clock, b`locked, b`refcnt, b`stamp, Nodes(head, ring)`next, Nodes(head, ring)`prev
      ensures Valid() && View() == Released(old(View()), k, old(clock)) && clock == old(clock) + 1
      ensures ring == if old(b.refcnt) == 1 then First(old(ring), k) else old(ring)
    {
      hide Linked, Coherent, Ordered, First, View;
      ghost var v := View();
      ReleaseStep(v, disk, current, stray, clock, k);
      b.locked := false;
      b.refcnt := b.refcnt - 1;
      clock := clock + 1;
      if b.refcnt == 0 {
        b.stamp := clock;
        assert View() == v[k := Dropped(v[k], clock - 1)];
        Promote(b, k);
      } else {
        assert View() == v[k := Dropped(v[k], clock - 1)];
      }
    }
  }

  // As the zeroed globals are: device 0, block 0.
  predicate Empty(r: Rec) {
    !r.valid && !r.dirty && r.dev == 0 && r.blockno == 0 && !r.locked && r.refcnt == 0
  }

  lemma EmptyIsCoherent(v: seq<Rec>, disk: seq<Block>)
    requires forall i :: 0 <= i < |v| ==> Empty(v[i])
    ensures Coherent(v, disk, disk, {})
  {
  }

  // What bget did to the buffers: a hit changes a reference count; a miss takes, among the clean
  // unreferenced buffers, the one released longest ago.
  ghost predicate Got(v: seq<Rec>, v': seq<Rec>, n: nat, k: nat) {
    && k < |v| == |v'|
    && v' == (if v[k].Holds(n) then Referenced(v, k) else v[k := Recycled(v[k], n)])
    && (!v[k].Holds(n) ==>
          && v[k].Recyclable()
          && (forall i :: 0 <= i < |v| ==> !v[i].Holds(n))
          && (forall i :: 0 <= i < |v| && v[i].Recyclable() ==> v[k].stamp <= v[i].stamp))
  }
}
