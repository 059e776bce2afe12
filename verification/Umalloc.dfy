/** The user allocator (user/umalloc.c): a circular free list threaded through block headers. Addresses
    count header units. The headers are two maps, the list they hold is a ghost value. */
module Umalloc {
  import opened Blocks
  import opened FreeList

  datatype Option<T> = None | Some(value: T)

  // The fields s.ptr and s.size of every header.
  datatype Headers = Headers(ptr: map<int, int>, size: map<int, nat>)

  function Succ(F: seq<Blk>, i: nat): nat
    requires i < |F|
  {
    if i + 1 < |F| then i + 1 else 0
  }

  ghost predicate Node(h: Headers, F: seq<Blk>, i: nat)
    requires i < |F|
  {
    && F[i].a in h.ptr && h.ptr[F[i].a] == F[Succ(F, i)].a
    && F[i].a in h.size && h.size[F[i].a] == F[i].s
  }

  // The headers hold the list F, closed into a circle.
  ghost predicate Holds(h: Headers, F: seq<Blk>) {
    forall i :: 0 <= i < |F| ==> Node(h, F, i)
  }

  ghost predicate Increasing(F: seq<Blk>) {
    forall i, j :: 0 <= i < j < |F| ==> F[i].a < F[j].a
  }

  lemma AscendingIncreasing(F: seq<Blk>, base: int)
    requires Ascending(F, base)
    ensures Increasing(F) && forall i :: 0 <= i < |F| ==> F[i].a >= base
  {
    forall i, j | 0 <= i < j < |F|
      ensures F[i].a < F[j].a
    {
      AscendingFar(F, base, i, j);
    }
  }

  // The block at bp linked in behind the one at p.
  function Linked(h: Headers, p: int, bp: int): Headers
    requires p in h.ptr
  {
    h.(ptr := h.ptr[bp := h.ptr[p]][p := bp])
  }

  predicate TouchesNext(h: Headers, x: int) {
    x in h.ptr && x in h.size && h.ptr[x] in h.ptr && h.ptr[x] in h.size && x + h.size[x] == h.ptr[x]
  }

  // The block at x swallows the next one if they touch.
  function Joined(h: Headers, x: int): Headers {
    if TouchesNext(h, x) then
      Headers(h.ptr[x := h.ptr[h.ptr[x]]], h.size[x := h.size[x] + h.size[h.ptr[x]]])
    else h
  }

  lemma LinkedHolds(h: Headers, F: seq<Blk>, k: nat, b: Blk)
    requires Holds(h, F) && Increasing(F) && Between(F, k, b.a) && Node(h, F, k)
    requires b.a in h.size && h.size[b.a] == b.s
    ensures Holds(Linked(h, F[k].a, b.a), PutAt(F, k, b)) && Increasing(PutAt(F, k, b))
  {
    var G, h' := PutAt(F, k, b), Linked(h, F[k].a, b.a);
    assert G[k + 1] == b && G[k] == F[k];
    forall i | 0 <= i < |G|
      ensures Node(h', G, i)
    {
      var j := if i <= k then i else i - 1;
      assert i != k + 1 ==> G[i] == F[j] && Node(h, F, j);
      assert Node(h, F, k);
    }
  }

  lemma JoinIncreasing(F: seq<Blk>, i: nat)
    requires Increasing(F)
    ensures Increasing(Join(F, i))
  {
    if Touches(F, i) {
      var G := Join(F, i);
      forall j, l | 0 <= j < l < |G|
        ensures G[j].a < G[l].a
      {
        JoinAt(F, i, j);
        JoinAt(F, i, l);
      }
    }
  }

  lemma JoinedHolds(h: Headers, F: seq<Blk>, i: nat)
    requires Holds(h, F) && Increasing(F) && i < |F| && (F[i].s >= 1 || i + 1 < |F|)
    ensures Holds(Joined(h, F[i].a), Join(F, i))
  {
    var G, h' := Join(F, i), Joined(h, F[i].a);
    assert Node(h, F, i);
    if Touches(F, i) {
      assert Node(h, F, i + 1);
      forall j | 0 <= j < |G|
        ensures Node(h', G, j)
      {
        JoinedNode(h, F, i, j);
      }
    }
  }

  lemma JoinedNode(h: Headers, F: seq<Blk>, i: nat, j: nat)
    requires Holds(h, F) && Increasing(F) && Touches(F, i) && j < |Join(F, i)|
    ensures Node(Joined(h, F[i].a), Join(F, i), j)
  {
    hide Join;
    JoinAt(F, i, j);
    JoinAt(F, i, Succ(Join(F, i), j));
    var l := if j <= i then j else j + 1;
    assert Node(h, F, l) && Node(h, F, i) && Node(h, F, i + 1);
    assert l != i ==> F[l].a != F[i].a;
  }

  // The whole block at F[k], k >= 1, unlinked from the list.
  lemma UnlinkedHolds(h: Headers, F: seq<Blk>, k: nat)
    requires Holds(h, F) && Increasing(F) && 1 <= k < |F| && F[k].a in h.ptr
    ensures Holds(h.(ptr := h.ptr[F[k - 1].a := h.ptr[F[k].a]]), Remove(F, k))
  {
    var G, h' := Remove(F, k), h.(ptr := h.ptr[F[k - 1].a := h.ptr[F[k].a]]);
    forall i | 0 <= i < |G|
      ensures Node(h', G, i)
    {
      assert Node(h, F, k) && Node(h, F, if i < k then i else i + 1);
    }
  }

  // The tail of the block at F[k] cut off.
  lemma ShrunkHolds(h: Headers, F: seq<Blk>, base: int, k: nat, n: nat)
    requires Holds(h, F) && Ascending(F, base) && 1 <= k < |F| && 1 <= n < F[k].s
    ensures Holds(h.(size := h.size[F[k].a := F[k].s - n][TakenAt(F, k, n) := n]), Taken(F, k, n))
  {
    var G, h' := Taken(F, k, n), h.(size := h.size[F[k].a := F[k].s - n][TakenAt(F, k, n) := n]);
    forall i | 0 <= i < |G|
      ensures Node(h', G, i)
    {
      assert Node(h, F, i);
      if i < k { AscendingFar(F, base, i, k); } else if k < i { AscendingFar(F, base, k, i); }
    }
  }

  // What free does to the headers, given the block p behind which bp goes.
  lemma FreedHolds(h: Headers, F: seq<Blk>, base: int, k: nat, b: Blk)
    requires Holds(h, F) && Ascending(F, base) && Between(F, k, b.a) && Node(h, F, k)
    requires b.a in h.size && h.size[b.a] == b.s && b.s >= 1
    ensures Holds(Joined(Joined(Linked(h, F[k].a, b.a), b.a), F[k].a), Insert(F, k, b))
    ensures k < |Insert(F, k, b)| && Insert(F, k, b)[k].a == F[k].a >= base
  {
    hide Linked, Joined, Holds;
    AscendingIncreasing(F, base);
    LinkedHolds(h, F, k, b);
    var G := PutAt(F, k, b);
    assert G[k + 1] == b && G[k] == F[k];
    JoinedHolds(Linked(h, F[k].a, b.a), G, k + 1);
    JoinIncreasing(G, k + 1);
    JoinedHolds(Joined(Linked(h, F[k].a, b.a), b.a), Join(G, k + 1), k);
  }

  // The header of every live block has its size.
  ghost predicate Sized(h: Headers, live: map<int, nat>) {
    forall a :: a in live ==> a in h.size && h.size[a] == live[a]
  }

  lemma JoinedSized(h: Headers, live: map<int, nat>, p: int, bp: int)
    requires Sized(h, live) && p in h.ptr && p !in live
    ensures Sized(Joined(Joined(Linked(h, p, bp), bp), p), live - {bp})
  {
  }

  // The v-th block after the c-th one, around the circle.
  function Nth(c: nat, v: nat, n: nat): nat
    requires c < n && v < n
  {
    if c + 1 + v < n then c + 1 + v else c + 1 + v - n
  }

  // No list block has a live block's address.
  lemma FreeNotLive(F: seq<Blk>, live: map<int, nat>, obtained: set<int>, base: int, i: nat)
    requires Inv(F, live, obtained, base) && i < |F|
    ensures F[i].a !in live
  {
    var a := F[i].a;
    if a in live {
      assert Owns(live, a, a);
      assert InLive(live, a) && a in obtained;
      assert i > 0 ==> F[i].Has(a);
    }
  }

  lemma LiveHeader(F: seq<Blk>, live: map<int, nat>, obtained: set<int>, base: int, a: int)
    requires Inv(F, live, obtained, base) && a in live
    ensures live[a] >= 1 && base < a
    ensures forall i :: 0 <= i < |F| ==> F[i].a != a
  {
    assert Owns(live, a, a);
    assert InLive(live, a) && a in obtained;
    forall i | 0 <= i < |F| ensures F[i].a != a {
      FreeNotLive(F, live, obtained, base, i);
    }
  }

  // A block above base lies behind exactly one block of the list.
  lemma {:induction false} Place(F: seq<Blk>, a: int, n: nat) returns (k: nat)
    requires Increasing(F) && 1 <= n <= |F| && F[0].a < a
    requires forall i :: 0 <= i < |F| ==> F[i].a != a
    requires n < |F| ==> a < F[n].a
    ensures Between(F, k, a)
    decreases n
  {
    k := n - 1;
    if a < F[k].a {
      k := Place(F, a, k);
    }
  }

  // Units for nbytes of payload and a header, in unsigned 32-bit arithmetic.
  function NUnits(nbytes: Word): (n: nat)
    ensures n >= 1
  {
    AddU32(nbytes, 7) / 8 + 1
  }

  // The payload fits exactly when adding 7 does not wrap.
  lemma PayloadFits(nbytes: Word)
    ensures 8 * (NUnits(nbytes) - 1) >= nbytes <==> nbytes <= 0xFFFF_FFF8
  {
  }

  function Ask(nu: nat): nat {
    if nu < 4096 then 4096 else nu
  }

  // The byte count morecore passes to sbrk, as the signed int sbrk takes.
  function SbrkArgument(nu: nat): int {
    var n := 8 * nu % UINT_LIMIT;
    if n < 0x8000_0000 then n else n - UINT_LIMIT
  }

  // morecore asks the kernel for what it then takes exactly below 2^28 units.
  lemma AskIsHonest(nbytes: Word)
    ensures var nu := Ask(NUnits(nbytes)); SbrkArgument(nu) == 8 * nu <==> nu < 0x1000_0000
  {
  }

  lemma NthAll(c: nat, n: nat, j: nat) returns (w: nat)
    requires c < n && j < n
    ensures w < n && Nth(c, w, n) == j
  {
    w := if j > c then j - c - 1 else j + n - c - 1;
  }

  // A header written outside the list leaves it alone.
  lemma OtherHeader(h: Headers, F: seq<Blk>, a: int, n: nat)
    requires Holds(h, F) && forall i :: 0 <= i < |F| ==> F[i].a != a
    ensures Holds(h.(size := h.size[a := n]), F)
  {
    var h' := h.(size := h.size[a := n]);
    forall i | 0 <= i < |F| ensures Node(h', F, i) {
      assert Node(h, F, i);
    }
  }

  class Heap {
    const base: int
    var headers: Headers
    var freep: int
    ghost var F: seq<Blk>
    ghost var at: nat
    ghost var live: map<int, nat>
    ghost var obtained: set<int>

    // Before the first call freep is null; afterwards it is on the list.
    ghost predicate Valid()
      reads this
    {
      && base > 0
      && Inv(F, live, obtained, base) && Sized(headers, live)
      && (if freep == 0 then F == [Blk(base, 0)] && live == map[] && obtained == {}
          else at < |F| && freep == F[at].a && Holds(headers, F))
    }

    // The state before the first call: static storage, all null.
    constructor (base: int)
      requires base > 0
      ensures Valid() && this.base == base && live == map[] && obtained == {}
    {
      this.base, headers, freep := base, Headers(map[], map[]), 0;
      F, at, live, obtained := [Blk(base, 0)], 0, map[], {};
    }

    // free's search for the block behind which bp goes.
    method FindPlace(bp: int) returns (p: int, ghost k: nat)
      requires Valid() && freep != 0 && bp in live
      ensures Between(F, k, bp) && p == F[k].a
    {
      AscendingIncreasing(F, base);
      LiveHeader(F, live, obtained, base, bp);
      ghost var t := Place(F, bp, |F|);
      ghost var i: nat := at;
      p := freep;
      assert Node(headers, F, i);
      while !(bp > p && bp < headers.ptr[p])
        invariant i < |F| && p == F[i].a && Node(headers, F, i)
        decreases if i <= t then t - i else t + |F| - i
      {
        if p >= headers.ptr[p] && (bp > p || bp < headers.ptr[p]) {
          break;
        }
        i, p := Succ(F, i), headers.ptr[p];
        assert Node(headers, F, i);
      }
      k := i;
    }

    // free's changes to the headers.
    method Relink(p: int, bp: int)
      requires p in headers.ptr && p in headers.size && bp in headers.size && p != bp
      requires var next := headers.ptr[p];
               next in headers.ptr && next in headers.size && next != bp && (next != p || p < bp)
      modifies this`headers
      ensures headers == Joined(Joined(Linked(old(headers), p, bp), bp), p)
    {
      var next := headers.ptr[p];
      if bp + headers.size[bp] == next {
        headers := headers.(size := headers.size[bp := headers.size[bp] + headers.size[next]]);
        headers := headers.(ptr := headers.ptr[bp := headers.ptr[next]]);
      } else {
        headers := headers.(ptr := headers.ptr[bp := next]);
      }
      if p + headers.size[p] == bp {
        headers := headers.(size := headers.size[p := headers.size[p] + headers.size[bp]]);
        headers := headers.(ptr := headers.ptr[p := headers.ptr[bp]]);
      } else {
        headers := headers.(ptr := headers.ptr[p := bp]);
      }
      ghost var spec := Joined(Joined(Linked(old(headers), p, bp), bp), p);
      assert headers.ptr == spec.ptr && headers.size == spec.size;
    }

    method Free(bp: int)
      requires Valid() && bp in live
      modifies this
      ensures Valid() && freep != 0
      ensures live == old(live) - {bp} && obtained == old(obtained)
      ensures exists k :: Between(old(F), k, bp) && F == Insert(old(F), k, Blk(bp, old(live)[bp])) && at == k
    {
      hide Ascending, Partition, Insert;
      var p;
      ghost var k;
      p, k := FindPlace(bp);
      FreeStep(F, live, obtained, base, k, bp);
      LiveHeader(F, live, obtained, base, bp);
      FreeNotLive(F, live, obtained, base, k);
      assert Node(headers, F, k) && Node(headers, F, Succ(F, k));
      FreedHolds(headers, F, base, k, Blk(bp, live[bp]));
      JoinedSized(headers, live, p, bp);
      hide Linked, Joined, Holds, Sized;
      Relink(p, bp);
      freep := p;
      F, at, live := Insert(F, k, Blk(bp, live[bp])), k, live - {bp};
    }

    // The free list grows by a region from sbrk, whose answer is a parameter.
    method Morecore(n: nat, sbrk: Option<int>) returns (p: int)
      requires Valid() && freep != 0
      requires sbrk.Some? ==> base < sbrk.value && Units(sbrk.value, Ask(n)) !! obtained
      modifies this
      ensures Valid() && freep != 0 && live == old(live)
      ensures sbrk.None? ==> p == 0 && unchanged(this)
      ensures sbrk.Some? ==> p == freep && obtained == old(obtained) + Units(sbrk.value, Ask(n))
      ensures sbrk.Some? ==> exists j :: 0 <= j < |F| && F[j].s >= n
    {
      hide Ascending, Partition, Insert, Holds;
      var nu := n;
      if nu < 4096 {
        nu := 4096;
      }
      if sbrk.None? {
        return 0;
      }
      var hp := sbrk.value;
      GrowStep(F, live, obtained, base, hp, nu);
      LiveHeader(F, live[hp := nu], obtained + Units(hp, nu), base, hp);
      OtherHeader(headers, F, hp, nu);
      headers := headers.(size := headers.size[hp := nu]);
      live, obtained := live[hp := nu], obtained + Units(hp, nu);
      Free(hp);
      assert live == old(live);
      ghost var k := at;
      ghost var j := InsertHasRoom(old(F), k, Blk(hp, nu));
      p := freep;
    }

    // The n units cut from the block p, which follows prevp and is the i-th of the list.
    method Take(prevp: int, p: int, n: nat, ghost i: nat) returns (r: int)
      requires Valid() && freep != 0 && 1 <= i < |F| && prevp == F[i - 1].a && p == F[i].a
      requires 1 <= n <= F[i].s && p in headers.size
      modifies this
      ensures Valid() && freep == prevp && F == Taken(old(F), i, n) && obtained == old(obtained)
      ensures r !in old(live) && live == old(live)[r := n]
    {
      hide Ascending, Partition;
      MallocStep(F, live, obtained, base, i, n);
      FreeNotLive(F, live, obtained, base, i);
      AscendingIncreasing(F, base);
      assert Node(headers, F, i) && Node(headers, F, i - 1);
      r := p;
      if headers.size[p] == n {
        UnlinkedHolds(headers, F, i);
        headers := headers.(ptr := headers.ptr[prevp := headers.ptr[p]]);
      } else {
        ShrunkHolds(headers, F, base, i, n);
        headers := headers.(size := headers.size[r := headers.size[r] - n]);
        r := r + headers.size[r];
        headers := headers.(size := headers.size[r := n]);
      }
      freep := prevp;
      F, at, live := Taken(F, i, n), i - 1, live[r := n];
    }

    // malloc's first steps: an empty circle on the first call.
    method Start() returns (prevp: int)
      requires Valid()
      modifies this`headers, this`freep, this`at
      ensures Valid() && freep != 0 && prevp == freep && |F| >= 1
    {
      prevp := freep;
      if prevp == 0 {
        headers, freep, prevp := Headers(headers.ptr[base := base], headers.size[base := 0]), base, base;
        at := 0;
        assert Node(headers, F, 0);
      }
    }

    // None when no free block is large enough and sbrk fails; otherwise the header of the new block.
    method Malloc(nbytes: Word, sbrk: Option<int>) returns (r: Option<int>)
      requires Valid()
      requires sbrk.Some? ==> base < sbrk.value && Units(sbrk.value, Ask(NUnits(nbytes))) !! obtained
      modifies this
      ensures Valid()
      ensures r.None? <==> sbrk.None? && forall i :: 0 <= i < |old(F)| ==> old(F)[i].s < NUnits(nbytes)
      ensures r.None? ==> F == old(F) && live == old(live)
      ensures r.Some? ==> r.value !in old(live) && live == old(live)[r.value := NUnits(nbytes)]
      ensures obtained == if sbrk.Some? && (forall i :: 0 <= i < |old(F)| ==> old(F)[i].s < NUnits(nbytes))
                          then old(obtained) + Units(sbrk.value, Ask(NUnits(nbytes))) else old(obtained)
    {
      hide Inv, Sized, Holds, Units, NUnits;
      var nunits := NUnits(nbytes);
      var prevp := Start();
      NodeAt(at);
      var p := headers.ptr[prevp];
      ghost var v, asked := 0, false;
      assert Searching(nunits, v, prevp, p);
      while true
        invariant Valid() && freep != 0 && Searching(nunits, v, prevp, p) && live == old(live)
        invariant !asked ==> F == old(F) && obtained == old(obtained)
        invariant asked ==> sbrk.Some? && obtained == old(obtained) + Units(sbrk.value, Ask(nunits))
        invariant asked ==> forall i :: 0 <= i < |old(F)| ==> old(F)[i].s < nunits
        invariant asked ==> exists j :: 0 <= j < |F| && F[j].s >= nunits
        decreases if asked then 0 else 1, |F| - v
      {
        ghost var i := Nth(at, v, |F|);
        NodeAt(i);
        if headers.size[p] >= nunits {
          FitIsNotBase(i);
          var q := Take(prevp, p, nunits, i);
          return Some(q);
        }
        if p == freep {
          AllSeen(nunits, v, prevp, p);
          p := Morecore(nunits, sbrk);
          if p == 0 {
            return None;
          }
          v, asked := 0, true;
          NodeAt(at);
        } else {
          NotLast(nunits, v, prevp, p);
          v := v + 1;
        }
        prevp, p := p, headers.ptr[p];
      }
    }

    // malloc stands at the v-th block after freep and no earlier one is large enough.
    ghost predicate Searching(n: nat, v: int, prevp: int, p: int)
      reads this
    {
      && 0 <= v < |F| && at < |F|
      && p == F[Nth(at, v, |F|)].a
      && prevp == F[if v == 0 then at else Nth(at, v - 1, |F|)].a
      && forall w :: 0 <= w < v ==> F[Nth(at, w, |F|)].s < n
    }

    lemma NodeAt(i: nat)
      requires Valid() && freep != 0 && i < |F|
      ensures Node(headers, F, i)
    {
    }

    lemma FitIsNotBase(i: nat)
      requires Valid() && i < |F| && F[i].s >= 1
      ensures i >= 1
    {
    }

    lemma AllSeen(n: nat, v: int, prevp: int, p: int)
      requires Valid() && freep != 0 && Searching(n, v, prevp, p) && p == freep && F[Nth(at, v, |F|)].s < n
      ensures forall j :: 0 <= j < |F| ==> F[j].s < n
    {
      AscendingIncreasing(F, base);
      assert v == |F| - 1;
      forall j | 0 <= j < |F| ensures F[j].s < n {
        var w := NthAll(at, |F|, j);
      }
    }

    lemma NotLast(n: nat, v: int, prevp: int, p: int)
      requires Valid() && freep != 0 && Searching(n, v, prevp, p) && p != freep
      ensures v + 1 < |F| && Nth(at, v + 1, |F|) == Succ(F, Nth(at, v, |F|))
    {
    }
  }

  // Freeing a block just allocated without sbrk brings the very same free list back.
  method MallocFree(h: Heap, nbytes: Word) returns (r: Option<int>)
    requires h.Valid()
    modifies h
    ensures h.Valid() && h.F == old(h.F) && h.live == old(h.live) && h.obtained == old(h.obtained)
  {
    hide Inv;
    r := h.Malloc(nbytes, None);
    if r.Some? {
      h.Free(r.value);
      assert h.live == old(h.live);
      ListDetermined(h.F, old(h.F), h.live, h.obtained, h.base);
    }
  }
}
