/** The free list of the user allocator (user/umalloc.c) as a value: blocks in address order after the
    static `base`, every two neighbours separated by a gap. Addresses and sizes are in header units. */
module FreeList {
  datatype Blk = Blk(a: int, s: nat) {
    function End(): int {
      a + s
    }

    predicate Has(u: int) {
      a <= u < a + s
    }
  }

  // base first, ascending, disjoint, and never two blocks that touch.
  ghost predicate Ascending(F: seq<Blk>, base: int) {
    && |F| >= 1 && F[0] == Blk(base, 0)
    && (forall i :: 1 <= i < |F| ==> F[i].s >= 1)
    && (forall i :: 0 <= i < |F| - 1 ==> F[i].End() < F[i + 1].a)
  }

  lemma {:induction false} AscendingFar(F: seq<Blk>, base: int, i: nat, j: nat)
    requires Ascending(F, base) && i < j < |F|
    ensures F[i].End() < F[j].a
    decreases j - i
  {
    if i + 1 < j {
      AscendingFar(F, base, i, j - 1);
    }
  }

  ghost predicate InFree(F: seq<Blk>, u: int) {
    exists i :: 0 <= i < |F| && F[i].Has(u)
  }

  // Unit u belongs to the live block at a.
  predicate Owns(live: map<int, nat>, a: int, u: int) {
    a in live && Blk(a, live[a]).Has(u)
  }

  ghost predicate InLive(live: map<int, nat>, u: int) {
    exists a :: Owns(live, a, u)
  }

  // Free and live blocks partition the units obtained from sbrk.
  ghost predicate Partition(F: seq<Blk>, live: map<int, nat>, obtained: set<int>, base: int) {
    && (forall u :: u in obtained <==> InFree(F, u) || InLive(live, u))
    && (forall u :: !(InFree(F, u) && InLive(live, u)))
    && (forall a, b, u :: Owns(live, a, u) && Owns(live, b, u) ==> a == b)
    && (forall a :: a in live ==> live[a] >= 1)
    && (forall u :: u in obtained ==> base < u)
  }

  ghost predicate Inv(F: seq<Blk>, live: map<int, nat>, obtained: set<int>, base: int) {
    Ascending(F, base) && Partition(F, live, obtained, base)
  }

  // ---- free ----

  // Between the k-th free block and the next one.
  predicate Between(F: seq<Blk>, k: nat, a: int) {
    k < |F| && F[k].a < a && (k + 1 < |F| ==> a < F[k + 1].a)
  }

  function PutAt(F: seq<Blk>, k: nat, b: Blk): seq<Blk>
    requires k < |F|
  {
    F[..k + 1] + [b] + F[k + 1..]
  }

  predicate Touches(F: seq<Blk>, i: nat) {
    i + 1 < |F| && F[i].End() == F[i + 1].a
  }

  // The i-th block swallows the next one if they touch.
  function Join(F: seq<Blk>, i: nat): seq<Blk> {
    if Touches(F, i) then F[..i] + [Blk(F[i].a, F[i].s + F[i + 1].s)] + F[i + 2..] else F
  }

  // The list after block b was put behind the k-th block and joined with its neighbours.
  function Insert(F: seq<Blk>, k: nat, b: Blk): seq<Blk>
    requires k < |F|
  {
    Join(Join(PutAt(F, k, b), k + 1), k)
  }

  // A live block lies in a gap of the free list.
  lemma LiveInGap(F: seq<Blk>, live: map<int, nat>, obtained: set<int>, base: int, a: int, k: nat)
    requires Inv(F, live, obtained, base) && a in live && Between(F, k, a)
    ensures base < a && F[k].End() <= a && (k + 1 < |F| ==> a + live[a] <= F[k + 1].a)
  {
    assert Owns(live, a, a);
    assert InLive(live, a) && a in obtained;
    assert !F[k].Has(a);
    if k + 1 < |F| && F[k + 1].a < a + live[a] {
      assert Owns(live, a, F[k + 1].a) && F[k + 1].Has(F[k + 1].a);
      assert InFree(F, F[k + 1].a);
    }
  }

  // Ascending, except that the i-th and the j-th block may touch the next one.
  ghost predicate AscendingBut(F: seq<Blk>, base: int, i: nat, j: nat) {
    && |F| >= 1 && F[0] == Blk(base, 0)
    && (forall l :: 1 <= l < |F| ==> F[l].s >= 1)
    && (forall l :: 0 <= l < |F| - 1 ==> Ordered(F, l, i, j))
  }

  lemma PutAscending(F: seq<Blk>, base: int, k: nat, b: Blk)
    requires Ascending(F, base) && k < |F| && b.s >= 1 && base < b.a
    requires F[k].End() <= b.a && (k + 1 < |F| ==> b.End() <= F[k + 1].a)
    ensures AscendingBut(PutAt(F, k, b), base, k + 1, k)
  {
  }

  lemma JoinAt(F: seq<Blk>, i: nat, j: nat)
    requires Touches(F, i) && j < |Join(F, i)|
    ensures |Join(F, i)| == |F| - 1
    ensures Join(F, i)[j] == if j < i then F[j] else if j == i then Blk(F[i].a, F[i].s + F[i + 1].s) else F[j + 1]
  {
  }

  // Neighbours l and l + 1, in the order required but for index j.
  predicate Ordered(F: seq<Blk>, l: nat, i: nat, j: nat)
    requires l + 1 < |F|
  {
    F[l].End() < F[l + 1].a || (F[l].End() == F[l + 1].a && l > 0 && (l == i || l == j))
  }

  lemma JoinPair(F: seq<Blk>, i: nat, j: nat, l: nat)
    requires Touches(F, i) && j <= i && |Join(F, i)| == |F| - 1 && l + 2 < |F|
    requires Ordered(F, l, i, j) && Ordered(F, l + 1, i, j)
    ensures Ordered(Join(F, i), l, j, j)
  {
    hide Join;
    JoinAt(F, i, l);
    JoinAt(F, i, l + 1);
  }

  lemma JoinAscending(F: seq<Blk>, base: int, i: nat, j: nat)
    requires AscendingBut(F, base, i, j) && j <= i
    ensures AscendingBut(Join(F, i), base, j, j)
  {
    if Touches(F, i) {
      hide Join;
      var G := Join(F, i);
      assert Ordered(F, 0, i, j);
      JoinAt(F, i, 0);
      forall l | 1 <= l < |G|
        ensures G[l].s >= 1
      {
        JoinAt(F, i, l);
      }
      forall l | 0 <= l < |G| - 1
        ensures Ordered(G, l, j, j)
      {
        assert Ordered(F, l, i, j) && Ordered(F, l + 1, i, j);
        JoinPair(F, i, j, l);
      }
    } else {
      forall l | 0 <= l < |F| - 1
        ensures Ordered(F, l, j, j)
      {
        assert Ordered(F, l, i, j);
      }
    }
  }

  lemma InsertAscending(F: seq<Blk>, base: int, k: nat, b: Blk)
    requires Ascending(F, base) && k < |F| && b.s >= 1 && base < b.a
    requires F[k].End() <= b.a && (k + 1 < |F| ==> b.End() <= F[k + 1].a)
    ensures Ascending(Insert(F, k, b), base)
  {
    hide PutAt, Join;
    PutAscending(F, base, k, b);
    JoinAscending(PutAt(F, k, b), base, k + 1, k);
    var G := Join(PutAt(F, k, b), k + 1);
    JoinLast(G, base, k);
  }

  lemma JoinLast(G: seq<Blk>, base: int, k: nat)
    requires AscendingBut(G, base, k, k)
    ensures Ascending(Join(G, k), base)
  {
    JoinAscending(G, base, k, k);
    var H := Join(G, k);
    forall l | 0 <= l < |H| - 1
      ensures H[l].End() < H[l + 1].a
    {
      assert Ordered(H, l, k, k);
      if l == k && Touches(G, k) {
        assert Ordered(G, k + 1, k, k);
        JoinAt(G, k, k);
        JoinAt(G, k, k + 1);
      }
    }
  }

  lemma PutUnits(F: seq<Blk>, k: nat, b: Blk, u: int)
    requires k < |F|
    ensures InFree(PutAt(F, k, b), u) <==> InFree(F, u) || b.Has(u)
  {
    var G := PutAt(F, k, b);
    assert G[k + 1] == b;
    assert forall i :: 0 <= i < |F| ==> F[i] == G[if i <= k then i else i + 1];
  }

  lemma JoinUnits(F: seq<Blk>, i: nat, u: int)
    ensures InFree(Join(F, i), u) <==> InFree(F, u)
  {
    if Touches(F, i) {
      var G := Join(F, i);
      assert G[i].Has(u) <==> F[i].Has(u) || F[i + 1].Has(u);
      assert forall l :: 0 <= l < i ==> G[l] == F[l];
      assert forall l :: i + 2 <= l < |F| ==> F[l] == G[l - 1];
      assert forall l :: i < l < |G| ==> G[l] == F[l + 1];
    }
  }

  // The units of the list after the insertion are those before plus b's.
  lemma InsertUnits(F: seq<Blk>, k: nat, b: Blk, u: int)
    requires k < |F|
    ensures InFree(Insert(F, k, b), u) <==> InFree(F, u) || b.Has(u)
  {
    hide PutAt, Join, InFree;
    PutUnits(F, k, b, u);
    JoinUnits(PutAt(F, k, b), k + 1, u);
    JoinUnits(Join(PutAt(F, k, b), k + 1), k, u);
  }

  // free: the block leaves the live ones and its units join the list.
  lemma FreeStep(F: seq<Blk>, live: map<int, nat>, obtained: set<int>, base: int, k: nat, a: int)
    requires Inv(F, live, obtained, base) && a in live && Between(F, k, a)
    ensures Inv(Insert(F, k, Blk(a, live[a])), live - {a}, obtained, base)
  {
    hide Insert, InFree, InLive;
    var b := Blk(a, live[a]);
    LiveInGap(F, live, obtained, base, a, k);
    InsertAscending(F, base, k, b);
    forall u
      ensures InFree(Insert(F, k, b), u) <==> InFree(F, u) || b.Has(u)
      ensures InLive(live, u) <==> InLive(live - {a}, u) || b.Has(u)
      ensures !(InLive(live - {a}, u) && b.Has(u))
    {
      InsertUnits(F, k, b, u);
      LiveWithout(live, a, u);
      if b.Has(u) { LiveAlone(F, live, obtained, base, a, u); }
    }
    assert forall c, u :: Owns(live - {a}, c, u) ==> Owns(live, c, u);
  }

  lemma LiveWithout(live: map<int, nat>, a: int, u: int)
    requires a in live
    ensures InLive(live, u) <==> InLive(live - {a}, u) || Blk(a, live[a]).Has(u)
  {
    assert Owns(live, a, u) <==> Blk(a, live[a]).Has(u);
    assert forall c :: Owns(live, c, u) ==> c == a || Owns(live - {a}, c, u);
    assert forall c :: Owns(live - {a}, c, u) ==> Owns(live, c, u);
  }

  // No unit of a live block is in another one.
  lemma LiveAlone(F: seq<Blk>, live: map<int, nat>, obtained: set<int>, base: int, a: int, u: int)
    requires Inv(F, live, obtained, base) && Owns(live, a, u)
    ensures !InLive(live - {a}, u)
  {
    assert forall c :: Owns(live - {a}, c, u) ==> Owns(live, c, u) && c != a;
  }

  // ---- malloc ----

  function Remove(F: seq<Blk>, k: nat): seq<Blk>
    requires k < |F|
  {
    F[..k] + F[k + 1..]
  }

  // Taking n units from the k-th block: all of it, or its tail.
  function Taken(F: seq<Blk>, k: nat, n: nat): seq<Blk>
    requires k < |F| && n <= F[k].s
  {
    if F[k].s == n then Remove(F, k) else F[k := Blk(F[k].a, F[k].s - n)]
  }

  // Where the n units are.
  function TakenAt(F: seq<Blk>, k: nat, n: nat): int
    requires k < |F| && n <= F[k].s
  {
    F[k].a + F[k].s - n
  }

  lemma TakenAscending(F: seq<Blk>, base: int, k: nat, n: nat)
    requires Ascending(F, base) && 1 <= k < |F| && 1 <= n <= F[k].s
    ensures Ascending(Taken(F, k, n), base)
  {
    var G := Taken(F, k, n);
    if F[k].s == n && k + 1 < |F| {
      AscendingFar(F, base, k - 1, k + 1);
    }
    assert forall i :: 0 <= i < k ==> G[i] == F[i];
  }

  // Only the k-th block of the list has the units of the k-th block.
  lemma FreeAlone(F: seq<Blk>, base: int, k: nat, i: nat, u: int)
    requires Ascending(F, base) && k < |F| && i < |F| && F[k].Has(u) && F[i].Has(u)
    ensures i == k
  {
    if i < k { AscendingFar(F, base, i, k); } else if k < i { AscendingFar(F, base, k, i); }
  }

  lemma RemoveUnits(F: seq<Blk>, base: int, k: nat, u: int)
    requires Ascending(F, base) && k < |F|
    ensures InFree(Remove(F, k), u) <==> InFree(F, u) && !F[k].Has(u)
  {
    var G := Remove(F, k);
    if InFree(G, u) {
      var i :| 0 <= i < |G| && G[i].Has(u);
      var j := if i < k then i else i + 1;
      assert F[j].Has(u);
      if F[k].Has(u) { FreeAlone(F, base, k, j, u); }
    }
    if InFree(F, u) && !F[k].Has(u) {
      var i :| 0 <= i < |F| && F[i].Has(u);
      assert G[if i < k then i else i - 1].Has(u);
    }
  }

  lemma ShrinkUnits(F: seq<Blk>, base: int, k: nat, n: nat, u: int)
    requires Ascending(F, base) && k < |F| && n <= F[k].s
    ensures InFree(F[k := Blk(F[k].a, F[k].s - n)], u) <==> InFree(F, u) && !Blk(TakenAt(F, k, n), n).Has(u)
  {
    var G := F[k := Blk(F[k].a, F[k].s - n)];
    if InFree(G, u) {
      var i :| 0 <= i < |G| && G[i].Has(u);
      assert F[i].Has(u);
      if F[k].Has(u) { FreeAlone(F, base, k, i, u); }
    }
    if InFree(F, u) && !Blk(TakenAt(F, k, n), n).Has(u) {
      var i :| 0 <= i < |F| && F[i].Has(u);
      assert G[i].Has(u);
    }
  }

  lemma TakenUnits(F: seq<Blk>, base: int, k: nat, n: nat, u: int)
    requires Ascending(F, base) && 1 <= k < |F| && 1 <= n <= F[k].s
    ensures InFree(Taken(F, k, n), u) <==> InFree(F, u) && !Blk(TakenAt(F, k, n), n).Has(u)
  {
    hide InFree, Ascending, Remove;
    if F[k].s == n {
      RemoveUnits(F, base, k, u);
    } else {
      ShrinkUnits(F, base, k, n, u);
    }
  }

  // malloc: the units leave the list and become a live block.
  lemma MallocStep(F: seq<Blk>, live: map<int, nat>, obtained: set<int>, base: int, k: nat, n: nat)
    requires Inv(F, live, obtained, base) && 1 <= k < |F| && 1 <= n <= F[k].s
    ensures var a := TakenAt(F, k, n);
            a !in live && Inv(Taken(F, k, n), live[a := n], obtained, base)
  {
    hide Taken, InFree, InLive;
    var a := TakenAt(F, k, n);
    var b := Blk(a, n);
    TakenAscending(F, base, k, n);
    forall u
      ensures b.Has(u) ==> InFree(F, u)
      ensures InFree(Taken(F, k, n), u) <==> InFree(F, u) && !b.Has(u)
    {
      FreeHas(F, k, u);
      TakenUnits(F, base, k, n, u);
    }
    NewLive(F, live, obtained, base, a, n, live[a := n]);
  }

  // A block of units that no live block has can become live.
  lemma NewLive(F: seq<Blk>, live: map<int, nat>, obtained: set<int>, base: int, a: int, n: nat, live': map<int, nat>)
    requires Inv(F, live, obtained, base) && n >= 1 && live' == live[a := n]
    requires forall u :: Blk(a, n).Has(u) ==> !InLive(live, u)
    ensures a !in live
    ensures forall u :: InLive(live', u) <==> InLive(live, u) || Blk(a, n).Has(u)
    ensures forall c, d, u :: Owns(live', c, u) && Owns(live', d, u) ==> c == d
    ensures forall c :: c in live' ==> live'[c] >= 1
  {
    hide InFree, InLive;
    assert Blk(a, n).Has(a);
    if a in live { OwnsLive(live, a, a); }
    forall u
      ensures InLive(live', u) <==> InLive(live, u) || Blk(a, n).Has(u)
    {
      LiveWithout(live', a, u);
      assert live' - {a} == live;
    }
    forall c, d, u | Owns(live', c, u) && Owns(live', d, u)
      ensures c == d
    {
      if c != a { assert Owns(live, c, u); OwnsLive(live, c, u); }
      if d != a { assert Owns(live, d, u); OwnsLive(live, d, u); }
    }
  }

  lemma OwnsLive(live: map<int, nat>, c: int, u: int)
    requires Owns(live, c, u)
    ensures InLive(live, u)
  {
  }

  // ---- morecore ----

  // The units p..p+n.
  function Units(p: int, n: nat): (r: set<int>)
    ensures forall u :: u in r <==> Blk(p, n).Has(u)
  {
    if n == 0 then {} else Units(p, n - 1) + {p + n - 1}
  }

  // A new region from sbrk is a live block until morecore frees it.
  lemma GrowStep(F: seq<Blk>, live: map<int, nat>, obtained: set<int>, base: int, p: int, n: nat)
    requires Inv(F, live, obtained, base) && n >= 1 && base < p && Units(p, n) !! obtained
    ensures p !in live && Inv(F, live[p := n], obtained + Units(p, n), base)
  {
    hide InFree, InLive, Units;
    forall u ensures Blk(p, n).Has(u) ==> !InLive(live, u) && !InFree(F, u) {
      assert u in Units(p, n) <==> Blk(p, n).Has(u);
    }
    NewLive(F, live, obtained, base, p, n, live[p := n]);
  }

  lemma FreeHas(F: seq<Blk>, i: nat, u: int)
    requires i < |F|
    ensures F[i].Has(u) ==> InFree(F, u)
  {
  }

  // The list after the insertion has a block at least as large as the inserted one.
  lemma InsertHasRoom(F: seq<Blk>, k: nat, b: Blk) returns (j: nat)
    requires k < |F|
    ensures j < |Insert(F, k, b)| && Insert(F, k, b)[j].s >= b.s
  {
    var G := Join(PutAt(F, k, b), k + 1);
    assert G[k + 1].s >= b.s;
    j := if Touches(G, k) then k else k + 1;
  }

  // ---- the list is determined by its units ----

  ghost predicate SameUnits(F: seq<Blk>, G: seq<Blk>) {
    forall u :: InFree(F, u) <==> InFree(G, u)
  }

  lemma StartsBefore(F: seq<Blk>, G: seq<Blk>, base: int, i: nat)
    requires Ascending(F, base) && Ascending(G, base) && SameUnits(F, G)
    requires 1 <= i < |F| && i <= |G| && F[..i] == G[..i]
    ensures i < |G| && G[i].a <= F[i].a
  {
    var u := F[i].a;
    assert F[i].Has(u) && InFree(F, u) && InFree(G, u);
    var j :| 0 <= j < |G| && G[j].Has(u);
    if j < i {
      assert G[j] == G[..i][j] == F[j];
      FreeAlone(F, base, i, j, u);
    } else if i < j {
      AscendingFar(G, base, i, j);
    }
  }

  lemma EndsBefore(F: seq<Blk>, G: seq<Blk>, base: int, i: nat)
    requires Ascending(F, base) && Ascending(G, base) && SameUnits(F, G)
    requires 1 <= i < |F| && i < |G| && F[i].a == G[i].a
    ensures G[i].End() <= F[i].End()
  {
    var u := F[i].End();
    if G[i].Has(u) {
      assert InFree(G, u) && InFree(F, u);
      var j :| 0 <= j < |F| && F[j].Has(u);
      if j < i { AscendingFar(F, base, j, i); } else if i < j { AscendingFar(F, base, i, j); }
    }
  }

  lemma {:induction false} SamePrefix(F: seq<Blk>, G: seq<Blk>, base: int, n: nat)
    requires Ascending(F, base) && Ascending(G, base) && SameUnits(F, G) && n <= |F|
    ensures n <= |G| && F[..n] == G[..n]
  {
    hide SameUnits;
    if n > 1 {
      SamePrefix(F, G, base, n - 1);
      StartsBefore(F, G, base, n - 1);
      SameSymmetric(F, G);
      StartsBefore(G, F, base, n - 1);
      EndsBefore(F, G, base, n - 1);
      EndsBefore(G, F, base, n - 1);
      assert F[..n] == F[..n - 1] + [F[n - 1]] && G[..n] == G[..n - 1] + [G[n - 1]];
    }
  }

  lemma SameSymmetric(F: seq<Blk>, G: seq<Blk>)
    requires SameUnits(F, G)
    ensures SameUnits(G, F)
  {
  }

  // Free blocks are as large as they can be, so the free units determine the list.
  lemma Canonical(F: seq<Blk>, G: seq<Blk>, base: int)
    requires Ascending(F, base) && Ascending(G, base) && SameUnits(F, G)
    ensures F == G
  {
    SamePrefix(F, G, base, |F|);
    SameSymmetric(F, G);
    SamePrefix(G, F, base, |G|);
    assert F[..|F|] == F && G[..|G|] == G;
  }

  // Hence the list follows from what was obtained and what is live.
  lemma ListDetermined(F: seq<Blk>, G: seq<Blk>, live: map<int, nat>, obtained: set<int>, base: int)
    requires Inv(F, live, obtained, base) && Inv(G, live, obtained, base)
    ensures F == G
  {
    hide InFree, InLive;
    Canonical(F, G, base);
  }
}
