/** The ring buffer of a pipe (kernel/pipe.c): 512 bytes and two unsigned 32-bit counters that wrap.
    `stored` and `got` record every byte ever put in and taken out, and `dropped` that a writer stored
    bytes and left without a wakeup, until the ring is empty again or somebody does call wakeup. */
module Ring {
  import opened Blocks

  const PIPESIZE := 512

  datatype Pipe = Pipe(data: seq<int>, nread: Word, nwrite: Word, readopen: bool, writeopen: bool,
                       stored: seq<int>, got: seq<int>, dropped: bool)
  {
    predicate Empty() {
      nread == nwrite
    }

    predicate Full() {
      nwrite == AddU32(nread, PIPESIZE)
    }
  }

  // One byte of pipewrite.
  function Store(p: Pipe, b: int): Pipe
    requires |p.data| == PIPESIZE
  {
    p.(data := p.data[p.nwrite % PIPESIZE := b], nwrite := AddU32(p.nwrite, 1), stored := p.stored + [b])
  }

  // One byte of piperead.
  function Take(p: Pipe): Pipe
    requires |p.data| == PIPESIZE
  {
    p.(nread := AddU32(p.nread, 1), got := p.got + [p.data[p.nread % PIPESIZE]],
       dropped := p.dropped && |p.got| + 1 < |p.stored|)
  }

  // The bytes taken are a prefix of those stored, and the rest, at most PIPESIZE, is in the ring.
  ghost predicate Fifo(p: Pipe) {
    && |p.data| == PIPESIZE
    && p.nread == |p.got| % UINT_LIMIT && p.nwrite == |p.stored| % UINT_LIMIT
    && p.got <= p.stored && |p.stored| <= |p.got| + PIPESIZE && (p.dropped ==> |p.got| < |p.stored|)
    && forall i :: |p.got| <= i < |p.stored| ==> p.data[i % PIPESIZE] == p.stored[i]
  }

  // The comparisons of wrapped counters tell empty and full exactly.
  lemma CountersExact(p: Pipe)
    requires Fifo(p)
    ensures p.Empty() <==> |p.stored| == |p.got|
    ensures p.Full() <==> |p.stored| == |p.got| + PIPESIZE
  {
    var g, k := |p.got|, |p.stored| - |p.got|;
    WrapAdd(g, k);
    WrapAdd(g, PIPESIZE);
  }

  lemma WrapAdd(g: nat, k: nat)
    requires k < UINT_LIMIT
    ensures (g + k) % UINT_LIMIT == if g % UINT_LIMIT + k < UINT_LIMIT then g % UINT_LIMIT + k
                                    else g % UINT_LIMIT + k - UINT_LIMIT
  {
  }

  // The ring index of a wrapped counter is that of the count.
  lemma RingIndex(g: nat)
    ensures g % UINT_LIMIT % PIPESIZE == g % PIPESIZE
  {
    assert g == UINT_LIMIT * (g / UINT_LIMIT) + g % UINT_LIMIT;
  }

  lemma RingDistinct(i: nat, n: nat)
    requires i < n < i + PIPESIZE
    ensures i % PIPESIZE != n % PIPESIZE
  {
  }

  lemma StoreFifo(p: Pipe, b: int)
    requires Fifo(p) && !p.Full()
    ensures Fifo(Store(p, b))
  {
    CountersExact(p);
    WrapAdd(|p.stored|, 1);
    RingIndex(|p.stored|);
    var q := Store(p, b);
    forall i | |q.got| <= i < |q.stored|
      ensures q.data[i % PIPESIZE] == q.stored[i]
    {
      if i < |p.stored| { RingDistinct(i, |p.stored|); }
    }
  }

  lemma TakeFifo(p: Pipe)
    requires Fifo(p) && !p.Empty()
    ensures Fifo(Take(p))
  {
    CountersExact(p);
    WrapAdd(|p.got|, 1);
    RingIndex(|p.got|);
    var q := Take(p);
    assert q.got == p.stored[..|p.got| + 1];
  }
}
