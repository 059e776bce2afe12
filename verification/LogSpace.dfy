/** Space in the log header: what operations that keep to their reservation may rely on, and exactly when
    log_write can panic. */
module LogSpace {
  import opened Blocks
  import opened Params
  import opened LogMachine
  import opened LogSafety
  import opened LogRuns

  // ---- reserved log space ----

  // What the outstanding operations may still log when each may log m blocks.
  ghost function Unspent(ops: map<OpId, set<nat>>, m: nat): int
    decreases |ops|
  {
    if |ops| == 0 then 0 else m - |ops[Any(ops)]| + Unspent(ops - {Any(ops)}, m)
  }

  ghost function Any(ops: map<OpId, set<nat>>): (o: OpId)
    requires |ops| > 0
    ensures o in ops
  {
    var o :| o in ops;
    o
  }

  lemma {:induction false} UnspentRemove(ops: map<OpId, set<nat>>, m: nat, o: OpId)
    requires o in ops
    ensures Unspent(ops, m) == m - |ops[o]| + Unspent(ops - {o}, m)
    decreases |ops|
  {
    assert |ops| != 0;
    var p := Any(ops);
    assert Unspent(ops, m) == m - |ops[p]| + Unspent(ops - {p}, m);
    hide Unspent, Any;
    if p != o {
      assert ops - {p} - {o} == ops - {o} - {p};
      assert |ops - {p}| < |ops| && |ops - {o}| < |ops| by {
        assert (ops - {p}).Keys == ops.Keys - {p} && (ops - {o}).Keys == ops.Keys - {o};
      }
      UnspentRemove(ops - {p}, m, o);
      UnspentRemove(ops - {o}, m, p);
    }
  }

  lemma UnspentSet(ops: map<OpId, set<nat>>, m: nat, o: OpId, bs: set<nat>)
    ensures Unspent(ops[o := bs], m) == m - |bs| + Unspent(ops - {o}, m)
  {
    UnspentRemove(ops[o := bs], m, o);
    assert ops[o := bs] - {o} == ops - {o};
  }

  lemma {:induction false} UnspentBounds(ops: map<OpId, set<nat>>, m: nat)
    requires forall o :: o in ops ==> |ops[o]| <= m
    ensures 0 <= Unspent(ops, m) <= |ops| * m
    decreases |ops|
  {
    if |ops| != 0 {
      var o :| o in ops;
      UnspentRemove(ops, m, o);
      assert |ops - {o}| == |ops| - 1 by { assert (ops - {o}).Keys == ops.Keys - {o}; }
      UnspentBounds(ops - {o}, m);
      hide Unspent;
      OneLess(|ops|, m);
    }
  }

  lemma OneLess(n: nat, m: nat)
    requires n > 0
    ensures n * m == (n - 1) * m + m
  {
  }

  // ---- runs within a limit ----

  // An operation calls log_write only while it has logged at most `limit` different blocks.
  predicate Within(s: State, e: Event, limit: nat) {
    e.Write? ==> e.op in s.ops && |s.ops[e.op]| <= limit
  }

  ghost predicate ReachesWithin(c: Config, init: seq<Block>, run: seq<Event>, s: State, limit: nat)
    decreases |run|
  {
    if |run| == 0 then Start(c, init, s)
    else
      var e := run[|run| - 1];
      exists s1 ::
        && ReachesWithin(c, init, run[..|run| - 1], s1, limit)
        && WellFormed(c, s1) && Enabled(c, s1, e) && Within(s1, e, limit) && s == Next(c, s1, e)
  }

  lemma {:induction false} WithinReaches(c: Config, init: seq<Block>, run: seq<Event>, s: State, limit: nat)
    requires ReachesWithin(c, init, run, s, limit)
    ensures Reaches(c, init, run, s)
    decreases |run|
  {
    if |run| > 0 {
      var e := run[|run| - 1];
      var s1 :| && ReachesWithin(c, init, run[..|run| - 1], s1, limit)
                && WellFormed(c, s1) && Enabled(c, s1, e) && Within(s1, e, limit) && s == Next(c, s1, e);
      WithinReaches(c, init, run[..|run| - 1], s1, limit);
    }
  }

  lemma WithinStep(c: Config, init: seq<Block>, run: seq<Event>, s: State, limit: nat, e: Event)
    requires ReachesWithin(c, init, run, s, limit) && WellFormed(c, s) && Enabled(c, s, e) && Within(s, e, limit)
    ensures ReachesWithin(c, init, run + [e], Next(c, s, e), limit)
  {
    assert (run + [e])[..|run|] == run;
  }

  // Steps other than log_write never leave the limit.
  lemma {:induction false} WithinMore(c: Config, init: seq<Block>, run: seq<Event>, s: State, limit: nat,
                                      es: seq<Event>, s': State)
    requires ReachesWithin(c, init, run, s, limit) && Reaches(c, init, run + es, s')
    requires forall e :: e in es ==> !e.Write?
    ensures ReachesWithin(c, init, run + es, s', limit)
    decreases |es|
  {
    hide Next, Enabled, WellFormed, Reaches, ReachesWithin;
    if |es| == 0 {
      assert run + es == run;
      WithinReaches(c, init, run, s, limit);
      SameState(c, init, run, s, s');
    } else {
      var all, e := run + es, es[|es| - 1];
      assert all[..|all| - 1] == run + es[..|es| - 1] && all[|all| - 1] == e && e in es;
      var s1 := LastStep(c, init, all, s');
      WithinMore(c, init, run, s, limit, es[..|es| - 1], s1);
      WithinStep(c, init, run + es[..|es| - 1], s1, limit, e);
      assert run + es[..|es| - 1] + [e] == all;
    }
  }

  // ---- the reservation ----

  // Used slots and what outstanding operations may still use fit the reservation of one operation and twice
  // what an operation logs: with m == MAXOPBLOCKS, the header.
  ghost predicate Reserved(s: State, m: nat) {
    && (forall o :: o in s.ops ==> |s.ops[o]| <= m && forall b :: b in s.ops[o] ==> b in s.lh)
    && (s.phase.Idle? ==> |s.lh| + Unspent(s.ops, m) <= MAXOPBLOCKS + 2 * m)
    && (s.phase.Idle? && s.ops == map[] ==> s.lh == [])
    && (!s.phase.Idle? ==> s.ops == map[])
  }

  lemma ReservedWrite(c: Config, s: State, m: nat, o: OpId, b: nat, data: Block)
    requires WellFormed(c, s) && Enabled(c, s, Write(o, b, data)) && Reserved(s, m) && |s.ops[o]| < m
    ensures Reserved(Next(c, s, Write(o, b, data)), m)
  {
    hide Unspent;
    var s' := Next(c, s, Write(o, b, data));
    UnspentRemove(s.ops, m, o);
    UnspentSet(s.ops, m, o, s.ops[o] + {b});
    assert b in s.ops[o] ==> s.ops[o] + {b} == s.ops[o];
    assert forall x :: x in s.lh ==> x in s'.lh;
    assert b in s'.lh by { assert b !in s.lh ==> s'.lh[|s.lh|] == b; }
    assert o in s'.ops;
  }

  // An operation that begins beside another finds at most MAXOPBLOCKS slots used; one that begins alone, none.
  lemma ReservedBegin(c: Config, s: State, m: nat, o: OpId)
    requires WellFormed(c, s) && Enabled(c, s, Begin(o)) && Reserved(s, m) && m <= MAXOPBLOCKS
    ensures Reserved(Next(c, s, Begin(o)), m)
  {
    hide Unspent, WellFormed, DiskStep;
    var s' := Next(c, s, Begin(o));
    NotBegun(c, s, o);
    assert s.ops - {o} == s.ops;
    assert |s.ops| == 0 ==> s.ops == map[];
    UnspentBounds(s.ops, m);
    UnspentSet(s.ops, m, o, {});
    BeginFits(|s.lh|, |s.ops|, m, Unspent(s.ops, m));
    assert o in s'.ops;
  }

  lemma NotBegun(c: Config, s: State, o: OpId)
    requires WellFormed(c, s) && o !in s.wrote
    ensures o !in s.ops
  {
  }

  lemma BeginFits(used: nat, open: nat, m: nat, unspent: int)
    requires used + (open + 1) * MAXOPBLOCKS <= LOGSIZE && m <= MAXOPBLOCKS && unspent <= open * m
    requires open == 0 ==> used == 0
    ensures used + m + unspent <= MAXOPBLOCKS + 2 * m
  {
    assert open == 0 || open == 1 || open == 2;
  }

  lemma ReservedEnd(c: Config, s: State, m: nat, o: OpId)
    requires WellFormed(c, s) && Enabled(c, s, End(o)) && Reserved(s, m)
    ensures Reserved(Next(c, s, End(o)), m)
  {
    hide Unspent;
    UnspentRemove(s.ops, m, o);
    UnspentBounds(map[], m);
    assert |s.ops - {o}| == 0 ==> s.ops - {o} == map[];
  }

  lemma ReservedNone(s: State, m: nat)
    requires s.ops == map[] && (s.phase.Idle? ==> s.lh == [])
    ensures Reserved(s, m)
  {
    UnspentBounds(map[], m);
  }

  lemma NoOpsLeft(c: Config, s: State, e: Event)
    requires WellFormed(c, s) && Enabled(c, s, e) && (!s.phase.Idle? ==> s.ops == map[])
    requires e.DiskWrite? || e.Crash? || e.ReadHead?
    ensures Next(c, s, e).ops == map[] && (Next(c, s, e).phase.Idle? ==> Next(c, s, e).lh == [])
  {
    hide HeadOf, PutHead;
  }

  lemma ReservedStep(c: Config, s: State, m: nat, e: Event)
    requires WellFormed(c, s) && Enabled(c, s, e) && Reserved(s, m) && 0 < m <= MAXOPBLOCKS && Within(s, e, m - 1)
    ensures Reserved(Next(c, s, e), m)
  {
    match e
    case Begin(o) => ReservedBegin(c, s, m, o);
    case Write(o, b, data) => ReservedWrite(c, s, m, o, b, data);
    case End(o) => ReservedEnd(c, s, m, o);
    case Scribble(o, b, data) => ReservedSame(s, m, Next(c, s, e));
    case Evict(b) => ReservedSame(s, m, Next(c, s, e));
    case _ =>
      NoOpsLeft(c, s, e);
      ReservedNone(Next(c, s, e), m);
  }

  lemma ReservedSame(s: State, m: nat, s': State)
    requires Reserved(s, m) && s'.ops == s.ops && s'.lh == s.lh && s'.phase == s.phase
    ensures Reserved(s', m)
  {
  }

  // Group commit never runs out of header space: in every run in which no operation calls log_write with more
  // than `limit` different blocks logged.
  lemma {:induction false} ReservedAlways(c: Config, init: seq<Block>, run: seq<Event>, s: State, limit: nat)
    requires ReachesWithin(c, init, run, s, limit) && limit < MAXOPBLOCKS
    ensures Reserved(s, limit + 1)
    decreases |run|
  {
    hide Next, Reserved, WellFormed, Enabled;
    if |run| > 0 {
      var e := run[|run| - 1];
      var s1 :| && ReachesWithin(c, init, run[..|run| - 1], s1, limit)
                && WellFormed(c, s1) && Enabled(c, s1, e) && Within(s1, e, limit) && s == Next(c, s1, e);
      ReservedAlways(c, init, run[..|run| - 1], s1, limit);
      ReservedStep(c, s1, limit + 1, e);
    } else {
      ReservedNone(s, limit + 1);
    }
  }

  // A log_write by an operation that has logged fewer than m blocks finds room. With m == MAXOPBLOCKS that
  // takes a log of more than LOGSIZE blocks.
  lemma NeverTooBig(c: Config, s: State, m: nat, o: OpId)
    requires Reserved(s, m) && s.phase.Idle? && o in s.ops && |s.ops[o]| < m <= MAXOPBLOCKS
    requires c.size > MAXOPBLOCKS + 2 * m
    ensures !TooBig(c, s)
  {
    UnspentRemove(s.ops, m, o);
    UnspentBounds(s.ops - {o}, m);
  }

  // ---- filling the header ----

  // The n numbers from first on.
  function Span(first: nat, n: nat): (r: set<nat>)
    ensures |r| == n && forall x :: x in r <==> first <= x < first + n
  {
    if n == 0 then {} else Span(first, n - 1) + {first + n - 1}
  }

  lemma SpanMore(first: nat, n: nat)
    ensures Span(first, n + 1) == Span(first, n) + {first + n}
  {
  }

  // The first k blocks behind the log area.
  function Behind(c: Config, k: nat): (h: seq<nat>)
    ensures |h| == k && forall i :: 0 <= i < k ==> h[i] == c.start + c.size + i
  {
    if k == 0 then [] else Behind(c, k - 1) + [c.start + c.size + k - 1]
  }

  // Only the blocks of the header differ between cache and disk.
  ghost predicate Clean(s: State) {
    |s.cache| == |s.disk| && forall b :: 0 <= b < |s.disk| && b !in s.lh ==> s.cache[b] == s.disk[b]
  }

  // Operation 0 is open and has logged nothing; k others have come, logged a block each, and gone.
  ghost predicate Visited(c: Config, s: State, k: nat) {
    && WellFormed(c, s) && s.phase.Idle? && s.lh == Behind(c, k) && s.ops == map[0 := {}] && Clean(s)
    && forall o :: o in s.wrote ==> o <= k
  }

  // After ten of them operation 11 came to stay; it logs m blocks, then operation 0 does.
  ghost predicate Packed(c: Config, s: State, m: nat, k: nat) {
    && MAXOPBLOCKS <= k && WellFormed(c, s) && s.phase.Idle? && s.lh == Behind(c, k)
    && s.ops == map[0 := Late(c, m, k), 11 := Early(c, m, k)] && Clean(s)
  }

  function Early(c: Config, m: nat, k: nat): set<nat>
    requires MAXOPBLOCKS <= k
  {
    Span(c.start + c.size + MAXOPBLOCKS, if k - MAXOPBLOCKS < m then k - MAXOPBLOCKS else m)
  }

  function Late(c: Config, m: nat, k: nat): set<nat>
    requires MAXOPBLOCKS <= k
  {
    Span(c.start + c.size + MAXOPBLOCKS + m, if k - MAXOPBLOCKS < m then 0 else k - MAXOPBLOCKS - m)
  }

  // A log area with LOGSIZE home blocks behind it, on a disk whose log is empty.
  predicate Spacious(c: Config, init: seq<Block>) {
    && c.Valid() && |init| == c.nblocks && WordAt(init[c.start], 0) == 0
    && c.start + c.size + LOGSIZE <= c.nblocks
  }

  lemma StartWithin(c: Config, init: seq<Block>, limit: nat)
    requires c.Valid() && |init| == c.nblocks && WordAt(init[c.start], 0) == 0
    ensures ReachesWithin(c, init, [], State(init, init, [], map[], Idle, [], [], map[], {}), limit)
  {
    hide HeadOf;
  }

  // A log_write of a block the header does not name.
  lemma LogsNew(c: Config, s: State, o: OpId, b: nat, data: Block)
    requires WellFormed(c, s) && s.phase.Idle? && o in s.ops && c.Home(b) && !TooBig(c, s) && b !in s.lh
    ensures Enabled(c, s, Write(o, b, data))
    ensures var s' := Next(c, s, Write(o, b, data));
            && WellFormed(c, s') && s'.phase.Idle? && s'.lh == s.lh + [b] && s'.ops == s.ops[o := s.ops[o] + {b}]
            && s'.wrote.Keys == s.wrote.Keys && (Clean(s) ==> Clean(s'))
  {
    hide DiskStep;
    assert b in s.lh + [b] by { assert (s.lh + [b])[|s.lh|] == b; }
    assert forall x :: x in s.lh ==> x in s.lh + [b];
  }

  lemma {:induction false} Visits(c: Config, init: seq<Block>, k: nat, limit: nat) returns (run: seq<Event>, s: State)
    requires Spacious(c, init) && k <= c.size - 1 && k <= MAXOPBLOCKS
    ensures ReachesWithin(c, init, run, s, limit) && Visited(c, s, k)
    decreases k
  {
    hide ReachesWithin, WordAt, Next, Enabled, WellFormed, Visited, Visiting;
    if k == 0 {
      run, s := FirstOpen(c, init, limit);
    } else {
      var run1, s1 := Visits(c, init, k - 1, limit);
      var e := Write(k, c.start + c.size + (k - 1), init[0]);
      VisitBegin(c, s1, k);
      WithinStep(c, init, run1, s1, limit, Begin(k));
      var s2 := Next(c, s1, Begin(k));
      VisitWrite(c, s2, k, init[0]);
      assert Within(s2, e, limit);
      WithinStep(c, init, run1 + [Begin(k)], s2, limit, e);
      var s3 := Next(c, s2, e);
      VisitEnd(c, s3, k);
      WithinStep(c, init, run1 + [Begin(k)] + [e], s3, limit, End(k));
      run, s := run1 + [Begin(k)] + [e] + [End(k)], Next(c, s3, End(k));
    }
  }

  lemma FirstOpen(c: Config, init: seq<Block>, limit: nat) returns (run: seq<Event>, s: State)
    requires Spacious(c, init)
    ensures ReachesWithin(c, init, run, s, limit) && Visited(c, s, 0)
  {
    hide ReachesWithin, WordAt, HeadOf, DiskStep;
    var s0 := State(init, init, [], map[], Idle, [], [], map[], {});
    StartWithin(c, init, limit);
    WithinStep(c, init, [], s0, limit, Begin(0));
    run, s := [] + [Begin(0)], Next(c, s0, Begin(0));
  }

  // Visitor k has come and has logged its block or not.
  ghost predicate Visiting(c: Config, s: State, k: nat, logged: bool) {
    && 0 < k <= MAXOPBLOCKS && WellFormed(c, s) && s.phase.Idle? && s.lh == Behind(c, if logged then k else k - 1)
    && s.ops == map[0 := {}, k := if logged then {c.start + c.size + k - 1} else {}] && Clean(s)
    && forall o :: o in s.wrote ==> o <= k
  }

  lemma VisitBegin(c: Config, s: State, k: nat)
    requires 0 < k <= MAXOPBLOCKS && Visited(c, s, k - 1)
    ensures WellFormed(c, s) && Enabled(c, s, Begin(k)) && Visiting(c, Next(c, s, Begin(k)), k, false)
  {
    hide DiskStep;
    assert |s.ops| == 1;
  }

  lemma VisitWrite(c: Config, s: State, k: nat, data: Block)
    requires Visiting(c, s, k, false) && k - 1 < c.size - 1 && c.start + c.size + LOGSIZE <= c.nblocks
    ensures var e := Write(k, c.start + c.size + (k - 1), data);
            && WellFormed(c, s) && Enabled(c, s, e) && Within(s, e, 0) && Visiting(c, Next(c, s, e), k, true)
  {
    hide Next, Enabled, WellFormed, Clean;
    LogsNew(c, s, k, c.start + c.size + (k - 1), data);
  }

  lemma VisitEnd(c: Config, s: State, k: nat)
    requires Visiting(c, s, k, true)
    ensures WellFormed(c, s) && Enabled(c, s, End(k)) && Visited(c, Next(c, s, End(k)), k)
  {
    hide DiskStep;
    assert s.ops - {k} == map[0 := {}];
    assert |s.ops - {k}| == 1;
  }

  // The two that stay fill the header up to MAXOPBLOCKS + 2 * m.
  lemma {:induction false} Packs(c: Config, init: seq<Block>, m: nat, k: nat, limit: nat)
    returns (run: seq<Event>, s: State)
    requires Spacious(c, init) && 0 < m <= MAXOPBLOCKS && m <= limit + 1
    requires MAXOPBLOCKS <= k <= c.size - 1 && k <= MAXOPBLOCKS + 2 * m
    ensures ReachesWithin(c, init, run, s, limit) && Packed(c, s, m, k)
    decreases k
  {
    hide ReachesWithin, WordAt, Next, Enabled, WellFormed, Visited, Packed;
    if k == MAXOPBLOCKS {
      var run1, s1 := Visits(c, init, k, limit);
      PackStart(c, s1, m);
      WithinStep(c, init, run1, s1, limit, Begin(11));
      run, s := run1 + [Begin(11)], Next(c, s1, Begin(11));
    } else {
      var run1, s1 := Packs(c, init, m, k - 1, limit);
      var e := Write(if k - 1 < MAXOPBLOCKS + m then 11 else 0, c.start + c.size + (k - 1), init[0]);
      PackStep(c, s1, m, k - 1, init[0], limit);
      WithinStep(c, init, run1, s1, limit, e);
      run, s := run1 + [e], Next(c, s1, e);
    }
  }

  lemma PackStart(c: Config, s: State, m: nat)
    requires Visited(c, s, MAXOPBLOCKS) && 0 < m
    ensures WellFormed(c, s) && Enabled(c, s, Begin(11)) && Packed(c, Next(c, s, Begin(11)), m, MAXOPBLOCKS)
  {
    hide DiskStep, HeadOf;
    assert |s.ops| == 1;
    assert Next(c, s, Begin(11)).ops == map[0 := {}, 11 := {}];
  }

  lemma PackStep(c: Config, s: State, m: nat, k: nat, data: Block, limit: nat)
    requires Packed(c, s, m, k) && k < c.size - 1 && k < MAXOPBLOCKS + 2 * m <= LOGSIZE && m <= limit + 1
    requires c.start + c.size + LOGSIZE <= c.nblocks
    ensures var e := Write(if k < MAXOPBLOCKS + m then 11 else 0, c.start + c.size + k, data);
            WellFormed(c, s) && Enabled(c, s, e) && Within(s, e, limit) && Packed(c, Next(c, s, e), m, k + 1)
  {
    hide Next, Enabled, WellFormed, Span, Behind, Clean;
    var o, b := if k < MAXOPBLOCKS + m then 11 else 0, c.start + c.size + k;
    PackShares(c, m, k);
    BehindMore(c, k);
    LogsNew(c, s, o, b, data);
    var ops' := s.ops[o := s.ops[o] + {b}];
    assert ops' == map[0 := Late(c, m, k + 1), 11 := Early(c, m, k + 1)];
  }

  lemma BehindMore(c: Config, k: nat)
    ensures Behind(c, k + 1) == Behind(c, k) + [c.start + c.size + k] && c.start + c.size + k !in Behind(c, k)
  {
  }

  lemma PackShares(c: Config, m: nat, k: nat)
    requires MAXOPBLOCKS <= k < MAXOPBLOCKS + 2 * m
    ensures var b := c.start + c.size + k;
            if k < MAXOPBLOCKS + m then
              |Early(c, m, k)| < m && Early(c, m, k + 1) == Early(c, m, k) + {b} && Late(c, m, k + 1) == Late(c, m, k)
            else
              |Late(c, m, k)| < m && Late(c, m, k + 1) == Late(c, m, k) + {b} && Early(c, m, k + 1) == Early(c, m, k)
  {
    hide Span, Early, Late;
    if k < MAXOPBLOCKS + m {
      EarlyMore(c, m, k);
    } else {
      LateMore(c, m, k);
    }
  }

  lemma EarlyMore(c: Config, m: nat, k: nat)
    requires MAXOPBLOCKS <= k < MAXOPBLOCKS + m
    ensures |Early(c, m, k)| < m && Early(c, m, k + 1) == Early(c, m, k) + {c.start + c.size + k}
    ensures Late(c, m, k + 1) == Late(c, m, k)
  {
    hide Span;
    SpanMore(c.start + c.size + MAXOPBLOCKS, k - MAXOPBLOCKS);
  }

  lemma LateMore(c: Config, m: nat, k: nat)
    requires MAXOPBLOCKS + m <= k < MAXOPBLOCKS + 2 * m
    ensures |Late(c, m, k)| < m && Late(c, m, k + 1) == Late(c, m, k) + {c.start + c.size + k}
    ensures Early(c, m, k + 1) == Early(c, m, k)
  {
    hide Span;
    SpanMore(c.start + c.size + MAXOPBLOCKS + m, k - MAXOPBLOCKS - m);
  }

  // ---- when log_write can panic ----

  // In some run within the limit an operation within the limit finds the header too full.
  ghost predicate CanPanic(c: Config, init: seq<Block>, limit: nat) {
    exists run, s, o ::
      ReachesWithin(c, init, run, s, limit) && s.phase.Idle? && o in s.ops && |s.ops[o]| <= limit && TooBig(c, s)
  }

  // A log that operations of up to m blocks can fill while one of them is still below m. The log the image
  // builder makes (tools/mkfs.c:25) is one block too small for m == MAXOPBLOCKS.
  lemma SmallLogPanics(c: Config, init: seq<Block>, m: nat, limit: nat)
    requires Spacious(c, init) && 0 < m <= MAXOPBLOCKS && m <= limit + 1
    requires c.size <= MAXOPBLOCKS + 2 * m
    ensures CanPanic(c, init, limit)
  {
    hide ReachesWithin, WellFormed, WordAt;
    var k := c.size - 1;
    if k < MAXOPBLOCKS {
      var run, s := Visits(c, init, k, limit);
      assert 0 in s.ops && |s.ops[0]| <= limit && TooBig(c, s);
    } else {
      var run, s := Packs(c, init, m, k, limit);
      assert |Late(c, m, k)| < m;
      assert 0 in s.ops && |s.ops[0]| <= limit && TooBig(c, s);
    }
  }

  // With any larger log: operations have used up their reservations, the header is full, and a log_write
  // panics, whether the block is new or was logged before and would only be absorbed.
  lemma FullHeaderPanics(c: Config, init: seq<Block>, limit: nat) returns (run: seq<Event>, s: State)
    requires Spacious(c, init) && c.size > LOGSIZE && limit >= MAXOPBLOCKS
    ensures ReachesWithin(c, init, run, s, limit) && s.phase.Idle? && 0 in s.ops && |s.ops[0]| == MAXOPBLOCKS
    ensures TooBig(c, s) && |s.lh| == LOGSIZE && exists b :: b in s.ops[0] && b in s.lh
  {
    hide ReachesWithin, WellFormed, WordAt;
    run, s := Packs(c, init, MAXOPBLOCKS, LOGSIZE, limit);
    var b := c.start + c.size + 20;
    assert s.lh[20] == b && b in s.ops[0];
  }

  // With a larger log a commit can start with a full header though every operation kept to its reservation.
  lemma FullCommit(c: Config, init: seq<Block>) returns (run: seq<Event>, s: State)
    requires Spacious(c, init) && c.size > LOGSIZE
    ensures ReachesWithin(c, init, run, s, MAXOPBLOCKS - 1) && WellFormed(c, s)
    ensures s.phase == Logging(0) && |s.lh| == LOGSIZE && Clean(s)
  {
    hide ReachesWithin, WordAt, DiskStep, Late, Early;
    var m, limit := MAXOPBLOCKS, MAXOPBLOCKS - 1;
    var run1, s1 := Packs(c, init, m, LOGSIZE, limit);
    WithinStep(c, init, run1, s1, limit, End(11));
    var s2 := Next(c, s1, End(11));
    assert s2.ops == map[0 := Late(c, m, LOGSIZE)];
    assert |s2.ops| == 1;
    WithinStep(c, init, run1 + [End(11)], s2, limit, End(0));
    run, s := run1 + [End(11)] + [End(0)], Next(c, s2, End(0));
    assert s.ops == map[];
  }

  // log_write can panic exactly when the log is no larger than one reservation and twice what an operation may
  // log, or an operation may call it again after its MAXOPBLOCKS-th block.
  lemma PanicExactly(c: Config, init: seq<Block>, limit: nat)
    requires Spacious(c, init)
    ensures CanPanic(c, init, limit) <==> c.size <= MAXOPBLOCKS + 2 * (limit + 1) || limit >= MAXOPBLOCKS
  {
    hide ReachesWithin, TooBig;
    if limit >= MAXOPBLOCKS {
      if c.size <= LOGSIZE {
        SmallLogPanics(c, init, MAXOPBLOCKS, limit);
      } else {
        var run, s := FullHeaderPanics(c, init, limit);
      }
    } else if c.size <= MAXOPBLOCKS + 2 * (limit + 1) {
      SmallLogPanics(c, init, limit + 1, limit);
    } else {
      forall run, s, o | ReachesWithin(c, init, run, s, limit) && s.phase.Idle? && o in s.ops && |s.ops[o]| <= limit
        ensures !TooBig(c, s)
      {
        ReservedAlways(c, init, run, s, limit);
        NeverTooBig(c, s, limit + 1, o);
      }
    }
  }
}
