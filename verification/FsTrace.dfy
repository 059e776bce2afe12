/** The log_write calls of the file system since the last commit, and what they say about the buffer
    cache: which blocks the header names, what the commit will install, which buffers strayed. */
module FsTrace {
  import opened Blocks
  import opened FsLayout
  import opened FsCommit
  import opened LogMachine
  import opened LogSafety

  // Blocks named in the header.
  function Logged(tr: seq<Event>): set<nat> {
    if |tr| == 0 then {}
    else
      var e := tr[|tr| - 1];
      Logged(tr[..|tr| - 1]) + (if e.Write? then {e.b} else {})
  }

  // Blocks operation o called log_write for.
  function Footprint(tr: seq<Event>, o: OpId): set<nat> {
    if |tr| == 0 then {}
    else
      var e := tr[|tr| - 1];
      Footprint(tr[..|tr| - 1], o) + (if e.Write? && e.op == o then {e.b} else {})
  }

  // Blocks it had called log_write for when it made its last call.
  function Early(tr: seq<Event>, o: OpId): set<nat> {
    if |tr| == 0 then {}
    else
      var pre, e := tr[..|tr| - 1], tr[|tr| - 1];
      if e.Write? && e.op == o then Footprint(pre, o) else Early(pre, o)
  }

  // What a commit would install.
  function Pending(tr: seq<Event>): seq<Rec> {
    if |tr| == 0 then []
    else
      var pre, e := tr[..|tr| - 1], tr[|tr| - 1];
      Pending(pre) + (if e.Write? || (e.Scribble? && e.b in Logged(pre)) then [Rec(e.op, e.b, e.data)] else [])
  }

  // Buffers that hold a change nobody logged.
  function Loose(stray: set<nat>, tr: seq<Event>): set<nat> {
    if |tr| == 0 then stray
    else
      var pre, e := tr[..|tr| - 1], tr[|tr| - 1];
      match e
      case Write(_, b, _) => Loose(stray, pre) - {b}
      case Scribble(_, b, _) => if b in Logged(pre) then Loose(stray, pre) else Loose(stray, pre) + {b}
      case Evict(b) => Loose(stray, pre) - {b}
      case _ => Loose(stray, pre)
  }

  // The buffers, from `start` on.
  function Cached(start: seq<Block>, base: seq<Block>, tr: seq<Event>): (r: seq<Block>)
    requires |start| == |base|
    ensures |r| == |start|
  {
    if |tr| == 0 then start
    else
      var r, e := Cached(start, base, tr[..|tr| - 1]), tr[|tr| - 1];
      if (e.Write? || e.Scribble?) && e.b < |r| then r[e.b := e.data]
      else if e.Evict? && e.b < |r| then r[e.b := base[e.b]]
      else r
  }

  // Calls the file system can have made: no operation from `begun` on, no block of the log, and only
  // buffers that are not pinned are recycled.
  predicate Proper(sb: Superblock, begun: nat, tr: seq<Event>) {
    |tr| == 0 ||
    (var pre, e := tr[..|tr| - 1], tr[|tr| - 1];
     && Proper(sb, begun, pre)
     && match e
        case Write(o, b, _) => o < begun && sb.Home(b)
        case Scribble(o, b, _) => o < begun && sb.Home(b)
        case Evict(b) => sb.Home(b) && b !in Logged(pre)
        case _ => false)
  }

  datatype Tape = Tape(
    blocks: seq<Block>,
    base: seq<Block>,            // home blocks as of the last commit
    logged: set<nat>,
    mine: set<nat>,              // what the running operation logged
    early: set<nat>,             // and had logged when it made its last call
    op: OpId,                    // the running operation
    begun: nat,                  // operations begun so far
    trace: seq<Event>,           // calls since the last commit
    turn: nat,                   // where in the trace the running operation's turn began
    start: seq<Block>,           // the buffers at the last commit
    stray: set<nat>)             // those that differed from their home blocks then

  predicate Turn(t: Tape) {
    t.turn <= |t.trace| && forall k :: t.turn <= k < |t.trace| ==> t.trace[k].Evict? || OpOf(t.trace[k]) == t.op
  }

  function OpOf(e: Event): OpId {
    match e
    case Begin(o) => o
    case Write(o, _, _) => o
    case Scribble(o, _, _) => o
    case End(o) => o
    case _ => 0
  }

  // The buffers and the log header are what the calls made of them.
  ghost predicate Tied(sb: Superblock, t: Tape) {
    && |t.base| == |t.start| == sb.size && t.op < t.begun
    && t.blocks == Cached(t.start, t.base, t.trace)
    && t.logged == Logged(t.trace) && t.mine == Footprint(t.trace, t.op) && t.early == Early(t.trace, t.op)
    && Proper(sb, t.begun, t.trace) && Turn(t)
    && forall b :: 0 <= b < sb.size && b !in t.stray ==> t.start[b] == t.base[b]
  }

  // Nothing has happened since the disk was mounted.
  lemma TieMounted(sb: Superblock, t: Tape)
    requires |t.base| == sb.size && t.blocks == t.start == t.base && t.logged == t.mine == t.early == {}
    requires t.trace == [] && t.turn == 0 && t.op < t.begun
    ensures Tied(sb, t)
  {
  }

  lemma Snoc(tr: seq<Event>, e: Event)
    ensures (tr + [e])[..|tr + [e]| - 1] == tr && (tr + [e])[|tr + [e]| - 1] == e
  {
  }

  lemma TieWrite(sb: Superblock, t: Tape, b: nat, x: Block)
    requires Tied(sb, t) && sb.Home(b)
    ensures b < |t.blocks|
    ensures Tied(sb, t.(blocks := t.blocks[b := x], logged := t.logged + {b}, mine := t.mine + {b},
                        early := t.mine, trace := t.trace + [Write(t.op, b, x)]))
  {
    Snoc(t.trace, Write(t.op, b, x));
  }

  lemma TieScribble(sb: Superblock, t: Tape, b: nat, x: Block)
    requires Tied(sb, t) && sb.Home(b)
    ensures b < |t.blocks|
    ensures Tied(sb, t.(blocks := t.blocks[b := x], trace := t.trace + [Scribble(t.op, b, x)]))
  {
    Snoc(t.trace, Scribble(t.op, b, x));
  }

  lemma TieEvict(sb: Superblock, t: Tape, b: nat)
    requires Tied(sb, t) && sb.Home(b) && b !in t.logged
    ensures b < |t.blocks| && b < |t.base|
    ensures Tied(sb, t.(blocks := t.blocks[b := t.base[b]], trace := t.trace + [Evict(b)]))
  {
    Snoc(t.trace, Evict(b));
  }

  lemma {:induction false} FootprintNone(sb: Superblock, begun: nat, tr: seq<Event>, o: OpId)
    requires Proper(sb, begun, tr) && o >= begun
    ensures Footprint(tr, o) == Early(tr, o) == {} && Proper(sb, begun + 1, tr)
    decreases |tr|
  {
    if |tr| > 0 {
      FootprintNone(sb, begun, tr[..|tr| - 1], o);
    }
  }

  // begin_op: a new operation has logged nothing.
  lemma TieBegin(sb: Superblock, t: Tape)
    requires Tied(sb, t)
    ensures Tied(sb, t.(op := t.begun, begun := t.begun + 1, mine := {}, early := {}, turn := |t.trace|))
  {
    FootprintNone(sb, t.begun, t.trace, t.begun);
  }

  // ---- commit ----

  lemma {:induction false} PendingLogged(tr: seq<Event>, r: Rec)
    requires r in Pending(tr)
    ensures r.b in Logged(tr)
    decreases |tr|
  {
    if |tr| > 0 && r in Pending(tr[..|tr| - 1]) {
      PendingLogged(tr[..|tr| - 1], r);
    }
  }

  lemma {:induction false} LooseNotLogged(stray: set<nat>, tr: seq<Event>, b: nat)
    requires b in Logged(tr)
    ensures b !in Loose(stray, tr)
    decreases |tr|
  {
    if |tr| > 0 && b in Logged(tr[..|tr| - 1]) {
      LooseNotLogged(stray, tr[..|tr| - 1], b);
    }
  }

  lemma UnloggedKept(base: seq<Block>, tr: seq<Event>, b: nat)
    requires b < |base| && b !in Logged(tr)
    ensures Apply(base, Pending(tr))[b] == base[b]
  {
    forall r | r in Pending(tr)
      ensures r.b != b
    {
      PendingLogged(tr, r);
    }
    ApplyOther(base, Pending(tr), b);
  }

  // Every buffer that did not stray holds the last commit plus what the next one will install.
  lemma {:induction false} CachedIsApplied(sb: Superblock, start: seq<Block>, base: seq<Block>, stray: set<nat>,
                                          begun: nat, tr: seq<Event>, b: nat)
    requires |start| == |base| && b < |base| && Proper(sb, begun, tr) && (b !in stray ==> start[b] == base[b])
    requires b !in Loose(stray, tr)
    ensures Cached(start, base, tr)[b] == Apply(base, Pending(tr))[b]
    decreases |tr|
  {
    if |tr| > 0 {
      var pre, e := tr[..|tr| - 1], tr[|tr| - 1];
      if e.Evict? && e.b == b {
        UnloggedKept(base, pre, b);
      } else if !((e.Write? || e.Scribble?) && e.b == b) {
        CachedIsApplied(sb, start, base, stray, begun, pre, b);
      }
      if e.Write? || (e.Scribble? && e.b in Logged(pre)) {
        ApplySnoc(base, Pending(pre), Rec(e.op, e.b, e.data));
      } else {
        assert Pending(tr) == Pending(pre);
      }
    }
  }

  lemma BlockIsApplied(sb: Superblock, t: Tape, b: nat)
    requires Tied(sb, t) && b < sb.size && b !in Loose(t.stray, t.trace)
    ensures t.blocks[b] == Apply(t.base, Pending(t.trace))[b]
  {
    CachedIsApplied(sb, t.start, t.base, t.stray, t.begun, t.trace, b);
  }

  // Installing the logged buffers is applying the logged records.
  lemma CommitApplies(sb: Superblock, t: Tape)
    requires Tied(sb, t)
    ensures |t.base| == |t.blocks| && Installed(t.base, t.blocks, t.logged) == Apply(t.base, Pending(t.trace))
  {
    hide Apply, Pending, Loose, Cached, Logged, Proper, Footprint;
    forall b | 0 <= b < sb.size
      ensures Installed(t.base, t.blocks, t.logged)[b] == Apply(t.base, Pending(t.trace))[b]
    {
      if b in t.logged {
        LooseNotLogged(t.stray, t.trace, b);
        BlockIsApplied(sb, t, b);
      } else {
        UnloggedKept(t.base, t.trace, b);
      }
    }
  }

  // The tape after a commit.
  function Committed(t: Tape): Tape
    requires |t.base| == |t.blocks|
  {
    t.(base := Installed(t.base, t.blocks, t.logged), logged := {}, mine := {}, early := {}, trace := [],
       turn := 0, start := t.blocks, stray := Loose(t.stray, t.trace))
  }

  lemma TieCommit(sb: Superblock, t: Tape)
    requires Tied(sb, t)
    ensures |t.base| == |t.blocks| && Tied(sb, Committed(t))
  {
    CommitApplies(sb, t);
    hide Apply, Pending, Loose;
    forall b | 0 <= b < sb.size && b !in Loose(t.stray, t.trace)
      ensures t.blocks[b] == Apply(t.base, Pending(t.trace))[b]
    {
      BlockIsApplied(sb, t, b);
    }
  }

  // ---- the tape a few calls ago ----

  // The tape when only the first k calls had been made.
  function Rewound(t: Tape, k: nat): Tape
    requires k <= |t.trace| && |t.start| == |t.base|
  {
    var tr := t.trace[..k];
    t.(trace := tr, blocks := Cached(t.start, t.base, tr), logged := Logged(tr), mine := Footprint(tr, t.op),
       early := Early(tr, t.op))
  }

  lemma RewoundAll(sb: Superblock, t: Tape)
    requires Tied(sb, t)
    ensures |t.start| == |t.base| && Rewound(t, |t.trace|) == t
  {
    assert t.trace[..|t.trace|] == t.trace;
  }

  lemma RewoundTo(sb: Superblock, t: Tape, t': Tape)
    requires Tied(sb, t) && Tied(sb, t') && t.trace <= t'.trace
    requires t'.base == t.base && t'.start == t.start && t'.stray == t.stray
    requires t'.op == t.op && t'.begun == t.begun && t'.turn == t.turn
    ensures Rewound(t', |t.trace|) == t && t'.turn <= |t.trace|
  {
    hide Proper, Logged, Footprint, Cached;
    assert t'.trace[..|t.trace|] == t.trace;
  }

  lemma {:induction false} ProperAt(sb: Superblock, begun: nat, tr: seq<Event>, k: nat)
    requires Proper(sb, begun, tr) && k < |tr|
    ensures tr[k].Write? || tr[k].Scribble? || tr[k].Evict?
    ensures tr[k].Write? || tr[k].Scribble? ==> tr[k].op < begun && sb.Home(tr[k].b)
    ensures tr[k].Evict? ==> sb.Home(tr[k].b) && tr[k].b !in Logged(tr[..k])
    decreases |tr|
  {
    if k < |tr| - 1 {
      ProperAt(sb, begun, tr[..|tr| - 1], k);
      assert tr[..|tr| - 1][..k] == tr[..k];
    }
  }

  lemma {:induction false} FootprintGrows(tr: seq<Event>, o: OpId, k: nat)
    requires k <= |tr|
    ensures Footprint(tr[..k], o) <= Footprint(tr, o)
    decreases |tr|
  {
    if k < |tr| {
      FootprintGrows(tr[..|tr| - 1], o, k);
      assert tr[..|tr| - 1][..k] == tr[..k];
    } else {
      assert tr[..k] == tr;
    }
  }

  // Whatever an operation had logged at any of its calls, it had logged at its last one.
  lemma {:induction false} EarlyAtLast(tr: seq<Event>, o: OpId, k: nat)
    requires k < |tr| && tr[k].Write? && tr[k].op == o
    ensures Footprint(tr[..k], o) <= Early(tr, o)
    decreases |tr|
  {
    var pre := tr[..|tr| - 1];
    if k < |tr| - 1 {
      EarlyAtLast(pre, o, k);
      EarlyInFootprint(pre, o);
      assert pre[..k] == tr[..k];
    }
  }

  lemma {:induction false} EarlyInFootprint(tr: seq<Event>, o: OpId)
    ensures Early(tr, o) <= Footprint(tr, o)
    decreases |tr|
  {
    if |tr| > 0 {
      EarlyInFootprint(tr[..|tr| - 1], o);
    }
  }
}
