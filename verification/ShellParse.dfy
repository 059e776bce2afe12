/** Parsing on token sequences: what the shell's recursive descent computes, and that it finds a command
    exactly when the grammar gives one, which is then the only one. */
module ShellParse {
  import opened ShellGrammar

  // A command and the tokens left, or a syntax error.
  datatype Parse = Fail | Got(cmd: Cmd, rest: seq<Tok>)

  function Redirected(c: Cmd, op: Tok, file: Slice): Cmd {
    if op == Sym('<') then Redir(c, file, O_RDONLY, 0) else Redir(c, file, O_WRONLY_CREATE, 1)
  }

  function RedirsOf(c: Cmd, ts: seq<Tok>): (r: Parse)
    ensures r.Got? ==> |r.rest| <= |ts|
    decreases |ts|
  {
    if ts == [] || !IsRedir(ts[0]) then Got(c, ts)
    else if |ts| >= 2 && ts[1].Word? then RedirsOf(Redirected(c, ts[0], ts[1].s), ts[2..])
    else Fail
  }

  predicate Stops(ts: seq<Tok>) {
    ts == [] || ts[0] == Sym('|') || ts[0] == Sym(')') || ts[0] == Sym('&') || ts[0] == Sym(';')
  }

  // The arguments of the exec node at the bottom of the redirections around it, which parseexec fills
  // in after they were built.
  function WithArgs(c: Cmd, argv: seq<Slice>): Cmd {
    match c
    case Redir(d, file, mode, fd) => Redir(WithArgs(d, argv), file, mode, fd)
    case Exec(_) => Exec(argv)
    case _ => c
  }

  // The rest of a command that has argv and is c so far.
  function SimpleOf(c: Cmd, argv: seq<Slice>, ts: seq<Tok>): (r: Parse)
    ensures r.Got? ==> |r.rest| <= |ts|
    decreases |ts|
  {
    if Stops(ts) then Got(c, ts)
    else if IsRedir(ts[0]) then
      if |ts| >= 2 && ts[1].Word? then SimpleOf(Redirected(c, ts[0], ts[1].s), argv, ts[2..]) else Fail
    else if ts[0].Word? && |argv| + 1 < MAXARGS then
      SimpleOf(WithArgs(c, argv + [ts[0].s]), argv + [ts[0].s], ts[1..])
    else Fail
  }

  function ExecOf(ts: seq<Tok>): (r: Parse)
    ensures r.Got? ==> |r.rest| <= |ts|
    decreases |ts|, 1
  {
    if ts != [] && ts[0] == Sym('(') then BlockOf(ts) else SimpleOf(Exec([]), [], ts)
  }

  function BlockOf(ts: seq<Tok>): (r: Parse)
    ensures r.Got? ==> |r.rest| <= |ts|
    decreases |ts|, 0
  {
    if ts == [] || ts[0] != Sym('(') then Fail else
    var inner := LineOf(ts[1..]);
    if inner.Got? && inner.rest != [] && inner.rest[0] == Sym(')') then RedirsOf(inner.cmd, inner.rest[1..]) else Fail
  }

  function PipeOf(ts: seq<Tok>): (r: Parse)
    ensures r.Got? ==> |r.rest| <= |ts|
    decreases |ts|, 2
  {
    var left := ExecOf(ts);
    if left.Got? && left.rest != [] && left.rest[0] == Sym('|') then
      var right := PipeOf(left.rest[1..]);
      if right.Got? then Got(Pipe(left.cmd, right.cmd), right.rest) else Fail
    else left
  }

  function BacksOf(c: Cmd, ts: seq<Tok>): (r: Parse)
    ensures r.Got? && |r.rest| <= |ts|
    decreases |ts|
  {
    if ts != [] && ts[0] == Sym('&') then BacksOf(Back(c), ts[1..]) else Got(c, ts)
  }

  function LineOf(ts: seq<Tok>): (r: Parse)
    ensures r.Got? ==> |r.rest| <= |ts|
    decreases |ts|, 3
  {
    var first := PipeOf(ts);
    if first.Fail? then Fail
    else
      var left := BacksOf(first.cmd, first.rest);
      if left.rest != [] && left.rest[0] == Sym(';') then
        var right := LineOf(left.rest[1..]);
        if right.Got? then Got(List(left.cmd, right.cmd), right.rest) else Fail
      else left
  }

  // ---- only commands of the grammar ----

  lemma RedirsFirst(c: Cmd, op: Tok, w: Tok, us: seq<Tok>)
    requires IsRedir(op) && w.Word? && Redirs(us)
    ensures Redirs([op, w] + us) && Wrap(c, [op, w] + us) == Wrap(Redirected(c, op, w.s), us)
  {
    var vs := [op, w] + us;
    assert vs[2..] == us;
  }

  lemma {:induction false} RedirsSound(c: Cmd, ts: seq<Tok>) returns (us: seq<Tok>)
    requires RedirsOf(c, ts).Got?
    ensures ts == us + RedirsOf(c, ts).rest && Redirs(us) && RedirsOf(c, ts).cmd == Wrap(c, us)
    decreases |ts|
  {
    if ts == [] || !IsRedir(ts[0]) {
      us := [];
    } else {
      us := RedirsSound(Redirected(c, ts[0], ts[1].s), ts[2..]);
      RedirsFirst(c, ts[0], ts[1], us);
      Split2(ts, us, RedirsOf(c, ts).rest);
      us := [ts[0], ts[1]] + us;
    }
  }

  lemma Split2(ts: seq<Tok>, us: seq<Tok>, rest: seq<Tok>)
    requires |ts| >= 2 && ts[2..] == us + rest
    ensures ts == [ts[0], ts[1]] + us + rest
  {
    assert ts == [ts[0], ts[1]] + ts[2..];
  }

  // ---- words and redirections, the first read last ----

  lemma {:induction false} WithArgsWrap(c: Cmd, ts: seq<Tok>, argv: seq<Slice>)
    requires Redirs(ts)
    ensures WithArgs(Wrap(c, ts), argv) == Wrap(WithArgs(c, argv), ts)
    decreases |ts|
  {
    if ts != [] {
      WithArgsWrap(Redirected(c, ts[0], ts[1].s), ts[2..], argv);
    }
  }

  lemma {:induction false} WrapLast(c: Cmd, ts: seq<Tok>, op: Tok, w: Tok)
    requires Redirs(ts) && IsRedir(op) && w.Word?
    ensures Redirs(ts + [op, w]) && Wrap(c, ts + [op, w]) == Redirected(Wrap(c, ts), op, w.s)
    decreases |ts|
  {
    var us := ts + [op, w];
    if ts == [] {
      assert us == [op, w] + [];
      RedirsFirst(c, op, w, []);
    } else {
      assert us == [ts[0], ts[1]] + (ts[2..] + [op, w]);
      WrapLast(Redirected(c, ts[0], ts[1].s), ts[2..], op, w);
      RedirsFirst(c, ts[0], ts[1], ts[2..] + [op, w]);
    }
  }

  lemma SimpleFirst(w: Tok, us: seq<Tok>)
    requires w.Word? && Simple(us)
    ensures Simple([w] + us) && Args([w] + us) == [w.s] + Args(us) && Reds([w] + us) == Reds(us)
  {
    assert ([w] + us)[1..] == us;
  }

  lemma SimpleFirst2(op: Tok, w: Tok, us: seq<Tok>)
    requires IsRedir(op) && w.Word? && Simple(us)
    ensures Simple([op, w] + us) && Args([op, w] + us) == Args(us) && Reds([op, w] + us) == [op, w] + Reds(us)
  {
    assert ([op, w] + us)[2..] == us;
  }

  lemma {:induction false} RedirsJoin(rs: seq<Tok>, us: seq<Tok>)
    requires Redirs(rs) && Redirs(us)
    ensures Redirs(rs + us)
    decreases |rs|
  {
    if rs == [] {
      assert rs + us == us;
    } else {
      RedirsJoin(rs[2..], us);
      assert (rs + us)[2..] == rs[2..] + us;
    }
  }

  // A command with arguments argv and redirections rs.
  function Node(argv: seq<Slice>, rs: seq<Tok>): Cmd
    requires Redirs(rs)
  {
    Wrap(Exec(argv), rs)
  }

  lemma NodeArg(argv: seq<Slice>, rs: seq<Tok>, more: seq<Slice>)
    requires Redirs(rs)
    ensures WithArgs(Node(argv, rs), more) == Node(more, rs)
  {
    WithArgsWrap(Exec(argv), rs, more);
  }

  lemma ReadWord(c: Cmd, argv: seq<Slice>, w: Tok, ts: seq<Tok>)
    requires w.Word? && |argv| + 1 < MAXARGS
    ensures SimpleOf(c, argv, [w] + ts) == SimpleOf(WithArgs(c, argv + [w.s]), argv + [w.s], ts)
  {
    assert ([w] + ts)[1..] == ts;
  }

  lemma ReadRedir(c: Cmd, argv: seq<Slice>, op: Tok, w: Tok, ts: seq<Tok>)
    requires IsRedir(op) && w.Word?
    ensures SimpleOf(c, argv, [op, w] + ts) == SimpleOf(Redirected(c, op, w.s), argv, ts)
  {
    assert ([op, w] + ts)[2..] == ts;
  }

  // What SimpleOf made of ts: us was read, p is the outcome.
  ghost predicate Reads(argv: seq<Slice>, rs: seq<Tok>, ts: seq<Tok>, us: seq<Tok>, p: Parse) {
    && p.Got? && ts == us + p.rest && Simple(us) && Redirs(rs + Reds(us))
    && |argv + Args(us)| < MAXARGS && p.cmd == Node(argv + Args(us), rs + Reds(us))
  }

  lemma {:induction false} SimpleSound(argv: seq<Slice>, rs: seq<Tok>, ts: seq<Tok>) returns (us: seq<Tok>)
    requires Redirs(rs) && |argv| < MAXARGS && SimpleOf(Node(argv, rs), argv, ts).Got?
    ensures Reads(argv, rs, ts, us, SimpleOf(Node(argv, rs), argv, ts))
    decreases |ts|
  {
    hide Wrap, Redirs, WithArgs;
    if Stops(ts) {
      us := [];
      assert argv + [] == argv && rs + [] == rs;
    } else if IsRedir(ts[0]) {
      var op, w, vs := ts[0], ts[1], ts[2..];
      assert ts == [op, w] + vs;
      WrapLast(Exec(argv), rs, op, w);
      ReadRedir(Node(argv, rs), argv, op, w, vs);
      us := SimpleSound(argv, rs + [op, w], vs);
      hide SimpleOf;
      ReadsRedir(argv, rs, op, w, vs, us, SimpleOf(Node(argv, rs), argv, ts));
      us := [op, w] + us;
    } else {
      var w, vs := ts[0], ts[1..];
      assert ts == [w] + vs;
      NodeArg(argv, rs, argv + [w.s]);
      ReadWord(Node(argv, rs), argv, w, vs);
      us := SimpleSound(argv + [w.s], rs, vs);
      hide SimpleOf;
      ReadsWord(argv, rs, w, vs, us, SimpleOf(Node(argv, rs), argv, ts));
      us := [w] + us;
    }
  }

  lemma ReadsRedir(argv: seq<Slice>, rs: seq<Tok>, op: Tok, w: Tok, vs: seq<Tok>, us: seq<Tok>, p: Parse)
    requires IsRedir(op) && w.Word? && Reads(argv, rs + [op, w], vs, us, p)
    ensures Reads(argv, rs, [op, w] + vs, [op, w] + us, p)
  {
    hide Wrap, Redirs, Simple, Args, Reds;
    SimpleFirst2(op, w, us);
    assert (rs + [op, w]) + Reds(us) == rs + ([op, w] + Reds(us));
    assert [op, w] + (us + p.rest) == ([op, w] + us) + p.rest;
  }

  lemma ReadsWord(argv: seq<Slice>, rs: seq<Tok>, w: Tok, vs: seq<Tok>, us: seq<Tok>, p: Parse)
    requires w.Word? && Reads(argv + [w.s], rs, vs, us, p)
    ensures Reads(argv, rs, [w] + vs, [w] + us, p)
  {
    hide Wrap, Redirs, Simple, Args, Reds;
    SimpleFirst(w, us);
    assert (argv + [w.s]) + Args(us) == argv + ([w.s] + Args(us));
    assert [w] + (us + p.rest) == ([w] + us) + p.rest;
  }

  lemma {:induction false} SimpleComplete(argv: seq<Slice>, rs: seq<Tok>, us: seq<Tok>, rest: seq<Tok>)
    requires Redirs(rs) && Simple(us) && Stops(rest) && |argv + Args(us)| < MAXARGS
    ensures Redirs(rs + Reds(us))
    ensures SimpleOf(Node(argv, rs), argv, us + rest) == Got(Node(argv + Args(us), rs + Reds(us)), rest)
    decreases |us|, 1
  {
    hide Wrap, Redirs, Node, WithArgs;
    RedirsJoin(rs, Reds(us));
    if us == [] {
      assert us + rest == rest && argv + [] == argv && rs + [] == rs;
    } else if us[0].Word? {
      var w, vs := us[0], us[1..];
      assert us == [w] + vs && us + rest == [w] + (vs + rest);
      SimpleFirst(w, vs);
      WordComplete(argv, rs, w, vs, rest);
    } else {
      var op, w, vs := us[0], us[1], us[2..];
      assert us == [op, w] + vs && us + rest == [op, w] + (vs + rest);
      SimpleFirst2(op, w, vs);
      RedirComplete(argv, rs, op, w, vs, rest);
    }
  }

  lemma {:induction false} WordComplete(argv: seq<Slice>, rs: seq<Tok>, w: Tok, vs: seq<Tok>, rest: seq<Tok>)
    requires Redirs(rs) && w.Word? && Simple(vs) && Stops(rest)
    requires |argv + ([w.s] + Args(vs))| < MAXARGS && Redirs(rs + Reds(vs))
    ensures SimpleOf(Node(argv, rs), argv, [w] + (vs + rest))
            == Got(Node(argv + ([w.s] + Args(vs)), rs + Reds(vs)), rest)
    decreases |vs|, 2
  {
    hide SimpleOf, WithArgs, Wrap, Redirs, Simple, Args, Reds, Stops, Node;
    assert (argv + [w.s]) + Args(vs) == argv + ([w.s] + Args(vs));
    SimpleComplete(argv + [w.s], rs, vs, rest);
    NodeArg(argv, rs, argv + [w.s]);
    ReadWord(Node(argv, rs), argv, w, vs + rest);
  }

  lemma {:induction false} RedirComplete(argv: seq<Slice>, rs: seq<Tok>, op: Tok, w: Tok, vs: seq<Tok>, rest: seq<Tok>)
    requires Redirs(rs) && IsRedir(op) && w.Word? && Simple(vs) && Stops(rest) && |argv + Args(vs)| < MAXARGS
    requires Redirs(rs + ([op, w] + Reds(vs)))
    ensures SimpleOf(Node(argv, rs), argv, [op, w] + (vs + rest))
            == Got(Node(argv + Args(vs), rs + ([op, w] + Reds(vs))), rest)
    decreases |vs|, 2
  {
    hide SimpleOf, WithArgs, Wrap, Redirs, Simple, Args, Reds, Stops;
    WrapLast(Exec(argv), rs, op, w);
    assert (rs + [op, w]) + Reds(vs) == rs + ([op, w] + Reds(vs));
    SimpleComplete(argv, rs + [op, w], vs, rest);
    ReadRedir(Node(argv, rs), argv, op, w, vs + rest);
  }

  lemma {:induction false} RedirsComplete(c: Cmd, us: seq<Tok>, rest: seq<Tok>)
    requires Redirs(us) && (rest == [] || !IsRedir(rest[0]))
    ensures RedirsOf(c, us + rest) == Got(Wrap(c, us), rest)
    decreases |us|
  {
    var ts := us + rest;
    if us == [] {
      assert ts == rest;
    } else {
      RedirsComplete(Redirected(c, us[0], us[1].s), us[2..], rest);
      assert ts[0] == us[0] && ts[1] == us[1] && ts[2..] == us[2..] + rest;
    }
  }

  // ---- the recursive levels: only commands of the grammar ----

  lemma BlockIs(inner: seq<Tok>, body: Cmd, rs: seq<Tok>)
    requires IsLine(inner, body) && Redirs(rs)
    ensures IsExec([Sym('(')] + inner + [Sym(')')] + rs, Wrap(body, rs))
  {
    hide IsLine, Redirs, Wrap;
    var ts, k := [Sym('(')] + inner + [Sym(')')] + rs, |inner| + 1;
    assert ts[1..k] == inner && ts[k] == Sym(')') && ts[k + 1..] == rs;
    assert IsBlock(ts, Wrap(body, rs), k, body);
  }

  lemma PipeIs(us: seq<Tok>, left: Cmd, ts: seq<Tok>, right: Cmd)
    requires IsExec(us, left) && IsPipe(ts, right)
    ensures IsPipe(us + [Sym('|')] + ts, Pipe(left, right))
  {
    var vs, k := us + [Sym('|')] + ts, |us|;
    assert vs[..k] == us && vs[k] == Sym('|') && vs[k + 1..] == ts;
  }

  lemma BackIs(ts: seq<Tok>, c: Cmd)
    requires IsBack(ts, c)
    ensures IsBack(ts + [Sym('&')], Back(c))
  {
    assert (ts + [Sym('&')])[..|ts|] == ts;
  }

  lemma LineIs(us: seq<Tok>, left: Cmd, ts: seq<Tok>, right: Cmd)
    requires IsBack(us, left) && IsLine(ts, right)
    ensures IsLine(us + [Sym(';')] + ts, List(left, right))
  {
    var vs, k := us + [Sym(';')] + ts, |us|;
    assert vs[..k] == us && vs[k] == Sym(';') && vs[k + 1..] == ts;
  }

  lemma {:induction false} ExecSound(ts: seq<Tok>) returns (us: seq<Tok>)
    requires ExecOf(ts).Got?
    ensures ts == us + ExecOf(ts).rest && IsExec(us, ExecOf(ts).cmd)
    decreases |ts|, 1
  {
    hide SimpleOf, Simple, Args, Reds, IsLine, Redirs, Wrap;
    if ts != [] && ts[0] == Sym('(') {
      us := BlockSound(ts);
    } else {
      NodeEmpty();
      us := SimpleSound([], [], ts);
      assert [] + Args(us) == Args(us) && [] + Reds(us) == Reds(us);
    }
  }

  lemma NodeEmpty()
    ensures Redirs([]) && Node([], []) == Exec([])
  {
  }

  lemma {:induction false} BlockSound(ts: seq<Tok>) returns (us: seq<Tok>)
    requires ts != [] && ts[0] == Sym('(') && BlockOf(ts).Got?
    ensures ts == us + BlockOf(ts).rest && IsExec(us, BlockOf(ts).cmd)
    decreases |ts|, 0
  {
    hide IsExec, IsLine, RedirsOf, LineOf;
    var inner := LineOf(ts[1..]);
    var body := LineSound(ts[1..]);
    var rs := RedirsSound(inner.cmd, inner.rest[1..]);
    BlockIs(body, inner.cmd, rs);
    us := [Sym('(')] + body + [Sym(')')] + rs;
    var rest := BlockOf(ts).rest;
    assert inner.rest == [Sym(')')] + (rs + rest);
    assert ts == [Sym('(')] + ts[1..];
    assert ts == us + rest;
  }

  lemma {:induction false} PipeSound(ts: seq<Tok>) returns (us: seq<Tok>)
    requires PipeOf(ts).Got?
    ensures ts == us + PipeOf(ts).rest && IsPipe(us, PipeOf(ts).cmd)
    decreases |ts|, 2
  {
    hide IsExec, ExecOf;
    var left := ExecOf(ts);
    us := ExecSound(ts);
    if left.rest != [] && left.rest[0] == Sym('|') {
      var vs := PipeSound(left.rest[1..]);
      PipeIs(us, left.cmd, vs, PipeOf(left.rest[1..]).cmd);
      Chain(ts, us, left.rest, vs, PipeOf(ts).rest);
      us := us + [Sym('|')] + vs;
    }
  }

  lemma Chain(ts: seq<Tok>, us: seq<Tok>, mid: seq<Tok>, vs: seq<Tok>, rest: seq<Tok>)
    requires ts == us + mid && mid != [] && mid[1..] == vs + rest
    ensures ts == us + [mid[0]] + vs + rest
  {
    assert mid == [mid[0]] + mid[1..];
  }

  lemma {:induction false} BacksSound(us: seq<Tok>, c: Cmd, ts: seq<Tok>) returns (vs: seq<Tok>)
    requires IsBack(us, c)
    ensures ts == vs + BacksOf(c, ts).rest && IsBack(us + vs, BacksOf(c, ts).cmd)
    decreases |ts|
  {
    hide IsBack;
    if ts != [] && ts[0] == Sym('&') {
      BackIs(us, c);
      vs := BacksSound(us + [Sym('&')], Back(c), ts[1..]);
      assert us + [Sym('&')] + vs == us + ([Sym('&')] + vs);
      assert ts == [Sym('&')] + ts[1..];
      vs := [Sym('&')] + vs;
    } else {
      vs := [];
      assert us + [] == us;
    }
  }

  lemma {:induction false} LineSound(ts: seq<Tok>) returns (us: seq<Tok>)
    requires LineOf(ts).Got?
    ensures ts == us + LineOf(ts).rest && IsLine(us, LineOf(ts).cmd)
    decreases |ts|, 3
  {
    hide IsExec, ExecOf, IsPipe, PipeOf, BacksOf;
    var first := PipeOf(ts);
    us := PipeSound(ts);
    assert IsBack(us, first.cmd);
    var left := BacksOf(first.cmd, first.rest);
    var amps := BacksSound(us, first.cmd, first.rest);
    us := us + amps;
    assert ts == us + left.rest;
    if left.rest != [] && left.rest[0] == Sym(';') {
      var vs := LineSound(left.rest[1..]);
      LineIs(us, left.cmd, vs, LineOf(left.rest[1..]).cmd);
      Chain(ts, us, left.rest, vs, LineOf(ts).rest);
      us := us + [Sym(';')] + vs;
    }
  }

  // ---- and all of them ----

  predicate Starts(ts: seq<Tok>, c: char) {
    ts != [] && ts[0] == Sym(c)
  }

  lemma {:induction false} ExecComplete(us: seq<Tok>, c: Cmd, rest: seq<Tok>)
    requires IsExec(us, c) && Stops(rest)
    ensures ExecOf(us + rest) == Got(c, rest)
    decreases |us|, 1
  {
    hide SimpleOf, Simple, Args, Reds, IsLine, Redirs, Wrap;
    if Simple(us) && |Args(us)| < MAXARGS && c == Wrap(Exec(Args(us)), Reds(us)) {
      NodeEmpty();
      assert [] + Args(us) == Args(us) && [] + Reds(us) == Reds(us);
      SimpleComplete([], [], us, rest);
      NoParenthesis(us, rest);
    } else {
      var k, inner :| IsBlock(us, c, k, inner);
      BlockComplete(us, c, k, inner, rest);
    }
  }

  lemma NoParenthesis(us: seq<Tok>, rest: seq<Tok>)
    requires Simple(us) && Stops(rest)
    ensures !Starts(us + rest, '(')
  {
    if us == [] { assert us + rest == rest; }
  }

  lemma {:induction false} BlockComplete(us: seq<Tok>, c: Cmd, k: int, inner: Cmd, rest: seq<Tok>)
    requires IsBlock(us, c, k, inner) && Stops(rest)
    ensures ExecOf(us + rest) == Got(c, rest)
    decreases |us|, 0
  {
    hide IsLine, LineOf, RedirsOf, Wrap, Redirs;
    var body, rs, ts := us[1..k], us[k + 1..], us + rest;
    var tail := [Sym(')')] + (rs + rest);
    assert ts[0] == Sym('(') && ts[1..] == body + tail;
    LineComplete(body, inner, tail);
    assert tail[1..] == rs + rest;
    RedirsComplete(inner, rs, rest);
  }

  lemma {:induction false} PipeComplete(us: seq<Tok>, c: Cmd, rest: seq<Tok>)
    requires IsPipe(us, c) && Stops(rest) && !Starts(rest, '|')
    ensures PipeOf(us + rest) == Got(c, rest)
    decreases |us|, 2
  {
    hide IsExec, ExecOf;
    if IsExec(us, c) {
      ExecComplete(us, c, rest);
    } else {
      var k :| 0 <= k < |us| && us[k] == Sym('|') && IsExec(us[..k], c.left) && IsPipe(us[k + 1..], c.right);
      var l, r := us[..k], us[k + 1..];
      var tail := [Sym('|')] + (r + rest);
      assert us + rest == l + tail && tail[1..] == r + rest;
      ExecComplete(l, c.left, tail);
      PipeComplete(r, c.right, rest);
    }
  }

  // A command with & behind it is read by the pipeline parser and the loop over &.
  lemma {:induction false} BackComplete(us: seq<Tok>, c: Cmd, rest: seq<Tok>)
    requires IsBack(us, c) && Stops(rest) && !Starts(rest, '|')
    ensures PipeOf(us + rest).Got? && BacksOf(PipeOf(us + rest).cmd, PipeOf(us + rest).rest) == BacksOf(c, rest)
    decreases |us|, 3
  {
    hide IsPipe, PipeOf;
    if IsPipe(us, c) {
      PipeComplete(us, c, rest);
    } else {
      var vs := us[..|us| - 1];
      assert us + rest == vs + ([Sym('&')] + rest);
      BackComplete(vs, c.cmd, [Sym('&')] + rest);
      assert ([Sym('&')] + rest)[1..] == rest;
    }
  }

  lemma {:induction false} LineComplete(us: seq<Tok>, c: Cmd, rest: seq<Tok>)
    requires IsLine(us, c) && (rest == [] || Starts(rest, ')'))
    ensures LineOf(us + rest) == Got(c, rest)
    decreases |us|, 4
  {
    hide IsBack, PipeOf;
    if IsBack(us, c) {
      BackComplete(us, c, rest);
    } else {
      var k :| 0 <= k < |us| && us[k] == Sym(';') && IsBack(us[..k], c.left) && IsLine(us[k + 1..], c.right);
      var l, r := us[..k], us[k + 1..];
      var tail := [Sym(';')] + (r + rest);
      assert us + rest == l + tail && tail[1..] == r + rest;
      BackComplete(l, c.left, tail);
      LineComplete(r, c.right, rest);
    }
  }

  // The parser accepts a whole line exactly when the grammar gives it a command, and finds that one.
  lemma ParsesExactly(ts: seq<Tok>, c: Cmd)
    ensures LineOf(ts) == Got(c, []) <==> IsLine(ts, c)
  {
    hide IsLine, LineOf;
    if LineOf(ts) == Got(c, []) {
      var us := LineSound(ts);
      assert us + [] == us;
    }
    if IsLine(ts, c) {
      LineComplete(ts, c, []);
      assert ts + [] == ts;
    }
  }

  // So no line has two meanings.
  lemma Unambiguous(ts: seq<Tok>, c: Cmd, d: Cmd)
    requires IsLine(ts, c) && IsLine(ts, d)
    ensures c == d
  {
    hide IsLine, LineOf;
    ParsesExactly(ts, c);
    ParsesExactly(ts, d);
  }
}
