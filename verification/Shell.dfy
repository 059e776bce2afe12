/** The shell's parser (user/sh.c): recursive descent with a cursor into the line, and the NULs written into
    the line afterwards. A panic ends the process that parses. */
module Shell {
  import opened ShellGrammar
  import opened ShellParse

  datatype Result = Ok(cmd: Cmd) | Panic

  class Parser {
    const buf: array<char>
    const es: nat
    var pos: nat

    ghost predicate Valid()
      reads this, buf
    {
      buf.Length == es + 1 && Line(buf[..], es) && pos <= es
    }

    // The parser before the first token of a line.
    constructor (buf: array<char>, es: nat)
      requires buf.Length == es + 1 && Line(buf[..], es)
      ensures Valid() && this.buf == buf && this.es == es && pos == 0
    {
      this.buf, this.es, pos := buf, es, 0;
    }

    method SkipSpaces()
      requires Valid()
      modifies this`pos
      ensures Valid() && pos == Skip(buf[..], es, old(pos))
    {
      while pos < es && IsSpace(buf[pos])
        invariant old(pos) <= pos <= es && Skip(buf[..], es, pos) == Skip(buf[..], es, old(pos))
      {
        pos := pos + 1;
      }
    }

    method SkipWord()
      requires Valid()
      modifies this`pos
      ensures Valid() && pos == WordEnd(buf[..], es, old(pos))
    {
      while pos < es && !IsSpace(buf[pos]) && !IsSymbol(buf[pos])
        invariant old(pos) <= pos <= es && WordEnd(buf[..], es, pos) == WordEnd(buf[..], es, old(pos))
      {
        pos := pos + 1;
      }
    }

    // Does the next token start with one of toks?
    method Peek(toks: string) returns (b: bool)
      requires Valid()
      modifies this`pos
      ensures Valid() && pos == Skip(buf[..], es, old(pos)) && Skip(buf[..], es, pos) == pos
      ensures b <==> pos < es && buf[pos] in toks
    {
      SkipSpaces();
      SkipSkip(buf[..], es, old(pos));
      b := buf[pos] != NUL && buf[pos] in toks;
    }

    // The next token, 'a' for a word and NUL at the end, and its characters.
    method GetToken() returns (tok: char, q: nat, eq: nat)
      requires Valid()
      modifies this`pos
      ensures Valid() && q == Skip(buf[..], es, old(pos)) && (tok == NUL <==> q == es)
      ensures q == es ==> pos == es
      ensures q < es ==> TokenAt(buf[..], es, q) == (if tok == 'a' then Word(Slice(q, eq)) else Sym(tok), eq)
      ensures q < es ==> old(pos) < pos == Skip(buf[..], es, eq)
    {
      SkipSpaces();
      q := pos;
      tok := buf[pos];
      if buf[pos] == NUL {
        eq := pos;
        return;
      }
      var c := buf[pos];
      if c == '|' || c == '(' || c == ')' || c == ';' || c == '&' || c == '<' {
        pos := pos + 1;
      } else if buf[pos] == '>' {
        pos := pos + 1;
        if buf[pos] == '>' {
          tok := '+';
          pos := pos + 1;
        }
      } else {
        tok := 'a';
        SkipWord();
      }
      eq := pos;
      SkipSpaces();
    }

    // The tokens still to come.
    ghost function Left(): seq<Tok>
      requires Valid()
      reads this, buf
    {
      Tokens(buf[..], es, pos)
    }

    // The outcome r of a parser that started with the tokens ts is that of p.
    ghost predicate Agrees(r: Result, p: Parse)
      requires Valid()
      reads this, buf
    {
      (r.Panic? <==> p.Fail?) && (r.Ok? ==> p == Got(r.cmd, Left()))
    }

    // Looking at the next token: is it one of the symbols asked for?
    method Next(toks: string) returns (b: bool)
      requires Valid() && forall c :: c in toks ==> IsSymbol(c)
      modifies this`pos
      ensures Valid() && old(pos) <= pos && Left() == old(Left())
      ensures b <==> Left() != [] && Left()[0].Sym? && (Left()[0].c in toks || (Left()[0].c == '+' && '>' in toks))
    {
      b := Peek(toks);
      TokensSkip(buf[..], es, old(pos));
    }

    // Taking the next token.
    method Take() returns (tok: char, q: nat, eq: nat)
      requires Valid()
      modifies this`pos
      ensures Valid() && old(pos) <= pos
      ensures tok == NUL <==> old(Left()) == []
      ensures tok == NUL ==> Left() == []
      ensures tok != NUL ==>
        old(pos) < pos && old(Left()) == [if tok == 'a' then Word(Slice(q, eq)) else Sym(tok)] + Left()
    {
      tok, q, eq := GetToken();
      if q < es {
        TokensSkip(buf[..], es, eq);
      }
    }

    // Redirections behind a command, as many as there are.
    method ParseRedirs(c: Cmd) returns (r: Result)
      requires Valid()
      modifies this`pos
      ensures Valid() && old(pos) <= pos && Agrees(r, RedirsOf(c, old(Left())))
    {
      hide Tokens, Line;
      r := Ok(c);
      while true
        invariant Valid() && old(pos) <= pos && r.Ok? && RedirsOf(c, old(Left())) == RedirsOf(r.cmd, Left())
        decreases es - pos
      {
        var more := Next("<>");
        if !more {
          return;
        }
        ghost var ts := Left();
        var tok, _, _ := Take();
        ghost var us := Left();
        assert ts == [Sym(tok)] + us;
        var t, q, eq := Take();
        if t != 'a' {
          return Panic;
        }
        assert us == [Word(Slice(q, eq))] + Left();
        assert ts[2..] == Left() && ts[1] == Word(Slice(q, eq));
        if tok == '<' {
          r := Ok(Redir(r.cmd, Slice(q, eq), O_RDONLY, 0));
        } else {
          r := Ok(Redir(r.cmd, Slice(q, eq), O_WRONLY_CREATE, 1));
        }
      }
    }

    // Words and redirections up to an operator, or a block.
    method ParseExec() returns (r: Result)
      requires Valid()
      modifies this`pos
      ensures Valid() && old(pos) <= pos && Agrees(r, ExecOf(old(Left())))
      decreases es - pos, 1
    {
      hide Tokens, Line, LineOf;
      var block := Next("(");
      if block {
        r := ParseBlock();
        return;
      }
      var argv: seq<Slice> := [];
      RedirsThenSimple(Exec(argv), argv, Left());
      r := ParseRedirs(Exec(argv));
      if r.Panic? {
        return;
      }
      while true
        invariant Valid() && old(pos) <= pos && r.Ok? && |argv| < MAXARGS && (Left() != [] ==> !IsRedir(Left()[0]))
        invariant ExecOf(old(Left())) == SimpleOf(r.cmd, argv, Left())
        decreases es - pos
      {
        var stop := Next("|)&;");
        if stop {
          return;
        }
        ghost var ts := Left();
        var tok, q, eq := Take();
        if tok == NUL {
          return;
        }
        if tok != 'a' {
          return Panic;
        }
        assert ts[1..] == Left();
        argv := argv + [Slice(q, eq)];
        r := Ok(WithArgs(r.cmd, argv));
        if |argv| >= MAXARGS {
          return Panic;
        }
        RedirsThenSimple(r.cmd, argv, Left());
        r := ParseRedirs(r.cmd);
        if r.Panic? {
          return;
        }
      }
    }

    method ParseBlock() returns (r: Result)
      requires Valid()
      modifies this`pos
      ensures Valid() && old(pos) <= pos && Agrees(r, BlockOf(old(Left())))
      decreases es - pos, 0
    {
      hide Tokens, Line, LineOf, RedirsOf;
      var open := Next("(");
      if !open {
        return Panic;
      }
      ghost var ts := Left();
      var _, _, _ := Take();
      assert ts[1..] == Left();
      r := ParseLine();
      if r.Panic? {
        return;
      }
      var close := Next(")");
      if !close {
        return Panic;
      }
      ghost var us := Left();
      var _, _, _ := Take();
      assert us[1..] == Left();
      r := ParseRedirs(r.cmd);
    }

    method ParsePipe() returns (r: Result)
      requires Valid()
      modifies this`pos
      ensures Valid() && old(pos) <= pos && Agrees(r, PipeOf(old(Left())))
      decreases es - pos, 2
    {
      hide Tokens, Line, ExecOf;
      r := ParseExec();
      if r.Panic? {
        return;
      }
      var more := Next("|");
      if more {
        ghost var ts := Left();
        var _, _, _ := Take();
        assert ts[1..] == Left();
        var right := ParsePipe();
        if right.Panic? {
          return right;
        }
        r := Ok(Pipe(r.cmd, right.cmd));
      }
    }

    method ParseLine() returns (r: Result)
      requires Valid()
      modifies this`pos
      ensures Valid() && old(pos) <= pos && Agrees(r, LineOf(old(Left())))
      decreases es - pos, 3
    {
      hide Tokens, Line, PipeOf;
      r := ParsePipe();
      if r.Panic? {
        return;
      }
      ghost var first := PipeOf(old(Left()));
      while true
        invariant Valid() && old(pos) <= pos && r.Ok? && BacksOf(first.cmd, first.rest) == BacksOf(r.cmd, Left())
        decreases es - pos
      {
        var more := Next("&");
        if !more {
          break;
        }
        ghost var ts := Left();
        var _, _, _ := Take();
        assert ts[1..] == Left();
        r := Ok(Back(r.cmd));
      }
      var more := Next(";");
      if more {
        ghost var ts := Left();
        var _, _, _ := Take();
        assert ts[1..] == Left();
        var right := ParseLine();
        if right.Panic? {
          return right;
        }
        r := Ok(List(r.cmd, right.cmd));
      }
    }

    // Writes a NUL behind every string of the command.
    method Nulterminate(c: Cmd)
      requires Within(Slices(c), buf.Length)
      modifies buf
      ensures forall i :: 0 <= i < buf.Length ==> buf[i] == if EndsAt(Slices(c), i) then NUL else old(buf[i])
      decreases c
    {
      match c
      case Exec(argv) =>
        for n := 0 to |argv|
          invariant forall i :: 0 <= i < buf.Length ==> buf[i] == if EndsAt(argv[..n], i) then NUL else old(buf[i])
        {
          buf[argv[n].eq] := NUL;
          EndsAtMore(argv[..n], [argv[n]]);
          EndsAtOne(argv[n]);
          assert argv[..n + 1] == argv[..n] + [argv[n]];
        }
        assert argv[..|argv|] == argv;
      case Redir(d, file, _, _) =>
        EndsAtMore(Slices(d), [file]);
        WithinParts(Slices(d), [file], buf.Length);
        EndsAtOne(file);
        assert [file][0].eq < buf.Length;
        Nulterminate(d);
        buf[file.eq] := NUL;
      case Pipe(l, r) =>
        EndsAtMore(Slices(l), Slices(r));
        WithinParts(Slices(l), Slices(r), buf.Length);
        Nulterminate(l);
        Nulterminate(r);
      case List(l, r) =>
        EndsAtMore(Slices(l), Slices(r));
        WithinParts(Slices(l), Slices(r), buf.Length);
        Nulterminate(l);
        Nulterminate(r);
      case Back(d) =>
        Nulterminate(d);
    }

    /** A whole line. The parser returns the one command the grammar gives to the line's tokens and panics
        exactly when there is none; every string of the command read from the buffer afterwards is its word. */
    method ParseCmd() returns (r: Result)
      requires Valid() && pos == 0
      modifies this`pos, buf
      ensures Line(old(buf[..]), es)
      ensures r.Panic? ==> buf[..] == old(buf[..]) && forall c :: !IsLine(Tokens(old(buf[..]), es, 0), c)
      ensures r.Ok? ==> forall c :: IsLine(Tokens(old(buf[..]), es, 0), c) <==> c == r.cmd
      ensures r.Ok? ==> forall k :: 0 <= k < |Slices(r.cmd)| ==>
          && var s := Slices(r.cmd)[k];
             IsWord(old(buf[..]), es, s) && CString(buf[..], s.q) == old(buf[..])[s.q..s.eq]
      ensures r.Ok? ==> forall j, k :: 0 <= j < k < |Slices(r.cmd)| ==> Apart(Slices(r.cmd)[j], Slices(r.cmd)[k])
    {
      hide IsLine, Tokens, LineOf, Skip;
      ghost var b := buf[..];
      ghost var ts := Left();
      forall c ensures IsLine(ts, c) <==> LineOf(ts) == Got(c, []) {
        ParsesExactly(ts, c);
      }
      r := ParseLine();
      if r.Panic? {
        return;
      }
      ghost var p := pos;
      var _ := Peek("");
      TokensSkip(b, es, p);
      NoneLeft(b, es, pos);
      if pos != es {
        return Panic;
      }
      ghost var ss := Slices(r.cmd);
      forall j, k | 0 <= j < k < |ss| ensures Apart(ss[j], ss[k]) {
        SlicesApart(b, es, r.cmd, j, k);
      }
      SlicesWords(b, es, r.cmd);
      Nulterminate(r.cmd);
      forall k | 0 <= k < |ss| ensures CString(buf[..], ss[k].q) == b[ss[k].q..ss[k].eq] {
        assert IsWord(b, es, ss[k]);
        Terminated(b, es, buf[..], ss, k, ss[k].q);
      }
    }
  }

  lemma NoneLeft(b: string, es: nat, p: nat)
    requires Line(b, es) && p <= es && Skip(b, es, p) == p
    ensures Tokens(b, es, p) == [] <==> p == es
  {
  }

  // Reading redirections first and then the rest is reading them as they come.
  lemma {:induction false} RedirsThenSimple(c: Cmd, argv: seq<Slice>, ts: seq<Tok>)
    ensures var p := RedirsOf(c, ts);
            SimpleOf(c, argv, ts) == (if p.Got? then SimpleOf(p.cmd, argv, p.rest) else Fail)
    ensures RedirsOf(c, ts).Got? && RedirsOf(c, ts).rest != [] ==> !IsRedir(RedirsOf(c, ts).rest[0])
    decreases |ts|
  {
    if ts != [] && IsRedir(ts[0]) && |ts| >= 2 && ts[1].Word? {
      RedirsThenSimple(Redirected(c, ts[0], ts[1].s), argv, ts[2..]);
    }
  }

  ghost predicate EndsAt(ss: seq<Slice>, i: int) {
    exists k :: 0 <= k < |ss| && ss[k].eq == i
  }

  predicate Within(ss: seq<Slice>, n: int) {
    forall k :: 0 <= k < |ss| ==> ss[k].eq < n
  }

  lemma WithinParts(xs: seq<Slice>, ys: seq<Slice>, n: int)
    requires Within(xs + ys, n)
    ensures Within(xs, n) && Within(ys, n)
  {
    assert forall k :: 0 <= k < |xs| ==> xs[k] == (xs + ys)[k];
    assert forall k :: 0 <= k < |ys| ==> ys[k] == (xs + ys)[|xs| + k];
  }

  lemma EndsAtOne(s: Slice)
    ensures forall i :: EndsAt([s], i) <==> i == s.eq
  {
    assert [s][0] == s;
    assert EndsAt([s], s.eq);
  }

  lemma EndsAtMore(xs: seq<Slice>, ys: seq<Slice>)
    ensures forall i :: EndsAt(xs + ys, i) <==> EndsAt(xs, i) || EndsAt(ys, i)
  {
    forall i ensures EndsAt(xs + ys, i) <==> EndsAt(xs, i) || EndsAt(ys, i) {
      if k :| 0 <= k < |xs| && xs[k].eq == i { assert (xs + ys)[k].eq == i; }
      if k :| 0 <= k < |ys| && ys[k].eq == i { assert (xs + ys)[|xs| + k].eq == i; }
    }
  }

  // The C string at q.
  function CString(b: string, q: nat): string
    decreases |b| - q
  {
    if q < |b| && b[q] != NUL then [b[q]] + CString(b, q + 1) else []
  }

  lemma SlicesWords(b: string, es: nat, c: Cmd)
    requires Line(b, es) && IsLine(Tokens(b, es, 0), c)
    ensures forall k :: 0 <= k < |Slices(c)| ==> IsWord(b, es, Slices(c)[k])
  {
    hide IsLine, Tokens;
    var ts := Tokens(b, es, 0);
    WordsInOrder(b, es, 0);
    LineWords(ts, c);
    var cs, ws := Slices(c), Words(ts);
    forall k | 0 <= k < |cs| ensures IsWord(b, es, cs[k]) {
      assert cs[k] in multiset(cs);
      assert cs[k] in multiset(ws);
    }
  }

  // The ends of words are not inside words, so each word is cut off exactly at its end.
  lemma {:induction false} Terminated(b: string, es: nat, b': string, ss: seq<Slice>, k: nat, q: nat)
    requires Line(b, es) && |b'| == |b| && (forall j :: 0 <= j < |ss| ==> IsWord(b, es, ss[j]))
    requires forall i :: 0 <= i < |b| ==> b'[i] == if EndsAt(ss, i) then NUL else b[i]
    requires k < |ss| && ss[k].q <= q <= ss[k].eq <= es
    ensures CString(b', q) == b[q..ss[k].eq]
    decreases ss[k].eq - q
  {
    if q < ss[k].eq {
      assert IsWord(b, es, ss[k]) && IsWordChar(b[q]);
      assert !EndsAt(ss, q);
      Terminated(b, es, b', ss, k, q + 1);
      assert b[q..ss[k].eq] == [b[q]] + b[q + 1..ss[k].eq];
    } else {
      assert EndsAt(ss, q);
    }
  }
}
