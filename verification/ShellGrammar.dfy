/** The shell's language (user/sh.c): its tokens, its commands, and which token sequences stand for which
    command, stated without the parser. */
module ShellGrammar {
  const MAXARGS := 10
  const O_RDONLY := 0
  const O_WRONLY_CREATE := 0x201

  const NUL := '\0'

  predicate IsSpace(c: char) {
    c == ' ' || c == '\t' || c == '\r' || c == '\n' || c == '\U{0B}'
  }

  predicate IsSymbol(c: char) {
    c == '<' || c == '|' || c == '>' || c == '&' || c == ';' || c == '(' || c == ')'
  }

  predicate IsWordChar(c: char) {
    !IsSpace(c) && !IsSymbol(c) && c != NUL
  }

  // Characters q .. eq of the input.
  datatype Slice = Slice(q: nat, eq: nat)

  // A word, or a symbol; '+' stands for >>.
  datatype Tok = Word(s: Slice) | Sym(c: char)

  datatype Cmd = Exec(argv: seq<Slice>) | Redir(cmd: Cmd, file: Slice, mode: int, fd: int)
    | Pipe(left: Cmd, right: Cmd) | List(left: Cmd, right: Cmd) | Back(cmd: Cmd)

  // A line as parsecmd gets it: es characters, then the only NUL.
  predicate Line(b: string, es: nat) {
    |b| == es + 1 && b[es] == NUL && forall i :: 0 <= i < es ==> b[i] != NUL
  }

  // ---- lexing ----

  function Skip(b: string, es: nat, p: nat): (r: nat)
    requires |b| == es + 1 && p <= es
    ensures p <= r <= es && (r < es ==> !IsSpace(b[r]))
    decreases es - p
  {
    if p < es && IsSpace(b[p]) then Skip(b, es, p + 1) else p
  }

  function WordEnd(b: string, es: nat, p: nat): (r: nat)
    requires |b| == es + 1 && p <= es
    ensures p <= r <= es && (r < es ==> IsSpace(b[r]) || IsSymbol(b[r]))
    ensures forall i :: p <= i < r ==> !IsSpace(b[i]) && !IsSymbol(b[i])
    decreases es - p
  {
    if p < es && !IsSpace(b[p]) && !IsSymbol(b[p]) then WordEnd(b, es, p + 1) else p
  }

  // The token at p, which is no space, and where it ends.
  function TokenAt(b: string, es: nat, p: nat): (r: (Tok, nat))
    requires Line(b, es) && p < es && !IsSpace(b[p])
    ensures p < r.1 <= es
  {
    if b[p] == '>' && b[p + 1] == '>' then (Sym('+'), p + 2)
    else if IsSymbol(b[p]) then (Sym(b[p]), p + 1)
    else (Word(Slice(p, WordEnd(b, es, p))), WordEnd(b, es, p))
  }

  // The tokens of the line from p on.
  function Tokens(b: string, es: nat, p: nat): seq<Tok>
    requires Line(b, es) && p <= es
    decreases es - p
  {
    var m := Skip(b, es, p);
    if m == es then [] else [TokenAt(b, es, m).0] + Tokens(b, es, TokenAt(b, es, m).1)
  }

  lemma SkipSkip(b: string, es: nat, p: nat)
    requires Line(b, es) && p <= es
    ensures Skip(b, es, Skip(b, es, p)) == Skip(b, es, p)
  {
  }

  lemma TokensSkip(b: string, es: nat, p: nat)
    requires Line(b, es) && p <= es
    ensures Tokens(b, es, Skip(b, es, p)) == Tokens(b, es, p)
  {
    SkipSkip(b, es, p);
  }

  // ---- grammar ----

  predicate IsRedir(t: Tok) {
    t == Sym('<') || t == Sym('>') || t == Sym('+')
  }

  // Redirections: an operator and a file name, any number of times.
  predicate Redirs(ts: seq<Tok>) {
    ts == [] || (|ts| >= 2 && IsRedir(ts[0]) && ts[1].Word? && Redirs(ts[2..]))
  }

  function Wrap(c: Cmd, ts: seq<Tok>): Cmd
    requires Redirs(ts)
    decreases |ts|
  {
    if ts == [] then c
    else if ts[0] == Sym('<') then Wrap(Redir(c, ts[1].s, O_RDONLY, 0), ts[2..])
    else Wrap(Redir(c, ts[1].s, O_WRONLY_CREATE, 1), ts[2..])
  }

  // Words and redirections in any order.
  predicate Simple(ts: seq<Tok>) {
    ts == [] || (ts[0].Word? && Simple(ts[1..])) || (|ts| >= 2 && IsRedir(ts[0]) && ts[1].Word? && Simple(ts[2..]))
  }

  function Args(ts: seq<Tok>): seq<Slice>
    requires Simple(ts)
    decreases |ts|
  {
    if ts == [] then [] else if ts[0].Word? then [ts[0].s] + Args(ts[1..]) else Args(ts[2..])
  }

  function Reds(ts: seq<Tok>): (r: seq<Tok>)
    requires Simple(ts)
    ensures Redirs(r)
    decreases |ts|
  {
    if ts == [] then []
    else if ts[0].Word? then Reds(ts[1..])
    else
      var r := [ts[0], ts[1]] + Reds(ts[2..]);
      assert r[2..] == Reds(ts[2..]);
      r
  }

  // A command with arguments, or a block in parentheses with redirections.
  ghost predicate IsExec(ts: seq<Tok>, c: Cmd)
    decreases |ts|, 1
  {
    || (Simple(ts) && |Args(ts)| < MAXARGS && c == Wrap(Exec(Args(ts)), Reds(ts)))
    || (exists k, inner :: IsBlock(ts, c, k, inner))
  }

  ghost predicate IsBlock(ts: seq<Tok>, c: Cmd, k: int, inner: Cmd)
    decreases |ts|, 0
  {
    && 1 <= k < |ts| && ts[0] == Sym('(') && ts[k] == Sym(')')
    && IsLine(ts[1..k], inner) && Redirs(ts[k + 1..]) && c == Wrap(inner, ts[k + 1..])
  }

  // Commands joined by |, from the right.
  ghost predicate IsPipe(ts: seq<Tok>, c: Cmd)
    decreases |ts|, 2
  {
    || IsExec(ts, c)
    || (c.Pipe? && exists k ::
          0 <= k < |ts| && ts[k] == Sym('|') && IsExec(ts[..k], c.left) && IsPipe(ts[k + 1..], c.right))
  }

  // With & any number of times behind it.
  ghost predicate IsBack(ts: seq<Tok>, c: Cmd)
    decreases |ts|, 3
  {
    || IsPipe(ts, c)
    || (ts != [] && ts[|ts| - 1] == Sym('&') && c.Back? && IsBack(ts[..|ts| - 1], c.cmd))
  }

  // Commands joined by ;, from the right.
  ghost predicate IsLine(ts: seq<Tok>, c: Cmd)
    decreases |ts|, 4
  {
    || IsBack(ts, c)
    || (c.List? && exists k ::
          0 <= k < |ts| && ts[k] == Sym(';') && IsBack(ts[..k], c.left) && IsLine(ts[k + 1..], c.right))
  }

  // ---- every word is in the command once ----

  function WordOf(t: Tok): seq<Slice> {
    if t.Word? then [t.s] else []
  }

  function Words(ts: seq<Tok>): seq<Slice> {
    if ts == [] then [] else WordOf(ts[0]) + Words(ts[1..])
  }

  // The slices nulterminate visits.
  function Slices(c: Cmd): seq<Slice> {
    match c
    case Exec(argv) => argv
    case Redir(d, file, _, _) => Slices(d) + [file]
    case Pipe(l, r) => Slices(l) + Slices(r)
    case List(l, r) => Slices(l) + Slices(r)
    case Back(d) => Slices(d)
  }

  lemma {:induction false} WordsJoin(ts: seq<Tok>, us: seq<Tok>)
    ensures Words(ts + us) == Words(ts) + Words(us)
  {
    if ts == [] {
      assert ts + us == us;
    } else {
      var vs := ts + us;
      assert vs[0] == ts[0] && vs[1..] == ts[1..] + us;
      WordsJoin(ts[1..], us);
      Regroup(WordOf(ts[0]), Words(ts[1..]), Words(us));
    }
  }

  lemma Regroup(x: seq<Slice>, y: seq<Slice>, z: seq<Slice>)
    ensures x + (y + z) == (x + y) + z
  {
  }

  lemma WordsTwo(ts: seq<Tok>)
    requires |ts| >= 2 && ts[0].Sym? && ts[1].Word?
    ensures Words(ts) == [ts[1].s] + Words(ts[2..])
  {
    assert ts[1..][1..] == ts[2..];
    assert Words(ts) == WordOf(ts[0]) + Words(ts[1..]);
    assert Words(ts[1..]) == WordOf(ts[1]) + Words(ts[2..]);
  }

  lemma {:induction false} WrapSlices(c: Cmd, ts: seq<Tok>)
    requires Redirs(ts)
    ensures Slices(Wrap(c, ts)) == Slices(c) + Words(ts)
    decreases |ts|
  {
    if ts != [] {
      var d := Redir(c, ts[1].s, if ts[0] == Sym('<') then O_RDONLY else O_WRONLY_CREATE,
                     if ts[0] == Sym('<') then 0 else 1);
      WrapSlices(d, ts[2..]);
      WordsTwo(ts);
      Regroup(Slices(c), [ts[1].s], Words(ts[2..]));
    }
  }

  lemma {:induction false} SimpleSlices(ts: seq<Tok>)
    requires Simple(ts)
    ensures multiset(Args(ts)) + multiset(Words(Reds(ts))) == multiset(Words(ts))
    decreases |ts|
  {
    if ts == [] {
    } else if ts[0].Word? {
      SimpleSlices(ts[1..]);
    } else {
      SimpleSlices(ts[2..]);
      WordsTwo(ts);
      WordsTwo(Reds(ts));
      assert Reds(ts)[2..] == Reds(ts[2..]);
    }
  }

  lemma WordsSym(ts: seq<Tok>, k: nat)
    requires k < |ts| && ts[k].Sym?
    ensures Words(ts) == Words(ts[..k]) + Words(ts[k + 1..])
  {
    assert ts == ts[..k] + ts[k..];
    WordsJoin(ts[..k], ts[k..]);
    SymFirst(ts[k..]);
    assert ts[k..][1..] == ts[k + 1..];
  }

  lemma SymFirst(ts: seq<Tok>)
    requires ts != [] && ts[0].Sym?
    ensures Words(ts) == Words(ts[1..])
  {
  }

  // The words of the input and the slices of the command are the same, as often.
  lemma {:induction false} ExecWords(ts: seq<Tok>, c: Cmd)
    requires IsExec(ts, c)
    ensures multiset(Slices(c)) == multiset(Words(ts))
    decreases |ts|, 1
  {
    if Simple(ts) && |Args(ts)| < MAXARGS && c == Wrap(Exec(Args(ts)), Reds(ts)) {
      WrapSlices(Exec(Args(ts)), Reds(ts));
      SimpleSlices(ts);
    } else {
      var k, inner :| IsBlock(ts, c, k, inner);
      LineWords(ts[1..k], inner);
      WrapSlices(inner, ts[k + 1..]);
      WordsSym(ts, k);
      assert ts[..k][1..] == ts[1..k];
    }
  }

  lemma {:induction false} PipeWords(ts: seq<Tok>, c: Cmd)
    requires IsPipe(ts, c)
    ensures multiset(Slices(c)) == multiset(Words(ts))
    decreases |ts|, 2
  {
    if IsExec(ts, c) {
      ExecWords(ts, c);
    } else {
      var k :| 0 <= k < |ts| && ts[k] == Sym('|') && IsExec(ts[..k], c.left) && IsPipe(ts[k + 1..], c.right);
      ExecWords(ts[..k], c.left);
      PipeWords(ts[k + 1..], c.right);
      WordsSym(ts, k);
    }
  }

  lemma {:induction false} BackWords(ts: seq<Tok>, c: Cmd)
    requires IsBack(ts, c)
    ensures multiset(Slices(c)) == multiset(Words(ts))
    decreases |ts|, 3
  {
    if IsPipe(ts, c) {
      PipeWords(ts, c);
    } else {
      BackWords(ts[..|ts| - 1], c.cmd);
      WordsSym(ts, |ts| - 1);
      assert ts[|ts|..] == [];
    }
  }

  lemma {:induction false} LineWords(ts: seq<Tok>, c: Cmd)
    requires IsLine(ts, c)
    ensures multiset(Slices(c)) == multiset(Words(ts))
    decreases |ts|, 4
  {
    if IsBack(ts, c) {
      BackWords(ts, c);
    } else {
      var k :| 0 <= k < |ts| && ts[k] == Sym(';') && IsBack(ts[..k], c.left) && IsLine(ts[k + 1..], c.right);
      BackWords(ts[..k], c.left);
      LineWords(ts[k + 1..], c.right);
      WordsSym(ts, k);
    }
  }

  // ---- the words of a line are apart ----

  // A maximal run of word characters.
  predicate IsWord(b: string, es: nat, s: Slice) {
    && |b| == es + 1 && s.q < s.eq <= es
    && (forall i :: s.q <= i < s.eq ==> IsWordChar(b[i]))
    && (s.eq < es ==> !IsWordChar(b[s.eq]))
  }

  ghost predicate InOrder(b: string, es: nat, p: nat, ws: seq<Slice>) {
    && (forall i :: 0 <= i < |ws| ==> p <= ws[i].q && IsWord(b, es, ws[i]))
    && (forall i, j :: 0 <= i < j < |ws| ==> ws[i].eq <= ws[j].q)
  }

  lemma InOrderFirst(b: string, es: nat, p: nat, t: Tok, n: nat, ws: seq<Slice>)
    requires InOrder(b, es, n, ws) && p <= n && (t.Word? ==> IsWord(b, es, t.s) && p <= t.s.q && t.s.eq <= n)
    ensures InOrder(b, es, p, WordOf(t) + ws)
  {
  }

  lemma {:induction false} WordsInOrder(b: string, es: nat, p: nat)
    requires Line(b, es) && p <= es
    ensures InOrder(b, es, p, Words(Tokens(b, es, p)))
    decreases es - p
  {
    hide InOrder;
    var m, ts := Skip(b, es, p), Tokens(b, es, p);
    if m < es {
      var n := TokenAt(b, es, m).1;
      WordsInOrder(b, es, n);
      assert ts[1..] == Tokens(b, es, n);
      InOrderFirst(b, es, p, ts[0], n, Words(ts[1..]));
    } else {
      NoneInOrder(b, es, p);
    }
  }

  lemma NoneInOrder(b: string, es: nat, p: nat)
    ensures InOrder(b, es, p, [])
  {
  }

  predicate Apart(s: Slice, t: Slice) {
    s.eq <= t.q || t.eq <= s.q
  }

  // All slices of the command are words of the line, and no two overlap.
  lemma SlicesApart(b: string, es: nat, c: Cmd, i: nat, j: nat)
    requires Line(b, es) && IsLine(Tokens(b, es, 0), c) && i < j < |Slices(c)|
    ensures Apart(Slices(c)[i], Slices(c)[j])
  {
    var ts := Tokens(b, es, 0);
    WordsInOrder(b, es, 0);
    LineWords(ts, c);
    var cs, ws := Slices(c), Words(ts);
    TwoPlaces(cs, i, j);
    assert cs[i] in multiset(cs) && cs[j] in multiset(cs);
    assert cs[i] in multiset(ws) && cs[j] in multiset(ws);
    var k :| 0 <= k < |ws| && ws[k] == cs[i];
    var l :| 0 <= l < |ws| && ws[l] == cs[j];
    if k == l {
      OnePlace(b, es, ws, k);
    }
  }

  lemma TwoPlaces(cs: seq<Slice>, i: nat, j: nat)
    requires i < j < |cs|
    ensures cs[i] == cs[j] ==> multiset(cs)[cs[i]] >= 2
  {
    assert cs == cs[..j] + cs[j..];
    assert multiset(cs) == multiset(cs[..j]) + multiset(cs[j..]);
    assert cs[i] in cs[..j] && cs[j] in cs[j..];
  }

  lemma OnePlace(b: string, es: nat, ws: seq<Slice>, k: nat)
    requires InOrder(b, es, 0, ws) && k < |ws|
    ensures multiset(ws)[ws[k]] == 1
  {
    assert ws == ws[..k] + ([ws[k]] + ws[k + 1..]);
    assert multiset(ws) == multiset(ws[..k]) + (multiset{ws[k]} + multiset(ws[k + 1..]));
    assert forall i :: 0 <= i < |ws| && i != k ==> ws[i] != ws[k];
    assert ws[k] !in ws[..k] && ws[k] !in ws[k + 1..];
  }
}
