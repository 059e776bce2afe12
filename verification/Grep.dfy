/** The regular expression matcher of grep (user/grep.c) against the meaning of its patterns. Strings are
    without their final NUL; a pointer into one is the rest of the string. */
module Grep {
  // c*, one character or '.', and a final '$'.
  datatype Item = Star(c: char) | One(c: char) | End

  // How a pattern is read, after a leading '^'.
  function Items(re: string): (r: seq<Item>)
    ensures forall i :: 0 <= i < |r| - 1 ==> !r[i].End?
  {
    if re == [] then []
    else if |re| > 1 && re[1] == '*' then [Star(re[0])] + Items(re[2..])
    else if re == "$" then [End]
    else [One(re[0])] + Items(re[1..])
  }

  predicate Fits(c: char, x: char) {
    c == '.' || x == c
  }

  // What an item stands for: the piece of text it covers, given what comes after it.
  predicate Covers(item: Item, piece: string, after: string) {
    match item
    case Star(c) => forall i :: 0 <= i < |piece| ==> Fits(c, piece[i])
    case One(c) => |piece| == 1 && Fits(c, piece[0])
    case End => piece == [] && after == []
  }

  function Concat(pieces: seq<string>): string {
    if pieces == [] then [] else pieces[0] + Concat(pieces[1..])
  }

  // The text is one piece per item, in order, and a rest.
  ghost predicate Splits(items: seq<Item>, text: string, pieces: seq<string>, rest: string) {
    && |pieces| == |items| && text == Concat(pieces) + rest
    && forall i :: 0 <= i < |items| ==> Covers(items[i], pieces[i], Concat(pieces[i + 1..]) + rest)
  }

  ghost predicate Sits(items: seq<Item>, text: string) {
    exists pieces, rest :: Splits(items, text, pieces, rest)
  }

  // The meaning of a pattern at the beginning of a text.
  ghost predicate Here(re: string, text: string) {
    Sits(Items(re), text)
  }

  // The meaning of a pattern: '^' pins it to the beginning, otherwise it may start anywhere.
  ghost predicate Means(re: string, text: string) {
    if re != [] && re[0] == '^' then Here(re[1..], text)
    else exists k :: 0 <= k <= |text| && Here(re, text[k..])
  }

  // The first item covers a piece of k characters.
  ghost predicate Takes(item: Item, items: seq<Item>, text: string, k: int) {
    0 <= k <= |text| && Covers(item, text[..k], text[k..]) && Sits(items, text[k..])
  }

  // The first item covers a piece and the others split what is left.
  lemma First(item: Item, items: seq<Item>, text: string)
    ensures Sits([item] + items, text) <==> exists k :: Takes(item, items, text, k)
  {
    if Sits([item] + items, text) {
      var pieces, rest :| Splits([item] + items, text, pieces, rest);
      SplitFirst(item, items, text, pieces, rest);
      assert Takes(item, items, text, |pieces[0]|);
    }
    if k :| Takes(item, items, text, k) {
      var pieces, rest :| Splits(items, text[k..], pieces, rest);
      JoinFirst(item, items, text, k, pieces, rest);
    }
  }

  lemma SplitFirst(item: Item, items: seq<Item>, text: string, pieces: seq<string>, rest: string)
    requires Splits([item] + items, text, pieces, rest)
    ensures |pieces[0]| <= |text| && Covers(item, text[..|pieces[0]|], text[|pieces[0]|..])
    ensures Splits(items, text[|pieces[0]|..], pieces[1..], rest)
  {
    var all, k, tail := [item] + items, |pieces[0]|, pieces[1..];
    assert text == pieces[0] + (Concat(tail) + rest);
    assert text[..k] == pieces[0] && text[k..] == Concat(tail) + rest;
    assert Covers(all[0], pieces[0], Concat(pieces[0 + 1..]) + rest);
    forall i | 0 <= i < |items|
      ensures Covers(items[i], tail[i], Concat(tail[i + 1..]) + rest)
    {
      assert Covers(all[i + 1], pieces[i + 1], Concat(pieces[i + 1 + 1..]) + rest);
      assert tail[i + 1..] == pieces[i + 2..];
    }
  }

  lemma JoinFirst(item: Item, items: seq<Item>, text: string, k: nat, pieces: seq<string>, rest: string)
    requires k <= |text| && Covers(item, text[..k], text[k..]) && Splits(items, text[k..], pieces, rest)
    ensures Splits([item] + items, text, [text[..k]] + pieces, rest)
  {
    var all, whole := [item] + items, [text[..k]] + pieces;
    assert whole[1..] == pieces;
    assert text == text[..k] + text[k..];
    forall i | 0 <= i < |all|
      ensures Covers(all[i], whole[i], Concat(whole[i + 1..]) + rest)
    {
      if i > 0 { assert whole[i + 1..] == pieces[i..]; }
    }
  }

  lemma NoItems(text: string)
    ensures Here([], text)
  {
    assert Splits(Items([]), text, [], text);
  }

  lemma HereStar(c: char, re: string, text: string)
    ensures Here([c, '*'] + re, text) <==> exists k :: Takes(Star(c), Items(re), text, k)
  {
    var whole := [c, '*'] + re;
    assert whole[1] == '*' && whole[2..] == re;
    assert Items(whole) == [Star(c)] + Items(re);
    First(Star(c), Items(re), text);
  }

  lemma HereOne(re: string, text: string)
    requires re != [] && !(|re| > 1 && re[1] == '*') && re != "$"
    ensures Here(re, text) <==> text != [] && Fits(re[0], text[0]) && Here(re[1..], text[1..])
  {
    First(One(re[0]), Items(re[1..]), text);
    assert forall k :: Takes(One(re[0]), Items(re[1..]), text, k) ==> k == 1;
    if text != [] {
      assert text[..1] == [text[0]];
      assert Takes(One(re[0]), Items(re[1..]), text, 1) <==> Fits(re[0], text[0]) && Here(re[1..], text[1..]);
    }
  }

  lemma HereEnd(text: string)
    ensures Here("$", text) <==> text == []
  {
    assert Items("$") == [End] + [];
    First(End, [], text);
    if text == [] {
      assert Splits([], text[0..], [], []);
      assert Takes(End, [], text, 0);
    }
  }

  method MatchHere(re: string, text: string) returns (b: bool)
    ensures b <==> Here(re, text)
    decreases |re|, 0
  {
    if re == [] {
      NoItems(text);
      return true;
    }
    if |re| > 1 && re[1] == '*' {
      assert re == [re[0], '*'] + re[2..];
      HereStar(re[0], re[2..], text);
      b := MatchStar(re[0], re[2..], text);
      return;
    }
    if re[0] == '$' && |re| == 1 {
      assert re == "$";
      HereEnd(text);
      return text == [];
    }
    HereOne(re, text);
    if text != [] && (re[0] == '.' || re[0] == text[0]) {
      b := MatchHere(re[1..], text[1..]);
      return;
    }
    b := false;
  }

  method MatchStar(c: char, re: string, text: string) returns (b: bool)
    ensures b <==> exists k :: Takes(Star(c), Items(re), text, k)
    decreases |re|, 1
  {
    var i := 0;
    while true
      invariant 0 <= i <= |text|
      invariant forall j :: 0 <= j < i ==> Fits(c, text[j]) && !Here(re, text[j..])
      decreases |text| - i
    {
      var h := MatchHere(re, text[i..]);
      if h {
        assert Takes(Star(c), Items(re), text, i);
        return true;
      }
      if i == |text| {
        break;
      }
      i := i + 1;
      if !(text[i - 1] == c || c == '.') {
        assert forall k :: i <= k <= |text| ==> text[..k][i - 1] == text[i - 1];
        return false;
      }
    }
    b := false;
  }

  method Match(re: string, text: string) returns (b: bool)
    ensures b <==> Means(re, text)
  {
    if re != [] && re[0] == '^' {
      b := MatchHere(re[1..], text);
      return;
    }
    for i := 0 to |text| + 1
      invariant forall j :: 0 <= j < i ==> !Here(re, text[j..])
    {
      var h := MatchHere(re, text[i..]);
      if h {
        return true;
      }
    }
    b := false;
  }
}
