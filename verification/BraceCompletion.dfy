/** Brace completion: a sorted list of names printed as one brace word. */
module BraceCompletion {
  import opened Braces
  import opened BraceWords

  // ----- common prefixes -----

  /** g is the length of the longest common prefix. */
  predicate IsGcd(a: string, b: string, g: nat)
  {
    && g <= |a| && g <= |b| && (forall i :: 0 <= i < g ==> a[i] == b[i])
    && (g == |a| || g == |b| || a[g] != b[g])
  }

  function GcdFrom(a: string, b: string, i: nat): (g: nat)
    requires i <= |a| && i <= |b| && forall j :: 0 <= j < i ==> a[j] == b[j]
    ensures IsGcd(a, b, g)
    decreases |a| - i
  {
    if i < |a| && i < |b| && a[i] == b[i] then GcdFrom(a, b, i + 1) else i
  }

  function Gcd(a: string, b: string): (g: nat)
    ensures IsGcd(a, b, g)
  {
    GcdFrom(a, b, 0)
  }

  method StringGcd(s1: string, s2: string) returns (i: nat)
    ensures i == Gcd(s1, s2)
  {
    i := 0;
    while i < |s1| && i < |s2|
      invariant i <= |s1| && i <= |s2| && forall j :: 0 <= j < i ==> s1[j] == s2[j]
      invariant GcdFrom(s1, s2, i) == Gcd(s1, s2)
    {
      if s1[i] != s2[i] {
        break;
      }
      i := i + 1;
    }
  }

  /** The order of strcmp. */
  predicate Leq(a: string, b: string)
  {
    var g := Gcd(a, b);
    g == |a| || (g < |b| && a[g] < b[g])
  }

  /** A name between two others shares with the first at least what the last one does. */
  lemma Squeeze(a: string, b: string, c: string)
    requires Leq(a, b) && Leq(b, c)
    ensures Gcd(a, b) >= Gcd(a, c)
  {
    hide GcdFrom;
    var h, g, k := Gcd(a, b), Gcd(a, c), Gcd(b, c);
    if h < g {
      assert false;
    }
  }

  // ----- blocks of names -----

  predicate Sorted(names: seq<string>, start: nat, end: nat)
    requires end <= |names|
  {
    forall i, j :: start <= i <= j < end ==> Leq(names[i], names[j])
  }

  /** Every name of the range has the first gcd characters of the first one. */
  predicate Shared(names: seq<string>, start: nat, end: nat, gcd: nat)
    requires start < end <= |names|
  {
    |names[start]| >= gcd && forall j :: start <= j < end ==> |names[j]| >= gcd && names[j][..gcd] == names[start][..gcd]
  }

  predicate Ready(names: seq<string>, start: nat, end: nat, gcd: nat)
  {
    start < end <= |names| && Sorted(names, start, end) && Shared(names, start, end, gcd)
  }

  /** Where the names that share more than gcd characters with the one at start end. */
  function BlockEnd(names: seq<string>, start: nat, i: nat, end: nat, gcd: nat): (e: nat)
    requires start < i <= end <= |names|
    ensures i <= e <= end
    ensures forall j :: i <= j < e ==> Gcd(names[start], names[j]) > gcd
    ensures e < end ==> Gcd(names[start], names[e]) <= gcd
    decreases end - i
  {
    if i < end && Gcd(names[start], names[i]) > gcd then BlockEnd(names, start, i + 1, end, gcd) else i
  }

  function Block(names: seq<string>, start: nat, end: nat, gcd: nat): (e: nat)
    requires start < end <= |names|
    ensures start < e <= end
    ensures forall j :: start < j < e ==> Gcd(names[start], names[j]) > gcd
    ensures e < end ==> Gcd(names[start], names[e]) <= gcd
  {
    BlockEnd(names, start, start + 1, end, gcd)
  }

  lemma ReadyBounds(names: seq<string>, start: nat, end: nat, gcd: nat)
    requires Ready(names, start, end, gcd)
    ensures start < end <= |names| && gcd <= |names[start]|
  {
  }

  /** In sorted order a block shares what its ends share, which is more than before; the
      block falls into at least two when that prefix is taken away. */
  lemma BlockSplits(names: seq<string>, start: nat, end: nat, gcd: nat)
    requires Ready(names, start, end, gcd) && Block(names, start, end, gcd) > start + 1
    ensures var e := Block(names, start, end, gcd);
      var g := Gcd(names[start], names[e - 1]);
      gcd < g <= |names[start]| && Ready(names, start, e, g) && Block(names, start, e, g) < e
  {
    hide Gcd, BlockEnd, Leq;
    var e := Block(names, start, end, gcd);
    var g := Gcd(names[start], names[e - 1]);
    forall j | start <= j < e
      ensures |names[j]| >= g && names[j][..g] == names[start][..g]
    {
      Squeeze(names[start], names[j], names[e - 1]);
    }
  }

  lemma NextReady(names: seq<string>, start: nat, end: nat, gcd: nat)
    requires Ready(names, start, end, gcd) && Block(names, start, end, gcd) < end
    ensures Ready(names, Block(names, start, end, gcd), end, gcd)
  {
    hide Gcd, BlockEnd, Leq;
  }

  // ----- the word -----

  function Literal(s: string, rest: Word): Word
  {
    if s == "" then rest else Char(s[0], Literal(s[1..], rest))
  }

  lemma {:induction false} LiteralIs(s: string, rest: Word)
    ensures Render(Literal(s, rest)) == s + Render(rest)
    ensures Meaning(Literal(s, rest)) == PrefixAll(s, Meaning(rest))
    ensures PlainWord(Literal(s, rest)) <==> (PlainWord(rest) && forall i :: 0 <= i < |s| ==> Plain(s[i]))
  {
    hide Plain;
    if s == "" {
      ProductUnitLeft("", Meaning(rest));
      assert s + Render(rest) == Render(rest);
    } else {
      LiteralIs(s[1..], rest);
      PrefixTwice([s[0]], s[1..], Meaning(rest));
      assert s == [s[0]] + s[1..];
      assert [s[0]] + (s[1..] + Render(rest)) == s + Render(rest);
    }
  }

  /** What is left of a name after its first gcd characters. */
  function Unshared(names: seq<string>, i: nat, gcd: nat): nat
  {
    if i < |names| && gcd <= |names[i]| then |names[i]| - gcd else 0
  }

  lemma LessUnshared(names: seq<string>, i: nat, gcd: nat, g: nat)
    requires i < |names| && gcd < g <= |names[i]|
    ensures Unshared(names, i, g) < Unshared(names, i, gcd)
  {
  }

  /** The word for the block at start: its only name, or its prefix and a group. */
  function Piece(names: seq<string>, start: nat, end: nat, gcd: nat): Word
    requires Ready(names, start, end, gcd)
    decreases end - start, Unshared(names, start, gcd), 1
  {
    hide *;
    ReadyBounds(names, start, end, gcd);
    var e := Block(names, start, end, gcd);
    if e == start + 1 then Literal(names[start][gcd..], Empty)
    else
      BlockSplits(names, start, end, gcd);
      var g := Gcd(names[start], names[e - 1]);
      LessUnshared(names, start, gcd, g);
      Literal(names[start][gcd..g], Group(List(names, start, e, g), Empty))
  }

  /** The words of all blocks, of which there are at least two. */
  function List(names: seq<string>, start: nat, end: nat, gcd: nat): Branches
    requires Ready(names, start, end, gcd) && Block(names, start, end, gcd) < end
    decreases end - start, Unshared(names, start, gcd), 2
  {
    hide *;
    ReadyBounds(names, start, end, gcd);
    NextReady(names, start, end, gcd);
    var e := Block(names, start, end, gcd);
    if Block(names, e, end, gcd) == end then Two(Piece(names, start, end, gcd), Piece(names, e, end, gcd))
    else More(Piece(names, start, end, gcd), List(names, e, end, gcd))
  }

  /** The names from start to end without their first gcd characters. */
  function Suffixes(names: seq<string>, start: nat, end: nat, gcd: nat): seq<string>
    requires start <= end <= |names| && forall j :: start <= j < end ==> |names[j]| >= gcd
  {
    seq(end - start, k requires 0 <= k < end - start => names[start + k][gcd..])
  }

  predicate PlainNames(names: seq<string>)
  {
    forall j :: 0 <= j < |names| ==> PlainName(names[j])
  }

  predicate PlainName(s: string) { forall i :: 0 <= i < |s| ==> Plain(s[i]) }

  lemma {:induction false} PieceMeans(names: seq<string>, start: nat, end: nat, gcd: nat)
    requires Ready(names, start, end, gcd) && PlainNames(names)
    ensures PlainWord(Piece(names, start, end, gcd))
    ensures Meaning(Piece(names, start, end, gcd)) == Suffixes(names, start, Block(names, start, end, gcd), gcd)
    decreases end - start, |names[start]| - gcd, 1
  {
    hide Block, List, Sorted, Meaning, Render, Plain;
    var e := Block(names, start, end, gcd);
    assert PlainName(names[start]);
    if e == start + 1 {
      var s := names[start][gcd..];
      LiteralIs(s, Empty);
      SingleMeans(names, start, gcd);
    } else {
      BlockSplits(names, start, end, gcd);
      var g := Gcd(names[start], names[e - 1]);
      var alts := List(names, start, e, g);
      ListMeans(names, start, e, g);
      LiteralIs(names[start][gcd..g], Group(alts, Empty));
      GroupAlone(alts);
      SuffixPrefix(names, start, e, gcd, g);
    }
  }

  lemma SingleMeans(names: seq<string>, start: nat, gcd: nat)
    requires start < |names| && gcd <= |names[start]|
    ensures PrefixAll(names[start][gcd..], Meaning(Empty)) == Suffixes(names, start, start + 1, gcd)
    ensures PlainWord(Empty)
  {
    assert names[start][gcd..] + "" == names[start][gcd..];
  }

  lemma GroupAlone(alts: Branches)
    ensures Meaning(Group(alts, Empty)) == MeaningAll(alts)
    ensures PlainWord(Group(alts, Empty)) <==> PlainBranches(alts)
    ensures Render(Group(alts, Empty)) == "{" + RenderAll(alts) + "}"
  {
    ProductUnitRight(MeaningAll(alts));
    assert Meaning(Empty) == [""];
    assert "}" + Render(Empty) == "}";
  }

  /** Putting a shared prefix back in front of every suffix. */
  lemma SuffixPrefix(names: seq<string>, start: nat, end: nat, gcd: nat, g: nat)
    requires start < end <= |names| && gcd <= g && Shared(names, start, end, g)
    ensures PrefixAll(names[start][gcd..g], Suffixes(names, start, end, g)) == Suffixes(names, start, end, gcd)
  {
    var p := names[start][gcd..g];
    forall j | start <= j < end
      ensures p + names[j][g..] == names[j][gcd..]
    {
      assert names[j][gcd..g] == names[j][..g][gcd..] == p;
    }
  }

  lemma {:induction false} ListMeans(names: seq<string>, start: nat, end: nat, gcd: nat)
    requires Ready(names, start, end, gcd) && Block(names, start, end, gcd) < end && PlainNames(names)
    ensures PlainBranches(List(names, start, end, gcd))
    ensures MeaningAll(List(names, start, end, gcd)) == Suffixes(names, start, end, gcd)
    decreases end - start, |names[start]| - gcd, 2
  {
    hide Block, Sorted, Meaning, PlainWord, PlainNames, Piece;
    var e := Block(names, start, end, gcd);
    NextReady(names, start, end, gcd);
    PieceMeans(names, start, end, gcd);
    if Block(names, e, end, gcd) == end {
      PieceMeans(names, e, end, gcd);
    } else {
      ListMeans(names, e, end, gcd);
    }
    assert Suffixes(names, start, end, gcd) == Suffixes(names, start, e, gcd) + Suffixes(names, e, end, gcd);
  }

  /** The whole word: a group only when the names have no first character in common. */
  function Top(names: seq<string>, start: nat, end: nat): Word
    requires Ready(names, start, end, 0)
  {
    if Block(names, start, end, 0) == end then Piece(names, start, end, 0) else Group(List(names, start, end, 0), Empty)
  }

  // ----- the text that is built -----

  /** Every block's text followed by a comma. */
  function Text(names: seq<string>, start: nat, end: nat, gcd: nat): (t: string)
    requires start < end ==> Ready(names, start, end, gcd)
    decreases end - start
  {
    if start >= end then ""
    else
      var e := Block(names, start, end, gcd);
      assert e < end ==> Ready(names, e, end, gcd) by { if e < end { NextReady(names, start, end, gcd); } }
      Render(Piece(names, start, end, gcd)) + "," + Text(names, e, end, gcd)
  }

  lemma {:induction false} TextIsList(names: seq<string>, start: nat, end: nat, gcd: nat)
    requires Ready(names, start, end, gcd) && Block(names, start, end, gcd) < end
    ensures Text(names, start, end, gcd) == RenderAll(List(names, start, end, gcd)) + ","
    decreases end - start
  {
    hide Block, Render, Piece, Sorted, Shared;
    var e := Block(names, start, end, gcd);
    NextReady(names, start, end, gcd);
    if Block(names, e, end, gcd) == end {
      assert Text(names, e, end, gcd) == Render(Piece(names, e, end, gcd)) + "," + "";
    } else {
      TextIsList(names, e, end, gcd);
    }
  }

  lemma TextStep(names: seq<string>, start: nat, end: nat, gcd: nat)
    requires Ready(names, start, end, gcd)
    ensures var e := Block(names, start, end, gcd);
      && (e < end ==> Ready(names, e, end, gcd))
      && Text(names, start, end, gcd) == Render(Piece(names, start, end, gcd)) + "," + Text(names, e, end, gcd)
  {
    hide Block, Piece, Render, Sorted, Shared;
    if Block(names, start, end, gcd) < end {
      NextReady(names, start, end, gcd);
    }
  }

  lemma TextEnds(names: seq<string>, end: nat, gcd: nat)
    ensures Text(names, end, end, gcd) == ""
  {
  }

  /** What really_munge_braces returns; with nothing to print, the name at start or, past
      the last, the first entry. */
  function Munged(names: seq<string>, start: nat, end: nat, gcd: nat): string
    requires names != [] && start <= end <= |names|
    requires if start < end then Ready(names, start, end, gcd) else start < |names| ==> gcd <= |names[start]|
  {
    if start < end then (if gcd == 0 then Render(Top(names, start, end)) else Text(names, start, end, gcd))
    else if start < |names| then names[start][gcd..] else names[0]
  }

  method ReallyMungeBraces(names: seq<string>, realStart: nat, realEnd: nat, gcdZero: nat) returns (result: string)
    requires names != [] && realStart <= realEnd <= |names|
    requires if realStart < realEnd then Ready(names, realStart, realEnd, gcdZero)
             else realStart < |names| ==> gcdZero <= |names[realStart]|
    ensures result == Munged(names, realStart, realEnd, gcdZero)
    decreases realEnd - realStart, if realStart < realEnd then |names[realStart]| - gcdZero else 0, 2
  {
    hide Block, Piece, List, Sorted, Shared, Render, Text, Top;
    if realStart == realEnd {
      return if realStart < |names| then names[realStart][gcdZero..] else names[0];
    }
    result := "";
    var flag, start := false, realStart;
    ghost var whole := Text(names, realStart, realEnd, gcdZero);
    while start < realEnd
      invariant realStart <= start <= realEnd && (start < realEnd ==> Ready(names, start, realEnd, gcdZero))
      invariant start == realStart ==> result == "" && !flag
      invariant start > realStart ==> flag == (gcdZero == 0 && Block(names, realStart, realEnd, gcdZero) < realEnd)
      invariant result + Text(names, start, realEnd, gcdZero) == (if flag then "{" else "") + whole
    {
      var end, subterm := BlockText(names, start, realEnd, gcdZero, realStart);
      TextStep(names, start, realEnd, gcdZero);
      if gcdZero == 0 && start == realStart && end != realEnd {
        result := "{" + result;
        flag := true;
      }
      result := result + subterm + ",";
      start := end;
    }
    TextEnds(names, realEnd, gcdZero);
    assert result == (if flag then "{" else "") + whole;
    if gcdZero == 0 {
      TopText(names, realStart, realEnd);
      result := result[..|result| - 1] + if flag then "}" else "";
    }
  }

  /** At the top the last comma becomes the closing brace, or goes. */
  lemma TopText(names: seq<string>, start: nat, end: nat)
    requires Ready(names, start, end, 0)
    ensures var t := Text(names, start, end, 0);
      && |t| > 0
      && Render(Top(names, start, end)) == if Block(names, start, end, 0) < end then "{" + t[..|t| - 1] + "}" else t[..|t| - 1]
  {
    hide Block, Piece, List, Sorted, Shared;
    if Block(names, start, end, 0) < end {
      TextIsList(names, start, end, 0);
      GroupAlone(List(names, start, end, 0));
    }
  }

  /** One turn of the outer loop: the end and the text of the block at start. */
  method BlockText(names: seq<string>, start: nat, realEnd: nat, gcdZero: nat, ghost from: nat)
    returns (end: nat, subterm: string)
    requires from <= start && Ready(names, start, realEnd, gcdZero)
    requires from < start || Shared(names, from, realEnd, gcdZero)
    ensures end == Block(names, start, realEnd, gcdZero)
    ensures subterm == Render(Piece(names, start, realEnd, gcdZero))
    decreases realEnd - from, if from < realEnd <= |names| then |names[from]| - gcdZero else 0, 1
  {
    hide Block, Piece, List, Ready, Shared, Sorted, Render, RenderAll, Gcd;
    ReadyBounds(names, start, realEnd, gcdZero);
    var gcd;
    end, gcd := MeasureBlock(names, start, realEnd, gcdZero);
    PieceText(names, start, realEnd, gcdZero);
    if start + 1 == end {
      subterm := names[start][gcdZero..];
    } else {
      BlockSplits(names, start, realEnd, gcdZero);
      ReadyShares(names, start, end, gcd);
      var prefix := names[start][gcdZero..gcd];
      var inner := ReallyMungeBraces(names, start, end, gcd);
      subterm := prefix + "{" + (inner[..|inner| - 1] + "}");
      TextIsList(names, start, end, gcd);
      assert inner[..|inner| - 1] == RenderAll(List(names, start, end, gcd));
    }
  }

  lemma ReadyShares(names: seq<string>, start: nat, end: nat, gcd: nat)
    requires Ready(names, start, end, gcd)
    ensures start < end <= |names| && Shared(names, start, end, gcd)
  {
  }

  /** The text of the block at start: its only name's, or prefix, brace, inner blocks, brace. */
  lemma PieceText(names: seq<string>, start: nat, end: nat, gcd: nat)
    requires Ready(names, start, end, gcd)
    ensures var e := Block(names, start, end, gcd);
      e == start + 1 ==> Render(Piece(names, start, end, gcd)) == names[start][gcd..]
    ensures var e := Block(names, start, end, gcd);
      e > start + 1 ==>
        var g := Gcd(names[start], names[e - 1]);
        && gcd < g <= |names[start]| && Ready(names, start, e, g) && Block(names, start, e, g) < e
        && Render(Piece(names, start, end, gcd)) == names[start][gcd..g] + "{" + (RenderAll(List(names, start, e, g)) + "}")
  {
    hide Block, List, Ready, Render, RenderAll, Gcd;
    ReadyBounds(names, start, end, gcd);
    var e := Block(names, start, end, gcd);
    if e == start + 1 {
      LiteralIs(names[start][gcd..], Empty);
      RenderEmpty(names[start][gcd..]);
    } else {
      BlockSplits(names, start, end, gcd);
      var g := Gcd(names[start], names[e - 1]);
      LiteralIs(names[start][gcd..g], Group(List(names, start, e, g), Empty));
      GroupAlone(List(names, start, e, g));
    }
  }

  lemma RenderEmpty(s: string)
    ensures s + Render(Empty) == s
  {
  }

  /** The inner loop: the end of the block at start and the prefix its ends share. */
  method MeasureBlock(names: seq<string>, start: nat, realEnd: nat, gcdZero: nat) returns (end: nat, gcd: nat)
    requires start < realEnd <= |names|
    ensures end == Block(names, start, realEnd, gcdZero)
    ensures gcd == if end == start + 1 then |names[start]| else Gcd(names[start], names[end - 1])
  {
    hide Gcd, BlockEnd;
    gcd := |names[start]|;
    end := start + 1;
    while end < realEnd
      invariant start < end <= realEnd
      invariant gcd == if end == start + 1 then |names[start]| else Gcd(names[start], names[end - 1])
      invariant BlockEnd(names, start, end, realEnd, gcdZero) == Block(names, start, realEnd, gcdZero)
    {
      BlockEndStep(names, start, end, realEnd, gcdZero);
      var temp := StringGcd(names[start], names[end]);
      if temp <= gcdZero {
        break;
      }
      gcd := temp;
      end := end + 1;
    }
    BlockEndStep(names, start, end, realEnd, gcdZero);
  }

  lemma BlockEndStep(names: seq<string>, start: nat, i: nat, end: nat, gcd: nat)
    requires start < i <= end <= |names|
    ensures BlockEnd(names, start, i, end, gcd) ==
      if i < end && Gcd(names[start], names[i]) > gcd then BlockEnd(names, start, i + 1, end, gcd) else i
  {
    hide Gcd;
  }

  // ----- printing and reading back -----

  /** Expanding the completion of sorted names gives back exactly those names, in order. */
  lemma CompletionReadsBack(names: seq<string>, start: nat, term: SeqTerm)
    requires start < |names| && Sorted(names, start, |names|) && PlainNames(names)
    ensures Ready(names, start, |names|, 0)
    ensures Expand(Munged(names, start, |names|, 0), term) == names[start..]
  {
    hide Expand, Piece, List;
    var w := Top(names, start, |names|);
    if Block(names, start, |names|, 0) == |names| {
      PieceMeans(names, start, |names|, 0);
    } else {
      ListMeans(names, start, |names|, 0);
      GroupAlone(List(names, start, |names|, 0));
    }
    assert Suffixes(names, start, |names|, 0) == names[start..];
    ExpandRender(w, term);
  }

  /** With a single match there is nothing to group: readline's own entry stands. */
  lemma OneMatchReadsBack(name: string, term: SeqTerm)
    requires PlainName(name)
    ensures Expand(Munged([name], 1, 1, 0), term) == [name]
  {
    hide Expand;
    var w := Literal(name, Empty);
    LiteralIs(name, Empty);
    assert name + "" == name;
    ExpandRender(w, term);
  }
}
