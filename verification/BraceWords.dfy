/** Brace words, their text and their meaning: expanding the text gives the meaning. */
module BraceWords {
  import opened CStrings
  import opened Braces

  /** Characters no part of the scanner treats specially. */
  predicate Plain(c: char)
  {
    && !Blank(c) && !Quote(c)
    && c != '{' && c != '}' && c != ',' && c != '\\' && c != '$' && c != '<' && c != '>'
  }

  /** A brace word: characters and groups of two or more branches, in any order. */
  datatype Word = Empty | Char(c: char, rest: Word) | Group(alts: Branches, rest: Word)
  datatype Branches = Two(v: Word, w: Word) | More(w: Word, tail: Branches)

  predicate PlainWord(w: Word)
  {
    match w
    case Empty => true
    case Char(c, rest) => Plain(c) && PlainWord(rest)
    case Group(alts, rest) => PlainBranches(alts) && PlainWord(rest)
  }

  predicate PlainBranches(b: Branches)
  {
    match b
    case Two(v, w) => PlainWord(v) && PlainWord(w)
    case More(w, tail) => PlainWord(w) && PlainBranches(tail)
  }

  function Render(w: Word): string
  {
    match w
    case Empty => ""
    case Char(c, rest) => [c] + Render(rest)
    case Group(alts, rest) => "{" + (RenderAll(alts) + ("}" + Render(rest)))
  }

  /** What stands between the braces. */
  function RenderAll(b: Branches): string
  {
    match b
    case Two(v, w) => Render(v) + ("," + Render(w))
    case More(w, tail) => Render(w) + ("," + RenderAll(tail))
  }

  /** The strings a word stands for, in order: a choice from every group. */
  function Meaning(w: Word): seq<string>
  {
    match w
    case Empty => [""]
    case Char(c, rest) => PrefixAll([c], Meaning(rest))
    case Group(alts, rest) => Product(MeaningAll(alts), Meaning(rest))
  }

  function MeaningAll(b: Branches): seq<string>
  {
    match b
    case Two(v, w) => Meaning(v) + Meaning(w)
    case More(w, tail) => Meaning(w) + MeaningAll(tail)
  }

  // ----- a string standing inside a text -----

  predicate Stands(text: string, i: nat, s: string)
  {
    i + |s| <= |text| && text[i..i + |s|] == s
  }

  lemma StandsAt(text: string, i: nat, s: string, j: nat)
    requires Stands(text, i, s) && j < |s|
    ensures text[i + j] == s[j]
  {
    assert text[i..i + |s|][j] == s[j];
  }

  lemma StandsSplit(text: string, i: nat, a: string, b: string)
    requires Stands(text, i, a + b)
    ensures Stands(text, i, a) && Stands(text, i + |a|, b)
  {
    var t := text[i..i + |a + b|];
    assert t[..|a|] == text[i..i + |a|];
    assert t[|a|..] == text[i + |a|..i + |a| + |b|];
    assert (a + b)[..|a|] == a && (a + b)[|a|..] == b;
  }

  // ----- the scanner on rendered words -----

  /** A scan outside quotes. */
  predicate Calm(s: Scan) { s.quoted == NUL && !s.pass }

  lemma StepPlain(text: string, s: Scan, satisfy: char)
    requires Calm(s) && s.i < |text| && Plain(text[s.i]) && satisfy in {'{', '}', ','}
    ensures !Stops(text, s, satisfy)
    ensures var t := Step(text, s, satisfy);
      Calm(t) && t == s.(i := s.i + 1, commas := t.commas) && t.commas >= s.commas
  {
  }

  lemma StepOpen(text: string, s: Scan, satisfy: char)
    requires Calm(s) && s.i < |text| && text[s.i] == '{' && (satisfy == '{' ==> s.level > 0)
    ensures !Stops(text, s, satisfy) && Step(text, s, satisfy) == s.(i := s.i + 1, level := s.level + 1)
  {
  }

  lemma StepClose(text: string, s: Scan, satisfy: char)
    requires Calm(s) && s.i < |text| && text[s.i] == '}' && s.level > 0
    ensures !Stops(text, s, satisfy) && Step(text, s, satisfy) == s.(i := s.i + 1, level := s.level - 1)
  {
  }

  /** A separator inside a group, or at the top of one when its close is looked for. */
  lemma StepComma(text: string, s: Scan, satisfy: char)
    requires Calm(s) && s.i < |text| && text[s.i] == ',' && (s.level > 0 || satisfy == '}')
    ensures !Stops(text, s, satisfy)
    ensures Step(text, s, satisfy) == s.(i := s.i + 1, commas := if s.level == 0 then s.commas + 1 else s.commas)
  {
  }

  /** Scanning past a word changes nothing but the position and, at most, adds commas. */
  lemma {:induction false} PassWord(text: string, s: Scan, w: Word, satisfy: char) returns (t: Scan)
    requires Calm(s) && PlainWord(w) && Stands(text, s.i, Render(w))
    requires satisfy in {'{', '}', ','} && (satisfy == '{' ==> s.level > 0)
    ensures t == s.(i := s.i + |Render(w)|, commas := t.commas) && t.commas >= s.commas
    ensures t.i <= |text| && Gobble(text, s, satisfy) == Gobble(text, t, satisfy)
    decreases w
  {
    hide Step, Stops, Stands;
    StandsBound(text, s.i, Render(w));
    match w
    case Empty =>
      t := s;
    case Char(c, rest) =>
      StandsSplit(text, s.i, [c], Render(rest));
      CharAt(text, s.i, c);
      StepPlain(text, s, satisfy);
      var s1 := Step(text, s, satisfy);
      t := PassWord(text, s1, rest, satisfy);
    case Group(alts, rest) =>
      t := PassGroup(text, s, alts, rest, satisfy);
  }

  lemma StandsBound(text: string, i: nat, s: string)
    requires Stands(text, i, s)
    ensures i + |s| <= |text|
  {
  }

  lemma CharAt(text: string, i: nat, c: char)
    requires Stands(text, i, [c])
    ensures i < |text| && text[i] == c
  {
    StandsAt(text, i, [c], 0);
  }

  lemma {:induction false} PassGroup(text: string, s: Scan, alts: Branches, rest: Word, satisfy: char) returns (t: Scan)
    requires Calm(s) && PlainWord(Group(alts, rest)) && Stands(text, s.i, Render(Group(alts, rest)))
    requires satisfy in {'{', '}', ','} && (satisfy == '{' ==> s.level > 0)
    ensures t == s.(i := s.i + |Render(Group(alts, rest))|, commas := t.commas) && t.commas >= s.commas
    ensures t.i <= |text| && Gobble(text, s, satisfy) == Gobble(text, t, satisfy)
    decreases Group(alts, rest), 0
  {
    hide Step, Stops, Stands, RenderAll;
    GroupStands(text, s.i, alts, rest);
    StepOpen(text, s, satisfy);
    var s1 := Step(text, s, satisfy);
    assert Gobble(text, s, satisfy) == Gobble(text, s1, satisfy);
    var s2 := PassBranches(text, s1, alts, satisfy);
    StepClose(text, s2, satisfy);
    var s3 := Step(text, s2, satisfy);
    assert Gobble(text, s2, satisfy) == Gobble(text, s3, satisfy);
    t := PassWord(text, s3, rest, satisfy);
  }

  /** Where the parts of a rendered group stand. */
  lemma GroupStands(text: string, i: nat, alts: Branches, rest: Word)
    requires Stands(text, i, Render(Group(alts, rest)))
    ensures var k := i + 1 + |RenderAll(alts)|;
      && i < |text| && text[i] == '{' && Stands(text, i + 1, RenderAll(alts))
      && k < |text| && text[k] == '}' && Stands(text, k + 1, Render(rest))
      && i + |Render(Group(alts, rest))| == k + 1 + |Render(rest)|
  {
    hide Stands, RenderAll;
    var inner, tail := RenderAll(alts), "}" + Render(rest);
    StandsSplit(text, i, "{", inner + tail);
    CharAt(text, i, '{');
    StandsSplit(text, i + 1, inner, tail);
    StandsSplit(text, i + 1 + |inner|, "}", Render(rest));
    CharAt(text, i + 1 + |inner|, '}');
  }

  /** Where the first branch, its comma and the others stand. */
  lemma BranchStands(text: string, i: nat, w: Word, tail: string)
    requires Stands(text, i, Render(w) + ("," + tail))
    ensures var k := i + |Render(w)|;
      Stands(text, i, Render(w)) && k < |text| && text[k] == ',' && Stands(text, k + 1, tail)
  {
    hide Stands, Render;
    StandsSplit(text, i, Render(w), "," + tail);
    StandsSplit(text, i + |Render(w)|, ",", tail);
    CharAt(text, i + |Render(w)|, ',');
  }

  /** The same for the branches of a group, where a comma is passed too. */
  lemma {:induction false} PassBranches(text: string, s: Scan, b: Branches, satisfy: char) returns (t: Scan)
    requires Calm(s) && PlainBranches(b) && Stands(text, s.i, RenderAll(b))
    requires satisfy in {'{', '}', ','} && (s.level > 0 || satisfy == '}')
    ensures t == s.(i := s.i + |RenderAll(b)|, commas := t.commas)
    ensures t.commas >= s.commas && (s.level == 0 ==> t.commas > s.commas)
    ensures t.i <= |text| && Gobble(text, s, satisfy) == Gobble(text, t, satisfy)
    decreases b, 1
  {
    hide Step, Stops, Stands, Render, RenderAll, PlainWord, PlainBranches;
    BranchesMeaning(b);
    var w := if b.Two? then b.v else b.w;
    BranchStands(text, s.i, w, if b.Two? then Render(b.w) else RenderAll(b.tail));
    var s1 := PassWord(text, s, w, satisfy);
    StepComma(text, s1, satisfy);
    var s2 := Step(text, s1, satisfy);
    assert Gobble(text, s1, satisfy) == Gobble(text, s2, satisfy);
    match b
    case Two(_, w2) => t := PassWord(text, s2, w2, satisfy);
    case More(_, tail) => t := PassBranches(text, s2, tail, satisfy);
  }

  // ----- the three uses of the scanner -----

  /** The close of a group is found where it stands. */
  lemma FindClose(text: string, i: nat, b: Branches)
    requires PlainBranches(b) && Stands(text, i, RenderAll(b)) && At(text, i + |RenderAll(b)|) == '}'
    ensures i <= |text| && Find(text, i, '}') == i + |RenderAll(b)|
  {
    hide Stands, RenderAll;
    StandsBound(text, i, RenderAll(b));
    var t := PassBranches(text, Begin(i, '}'), b, '}');
  }

  /** A branch ends at its separator, or at the end of the text. */
  lemma FindSeparator(text: string, i: nat, w: Word)
    requires PlainWord(w) && Stands(text, i, Render(w))
    requires At(text, i + |Render(w)|) == ',' || i + |Render(w)| == |text|
    ensures i <= |text| && Find(text, i, ',') == i + |Render(w)|
  {
    hide Stands, Render;
    StandsBound(text, i, Render(w));
    var t := PassWord(text, Begin(i, ','), w, ',');
  }

  /** The leading characters of a word. */
  function Lead(w: Word): string { if w.Char? then [w.c] + Lead(w.rest) else "" }

  /** The word from its first group on. */
  function Tail(w: Word): (t: Word)
    ensures !t.Char?
  {
    if w.Char? then Tail(w.rest) else w
  }

  lemma {:induction false} LeadTail(w: Word)
    ensures Render(w) == Lead(w) + Render(Tail(w)) && Meaning(w) == PrefixAll(Lead(w), Meaning(Tail(w)))
    ensures PlainWord(w) ==> PlainWord(Tail(w)) && forall i :: 0 <= i < |Lead(w)| ==> Plain(Lead(w)[i])
  {
    if w.Char? {
      LeadTail(w.rest);
      PrefixTwice([w.c], Lead(w.rest), Meaning(Tail(w)));
    } else {
      ProductUnitLeft("", Meaning(w));
      assert "" + Render(w) == Render(w);
    }
  }

  /** Scanning for an open brace passes plain characters. */
  lemma {:induction false} PassLead(text: string, i: nat, n: nat, commas: nat)
    requires i + n <= |text| && forall j :: i <= j < i + n ==> Plain(text[j])
    ensures Gobble(text, Scan(i, 0, NUL, false, commas), '{') == Gobble(text, Scan(i + n, 0, NUL, false, commas), '{')
    decreases n
  {
    if n > 0 {
      var s := Scan(i, 0, NUL, false, commas);
      StepPlain(text, s, '{');
      assert Step(text, s, '{') == s.(i := i + 1);
      PassLead(text, i + 1, n - 1, commas);
    }
  }

  lemma RenderAllStart(b: Branches)
    requires PlainBranches(b)
    ensures |RenderAll(b)| > 0 && (Plain(RenderAll(b)[0]) || RenderAll(b)[0] == '{' || RenderAll(b)[0] == ',')
  {
    var w := if b.Two? then b.v else b.w;
    var tail := if b.Two? then Render(b.w) else RenderAll(b.tail);
    assert RenderAll(b) == Render(w) + ("," + tail);
  }

  /** A word without groups expands to itself. */
  lemma ExpandLead(w: Word, term: SeqTerm)
    requires PlainWord(w) && Tail(w).Empty?
    ensures Expand(Render(w), term) == Meaning(w)
  {
    LeadTail(w);
    var text := Render(w);
    assert text == Lead(w) + "" == Lead(w);
    PassLead(text, 0, |text|, 1);
    assert FindOpen(text, 0) == |text|;
    assert text[..|text|] == text;
    assert PrefixAll(text, [""]) == [text + ""] == [text];
  }

  /** An open brace before a branch that is not blank stops the scanner. */
  lemma OpenFound(text: string, i: nat, b: Branches)
    requires i < |text| && text[i] == '{' && PlainBranches(b) && Stands(text, i + 1, RenderAll(b))
    requires forall j :: 0 <= j < i ==> Plain(text[j])
    ensures Find(text, 0, '{') == i
  {
    RenderAllStart(b);
    StandsAt(text, i + 1, RenderAll(b), 0);
    hide RenderAll, PlainBranches, Stands, Plain;
    assert !Inert(text, i);
    PassLead(text, 0, i, 1);
  }

  /** The end of the first group, in the text of a word. */
  function GroupEnd(w: Word): nat
    requires Tail(w).Group?
  {
    |Lead(w)| + 1 + |RenderAll(Tail(w).alts)|
  }

  /** The first group of a word is where the expander looks. */
  lemma FindGroup(w: Word)
    requires PlainWord(w) && Tail(w).Group?
    ensures var text, i, k := Render(w), |Lead(w)|, GroupEnd(w);
      k < |text| && FindOpen(text, 0) == i && At(text, i) == '{' && Find(text, i + 1, '}') == k
  {
    hide Render, RenderAll, PlainWord, PlainBranches, Find, Lead, Tail, Stands, Plain;
    GroupPlain(w);
    FindGroupParts(w);
    var text, i, alts := Render(w), |Lead(w)|, Tail(w).alts;
    FindClose(text, i + 1, alts);
    OpenFound(text, i, alts);
  }

  lemma FindGroupParts(w: Word)
    requires PlainWord(w) && Tail(w).Group?
    ensures var text, i, k, alts, rest := Render(w), |Lead(w)|, GroupEnd(w), Tail(w).alts, Tail(w).rest;
      && k < |text| && text[i] == '{' && text[k] == '}' && (forall j :: 0 <= j < i ==> Plain(text[j]))
      && Stands(text, i + 1, RenderAll(alts)) && Stands(text, k + 1, Render(rest)) && k + 1 + |Render(rest)| == |text|
  {
    hide Render, RenderAll, PlainWord, Lead, Tail, Stands, Plain;
    TailStands(w);
    GroupPlain(w);
    LeadPlain(w);
    GroupStands(Render(w), |Lead(w)|, Tail(w).alts, Tail(w).rest);
  }

  lemma LeadPlain(w: Word)
    requires PlainWord(w)
    ensures |Lead(w)| <= |Render(w)| && forall j :: 0 <= j < |Lead(w)| ==> Plain(Render(w)[j])
  {
    LeadTail(w);
  }

  lemma GroupSlices(w: Word)
    requires PlainWord(w) && Tail(w).Group?
    ensures var text, i, k := Render(w), |Lead(w)|, GroupEnd(w);
      && k < |text| && text[..i] == Lead(w) && text[i + 1..k] == RenderAll(Tail(w).alts)
      && text[k + 1..] == Render(Tail(w).rest)
  {
    hide Render, RenderAll, PlainWord, Lead, Tail, Plain;
    FindGroupParts(w);
    TailStands(w);
    StandsLast(Render(w), GroupEnd(w) + 1, Render(Tail(w).rest));
  }

  lemma GroupPlain(w: Word)
    requires PlainWord(w) && Tail(w).Group?
    ensures PlainBranches(Tail(w).alts) && Tail(w) == Group(Tail(w).alts, Tail(w).rest)
  {
    LeadTail(w);
  }

  lemma StandsLast(text: string, i: nat, s: string)
    requires Stands(text, i, s) && i + |s| == |text|
    ensures text[i..] == s
  {
  }

  lemma TailStands(w: Word)
    ensures Stands(Render(w), |Lead(w)|, Render(Tail(w))) && Render(w)[..|Lead(w)|] == Lead(w)
    ensures |Render(w)| == |Lead(w)| + |Render(Tail(w))|
  {
    LeadTail(w);
    var text := Render(w);
    assert text[|Lead(w)|..|text|] == Render(Tail(w));
  }

  // ----- the separator test -----

  predicate NoBackslash(s: string) { forall i :: 0 <= i < |s| ==> s[i] != '\\' && s[i] != NUL }

  lemma {:induction false} CommaFound(s: string, j: nat, k: nat)
    requires NoBackslash(s) && j <= k < |s| && s[k] == ','
    ensures HasComma(s, j)
    decreases k - j
  {
    if j < k {
      CommaFound(s, j + 1, k);
    }
  }

  lemma {:induction false} WordNoBackslash(w: Word)
    requires PlainWord(w)
    ensures NoBackslash(Render(w))
    decreases w
  {
    match w
    case Empty =>
    case Char(_, rest) => WordNoBackslash(rest);
    case Group(alts, rest) => BranchesNoBackslash(alts); WordNoBackslash(rest);
  }

  lemma {:induction false} BranchesNoBackslash(b: Branches)
    requires PlainBranches(b)
    ensures NoBackslash(RenderAll(b))
    decreases b
  {
    match b
    case Two(v, w) => WordNoBackslash(v); WordNoBackslash(w);
    case More(w, tail) => WordNoBackslash(w); BranchesNoBackslash(tail);
  }

  lemma GroupHasComma(b: Branches)
    requires PlainBranches(b)
    ensures HasComma(RenderAll(b), 0)
  {
    BranchesNoBackslash(b);
    var w := if b.Two? then b.v else b.w;
    var tail := if b.Two? then Render(b.w) else RenderAll(b.tail);
    assert RenderAll(b) == Render(w) + ("," + tail);
    CommaFound(RenderAll(b), 0, |Render(w)|);
  }

  // ----- the theorem -----

  /** Brace expansion of the text of any plain word is the word's meaning, whatever the
      shell makes of sequence terms. */
  lemma {:induction false} ExpandRender(w: Word, term: SeqTerm)
    requires PlainWord(w)
    ensures Expand(Render(w), term) == Meaning(w)
    decreases w, 1
  {
    hide PlainWord, Render, RenderAll, Meaning, MeaningAll, HasComma, FindOpen, Find, Product, Expand;
    var t := Tail(w);
    LeadTail(w);
    if t.Empty? {
      ExpandLead(w, term);
    } else {
      TailSmaller(w);
      FindGroup(w);
      GroupParts(t);
      GroupHasComma(t.alts);
      ExpandBranches(RenderAll(t.alts), 0, t.alts, term);
      ExpandRender(t.rest, term);
      ExpandAt(w, term);
      NoNulText(t.rest);
      AttachMeans(Lead(w), t, term);
    }
  }

  lemma {:induction false} TailSmaller(w: Word)
    ensures Tail(w) == w || Tail(w) < w
  {
    if w.Char? {
      TailSmaller(w.rest);
    }
  }

  lemma GroupParts(t: Word)
    requires t.Group? && PlainWord(t)
    ensures PlainBranches(t.alts) && PlainWord(t.rest)
    ensures Meaning(t) == Product(MeaningAll(t.alts), Meaning(t.rest))
    ensures Stands(RenderAll(t.alts), 0, RenderAll(t.alts))
  {
  }

  lemma ExpandAt(w: Word, term: SeqTerm)
    requires PlainWord(w) && Tail(w).Group? && HasComma(RenderAll(Tail(w).alts), 0)
    ensures Expand(Render(w), term)
         == Attach(Lead(w), ExpandAmble(RenderAll(Tail(w).alts), 0, term), Render(Tail(w).rest), term)
  {
    hide PlainWord, Render, RenderAll, HasComma, FindOpen, Find, Product, ExpandAmble, Attach;
    FindGroup(w);
    GroupSlices(w);
  }

  lemma AttachMeans(lead: string, t: Word, term: SeqTerm)
    requires t.Group? && Expand(Render(t.rest), term) == Meaning(t.rest) && NoNul(t.rest)
    ensures Attach(lead, MeaningAll(t.alts), Render(t.rest), term) == PrefixAll(lead, Product(MeaningAll(t.alts), Meaning(t.rest)))
  {
    var xs, ys := MeaningAll(t.alts), Meaning(t.rest);
    ProductUnitLeft(lead, xs);
    ProductPrefix(lead, xs, ys);
    if t.rest == Empty {
      ProductUnitRight(xs);
    }
  }

  predicate NoNul(w: Word) { w != Empty ==> At(Render(w), 0) != NUL }

  lemma NoNulText(w: Word)
    requires PlainWord(w)
    ensures NoNul(w)
  {
  }

  /** Splitting at separators and expanding each piece gives the branches' meanings in order. */
  lemma {:induction false} ExpandBranches(text: string, i: nat, b: Branches, term: SeqTerm)
    requires PlainBranches(b) && Stands(text, i, RenderAll(b)) && i + |RenderAll(b)| == |text|
    ensures ExpandAmble(text, i, term) == MeaningAll(b)
    decreases b, 2
  {
    hide *;
    BranchesMeaning(b);
    FirstBranch(text, i, b);
    var w := if b.Two? then b.v else b.w;
    var k := i + |Render(w)|;
    AmbleMore(text, i, k, term);
    ExpandRender(w, term);
    if b.Two? {
      AmbleLast(text, k + 1, term);
      ExpandRender(b.w, term);
    } else {
      ExpandBranches(text, k + 1, b.tail, term);
    }
  }

  lemma BranchesMeaning(b: Branches)
    requires PlainBranches(b)
    ensures b.Two? ==> MeaningAll(b) == Meaning(b.v) + Meaning(b.w) && PlainWord(b.v) && PlainWord(b.w)
    ensures b.Two? ==> RenderAll(b) == Render(b.v) + ("," + Render(b.w))
    ensures b.More? ==> MeaningAll(b) == Meaning(b.w) + MeaningAll(b.tail) && PlainWord(b.w) && PlainBranches(b.tail)
    ensures b.More? ==> RenderAll(b) == Render(b.w) + ("," + RenderAll(b.tail))
  {
    hide Meaning, PlainWord, Render;
  }

  lemma StandsText(text: string, i: nat, s: string)
    requires Stands(text, i, s)
    ensures i + |s| <= |text| && text[i..i + |s|] == s
  {
  }

  /** The first branch, its comma and the others stand one behind the other. */
  lemma BranchesStand(text: string, i: nat, b: Branches)
    requires PlainBranches(b) && Stands(text, i, RenderAll(b)) && i + |RenderAll(b)| == |text|
    ensures var w := if b.Two? then b.v else b.w;
      var tail := if b.Two? then Render(b.w) else RenderAll(b.tail);
      var k := i + |Render(w)|;
      && PlainWord(w) && Stands(text, i, Render(w)) && k < |text| && text[k] == ',' && Stands(text, k + 1, tail)
      && k + 1 + |tail| == |text|
  {
    hide PlainWord, PlainBranches, Render, RenderAll, Stands;
    BranchesMeaning(b);
    BranchStands(text, i, if b.Two? then b.v else b.w, if b.Two? then Render(b.w) else RenderAll(b.tail));
  }

  /** Where the first branch ends, and what stands behind its comma. */
  lemma FirstBranch(text: string, i: nat, b: Branches)
    requires PlainBranches(b) && Stands(text, i, RenderAll(b)) && i + |RenderAll(b)| == |text|
    ensures var w := if b.Two? then b.v else b.w;
      var k := i + |Render(w)|;
      && k < |text| && text[k] == ',' && text[i..k] == Render(w) && Find(text, i, ',') == k
      && (b.Two? ==> text[k + 1..|text|] == Render(b.w) && Find(text, k + 1, ',') == |text|)
      && (b.More? ==> Stands(text, k + 1, RenderAll(b.tail)) && k + 1 + |RenderAll(b.tail)| == |text|)
  {
    hide PlainWord, PlainBranches, Render, RenderAll, Find, Stands, MeaningAll;
    BranchesStand(text, i, b);
    var w := if b.Two? then b.v else b.w;
    var k := i + |Render(w)|;
    StandsText(text, i, Render(w));
    FindSeparator(text, i, w);
    if b.Two? {
      BranchesMeaning(b);
      StandsText(text, k + 1, Render(b.w));
      FindSeparator(text, k + 1, b.w);
    }
  }
}
