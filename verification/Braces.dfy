/** Brace expansion: the scanner, the expander and the vectors it builds. */
module Braces {
  import opened CStrings
  import opened Options

  predicate Blank(c: char) { c == NUL || c == ' ' || c == '\t' || c == '\n' }

  // ----- brace_gobbler -----

  /** The scanner's variables; quoted is NUL outside quotes. */
  datatype Scan = Scan(i: nat, level: nat, quoted: char, pass: bool, commas: nat)

  predicate Quote(c: char) { c == '"' || c == '\'' || c == '`' }

  /** An open brace between blanks, or `{}' after a blank, does not open anything. */
  predicate Inert(text: string, i: nat)
  {
    (i == 0 || Blank(At(text, i - 1))) && (Blank(At(text, i + 1)) || At(text, i + 1) == '}')
  }

  predicate Stops(text: string, s: Scan, satisfy: char)
  {
    var c := At(text, s.i);
    && !s.pass && s.quoted == NUL && c == satisfy && s.level == 0 && s.commas > 0
    && !Escapes(text, s) && !Quote(c) && !(c == '{' && Inert(text, s.i))
  }

  /** A backslash, or the dollar of ${, makes the scanner pass the next character. */
  predicate Escapes(text: string, s: Scan)
  {
    var c := At(text, s.i);
    || (c == '\\' && s.quoted != '\'')
    || (c == '$' && At(text, s.i + 1) == '{' && s.quoted != '\'')
  }

  /** One turn of the scanner's loop on a character that does not end it. */
  function Step(text: string, s: Scan, satisfy: char): (r: Scan)
    ensures r.i == s.i + 1
  {
    var c, n := At(text, s.i), s.(i := s.i + 1);
    if s.pass then n.(pass := false)
    else if Escapes(text, s) then n.(pass := true, level := if c == '$' && s.quoted == NUL then s.level + 1 else s.level)
    else if s.quoted != NUL then (if c == s.quoted then n.(quoted := NUL) else n)
    else if Quote(c) then n.(quoted := c)
    else if c == satisfy && s.level == 0 && s.commas > 0 then n
    else if c == '{' then n.(level := s.level + 1)
    else if c == '}' && s.level > 0 then n.(level := s.level - 1)
    else if satisfy == '}' && s.level == 0 && (c == ',' || (c == '.' && At(text, s.i + 1) == '.' && At(text, s.i + 2) != '}')) then
      n.(commas := s.commas + 1)
    else n
  }

  /** Where the scanner stops: at the character looked for, or at the end. */
  function Gobble(text: string, s: Scan, satisfy: char): (j: nat)
    requires s.i <= |text|
    ensures s.i <= j <= |text|
    ensures At(text, j) == NUL || At(text, j) == satisfy
    decreases |text| - s.i
  {
    if At(text, s.i) == NUL || Stops(text, s, satisfy) then s.i
    else Gobble(text, Step(text, s, satisfy), satisfy)
  }

  function Begin(i: nat, satisfy: char): Scan { Scan(i, 0, NUL, false, if satisfy == '}' then 0 else 1) }

  function Find(text: string, i: nat, satisfy: char): (j: nat)
    requires i <= |text|
    ensures i <= j <= |text|
    ensures At(text, j) == NUL || At(text, j) == satisfy
  {
    Gobble(text, Begin(i, satisfy), satisfy)
  }

  method BraceGobbler(text: string, indx: nat, satisfy: char) returns (i: nat, c: char)
    requires indx <= |text|
    ensures i == Find(text, indx, satisfy) && c == At(text, i)
  {
    var level, quoted, pass, commas := 0, NUL, false, if satisfy == '}' then 0 else 1;
    i := indx;
    c := At(text, i);
    while c != NUL
      invariant i <= |text| && c == At(text, i)
      invariant Gobble(text, Scan(i, level, quoted, pass, commas), satisfy) == Find(text, indx, satisfy)
      decreases |text| - i
    {
      if pass {
        pass := false;
      } else if c == '\\' && (quoted == NUL || quoted != '\'') {
        pass := true;
      } else if c == '$' && At(text, i + 1) == '{' && quoted != '\'' {
        pass := true;
        if quoted == NUL {
          level := level + 1;
        }
      } else if quoted != NUL {
        if c == quoted {
          quoted := NUL;
        }
      } else if Quote(c) {
        quoted := c;
      } else if c == satisfy && level == 0 && commas > 0 {
        if !(c == '{' && Inert(text, i)) {
          break;
        }
      } else if c == '{' {
        level := level + 1;
      } else if c == '}' && level > 0 {
        level := level - 1;
      } else if satisfy == '}' && c == ',' && level == 0 {
        commas := commas + 1;
      } else if satisfy == '}' && c == '.' && At(text, i + 1) == '.' && At(text, i + 2) != satisfy && level == 0 {
        commas := commas + 1;
      }
      i := i + 1;
      c := At(text, i);
    }
  }

  // ----- string vectors -----

  function PrefixAll(x: string, ys: seq<string>): seq<string>
  {
    seq(|ys|, i requires 0 <= i < |ys| => x + ys[i])
  }

  /** Every string of xs followed by every string of ys, in order. */
  function Product(xs: seq<string>, ys: seq<string>): seq<string>
  {
    if xs == [] then [] else PrefixAll(xs[0], ys) + Product(xs[1..], ys)
  }

  lemma {:induction false} ProductUnitRight(xs: seq<string>)
    ensures Product(xs, [""]) == xs
  {
    if xs != [] {
      ProductUnitRight(xs[1..]);
      assert xs[0] + "" == xs[0];
      assert PrefixAll(xs[0], [""]) == [xs[0]];
    }
  }

  lemma ProductUnitLeft(x: string, ys: seq<string>)
    ensures Product([x], ys) == PrefixAll(x, ys)
    ensures PrefixAll("", ys) == ys
  {
    assert [x][1..] == [];
    assert forall i :: 0 <= i < |ys| ==> "" + ys[i] == ys[i];
  }

  lemma PrefixTwice(x: string, y: string, zs: seq<string>)
    ensures PrefixAll(x, PrefixAll(y, zs)) == PrefixAll(x + y, zs)
  {
    assert forall i :: 0 <= i < |zs| ==> x + (y + zs[i]) == (x + y) + zs[i];
  }

  lemma {:induction false} ProductPrefix(p: string, xs: seq<string>, ys: seq<string>)
    ensures Product(PrefixAll(p, xs), ys) == PrefixAll(p, Product(xs, ys))
  {
    if xs == [] {
      assert PrefixAll(p, xs) == [];
    } else {
      ProductPrefix(p, xs[1..], ys);
      PrefixTwice(p, xs[0], ys);
      assert PrefixAll(p, xs)[1..] == PrefixAll(p, xs[1..]);
      assert PrefixAll(p, Product(xs, ys)) == PrefixAll(p, PrefixAll(xs[0], ys)) + PrefixAll(p, Product(xs[1..], ys));
    }
  }

  /** array_concat, short cuts and all, is the product of the two vectors. */
  method ArrayConcat(arr1: seq<string>, arr2: seq<string>) returns (result: seq<string>)
    ensures result == Product(arr1, arr2)
  {
    hide Product, PrefixAll;
    if arr1 == [""] {
      ProductUnitLeft("", arr2);
      return arr2;
    }
    if arr2 == [""] {
      ProductUnitRight(arr1);
      return arr1;
    }
    result := [];
    var i := 0;
    assert arr1[0..] == arr1;
    while i < |arr1|
      invariant i <= |arr1| && result + Product(arr1[i..], arr2) == Product(arr1, arr2)
    {
      ProductStep(arr1, arr2, i);
      var j := 0;
      ghost var before := result;
      while j < |arr2|
        invariant j <= |arr2| && result == before + PrefixAll(arr1[i], arr2)[..j]
      {
        result := result + [arr1[i] + arr2[j]];
        j := j + 1;
      }
      assert PrefixAll(arr1[i], arr2)[..j] == PrefixAll(arr1[i], arr2);
      i := i + 1;
    }
    ProductEnds(arr2);
    assert arr1[i..] == [];
  }

  lemma ProductStep(xs: seq<string>, ys: seq<string>, i: nat)
    requires i < |xs|
    ensures Product(xs[i..], ys) == PrefixAll(xs[i], ys) + Product(xs[i + 1..], ys)
    ensures |PrefixAll(xs[i], ys)| == |ys| && forall j :: 0 <= j < |ys| ==> PrefixAll(xs[i], ys)[j] == xs[i] + ys[j]
  {
    assert xs[i..][1..] == xs[i + 1..];
  }

  lemma ProductEnds(ys: seq<string>)
    ensures Product([], ys) == []
  {
  }

  // ----- brace_expand -----

  /** What expand_seqterm gives for the text between braces; None when it is no sequence. */
  type SeqTerm = string -> Option<seq<string>>

  /** The first open brace that has a matching close brace; |text| or a NUL when none. */
  function FindOpen(text: string, i: nat): (j: nat)
    requires i <= |text|
    ensures i <= j <= |text|
    ensures At(text, j) == NUL || (At(text, j) == '{' && At(text, Find(text, j + 1, '}')) == '}')
    decreases |text| - i
  {
    var j := Find(text, i, '{');
    if At(text, j) == NUL || At(text, Find(text, j + 1, '}')) != NUL then j else FindOpen(text, j + 1)
  }

  /** An argument separator that is not backslash-escaped, at j or after. */
  predicate HasComma(amble: string, j: nat)
    decreases |amble| - j
  {
    if At(amble, j) == NUL then false
    else if amble[j] == '\\' then HasComma(amble, j + 2)
    else amble[j] == ',' || HasComma(amble, j + 1)
  }

  function Expand(text: string, term: SeqTerm): (r: seq<string>)
    decreases |text|, 0, 0
  {
    var i := FindOpen(text, 0);
    if At(text, i) == NUL then [text[..i]]
    else
      var k := Find(text, i + 1, '}');
      var amble, post := text[i + 1..k], text[k + 1..];
      if HasComma(amble, 0) then Attach(text[..i], ExpandAmble(amble, 0, term), post, term)
      else if term(amble).Some? then Attach(text[..i], term(amble).value, post, term)
      else if At(post, 0) != NUL then Attach(text[..i], [text[i..k + 1]], post, term)
      else [text]
  }

  /** Preamble, expanded middle and expanded postamble put together. */
  function Attach(pre: string, tack: seq<string>, post: string, term: SeqTerm): seq<string>
    decreases |post|, 0, 1
  {
    if At(post, 0) == NUL then Product([pre], tack)
    else Product(Product([pre], tack), Expand(post, term))
  }

  /** The expansions of the pieces from start on. */
  function ExpandAmble(text: string, start: nat, term: SeqTerm): seq<string>
    requires start <= |text|
    decreases |text|, 1, |text| - start
  {
    var i := Find(text, start, ',');
    Expand(text[start..i], term) + if At(text, i) == NUL then [] else ExpandAmble(text, i + 1, term)
  }

  lemma AmbleMore(text: string, start: nat, k: nat, term: SeqTerm)
    requires start <= k < |text| && text[k] == ',' && Find(text, start, ',') == k
    ensures ExpandAmble(text, start, term) == Expand(text[start..k], term) + ExpandAmble(text, k + 1, term)
  {
    hide Expand;
  }

  lemma AmbleLast(text: string, start: nat, term: SeqTerm)
    requires start <= |text| && Find(text, start, ',') == |text|
    ensures ExpandAmble(text, start, term) == Expand(text[start..|text|], term)
  {
    hide Expand;
  }

  lemma AmbleStep(text: string, start: nat, term: SeqTerm)
    requires start <= |text|
    ensures var i := Find(text, start, ',');
      start <= i <= |text| && ExpandAmble(text, start, term)
      == Expand(text[start..i], term) + if At(text, i) == NUL then [] else ExpandAmble(text, i + 1, term)
  {
    hide Expand;
  }

  /** What remains of the search for an open brace once the scanner has stopped at i. */
  function OpenFrom(text: string, i: nat, c: char): nat
    requires i <= |text| && c == At(text, i) && (c == NUL || c == '{')
  {
    if c == NUL || At(text, Find(text, i + 1, '}')) != NUL then i else FindOpen(text, i + 1)
  }

  /** The do-while loop of brace_expand. */
  method FindOpening(text: string) returns (i: nat, c: char)
    ensures i == FindOpen(text, 0) && c == At(text, i)
  {
    i, c := BraceGobbler(text, 0, '{');
    while c != NUL
      invariant i <= |text| && c == At(text, i) && (c == NUL || c == '{')
      invariant OpenFrom(text, i, c) == FindOpen(text, 0)
      decreases |text| - i, if c == NUL then 0 else 1
    {
      var j, c1 := BraceGobbler(text, i + 1, '}');
      if c1 != NUL {
        break;
      }
      i, c := BraceGobbler(text, i + 1, '{');
    }
  }

  method BraceExpand(text: string, term: SeqTerm) returns (result: seq<string>)
    ensures result == Expand(text, term)
    decreases |text|, 0, 0
  {
    hide FindOpen, Find, HasComma, ExpandAmble, Product;
    var i, c := FindOpening(text);
    if c == NUL {
      return [text[..i]];
    }
    var j, _ := BraceGobbler(text, i + 1, '}');
    var amble, postamble := text[i + 1..j], text[j + 1..];
    var tack;
    var comma := AmbleHasComma(amble);
    if comma {
      tack := AmbleExpand(amble, term);
    } else if term(amble).Some? {
      tack := term(amble).value;
    } else if At(postamble, 0) != NUL {
      tack := [text[i..j + 1]];
    } else {
      return [text];
    }
    result := AddTack(text[..i], tack, postamble, term);
  }

  /** The end of brace_expand: tack the middle on, then the expanded postamble. */
  method AddTack(preamble: string, tack: seq<string>, postamble: string, term: SeqTerm) returns (result: seq<string>)
    ensures result == Attach(preamble, tack, postamble, term)
    decreases |postamble|, 0, 1
  {
    result := ArrayConcat([preamble], tack);
    if At(postamble, 0) != NUL {
      var more := BraceExpand(postamble, term);
      result := ArrayConcat(result, more);
    }
  }

  method AmbleHasComma(amble: string) returns (b: bool)
    ensures b == HasComma(amble, 0)
  {
    var j := 0;
    while At(amble, j) != NUL
      invariant HasComma(amble, j) == HasComma(amble, 0)
      decreases |amble| - j
    {
      if amble[j] == '\\' {
        j := j + 2;
        continue;
      }
      if amble[j] == ',' {
        break;
      }
      j := j + 1;
    }
    return At(amble, j) != NUL;
  }

  /** expand_amble: split at the separators, expand each piece, collect. */
  method AmbleExpand(text: string, term: SeqTerm) returns (result: seq<string>)
    ensures result == ExpandAmble(text, 0, term)
    decreases |text|, 1, 0
  {
    hide Find, Expand, ExpandAmble;
    result := [];
    var start, i, c := 0, 0, ',';
    while c != NUL
      invariant start == i && (c != NUL ==> i <= |text|)
      invariant result + (if c == NUL then [] else ExpandAmble(text, start, term)) == ExpandAmble(text, 0, term)
      decreases if c == NUL then 0 else 1 + |text| - i
    {
      AmbleStep(text, start, term);
      i, c := BraceGobbler(text, i, ',');
      var partial := BraceExpand(text[start..i], term);
      result := result + partial;
      i := i + 1;
      start := i;
    }
  }
}
