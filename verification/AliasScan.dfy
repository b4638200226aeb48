/** Alias expansion of a line: the scanners and the loop over words. */
module AliasScan {
  import opened CStrings
  import opened Options

  predicate White(c: char) { c == ' ' || c == '\t' }

  predicate QuoteChar(c: char) { c == '\'' || c == '"' }

  predicate CommandSeparator(c: char) { c in {'\r', '\n', ';', '|', '&', '('} }

  predicate TokenChar(c: char) { !White(c) && c !in {'\n', '\r', ';', '|', '&', '(', ')'} }

  predicate Letter(c: char) { 'a' <= c <= 'z' || 'A' <= c <= 'Z' }

  /** Lines are C strings: no NUL inside. */
  predicate Line(s: string) { forall i :: 0 <= i < |s| ==> s[i] != NUL }

  // ----- quoting, character by character -----

  /** How the next character stands: unquoted, behind a backslash, in quotes, or both. */
  datatype Mode = Bare | Escaped | In(q: char) | EscapedIn(q: char)

  function Next(mode: Mode, c: char): Mode
  {
    match mode
    case Bare => if c == '\\' then Escaped else if QuoteChar(c) then In(c) else Bare
    case Escaped => Bare
    case In(q) => if c == '\\' then EscapedIn(q) else if c == q then Bare else mode
    case EscapedIn(q) => In(q)
  }

  /** The mode of the character at k when reading begins, unquoted, at start. */
  function ModeAt(s: string, start: nat, k: nat): Mode
    requires start <= k <= |s|
    decreases k
  {
    if k == start then Bare else Next(ModeAt(s, start, k - 1), s[k - 1])
  }

  lemma ModeOn(s: string, start: nat, k: nat)
    requires start <= k < |s|
    ensures ModeAt(s, start, k + 1) == Next(ModeAt(s, start, k), s[k])
  {
  }

  lemma ModeStart(s: string, start: nat)
    requires start <= |s|
    ensures ModeAt(s, start, start) == Bare
  {
  }

  /** The character at k stands in the quotes opened at q and does not close them. */
  predicate Within(s: string, from: nat, q: nat, k: nat)
    requires from <= q < k < |s|
  {
    ModeAt(s, from, k) != Bare && !(ModeAt(s, from, k) == In(s[q]) && s[k] == s[q])
  }

  /** The index of the closing quote: the first unescaped one like the one at start, or the end. */
  method SkipQuotes(s: string, start: nat, ghost from: nat) returns (i: nat)
    requires Line(s) && from <= start < |s| && QuoteChar(s[start]) && ModeAt(s, from, start) == Bare
    ensures start < i <= |s| && forall k :: start < k < i ==> Within(s, from, start, k)
    ensures i < |s| ==> s[i] == s[start] && ModeAt(s, from, i) == In(s[start])
    ensures i == |s| ==> ModeAt(s, from, i) != Bare
  {
    hide ModeAt;
    ModeOn(s, from, start);
    i := start + 1;
    while At(s, i) != NUL
      invariant start < i <= |s| && ModeAt(s, from, i) == In(s[start])
      invariant forall k :: start < k < i ==> Within(s, from, start, k)
      decreases |s| - i
    {
      ModeOn(s, from, i);
      if s[i] == '\\' {
        i := i + 1;
        if At(s, i) == NUL {
          break;
        }
        ModeOn(s, from, i);
      } else if s[i] == s[start] {
        return;
      }
      i := i + 1;
    }
  }

  /** A token ends at the first unquoted, unescaped character that is none of a token. */
  predicate Ends(s: string, start: nat, k: nat)
    requires start <= k < |s|
  {
    ModeAt(s, start, k) == Bare && !TokenChar(s[k])
  }

  predicate TokenEnds(s: string, start: nat, e: nat)
  {
    start <= e <= |s| && (e < |s| ==> Ends(s, start, e)) && forall k :: start <= k < e ==> !Ends(s, start, k)
  }

  function TokenEnd(s: string, start: nat, k: nat): (e: nat)
    requires start <= k <= |s| && forall j :: start <= j < k ==> !Ends(s, start, j)
    ensures k <= e && TokenEnds(s, start, e)
    decreases |s| - k
  {
    if k == |s| || Ends(s, start, k) then k else TokenEnd(s, start, k + 1)
  }

  lemma TokenEndIs(s: string, start: nat, e: nat)
    requires start <= |s| && TokenEnds(s, start, e)
    ensures TokenEnd(s, start, start) == e
  {
    var f := TokenEnd(s, start, start);
  }

  /** The end of the token at start. */
  method ReadToken(s: string, start: nat) returns (i: nat)
    requires Line(s) && start <= |s|
    ensures i == TokenEnd(s, start, start)
  {
    i := start;
    while At(s, i) != NUL && TokenChar(s[i])
      invariant start <= i <= |s| && (i < |s| ==> ModeAt(s, start, i) == Bare)
      invariant forall k :: start <= k < i ==> !Ends(s, start, k)
      decreases |s| - i
    {
      if s[i] == '\\' {
        i := i + 1;
        if At(s, i) == NUL {
          break;
        }
      } else if QuoteChar(s[i]) {
        ghost var q := i;
        i := SkipQuotes(s, i, start);
        forall k | q < k < i
          ensures !Ends(s, start, k)
        {
          assert Within(s, start, q, k);
        }
        if At(s, i) == NUL {
          break;
        }
      }
      i := i + 1;
    }
    TokenEndIs(s, start, i);
  }

  // ----- what stands before a token -----

  /** The skipper's state: the quoting mode; pass, when the next character is to be passed
      over; word, inside a word that holds a quoted letter; sep, once a separator was seen. */
  datatype Skip = Skip(mode: Mode, pass: bool, word: bool, sep: bool)

  function SkipNext(t: Skip, c: char, peek: char): Skip
  {
    if t.mode != Bare then
      var mode := Next(t.mode, c);
      t.(mode := mode, word := t.word || (mode == Bare && Letter(peek)))
    else if t.pass then t.(pass := false)
    else if White(c) then t.(word := false)
    else if c == '\\' then (if Letter(peek) then t.(word := true) else t.(pass := true))
    else if QuoteChar(c) then t.(mode := In(c))
    else if t.word then t
    else t.(sep := true)
  }

  /** An unquoted character outside quoted words that is neither white nor a separator, or a
      backslash at the very end. */
  predicate Halts(t: Skip, c: char, peek: char)
  {
    && t.mode == Bare && !t.pass && !White(c)
    && if c == '\\' then peek == NUL else !QuoteChar(c) && !t.word && !CommandSeparator(c)
  }

  function SkipFrom(s: string, k: nat, t: Skip): (r: (nat, Skip))
    requires k <= |s|
    ensures k <= r.0 <= |s| && (r.0 < |s| ==> Halts(r.1, s[r.0], At(s, r.0 + 1)))
    decreases |s| - k
  {
    if k == |s| || Halts(t, s[k], At(s, k + 1)) then (k, t) else SkipFrom(s, k + 1, SkipNext(t, s[k], At(s, k + 1)))
  }

  function Skipped(s: string, start: nat): (nat, Skip)
    requires start <= |s|
  {
    SkipFrom(s, start, Skip(Bare, false, false, false))
  }

  lemma SkipUnfold(s: string, k: nat, t: Skip)
    requires k <= |s|
    ensures SkipFrom(s, k, t) ==
      if k == |s| || Halts(t, s[k], At(s, k + 1)) then (k, t) else SkipFrom(s, k + 1, SkipNext(t, s[k], At(s, k + 1)))
  {
  }

  /** skipquotes and the skipper agree on where a quoted part ends. */
  lemma {:induction false} SkipQuoted(s: string, start: nat, k: nat, i: nat, t: Skip)
    requires start < k <= i <= |s| && t.mode == ModeAt(s, start, k) != Bare
    requires QuoteChar(s[start])
    requires forall j :: start < j < i ==> Within(s, start, start, j)
    requires i < |s| ==> s[i] == s[start] && ModeAt(s, start, i) == In(s[start])
    ensures SkipFrom(s, k, t) ==
      if i == |s| then (i, t.(mode := ModeAt(s, start, i)))
      else SkipFrom(s, i + 1, t.(mode := Bare, word := t.word || Letter(At(s, i + 1))))
    decreases i - k
  {
    if k < i {
      var t1 := SkipNext(t, s[k], At(s, k + 1));
      QuotedOn(s, start, k, i);
      assert t1 == t.(mode := ModeAt(s, start, k + 1));
      SkipQuoted(s, start, k + 1, i, t1);
    } else if i < |s| {
      assert SkipNext(t, s[i], At(s, i + 1)) == t.(mode := Bare, word := t.word || Letter(At(s, i + 1)));
    }
  }

  /** Before its end a quoted part does not become unquoted. */
  lemma QuotedOn(s: string, start: nat, k: nat, i: nat)
    requires start < k < i <= |s| && ModeAt(s, start, k) != Bare && QuoteChar(s[start])
    requires forall j :: start < j < i ==> Within(s, start, start, j)
    requires i < |s| ==> ModeAt(s, start, i) == In(s[start])
    ensures ModeAt(s, start, k + 1) == Next(ModeAt(s, start, k), s[k]) != Bare
  {
    SameQuote(s, start, k, i);
    assert Within(s, start, start, k);
  }

  lemma {:induction false} SameQuote(s: string, start: nat, k: nat, i: nat)
    requires start < k <= i <= |s| && QuoteChar(s[start]) && k < |s|
    requires forall j :: start < j < i ==> Within(s, start, start, j)
    ensures ModeAt(s, start, k) == In(s[start]) || ModeAt(s, start, k) == EscapedIn(s[start])
    decreases k
  {
    if k > start + 1 {
      SameQuote(s, start, k - 1, i);
      assert Within(s, start, start, k - 1);
    }
  }

  method SkipWs(s: string, start: nat, hint: bool) returns (i: nat, commandWord: bool)
    requires Line(s) && start <= |s|
    ensures i == Skipped(s, start).0 && commandWord == (hint || Skipped(s, start).1.sep)
  {
    hide SkipFrom, ModeAt;
    var pass, word, sep := false, false, false;
    i := start;
    while At(s, i) != NUL
      invariant start <= i <= |s| && SkipFrom(s, i, Skip(Bare, pass, word, sep)) == Skipped(s, start)
      decreases |s| - i
    {
      SkipUnfold(s, i, Skip(Bare, pass, word, sep));
      if pass {
        pass := false;
      } else if White(s[i]) {
        word := false;
      } else if s[i] == '\\' {
        if At(s, i + 1) == NUL {
          break;
        }
        if Letter(s[i + 1]) {
          word := true;
        } else {
          pass := true;
        }
      } else if QuoteChar(s[i]) {
        ghost var q, t := i, Skip(In(s[i]), pass, word, sep);
        ModeOn(s, i, i);
        ModeStart(s, i);
        i := SkipQuotes(s, i, i);
        SkipQuoted(s, q, q + 1, i, t);
        if At(s, i) == NUL {
          break;
        }
        if Letter(At(s, i + 1)) {
          word := true;
        }
      } else if !word {
        if !CommandSeparator(s[i]) {
          break;
        }
        sep := true;
      }
      i := i + 1;
    }
    SkipUnfold(s, i, Skip(Bare, pass, word, sep));
    commandWord := hint || sep;
  }

  // ----- the line as pieces -----

  /** A stretch of the line: copied, or a token replaced by its alias. */
  datatype Piece = Piece(start: nat, text: string, value: string)

  function Texts(ps: seq<Piece>): string { if ps == [] then "" else ps[0].text + Texts(ps[1..]) }

  function Values(ps: seq<Piece>): string { if ps == [] then "" else ps[0].value + Values(ps[1..]) }

  /** The end of the word at j; a delimiter is a word by itself. */
  function WordEnd(s: string, j: nat): (e: nat)
    requires j <= |s|
    ensures j <= e <= |s| && (j < |s| ==> j < e)
    ensures TokenEnds(s, j, e) || (e == j + 1 && !TokenChar(s[j]))
  {
    var e := TokenEnd(s, j, j);
    if e == j && j < |s| then j + 1 else e
  }

  /** The word at j is looked up: it stands where a command or the next word of an alias is
      expected and has no backslash, or every word is. */
  function Replacement(s: string, j: nat, e: nat, expected: bool, aliases: map<string, string>, all: bool): Option<string>
    requires j <= e <= |s|
  {
    var token := s[j..e];
    if token != "" && (all || (expected && '\\' !in token)) && token in aliases then Some(aliases[token]) else None
  }

  predicate EndsWhite(v: string) { v != "" && White(v[|v| - 1]) }

  /** One pass: the gap before a word, the word, where it ends, and whether the next word is
      looked up too. hint: a command word is expected; next: the word after an alias is. */
  datatype Pass = Pass(gap: Piece, word: Piece, end: nat, next: bool)

  function OnePass(s: string, i: nat, hint: bool, next: bool, aliases: map<string, string>, all: bool): (x: Pass)
    requires i < |s|
    ensures i < x.end <= |s|
  {
    var (j, t) := Skipped(s, i);
    var e := WordEnd(s, j);
    var expected := hint || t.sep || CommandSeparator(At(s, j)) || next;
    var r := Replacement(s, j, e, expected, aliases, all);
    Pass(Piece(i, s[i..j], s[i..j]), Piece(j, s[j..e], if r.Some? then r.value else s[j..e]), e, NextToo(s[j..e], expected, r, all))
  }

  function Pieces(s: string, i: nat, hint: bool, next: bool, aliases: map<string, string>, all: bool): seq<Piece>
    requires i <= |s|
    decreases |s| - i
  {
    if i == |s| then []
    else
      var x := OnePass(s, i, hint, next, aliases, all);
      [x.gap, x.word] + Pieces(s, x.end, false, x.next, aliases, all)
  }

  /** After an alias that ends in white space the next word is looked up too. */
  predicate NextToo(token: string, expected: bool, r: Option<string>, all: bool)
  {
    r.Some? && (all || (expected && '\\' !in token && EndsWhite(r.value)))
  }

  /** alias_expand: the line of the pieces; every pass moves on, so the loop ends. */
  method AliasExpand(s: string, aliases: map<string, string>, all: bool) returns (line: string)
    requires Line(s)
    ensures line == Values(Pieces(s, 0, true, false, aliases, all))
  {
    hide Pieces, Values, OnePass, Skipped, WordEnd;
    line := "";
    var i, expandNext, commandWord := 0, false, true;
    while true
      invariant i <= |s|
      invariant line + Values(Pieces(s, i, commandWord, expandNext, aliases, all)) == Values(Pieces(s, 0, true, false, aliases, all))
      decreases |s| - i
    {
      PassOf(s, i, commandWord, expandNext, aliases, all);
      ghost var from, hint, next, done := i, commandWord, expandNext, line;
      var start := i;
      i, commandWord := SkipWs(s, start, commandWord);
      if start == i && At(s, i) == NUL {
        return;
      }
      ghost var x := OnePass(s, from, hint, next, aliases, all);
      PassIs(s, from, hint, next, aliases, all);
      line := line + s[start..i];
      commandWord := commandWord || CommandSeparator(At(s, i));
      var expandThis := commandWord || expandNext;
      expandNext := false;
      start := i;
      i := ReadWord(s, start);
      var token := s[start..i];
      expandThis := expandThis && '\\' !in token;
      if token != "" && (expandThis || all) && token in aliases {
        var v := aliases[token];
        line := line + v;
        expandNext := (expandThis && v != "" && White(v[|v| - 1])) || all;
      } else {
        line := line + token;
      }
      commandWord := false;
      assert i == x.end && expandNext == x.next && line == done + x.gap.value + x.word.value;
      Joined(done, x.gap.value, x.word.value, Values(Pieces(s, i, false, expandNext, aliases, all)));
    }
  }

  lemma Joined(a: string, b: string, c: string, d: string)
    ensures a + b + c + d == a + (b + (c + d))
  {
  }

  /** What the loop needs of a pass: at the end of the line there is none. */
  lemma PassOf(s: string, i: nat, hint: bool, next: bool, aliases: map<string, string>, all: bool)
    requires Line(s) && i <= |s|
    ensures i <= Skipped(s, i).0 <= |s| && (Skipped(s, i).0 == i && At(s, i) == NUL <==> i == |s|)
    ensures Values(Pieces(s, i, hint, next, aliases, all)) ==
      if i == |s| then "" else
      var x := OnePass(s, i, hint, next, aliases, all);
      x.gap.value + (x.word.value + Values(Pieces(s, x.end, false, x.next, aliases, all)))
  {
    hide Values, Pieces, OnePass;
    if i < |s| {
      PiecesStep(s, i, hint, next, aliases, all);
    } else {
      PiecesEnd(s, hint, next, aliases, all);
    }
  }

  /** A pass in the terms of the scanners. */
  lemma PassIs(s: string, i: nat, hint: bool, next: bool, aliases: map<string, string>, all: bool)
    requires i < |s|
    ensures var x, (j, t) := OnePass(s, i, hint, next, aliases, all), Skipped(s, i);
      var e := WordEnd(s, j);
      var expected := hint || t.sep || CommandSeparator(At(s, j)) || next;
      var r := Replacement(s, j, e, expected, aliases, all);
      && x.gap.value == s[i..j] && x.word.value == (if r.Some? then r.value else s[j..e])
      && x.end == e && x.next == NextToo(s[j..e], expected, r, all)
  {
    hide Skipped, WordEnd;
  }

  method ReadWord(s: string, start: nat) returns (i: nat)
    requires Line(s) && start <= |s|
    ensures i == WordEnd(s, start)
  {
    i := ReadToken(s, start);
    if i == start && At(s, i) != NUL {
      i := i + 1;
    }
  }

  lemma ValuesTwo(p: Piece, q: Piece, ps: seq<Piece>)
    ensures Values([p, q] + ps) == p.value + (q.value + Values(ps)) && Texts([p, q] + ps) == p.text + (q.text + Texts(ps))
  {
    var all := [p, q] + ps;
    assert all[1..] == [q] + ps && all[1..][1..] == ps;
  }

  /** One pass of the loop, on the values and the texts. */
  lemma PiecesStep(s: string, i: nat, hint: bool, next: bool, aliases: map<string, string>, all: bool)
    requires i < |s|
    ensures var ps, x := Pieces(s, i, hint, next, aliases, all), OnePass(s, i, hint, next, aliases, all);
      var rest := Pieces(s, x.end, false, x.next, aliases, all);
      && Values(ps) == x.gap.value + (x.word.value + Values(rest))
      && Texts(ps) == x.gap.text + (x.word.text + Texts(rest))
  {
    hide Values, Texts, OnePass;
    var x := OnePass(s, i, hint, next, aliases, all);
    ValuesTwo(x.gap, x.word, Pieces(s, x.end, false, x.next, aliases, all));
  }

  lemma PiecesEnd(s: string, hint: bool, next: bool, aliases: map<string, string>, all: bool)
    ensures Pieces(s, |s|, hint, next, aliases, all) == [] && Values([]) == "" == Texts([])
  {
  }

  /** A pass takes the line apart at the end of the gap and of the word. */
  lemma PassSplits(s: string, i: nat, hint: bool, next: bool, aliases: map<string, string>, all: bool)
    requires i < |s|
    ensures var x := OnePass(s, i, hint, next, aliases, all);
      s[i..] == x.gap.text + (x.word.text + s[x.end..])
  {
    hide Skipped, WordEnd, Replacement;
    SkipBounds(s, i);
  }

  lemma SkipBounds(s: string, i: nat)
    requires i <= |s|
    ensures i <= Skipped(s, i).0 <= |s|
  {
  }

  // ----- what the pieces are -----

  /** The pieces are the line, cut up: nothing is lost, doubled or moved. */
  lemma {:induction false} PiecesCover(s: string, i: nat, hint: bool, next: bool, aliases: map<string, string>, all: bool)
    requires i <= |s|
    ensures Texts(Pieces(s, i, hint, next, aliases, all)) == s[i..]
    decreases |s| - i
  {
    hide Texts, Pieces, OnePass;
    if i < |s| {
      PiecesStep(s, i, hint, next, aliases, all);
      PassSplits(s, i, hint, next, aliases, all);
      var x := OnePass(s, i, hint, next, aliases, all);
      PiecesCover(s, x.end, false, x.next, aliases, all);
    } else {
      PiecesEnd(s, hint, next, aliases, all);
    }
  }

  /** Without aliases the line comes back unchanged, whatever it holds: unclosed quotes and a
      trailing backslash too. */
  lemma {:induction false} NoAliases(s: string, i: nat, hint: bool, next: bool, all: bool)
    requires i <= |s|
    ensures Values(Pieces(s, i, hint, next, map[], all)) == s[i..]
    decreases |s| - i
  {
    hide Values, Pieces, Skipped, WordEnd;
    if i < |s| {
      PiecesStep(s, i, hint, next, map[], all);
      PassSplits(s, i, hint, next, map[], all);
      var x := OnePass(s, i, hint, next, map[], all);
      NoAliases(s, x.end, false, x.next, all);
    } else {
      PiecesEnd(s, hint, next, map[], all);
    }
  }

  /** A first word that has an alias and no backslash is replaced by it. */
  lemma FirstWordIsReplaced(s: string, aliases: map<string, string>, all: bool)
    requires var j := Skipped(s, 0).0; j < |s| && s[j..WordEnd(s, j)] in aliases && '\\' !in s[j..WordEnd(s, j)]
    ensures var j := Skipped(s, 0).0;
      var e := WordEnd(s, j);
      var v := aliases[s[j..e]];
      Values(Pieces(s, 0, true, false, aliases, all))
      == s[..j] + (v + Values(Pieces(s, e, false, all || EndsWhite(v), aliases, all)))
  {
    hide Values, Pieces, Skipped, WordEnd;
    PiecesStep(s, 0, true, false, aliases, all);
  }

  /** The character before a is white, delimits, is a quote, or stands behind a backslash. */
  predicate Edge(s: string, a: nat)
    requires a <= |s|
  {
    a == 0 || !TokenChar(s[a - 1]) || QuoteChar(s[a - 1]) || (a >= 2 && s[a - 2] == '\\')
  }

  /** A word of the line: one delimiter, or all up to the first unquoted, unescaped character
      that is none of a token, from an edge on. */
  predicate IsWord(s: string, a: nat, text: string)
  {
    var b := a + |text|;
    && text != "" && b <= |s| && s[a..b] == text
    && ((b == a + 1 && !TokenChar(s[a])) || (TokenEnds(s, a, b) && (Edge(s, a) || s[a] == '\\')))
  }

  /** The skipper's state between two characters. */
  predicate Steady(s: string, k: nat, t: Skip)
    requires k <= |s|
  {
    && t.mode != Escaped
    && (t.mode.In? || t.mode.EscapedIn? ==> QuoteChar(t.mode.q))
    && (t.pass ==> t.mode == Bare && k > 0 && s[k - 1] == '\\')
    && (t.mode == Bare && !t.pass && !t.word ==> AfterEdge(s, k))
    && ModeAt(s, 0, k) == LineMode(s, k, t)
  }

  /** How the character at k stands in the whole line. */
  function LineMode(s: string, k: nat, t: Skip): Mode
    requires k <= |s|
  {
    if t.pass || (t.mode == Bare && t.word && ModeAt(s, 0, k) == Escaped && Letter(At(s, k))) then Escaped else t.mode
  }

  /** A token may begin at k: after an edge, or where the previous token ended. */
  predicate AfterEdge(s: string, k: nat)
    requires k <= |s|
  {
    Edge(s, k) || (k < |s| && !TokenChar(s[k]))
  }

  lemma {:induction false} SkipEnds(s: string, k: nat, t: Skip)
    requires k <= |s| && Steady(s, k, t)
    ensures Steady(s, SkipFrom(s, k, t).0, SkipFrom(s, k, t).1)
    decreases |s| - k
  {
    hide SkipFrom, ModeAt;
    SkipUnfold(s, k, t);
    if k < |s| && !Halts(t, s[k], At(s, k + 1)) {
      ModeOn(s, 0, k);
      SkipEnds(s, k + 1, SkipNext(t, s[k], At(s, k + 1)));
    }
  }

  /** Whatever is replaced is a word of the line that begins outside all quotes, and is replaced
      by its alias. */
  lemma {:induction false} ReplacedAreWords(s: string, i: nat, hint: bool, next: bool, aliases: map<string, string>, all: bool, n: nat)
    requires i <= |s| && AfterEdge(s, i) && ModeAt(s, 0, i) == Bare
    requires n < |Pieces(s, i, hint, next, aliases, all)|
    ensures var p := Pieces(s, i, hint, next, aliases, all)[n];
      p.value != p.text ==>
        && IsWord(s, p.start, p.text) && ModeAt(s, 0, p.start) == Bare
        && p.text in aliases && p.value == aliases[p.text]
    decreases |s| - i
  {
    hide SkipFrom, OnePass, IsWord;
    var x := OnePass(s, i, hint, next, aliases, all);
    PassReplacesWord(s, i, hint, next, aliases, all);
    if n >= 2 {
      ReplacedAreWords(s, x.end, false, x.next, aliases, all, n - 2);
    }
  }

  lemma PassReplacesWord(s: string, i: nat, hint: bool, next: bool, aliases: map<string, string>, all: bool)
    requires i < |s| && AfterEdge(s, i) && ModeAt(s, 0, i) == Bare
    ensures var x := OnePass(s, i, hint, next, aliases, all);
      && x.gap.value == x.gap.text && (x.end == |s| || (AfterEdge(s, x.end) && ModeAt(s, 0, x.end) == Bare))
      && (x.word.value != x.word.text ==>
        && IsWord(s, x.word.start, x.word.text) && ModeAt(s, 0, x.word.start) == Bare
        && x.word.text in aliases && x.word.value == aliases[x.word.text])
  {
    hide SkipFrom, TokenEnds, ModeAt;
    SkipEnds(s, i, Skip(Bare, false, false, false));
    HaltsBare(s, Skipped(s, i).0, Skipped(s, i).1);
    WordBounds(s, Skipped(s, i).0);
  }

  /** Where the skipper halts the line is unquoted. */
  lemma HaltsBare(s: string, k: nat, t: Skip)
    requires k < |s| ==> Steady(s, k, t) && Halts(t, s[k], At(s, k + 1))
    ensures k < |s| ==> ModeAt(s, 0, k) == Bare
  {
    hide ModeAt;
  }

  lemma WordBounds(s: string, j: nat)
    requires j <= |s|
    ensures var e := WordEnd(s, j); e == |s| || AfterEdge(s, e)
    ensures j < |s| && !TokenChar(s[j]) ==> WordEnd(s, j) == j + 1
    ensures var e := WordEnd(s, j); j < |s| && e < |s| && ModeAt(s, 0, j) == Bare ==> ModeAt(s, 0, e) == Bare
  {
    var e := WordEnd(s, j);
    if j < |s| && !TokenChar(s[j]) {
      assert Ends(s, j, j);
    }
    if j < |s| && e < |s| && ModeAt(s, 0, j) == Bare {
      if TokenEnds(s, j, e) {
        ModeShift(s, j, e);
      } else {
        ModeOn(s, 0, j);
      }
    }
  }

  /** Reading that begins unquoted goes on as reading from the start of the line does. */
  lemma {:induction false} ModeShift(s: string, j: nat, k: nat)
    requires j <= k <= |s| && ModeAt(s, 0, j) == Bare
    ensures ModeAt(s, 0, k) == ModeAt(s, j, k)
    decreases k
  {
    if k > j {
      ModeShift(s, j, k - 1);
      ModeOn(s, 0, k - 1);
      ModeOn(s, j, k - 1);
    }
  }

  // ----- words with a quoted character -----

  /** A token without quotes and backslashes. */
  predicate PlainToken(w: string)
  {
    w != "" && forall i :: 0 <= i < |w| ==> TokenChar(w[i]) && !QuoteChar(w[i]) && w[i] != '\\'
  }

  /** A first word behind a backslash and one character is left alone exactly when that
      character is a letter; otherwise it is split there and its rest expanded. */
  lemma EscapedWord(s: string, aliases: map<string, string>)
    requires |s| > 2 && s[0] == '\\' && s[1] != NUL && PlainToken(s[2..]) && s[2..] in aliases
    ensures Values(Pieces(s, 0, true, false, aliases, false)) == if Letter(s[1]) then s else s[..2] + aliases[s[2..]]
  {
    var t := Skip(Bare, false, false, false);
    SkipUnfold(s, 0, t);
    SkipUnfold(s, 1, if Letter(s[1]) then t.(word := true) else t.(pass := true));
    QuotedPart(s, 2, Letter(s[1]), aliases);
  }

  /** A first word that starts with a quoted part, closed at i, is left alone exactly when a
      letter comes next. */
  lemma QuotedWord(s: string, i: nat, aliases: map<string, string>)
    requires 0 < i < |s| - 1 && QuoteChar(s[0]) && s[i] == s[0] && ModeAt(s, 0, i) == In(s[0])
    requires forall j :: 0 < j < i ==> Within(s, 0, 0, j)
    requires PlainToken(s[i + 1..]) && s[i + 1..] in aliases
    ensures Values(Pieces(s, 0, true, false, aliases, false)) == if Letter(s[i + 1]) then s else s[..i + 1] + aliases[s[i + 1..]]
  {
    var t := Skip(Bare, false, false, false);
    SkipUnfold(s, 0, t);
    ModeOn(s, 0, 0);
    SkipQuoted(s, 0, 1, i, t.(mode := In(s[0])));
    QuotedPart(s, i + 1, Letter(s[i + 1]), aliases);
  }

  /** The skipper has reached a plain token at k, with a quoted letter before it or not. */
  lemma QuotedPart(s: string, k: nat, word: bool, aliases: map<string, string>)
    requires 0 < k < |s| && PlainToken(s[k..]) && s[k..] in aliases
    requires Skipped(s, 0) == SkipFrom(s, k, Skip(Bare, false, word, false))
    ensures Values(Pieces(s, 0, true, false, aliases, false)) == if word then s else s[..k] + aliases[s[k..]]
  {
    hide SkipFrom, Skipped, TokenEnds, Values, Pieces;
    assert forall i :: k <= i < |s| ==> s[i] == s[k..][i - k];
    var t := Skip(Bare, false, word, false);
    SkipUnfold(s, k, t);
    if word {
      PassPlain(s, k, t);
      LineSkipped(s, aliases);
    } else {
      PlainEnds(s, k);
      assert s[k..|s|] == s[k..];
      assert '\\' !in s[k..];
      FirstWordIsReplaced(s, aliases, false);
      PiecesEnd(s, false, false || EndsWhite(aliases[s[k..]]), aliases, false);
      assert aliases[s[k..]] + "" == aliases[s[k..]];
    }
  }

  /** A line that is skipped whole comes back as it was. */
  lemma LineSkipped(s: string, aliases: map<string, string>)
    requires s != "" && Skipped(s, 0).0 == |s|
    ensures Values(Pieces(s, 0, true, false, aliases, false)) == s
  {
    hide Skipped, Values, Pieces;
    PiecesStep(s, 0, true, false, aliases, false);
    var x := OnePass(s, 0, true, false, aliases, false);
    PiecesEnd(s, false, x.next, aliases, false);
  }

  lemma {:induction false} PassPlain(s: string, k: nat, t: Skip)
    requires k <= |s| && t.mode == Bare && !t.pass && t.word
    requires forall i :: k <= i < |s| ==> TokenChar(s[i]) && !QuoteChar(s[i]) && s[i] != '\\'
    ensures SkipFrom(s, k, t) == (|s|, t)
    decreases |s| - k
  {
    if k < |s| {
      PassPlain(s, k + 1, t);
    }
  }

  /** A plain token goes on to the end of the line. */
  lemma PlainEnds(s: string, k: nat)
    requires k < |s| && forall i :: k <= i < |s| ==> TokenChar(s[i]) && !QuoteChar(s[i]) && s[i] != '\\'
    ensures WordEnd(s, k) == |s|
  {
    forall j | k <= j <= |s|
      ensures ModeAt(s, k, j) == Bare
    {
      PlainModes(s, k, j);
    }
    TokenEndIs(s, k, |s|);
  }

  lemma {:induction false} PlainModes(s: string, k: nat, j: nat)
    requires k <= j <= |s| && forall i :: k <= i < |s| ==> TokenChar(s[i]) && !QuoteChar(s[i]) && s[i] != '\\'
    ensures ModeAt(s, k, j) == Bare
    decreases j
  {
    if j > k {
      PlainModes(s, k, j - 1);
    }
  }
}
