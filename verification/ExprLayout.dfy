/** Scanning a layout gives back its lexemes, whatever the white space. */
module ExprLayout {
  import opened CStrings
  import opened Int64
  import opened ExprLexer
  import opened ExprMachine
  import opened ExprTree
  import opened Options

  lemma {:induction false} SkipGap(g: string, s: string)
    requires IsGap(g) && !IsSpace(At(s, 0))
    ensures SkipSpace(g + s) == s
  {
    if g == "" {
      assert g + s == s;
    } else {
      assert (g + s)[0] == g[0];
      assert (g + s)[1..] == g[1..] + s;
      SkipGap(g[1..], s);
    }
  }

  lemma {:induction false} NameLenOf(x: string, s: string)
    requires forall i :: 0 <= i < |x| ==> NameChar(x[i])
    requires !NameChar(At(s, 0))
    ensures NameLen(x + s) == |x|
  {
    if x == "" {
      assert x + s == s;
    } else {
      assert (x + s)[0] == x[0];
      assert (x + s)[1..] == x[1..] + s;
      NameLenOf(x[1..], s);
    }
  }

  lemma {:induction false} NumLenOf(x: string, s: string)
    requires forall i :: 0 <= i < |x| ==> NumChar(x[i])
    requires !NumChar(At(s, 0))
    ensures NumLen(x + s) == |x|
  {
    if x == "" {
      assert x + s == s;
    } else {
      assert (x + s)[0] == x[0];
      assert (x + s)[1..] == x[1..] + s;
      NumLenOf(x[1..], s);
    }
  }

  lemma LexId(gap: string, x: string, rest: string, curtok: Tok, lasttok: Tok)
    requires IsGap(gap) && IsName(x) && !Fuses(Id(x), At(rest, 0))
    ensures Lex(gap + (x + rest), curtok, lasttok) == LexName(x, rest)
  {
    var s := x + rest;
    assert At(s, 0) == x[0];
    SkipGap(gap, s);
    NameLenOf(x, rest);
    assert At(s, |x|) == At(rest, 0);
    assert s[..|x|] == x && s[|x|..] == rest;
  }

  lemma LexLit(gap: string, x: string, rest: string, curtok: Tok, lasttok: Tok)
    requires IsGap(gap) && IsNumeral(x) && !Fuses(Lit(x), At(rest, 0))
    ensures Lex(gap + (x + rest), curtok, lasttok) == LexNumber(x, rest)
  {
    var s := x + rest;
    assert At(s, 0) == x[0] && IsDigit(x[0]);
    SkipGap(gap, s);
    NumLenOf(x, rest);
    assert s[..|x|] == x && s[|x|..] == rest;
  }

  /** The contexts in which an operator is read as itself: ++ and -- need more than their
      own characters. */
  predicate InContext(t: Tok, rest: string, curtok: Tok, lasttok: Tok)
  {
    && (t == PostInc || t == PostDec ==> curtok == Str)
    && (IsPre(t) ==>
          && curtok != Str && !(curtok == Num && IsPre(lasttok))
          && NameStart(At(SkipSpace(rest), 0)))
  }

  lemma LexOneChar(t: Tok, rest: string, curtok: Tok, lasttok: Tok)
    requires |SymText(t, End)| == 1 && !Fuses(S(t), At(rest, 0))
    ensures LexOperator(SymText(t, End) + rest, curtok, lasttok) == LexOp(t, End, rest)
  {
    var s := SymText(t, End) + rest;
    assert s[0] == SymText(t, End)[0] && At(s, 1) == At(rest, 0) && s[1..] == rest;
    assert SingleOp(s[0]) == t;
  }

  lemma LexTwoChar(t: Tok, rest: string, curtok: Tok, lasttok: Tok)
    requires t in {EqEq, Neq, Geq, Leq, Lsh, Rsh, Land, Lor, Power} && !Fuses(S(t), At(rest, 0))
    ensures LexOperator(SymText(t, End) + rest, curtok, lasttok) == LexOp(t, End, rest)
  {
    var x := SymText(t, End);
    var s := x + rest;
    assert |x| == 2 && s[0] == x[0] && At(s, 1) == x[1] && At(s, 2) == At(rest, 0) && s[2..] == rest;
  }

  lemma LexAssign(asg: Tok, rest: string, curtok: Tok, lasttok: Tok)
    requires IsAssignOp(asg)
    ensures LexOperator(SymText(OpAssign, asg) + rest, curtok, lasttok) == LexOp(OpAssign, asg, rest)
  {
    var x := SymText(OpAssign, asg);
    var s := x + rest;
    if asg == Lsh || asg == Rsh {
      assert |x| == 3 && s[0] == x[0] && At(s, 1) == x[1] && At(s, 2) == '=' && s[3..] == rest;
    } else {
      assert |x| == 2 && s[0] == OpChar(asg) && At(s, 1) == '=' && s[2..] == rest;
      assert SingleOp(s[0]) == asg;
    }
  }

  lemma LexIncDec(t: Tok, rest: string, curtok: Tok, lasttok: Tok)
    requires t in {PreInc, PreDec, PostInc, PostDec} && InContext(t, rest, curtok, lasttok)
    ensures LexOperator(SymText(t, End) + rest, curtok, lasttok) == LexOp(t, End, rest)
  {
    var x := SymText(t, End);
    var s := x + rest;
    assert s[0] == x[0] && At(s, 1) == x[1] && s[2..] == rest;
  }

  predicate OperatorChar(c: char)
  {
    c != NUL && !IsSpace(c) && !NameStart(c) && !IsDigit(c)
  }

  lemma SymStart(t: Tok, asg: Tok)
    requires LexemeOk(Sym(t, asg)) && t != End
    ensures |SymText(t, asg)| > 0 && OperatorChar(SymText(t, asg)[0])
  {
    if t == OpAssign {
      assert asg != Lsh && asg != Rsh ==> SymText(t, asg)[0] == OpChar(asg);
    }
  }

  lemma LexSymOperator(t: Tok, asg: Tok, rest: string, curtok: Tok, lasttok: Tok)
    requires LexemeOk(Sym(t, asg)) && t != End && !Fuses(Sym(t, asg), At(rest, 0))
    requires InContext(t, rest, curtok, lasttok)
    ensures LexOperator(SymText(t, asg) + rest, curtok, lasttok) == LexOp(t, asg, rest)
  {
    if t == OpAssign {
      LexAssign(asg, rest, curtok, lasttok);
    } else if t in {PreInc, PreDec, PostInc, PostDec} {
      LexIncDec(t, rest, curtok, lasttok);
    } else if t in {EqEq, Neq, Geq, Leq, Lsh, Rsh, Land, Lor, Power} {
      LexTwoChar(t, rest, curtok, lasttok);
    } else {
      LexOneChar(t, rest, curtok, lasttok);
    }
  }

  lemma LexReachesOperator(gap: string, s: string, curtok: Tok, lasttok: Tok)
    requires IsGap(gap) && |s| > 0 && OperatorChar(s[0])
    ensures Lex(gap + s, curtok, lasttok) == LexOperator(s, curtok, lasttok)
  {
    SkipGap(gap, s);
  }

  lemma LexSym(gap: string, t: Tok, asg: Tok, rest: string, curtok: Tok, lasttok: Tok)
    requires IsGap(gap) && LexemeOk(Sym(t, asg)) && t != End && !Fuses(Sym(t, asg), At(rest, 0))
    requires InContext(t, rest, curtok, lasttok)
    ensures Lex(gap + (SymText(t, asg) + rest), curtok, lasttok) == LexOp(t, asg, rest)
  {
    var x := SymText(t, asg);
    SymStart(t, asg);
    assert (x + rest)[0] == x[0];
    LexReachesOperator(gap, x + rest, curtok, lasttok);
    LexSymOperator(t, asg, rest, curtok, lasttok);
  }

  // ----- readtok on a layout -----

  /** The state's text is the layout from lexeme k on. */
  predicate Ahead(s: State, sp: seq<Spaced>, k: nat)
  {
    Separated(sp) && k < |sp| && s.tp == Text(sp, k)
  }

  lemma LexEndAt(sp: seq<Spaced>, k: nat, curtok: Tok, lasttok: Tok)
    requires Separated(sp) && k < |sp| && sp[k].lex == S(End)
    ensures Lex(Text(sp, k), curtok, lasttok) == LexEnd("") && Text(sp, k + 1) == ""
  {
    assert SeparatedAt(sp, k);
    assert sp[k].text == sp[k].gap + "";
    SkipGap(sp[k].gap, "");
  }

  /** The state after an operator (or the end) has been read. */
  function AfterSym(s: State, x: Lexeme, rest: string): State
    requires x.Sym?
  {
    s.(lasttok := s.curtok, curtok := x.t, tp := rest,
       assigntok := if x.t == OpAssign then x.asg else s.assigntok)
  }

  /** A prefix ++ or -- in a layout is followed by a name. */
  lemma NameAfterPre(sp: seq<Spaced>, k: nat)
    requires Separated(sp) && k < |sp| && sp[k].lex.Id?
    ensures NameStart(At(SkipSpace(Text(sp, k)), 0))
  {
    assert SeparatedAt(sp, k);
    var x := sp[k].lex.name;
    var s := x + Text(sp, k + 1);
    assert At(s, 0) == x[0];
    SkipGap(sp[k].gap, s);
  }

  lemma ReadSym(s: State, sp: seq<Spaced>, k: nat)
    requires Ahead(s, sp, k) && sp[k].lex.Sym?
    requires sp[k].lex.t in {PostInc, PostDec} ==> s.curtok == Str
    requires IsPre(sp[k].lex.t) ==> s.curtok != Str && !(s.curtok == Num && IsPre(s.lasttok))
    ensures ReadTok(s) == Ok(AfterSym(s, sp[k].lex, Text(sp, k + 1)))
  {
    var t := sp[k].lex.t;
    assert SeparatedAt(sp, k);
    if t == End {
      LexEndAt(sp, k, s.curtok, s.lasttok);
    } else {
      if IsPre(t) {
        NameAfterPre(sp, k + 1);
      }
      LexSym(sp[k].gap, t, sp[k].lex.asg, Text(sp, k + 1), s.curtok, s.lasttok);
    }
  }

  /** Operators other than ++ and --. */
  predicate Plain(x: Lexeme)
  {
    x.Sym? && x.t != PostInc && x.t != PostDec && !IsPre(x.t)
  }

  /** The lexeme after an operand is read without side effect. */
  lemma ReadPlain(s: State, sp: seq<Spaced>, k: nat)
    requires Ahead(s, sp, k) && Plain(sp[k].lex)
    ensures ReadTok(s) == Ok(AfterSym(s, sp[k].lex, Text(sp, k + 1)))
  {
    ReadSym(s, sp, k);
  }

  lemma ReadLit(s: State, sp: seq<Spaced>, k: nat)
    requires Ahead(s, sp, k) && sp[k].lex.Lit?
    ensures var n := StrLong(sp[k].lex.numeral);
      ReadTok(s) ==
        if n.None? then Fault(s.env)
        else Ok(s.(lasttok := s.curtok, curtok := Num, tp := Text(sp, k + 1), tokval := n.value))
  {
    assert SeparatedAt(sp, k);
    LexLit(sp[k].gap, sp[k].lex.numeral, Text(sp, k + 1), s.curtok, s.lasttok);
  }

  /** The state in which a name's value is asked for: one token of look-ahead has been read. */
  function Asking(s: State, x: string, next: Lexeme): State
    requires next.Sym?
  {
    s.(tokstr := Some(x), assigntok := if next.t == OpAssign then next.asg else s.assigntok)
  }

  lemma SeparatedHere(sp: seq<Spaced>, k: nat)
    requires Separated(sp) && k < |sp|
    ensures SeparatedAt(sp, k)
  {
  }

  /** Reading a name: one operator of look-ahead, then the variable's value unless `=' follows. */
  lemma ReadId(s: State, sp: seq<Spaced>, k: nat)
    requires Ahead(s, sp, k) && k + 1 < |sp| && sp[k].lex.Id?
    requires sp[k + 1].lex.Sym? && !IsPre(sp[k + 1].lex.t)
    ensures var s1 := Asking(s, sp[k].lex.name, sp[k + 1].lex);
      var r := StrEval(sp[k].lex.name, s1);
      ReadTok(s) ==
        if !IsPre(s.lasttok) && sp[k + 1].lex.t == Eq then Ok(Named(s1, 0, Text(sp, k + 1)))
        else if r.Fault? then Fault(r.env)
        else Ok(Named(r.value.1, r.value.0, Text(sp, k + 1)))
  {
    hide ReadTok, StrEval, Lex, Separated;
    var x := sp[k].lex.name;
    var rest := Text(sp, k + 1);
    SeparatedHere(sp, k);
    LexId(sp[k].gap, x, rest, s.curtok, s.lasttok);
    var p := s.(tp := rest, curtok := Str, tokstr := None, noeval := 1);
    ReadSym(p, sp, k + 1);
    ReadNameStep(s, x, rest);
  }
}
