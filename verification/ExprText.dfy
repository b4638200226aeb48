/** Every tree can be written down: its lexemes with a space before each. */
module ExprText {
  import opened CStrings
  import opened ExprLexer
  import opened ExprMachine
  import opened ExprTree
  import opened ExprResults
  import opened Options

  function SpreadText(ls: seq<Lexeme>): string
  {
    if ls == [] then "" else " " + (Spell(ls[0]) + SpreadText(ls[1..]))
  }

  function Spread(ls: seq<Lexeme>): (sp: seq<Spaced>)
    ensures |sp| == |ls| + 1 && sp[0].text == SpreadText(ls)
  {
    if ls == [] then [Spaced("", S(End), "")] else [Spaced(" ", ls[0], SpreadText(ls))] + Spread(ls[1..])
  }

  /** Lexemes that may be laid out: each legal, a prefix ++ or -- before a name. */
  predicate Lawful(ls: seq<Lexeme>) { forall k :: 0 <= k < |ls| ==> LawfulAt(ls, k) }

  predicate LawfulAt(ls: seq<Lexeme>, k: nat)
    requires k < |ls|
  {
    LexemeOk(ls[k]) && ls[k] != S(End) && (ls[k].Sym? && IsPre(ls[k].t) ==> k + 1 < |ls| && ls[k + 1].Id?)
  }

  lemma LawfulJoin(a: seq<Lexeme>, b: seq<Lexeme>)
    requires Lawful(a) && Lawful(b)
    ensures Lawful(a + b)
  {
    var ls := a + b;
    forall k | 0 <= k < |ls|
      ensures LawfulAt(ls, k)
    {
      if k < |a| {
        assert LawfulAt(a, k) && ls[k] == a[k];
        assert k + 1 < |a| ==> ls[k + 1] == a[k + 1];
      } else {
        assert LawfulAt(b, k - |a|) && ls[k] == b[k - |a|];
        assert k + 1 < |ls| ==> ls[k + 1] == b[k + 1 - |a|];
      }
    }
  }

  lemma LawfulOne(x: Lexeme)
    requires LexemeOk(x) && x != S(End) && !(x.Sym? && IsPre(x.t))
    ensures Lawful([x])
  {
  }

  lemma LawfulInfix(a: seq<Lexeme>, x: Lexeme, b: seq<Lexeme>)
    requires Lawful(a) && Lawful(b) && LexemeOk(x) && x != S(End) && !(x.Sym? && IsPre(x.t))
    ensures Lawful(a + ([x] + b))
  {
    hide Lawful, LexemeOk;
    LawfulOne(x);
    LawfulJoin([x], b);
    LawfulJoin(a, [x] + b);
  }

  lemma LawfulInParens(a: seq<Lexeme>)
    requires Lawful(a)
    ensures Lawful([S(LPar)] + a + [S(RPar)])
  {
    hide Lawful;
    LawfulOne(S(LPar));
    LawfulOne(S(RPar));
    LawfulJoin([S(LPar)], a);
    LawfulJoin([S(LPar)] + a, [S(RPar)]);
  }

  lemma {:induction false} PrintLawful(e: Expr, l: nat)
    requires WellFormed(e)
    ensures Lawful(Print(e, l))
    decreases e, 1
  {
    hide Lawful, Body;
    BodyLawful(e);
    if Prec(e) < l {
      LawfulInParens(Body(e));
    }
  }

  lemma {:induction false} BodyLawful(e: Expr)
    requires WellFormed(e)
    ensures Lawful(Body(e))
    decreases e, 0, 1
  {
    hide *;
    match e
    case Number(_) => LeafLawful(e);
    case Var(_) => LeafLawful(e);
    case Pre(_, _) => LeafLawful(e);
    case Post(_, _) => LeafLawful(e);
    case Unary(_, _) => UnaryLawful(e);
    case Bin(_, _, _) => BinLawful(e);
    case If(_, _, _) => IfLawful(e);
    case Set(_, _) => AssignLawful(e);
    case Update(_, _, _) => AssignLawful(e);
    case Paren(_) => ParenLawful(e);
    case _ => PairLawful(e);
  }

  lemma LeafLawful(e: Expr)
    requires WellFormed(e) && (e.Number? || e.Var? || e.Pre? || e.Post?)
    ensures Lawful(Body(e))
  {
  }

  lemma UnaryLawful(e: Expr)
    requires WellFormed(e) && e.Unary?
    ensures Lawful(Body(e))
    decreases e, 0, 0
  {
    hide Lawful, Print;
    PrintLawful(e.a, UNARY);
    LawfulOne(S(e.uop));
    LawfulJoin([S(e.uop)], Print(e.a, UNARY));
  }

  lemma BinLawful(e: Expr)
    requires WellFormed(e) && e.Bin?
    ensures Lawful(Body(e))
    decreases e, 0, 0
  {
    hide Lawful, Print;
    PrintLawful(e.a, OpLevel(e.op));
    PrintLawful(e.b, OpLevel(e.op) + 1);
    LawfulInfix(Print(e.a, OpLevel(e.op)), S(e.op), Print(e.b, OpLevel(e.op) + 1));
  }

  /** The other operators with two operands, by their levels. */
  lemma PairLawful(e: Expr)
    requires WellFormed(e) && (e.Pwr? || e.And? || e.Or? || e.Seq?)
    ensures Lawful(Body(e))
    decreases e, 0, 0
  {
    hide Lawful, Print;
    var (pa, x, pb) := match e
      case Pwr(_, _) => (UNARY, S(Power), POWER)
      case And(_, _) => (LAND, S(Land), LAND + 1)
      case Or(_, _) => (LOR, S(Lor), LOR + 1)
      case _ => (COMMA, S(Comma), ASSIGN);
    PrintLawful(e.a, pa);
    PrintLawful(e.b, pb);
    LawfulInfix(Print(e.a, pa), x, Print(e.b, pb));
  }

  lemma IfLawful(e: Expr)
    requires WellFormed(e) && e.If?
    ensures Lawful(Body(e))
    decreases e, 0, 0
  {
    hide Lawful, Print;
    PrintLawful(e.c, LOR);
    PrintLawful(e.a, COMMA);
    PrintLawful(e.b, COND);
    LawfulInfix(Print(e.a, COMMA), S(Col), Print(e.b, COND));
    LawfulInfix(Print(e.c, LOR), S(Ques), Print(e.a, COMMA) + ([S(Col)] + Print(e.b, COND)));
  }

  lemma AssignLawful(e: Expr)
    requires WellFormed(e) && (e.Set? || e.Update?)
    ensures Lawful(Body(e))
    decreases e, 0, 0
  {
    hide Lawful, Print;
    PrintLawful(e.a, ASSIGN);
    LawfulOne(Id(e.x));
    LawfulInfix([Id(e.x)], if e.Set? then S(Eq) else Sym(OpAssign, e.op), Print(e.a, ASSIGN));
  }

  lemma ParenLawful(e: Expr)
    requires WellFormed(e) && e.Paren?
    ensures Lawful(Body(e))
    decreases e, 0, 0
  {
    hide Lawful, Print;
    PrintLawful(e.a, COMMA);
    LawfulInParens(Print(e.a, COMMA));
  }

  lemma {:induction false} SpreadAt(ls: seq<Lexeme>, k: nat)
    requires k <= |ls|
    ensures var sp := Spread(ls);
      && sp[k].text == SpreadText(ls[k..])
      && sp[k].lex == (if k < |ls| then ls[k] else S(End)) && sp[k].gap == (if k < |ls| then " " else "")
    decreases |ls|
  {
    if k > 0 {
      SpreadAt(ls[1..], k - 1);
      assert ls[1..][k - 1..] == ls[k..];
    } else {
      assert ls[0..] == ls;
    }
  }

  lemma SpreadSeparated(ls: seq<Lexeme>)
    requires Lawful(ls)
    ensures Separated(Spread(ls))
  {
    var sp := Spread(ls);
    forall k | 0 <= k < |sp|
      ensures SeparatedAt(sp, k)
    {
      SeparatedThere(ls, k);
    }
  }

  lemma SeparatedThere(ls: seq<Lexeme>, k: nat)
    requires Lawful(ls) && k <= |ls|
    ensures SeparatedAt(Spread(ls), k)
  {
    hide Spread, SpreadText, LexemeOk, Fuses, Spell, Lawful;
    SpreadAt(ls, k);
    if k < |ls| {
      LawfulHere(ls, k);
      SpreadAt(ls, k + 1);
      SpreadTextStep(ls, k);
      NothingFuses(ls[k], ls[k + 1..]);
    } else {
      assert ls[k..] == [];
      EndOk();
    }
  }

  lemma LawfulHere(ls: seq<Lexeme>, k: nat)
    requires Lawful(ls) && k < |ls|
    ensures LawfulAt(ls, k)
  {
  }

  lemma SpreadTextStep(ls: seq<Lexeme>, k: nat)
    requires k < |ls|
    ensures SpreadText(ls[k..]) == " " + (Spell(ls[k]) + SpreadText(ls[k + 1..]))
  {
    assert ls[k..][1..] == ls[k + 1..];
  }

  lemma EndOk()
    ensures LexemeOk(S(End)) && !Fuses(S(End), NUL) && Spell(S(End)) == "" && SpreadText([]) == ""
  {
  }

  lemma NothingFuses(x: Lexeme, ls: seq<Lexeme>)
    ensures !Fuses(x, At(SpreadText(ls), 0))
  {
  }

  /** Every well-formed tree is written down by its lexemes with a space before each. */
  lemma EveryTreeIsWritten(e: Expr)
    requires WellFormed(e)
    ensures Writes(Spread(Print(e, COMMA)), e)
  {
    hide WellFormed, Print, Separated, Spread;
    PrintLawful(e, COMMA);
    SpreadSeparated(Print(e, COMMA));
    var ls := Print(e, COMMA);
    forall k | 0 <= k <= |ls|
      ensures Spread(ls)[k].lex == if k < |ls| then ls[k] else S(End)
    {
      SpreadAt(ls, k);
    }
  }

  /** So evalexp computes the meaning of every tree, from its text alone. */
  lemma EvalExpOfEveryTree(e: Expr, m: Vars, s: State)
    requires WellFormed(e) && VarsOk(m) && s.env == Texts(m) && s.stack == []
    ensures var d := Denote(e, m, true, 1);
      !d.Unknown? ==> EvalExp(SpreadText(Print(e, COMMA)), s) == (if d.Value? then Some(d.v) else None, Texts(d.m))
  {
    hide Denote, EvalExp, Writes, Texts, VarsOk, WellFormed, Print;
    EveryTreeIsWritten(e);
    EvalExpIsMeaning(Spread(Print(e, COMMA)), e, m, s);
  }
}
