/** The evaluator computes the meaning of the tree its text writes down. */
module ExprCorrect {
  import opened CStrings
  import opened Int64
  import opened ExprLexer
  import opened ExprMachine
  import opened ExprTree
  import opened ExprLayout
  import opened Options

  // ----- machine steps, independent of trees -----

  lemma ReadExpStep(l: nat, s: State)
    requires l < UNARY
    ensures ReadExp(l, s) == ThenTail(l, ReadExp(l + 1, s))
  {
  }

  lemma {:induction false} Climb(l: nat, p: nat, s: State, v: intmax, s': State)
    requires l <= p <= UNARY
    requires ReadExp(p, s) == Tail(p, v, s') && OpLevel(s'.curtok) <= l
    ensures ReadExp(l, s) == Tail(l, v, s')
    decreases p
  {
    hide ReadExp, Tail;
    if l < p {
      TailStops(p, v, s');
      ReadExpStep(p - 1, s);
      Climb(l, p - 1, s, v, s');
    }
  }

  lemma {:induction false} ClimbFault(l: nat, p: nat, s: State, env: Env)
    requires l <= p <= UNARY
    requires ReadExp(p, s) == Fault(env)
    ensures ReadExp(l, s) == Fault(env)
    decreases p
  {
    if l < p {
      ReadExpStep(p - 1, s);
      ClimbFault(l, p - 1, s, env);
    }
  }

  lemma FromPrimary(s: State)
    requires ReadTok(s).Ok? ==> !IsUnary(ReadTok(s).value.curtok)
    ensures ReadExp(UNARY, s) == ReadExp(PRIMARY, s)
  {
  }

  /** A missing operand: the explicit tests in expcond find nothing exp0 would not. */
  lemma {:induction false} MissingOperand(l: nat, s: State)
    requires l <= PRIMARY && (s.curtok == End || s.curtok == Col)
    ensures Exp(l, s) == Fault(s.env)
    decreases PRIMARY - l
  {
    if l < PRIMARY {
      MissingOperand(l + 1, s);
    }
  }

  function IfDone(v: intmax, r: Outcome<(intmax, State)>): Outcome<(intmax, State)>
  {
    if r.Fault? then r
    else if r.value.1.curtok != Col then Fault(r.value.1.env)
    else Otherwise(v, r.value.0, Lower(r.value.1, v == 0))
  }

  lemma IfStep(v: intmax, s: State)
    requires s.curtok == Ques
    ensures Conditional(v, s) == IfDone(v, ReadExp(COMMA, Raise(s, v == 0)))
  {
    var s1 := ReadTok(Raise(s, v == 0));
    if s1.Ok? && (s1.value.curtok == End || s1.value.curtok == Col) {
      MissingOperand(COMMA, s1.value);
    }
  }

  function ElseDone(v: intmax, v1: intmax, r: Outcome<(intmax, State)>): Outcome<(intmax, State)>
  {
    if r.Fault? then r
    else Ok((if v != 0 then v1 else r.value.0, Lower(r.value.1, v != 0).(lasttok := Cond)))
  }

  lemma ElseStep(v: intmax, v1: intmax, s: State)
    requires s.curtok == Col
    ensures Otherwise(v, v1, s) == ElseDone(v, v1, ReadExp(COND, Raise(s, v != 0)))
  {
    var s1 := ReadTok(Raise(s, v != 0));
    if s1.Ok? && s1.value.curtok == End {
      MissingOperand(COND, s1.value);
    }
  }

  // ----- arithmetic: special cases against exact division -----

  lemma DivisionAgrees(op: Tok, a: intmax, b: intmax)
    requires op == Div || op == Mod
    requires b != 0
    ensures BinaryValue(op, a, b) == Wrap(if op == Div then Quot(a, b) else Rem(a, b))
  {
    if a == INTMAX_MIN && b == -1 {
      assert Quot(a, b) == 0x8000_0000_0000_0000;
      WrapUnique(0x8000_0000_0000_0000, INTMAX_MIN, 1);
      assert Rem(a, b) == 0;
      WrapId(0);
    } else {
      QuotInRange(a, b);
      WrapId(Quot(a, b));
      WrapId(Rem(a, b));
    }
  }

  /** The value a binary turn stores is the operator's exact value reduced to 64 bits. */
  lemma OperateAgrees(live: bool, op: Tok, a: intmax, b: intmax)
    ensures OperateIn(live, op, a, b) ==
      if (op == Div || op == Mod) && b == 0 && live then None
      else Some(BinaryValue(op, a, Divisor(op, b)))
  {
    if op == Div || op == Mod {
      DivisionAgrees(op, a, Divisor(op, b));
    }
  }

  // ----- layouts and what follows an operand -----

  lemma SplitHolds(sp: seq<Spaced>, k: nat, xs: seq<Lexeme>, x: Lexeme, ys: seq<Lexeme>)
    requires Holds(sp, k, xs + ([x] + ys))
    ensures Holds(sp, k, xs) && sp[k + |xs|].lex == x
    ensures Holds(sp, k + |xs| + 1, ys)
  {
    var ls := xs + ([x] + ys);
    assert forall i :: 0 <= i < |xs| ==> ls[i] == xs[i];
    assert ls[|xs|] == x;
    assert forall i :: 0 <= i < |ys| ==> ls[|xs| + 1 + i] == ys[i];
  }

  lemma HoldsAt(sp: seq<Spaced>, k: nat, ls: seq<Lexeme>, i: nat)
    requires Holds(sp, k, ls) && i < |ls|
    ensures sp[k + i].lex == ls[i]
  {
  }

  /** A lexeme that may follow an operand printed at level l.  The levels that take their
      right operand at their own level do not stop before one of their own operators. */
  predicate Follows(l: nat, x: Lexeme)
  {
    && Plain(x) && x.t != Eq
    && (if l in {ASSIGN, COND, POWER} then OpLevel(x.t) < l else OpLevel(x.t) <= l)
  }

  /** About to read an operand at lexeme k: the variables are m. */
  predicate Ready(s: State, sp: seq<Spaced>, k: nat, m: Vars)
  {
    && Ahead(s, sp, k)
    && VarsOk(m) && s.env == Texts(m)
    && s.curtok != Str && s.curtok != Num && !IsPre(s.curtok) && !IsPre(s.lasttok)
  }

  /** An operand has been parsed from s0 and the lexeme k after it read; the variables are m. */
  predicate Reached(s: State, s0: State, sp: seq<Spaced>, k: nat, m: Vars)
  {
    && Separated(sp) && k < |sp| && Plain(sp[k].lex) && s.tp == Text(sp, k + 1)
    && s.curtok == sp[k].lex.t && (s.curtok == OpAssign ==> s.assigntok == sp[k].lex.asg)
    && VarsOk(m) && s.env == Texts(m)
    && s.stack == s0.stack && s.noeval == s0.noeval && !IsPre(s.lasttok)
  }

  lemma ReadyAgain(s: State, s0: State, sp: seq<Spaced>, k: nat, m: Vars)
    requires Reached(s, s0, sp, k, m) && k + 1 < |sp|
    ensures Ready(s, sp, k + 1, m)
  {
    assert SeparatedAt(sp, k);
  }

  /** Parsing from s0 did what the tree means, if its meaning is known. */
  predicate Agrees(r: Outcome<(intmax, State)>, d: Result, l: nat, s0: State, sp: seq<Spaced>, k: nat, s': State)
  {
    match d
    case Failure(m) => r == Fault(Texts(m))
    case Value(v, m) => Reached(s', s0, sp, k, m) && r == Tail(l, v, s')
    case Unknown(_) => true
  }

  function Meaning(e: Expr, m: Vars, s: State): Result { Denote(e, m, s.noeval == 0, |s.stack|) }

  // ----- stored integers -----

  lemma LitLayout(n: nat)
    ensures var sp := [Spaced("", Lit(Decimal(n)), Decimal(n)), Spaced("", S(End), "")]; Separated(sp)
  {
    var sp := [Spaced("", Lit(Decimal(n)), Decimal(n)), Spaced("", S(End), "")];
    assert Decimal(n) == "" + (Decimal(n) + "");
    assert SeparatedAt(sp, 0) && SeparatedAt(sp, 1);
  }

  lemma MinusLayout(n: nat)
    ensures var sp := [Spaced("", S(Minus), "-" + Decimal(n)), Spaced("", Lit(Decimal(n)), Decimal(n)), Spaced("", S(End), "")];
      Separated(sp)
  {
    var sp := [Spaced("", S(Minus), "-" + Decimal(n)), Spaced("", Lit(Decimal(n)), Decimal(n)), Spaced("", S(End), "")];
    assert Decimal(n) == "" + (Decimal(n) + "");
    assert SeparatedAt(sp, 1) && SeparatedAt(sp, 2);
    assert SymText(Minus, End) == "-";
    assert "-" + Decimal(n) == "" + ("-" + Decimal(n));
    assert IsDigit(At(Decimal(n), 0));
    assert SeparatedAt(sp, 0);
  }

  lemma PrintInt(v: intmax)
    ensures WellFormed(IntTree(v))
    ensures Print(IntTree(v), COMMA) == if v < 0 then [S(Minus), Lit(Decimal(0 - v))] else [Lit(Decimal(v))]
  {
    if v < 0 {
      assert Print(Number(Decimal(0 - v)), UNARY) == [Lit(Decimal(0 - v))];
      assert Print(IntTree(v), COMMA) == [S(Minus)] + [Lit(Decimal(0 - v))];
    }
  }

  /** The text of a stored integer is its decimal text. */
  lemma IntBoundOk(v: intmax)
    ensures BoundOk(IntBound(v)) && BoundText(IntBound(v)) == Itos(v)
  {
    hide Separated, Decimal, Print;
    PrintInt(v);
    if v < 0 {
      MinusLayout(0 - v);
    } else {
      LitLayout(v);
    }
  }

  lemma PutAgrees(m: Vars, x: string, v: intmax)
    requires VarsOk(m)
    ensures VarsOk(m[x := IntBound(v)]) && Texts(m[x := IntBound(v)]) == Texts(m)[x := Itos(v)]
  {
    IntBoundOk(v);
  }
}
