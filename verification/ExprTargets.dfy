/** What may stand left of an assignment operator. */
module ExprTargets {
  import opened CStrings
  import opened Int64
  import opened ExprLexer
  import opened ExprMachine
  import opened ExprTree
  import opened ExprLayout
  import opened ExprCorrect
  import opened ExprTheorem
  import opened Options

  /** The current token is a name, and the next token was all that was read behind it. */
  predicate OneName(s: State, s1: State)
  {
    var peek := ReadTok(s.(tokstr := None, noeval := 1));
    && s.curtok == Str && peek.Ok? && peek.value.curtok != PostInc && peek.value.curtok != PostDec
    && ReadTok(s.(assigntok := peek.value.assigntok)) == Ok(s1)
  }

  /** The last thing done was INTMAX_MIN % -1, its right operand being one name: the turn that
      leaves its loop's body early. */
  predicate ModTurn(sm: State, v: intmax, s1: State)
  {
    && sm.curtok == Mod && v == 0 && ReadExp(POWER, sm) == Ok((-1, s1))
    && ReadTok(sm).Ok? && OneName(ReadTok(sm).value, s1)
  }

  /** The test of expassign. */
  predicate Accepted(s1: State) { s1.lasttok == Str && s1.tokstr.Some? }

  // ----- what the levels leave in lasttok -----

  lemma ReadLast(s: State)
    requires ReadTok(s).Ok?
    ensures ReadTok(s).value.lasttok == s.curtok
    ensures ReadTok(s).value.curtok == Str ==> ReadTok(s).value.tokstr.Some?
    ensures ReadTok(s).value.curtok != Str ==> ReadTok(s).value.tokstr == s.tokstr
  {
    hide Lex, SubExpr, StrLong;
    OperatorToken(s.tp, s.curtok, s.lasttok);
  }

  lemma OperatorToken(text: string, curtok: Tok, lasttok: Tok)
    ensures Lex(text, curtok, lasttok).LexOp? ==> Lex(text, curtok, lasttok).tok != Str
  {
    hide SkipSpace, LexOperator, LexWord, LexNumeral;
    var s := SkipSpace(text);
    if s != "" {
      SomeOperator(s, curtok, lasttok);
    }
  }

  lemma SomeOperator(s: string, curtok: Tok, lasttok: Tok)
    requires |s| > 0
    ensures LexOperator(s, curtok, lasttok).LexOp? ==> LexOperator(s, curtok, lasttok).tok != Str
  {
    hide SingleOp;
    SomeSingle(s[0]);
  }

  lemma SomeSingle(c: char)
    ensures SingleOp(c) != Str
  {
  }

  lemma OneNameLast(s: State, s1: State)
    requires OneName(s, s1)
    ensures s1.lasttok == Str && (s1.curtok != Str ==> s1.tokstr == s.tokstr)
  {
    hide ReadTok;
    ReadLast(s.(assigntok := ReadTok(s.(tokstr := None, noeval := 1)).value.assigntok));
  }

  lemma PrimaryLast(s: State)
    requires Exp(PRIMARY, s).Ok? && Exp(PRIMARY, s).value.1.lasttok == Str
    ensures OneName(s, Exp(PRIMARY, s).value.1) && Exp(PRIMARY, s).value.0 == s.tokval
  {
    hide ReadTok, ReadExp, Store, IncDec;
    assert Exp(PRIMARY, s) == Exp0(s);
    var s1 := Exp(PRIMARY, s).value.1;
    if IsPre(s.curtok) {
      PrefixLast(s);
    } else if s.curtok == LPar {
      ReadLast(ReadExp(COMMA, s).value.1);
    } else if s.curtok == Num {
      ReadLast(s);
    } else {
      NameLast(s);
    }
  }

  lemma PrefixLast(s: State)
    requires IsPre(s.curtok) && PreIncDec(s).Ok?
    ensures PreIncDec(s).value.1.lasttok == Num
  {
    hide ReadTok, Store, IncDec;
    var s1 := ReadTok(s.(lasttok := s.curtok)).value;
    ReadLast(Store(s1, s1.tokstr, IncDec(s.curtok, s1.tokval)).(curtok := Num));
  }

  lemma NameLast(s: State)
    requires s.curtok == Str && Exp(PRIMARY, s).Ok? && Exp(PRIMARY, s).value.1.lasttok == Str
    ensures OneName(s, Exp(PRIMARY, s).value.1) && Exp(PRIMARY, s).value.0 == s.tokval
  {
    hide ReadTok, Exp, Name, Store, IncDec;
    NameStep(s);
    var peek := ReadTok(s.(tokstr := None, noeval := 1));
    if peek.value.curtok == PostInc || peek.value.curtok == PostDec {
      var s1 := peek.value.(tokstr := s.tokstr, noeval := s.noeval, lasttok := Str);
      ReadLast(Store(s1, s.tokstr, IncDec(peek.value.curtok, s.tokval)).(curtok := Num));
    }
  }

  lemma UnaryLast(s: State)
    requires Exp(UNARY, s).Ok? && Exp(UNARY, s).value.1.lasttok == Str
    ensures OneName(s, Exp(UNARY, s).value.1) && Exp(UNARY, s).value.0 == s.tokval
  {
    hide ReadExp, UnaryValue, OneName, Exp0;
    if !IsUnary(s.curtok) {
      assert Exp(UNARY, s) == Exp(PRIMARY, s);
      PrimaryLast(s);
    }
  }

  lemma {:induction false} PowerTailLast(v: intmax, s: State)
    requires Tail(POWER, v, s).Ok? && Tail(POWER, v, s).value.1.lasttok == Str
    ensures Tail(POWER, v, s) == Ok((v, s))
    decreases ExprMachine.Left(s)
  {
    hide ReadExp, Wrap, Pow;
    if s.curtok == Power {
      var (v2, s1) := ReadExp(POWER, s).value;
      if v2 > 0 {
        PowerTailLast(Wrap(Pow(v, v2)), s1.(lasttok := Num));
      }
    }
  }

  lemma PowerLast(s: State)
    requires Exp(POWER, s).Ok? && Exp(POWER, s).value.1.lasttok == Str
    ensures OneName(s, Exp(POWER, s).value.1) && Exp(POWER, s).value.0 == s.tokval
  {
    hide Exp, Tail, OneName;
    ExpStep(POWER, s);
    var (v, s1) := Exp(UNARY, s).value;
    PowerTailLast(v, s1);
    UnaryLast(s);
  }

  /** The loops of the binary levels and of the logical ones: nothing was done, or the last
      turn was INTMAX_MIN % -1. */
  lemma {:induction false} LoopLast(l: nat, v: intmax, s: State) returns (sm: State)
    requires LOR <= l <= PRODUCT && Tail(l, v, s).Ok? && Tail(l, v, s).value.1.lasttok == Str
    ensures Tail(l, v, s) == Ok((v, s)) || ModTurn(sm, Tail(l, v, s).value.0, Tail(l, v, s).value.1)
    decreases ExprMachine.Left(s)
  {
    hide ReadExp, Exp, Tail, Logical, Binary, ModTurn;
    sm := s;
    if !Continues(l, s.curtok) {
      TailStops(l, v, s);
    } else if l == LOR || l == LAND {
      TailTurns(l, v, s);
      LogicalLast(l, v, s);
      var (v2, s2) := Logical(l, v, s).value;
      sm := LoopLast(l, v2, s2);
    } else {
      TailTurns(l, v, s);
      BinaryLast(l, v, s);
      var (v2, s2) := Binary(l, v, s).value;
      sm := LoopLast(l, v2, s2);
      if Tail(l, v2, s2) == Ok((v2, s2)) {
        sm := s;
      }
    }
  }

  lemma LogicalLast(l: nat, v: intmax, s: State)
    requires (l == LOR || l == LAND) && s.curtok == LogicalTok(l) && Logical(l, v, s).Ok?
    ensures Logical(l, v, s).value.1.lasttok == LogicalTok(l)
  {
    hide ReadExp;
  }

  lemma BinaryLast(l: nat, v: intmax, s: State)
    requires BOR <= l <= PRODUCT && OpLevel(s.curtok) == l && Binary(l, v, s).Ok?
    ensures Binary(l, v, s).value.1.lasttok == Str ==> ModTurn(s, Binary(l, v, s).value.0, Binary(l, v, s).value.1)
  {
    hide ReadExp, BinaryValue, OneName;
    var (v2, s2) := Binary(l, v, s).value;
    if s2.lasttok == Str {
      assert s.curtok == Mod && l == PRODUCT;
      assert ReadExp(POWER, s) == Ok((-1, s2));
      RightName(s, s2);
    }
  }

  lemma RightName(s: State, s2: State)
    requires ReadExp(POWER, s) == Ok((-1, s2)) && s2.lasttok == Str
    ensures ReadTok(s).Ok? && OneName(ReadTok(s).value, s2)
  {
    hide ReadTok, Exp, OneName;
    PowerLast(ReadTok(s).value);
  }

  lemma CondLast(v: intmax, s: State)
    requires s.curtok == Ques && Conditional(v, s).Ok?
    ensures Conditional(v, s).value.1.lasttok == Cond
  {
    hide ReadTok, Exp;
  }

  /** Every level from the conditional on: a name is the last token only if the whole operand
      was one name, or its last operator left its loop early. */
  lemma {:induction false} OperandLast(l: nat, s: State) returns (sm: State)
    requires COND <= l <= PRODUCT + 1 && Exp(l, s).Ok? && Exp(l, s).value.1.lasttok == Str
    ensures var (v, s1) := Exp(l, s).value;
      (OneName(s, s1) && v == s.tokval) || ModTurn(sm, v, s1)
    decreases POWER - l
  {
    hide Exp, Tail, OneName, ModTurn, Conditional;
    sm := s;
    if l > PRODUCT {
      PowerLast(s);
    } else {
      ExpStep(l, s);
      var (v, s1) := Exp(l + 1, s).value;
      var sm1 := s;
      if l == COND {
        CondTailLast(v, s1);
      } else {
        sm1 := LoopLast(l, v, s1);
      }
      if Tail(l, v, s1) == Ok((v, s1)) {
        sm := OperandLast(l + 1, s);
      } else {
        sm := sm1;
      }
    }
  }

  lemma CondTailLast(v: intmax, s: State)
    requires Tail(COND, v, s).Ok? && Tail(COND, v, s).value.1.lasttok == Str
    ensures Tail(COND, v, s) == Ok((v, s))
  {
    hide Tail, Conditional;
    if s.curtok == Ques {
      TailTurns(COND, v, s);
      CondLast(v, s);
    } else {
      TailStops(COND, v, s);
    }
  }

  // ----- the law -----

  /** An assignment is accepted exactly when its left side is one name, or ends in an
      INTMAX_MIN % -1 whose right operand is one name; otherwise it is an error, and no
      variable is assigned by it. */
  lemma TargetsExactly(s0: State, s: State, v: intmax, s1: State)
    requires ReadTok(s0) == Ok(s) && Exp(COND, s) == Ok((v, s1)) && (s1.curtok == Eq || s1.curtok == OpAssign)
    ensures Accepted(s1) <==> OneName(s, s1) || exists sm :: ModTurn(sm, v, s1)
    ensures !Accepted(s1) ==> ReadExp(ASSIGN, s0) == Fault(s1.env)
  {
    hide ReadTok, Exp, OneName, ModTurn, Assign, Tail;
    if s1.lasttok == Str {
      var sm := OperandLast(COND, s);
    }
    if OneName(s, s1) {
      NamedTarget(s0, s, s1);
    }
    forall sm | ModTurn(sm, v, s1)
      ensures Accepted(s1)
    {
      ModTarget(sm, v, s1);
    }
    if !Accepted(s1) {
      Rejected(s0, s, v, s1);
    }
  }

  lemma NamedTarget(s0: State, s: State, s1: State)
    requires ReadTok(s0) == Ok(s) && OneName(s, s1) && s1.curtok != Str
    ensures Accepted(s1)
  {
    hide ReadTok;
    ReadLast(s0);
    OneNameLast(s, s1);
  }

  lemma ModTarget(sm: State, v: intmax, s1: State)
    requires ModTurn(sm, v, s1) && s1.curtok != Str
    ensures Accepted(s1)
  {
    hide ReadTok, ReadExp, OneName;
    NamedTarget(sm, ReadTok(sm).value, s1);
  }

  lemma Rejected(s0: State, s: State, v: intmax, s1: State)
    requires ReadTok(s0) == Ok(s) && Exp(COND, s) == Ok((v, s1)) && (s1.curtok == Eq || s1.curtok == OpAssign) && !Accepted(s1)
    ensures ReadExp(ASSIGN, s0) == Fault(s1.env)
  {
    hide ReadTok, Exp;
    ExpStep(ASSIGN, s);
    assert Tail(ASSIGN, v, s1) == Assign(v, s1);
  }

  /** A left side that begins a name it does not end with, a parenthesis, a number, ++ or --
      and is no more than that primary. */
  lemma PrimaryRejected(s0: State, s: State, v: intmax, s1: State)
    requires ReadTok(s0) == Ok(s) && Exp(PRIMARY, s) == Ok((v, s1)) && (s1.curtok == Eq || s1.curtok == OpAssign)
    requires !IsUnary(s.curtok) && !OneName(s, s1)
    ensures ReadExp(ASSIGN, s0) == Fault(s1.env)
  {
    hide ReadTok, Exp, OneName;
    FromPrimary(s0);
    if s1.lasttok == Str {
      PrimaryLast(s);
    }
    Climb(COND, UNARY, s0, v, s1);
    TailStops(UNARY, v, s1);
    TailStops(COND, v, s1);
    Rejected(s0, s, v, s1);
  }

  /** c ? a : b = 3 is an error, whatever c, a and b are. */
  lemma ConditionalRejected(s0: State, s: State, c: intmax, sq: State, v: intmax, s1: State)
    requires ReadTok(s0) == Ok(s) && Exp(LOR, s) == Ok((c, sq)) && sq.curtok == Ques
    requires Exp(COND, s) == Ok((v, s1)) && (s1.curtok == Eq || s1.curtok == OpAssign)
    ensures ReadExp(ASSIGN, s0) == Fault(s1.env)
  {
    hide ReadTok, Exp, Tail, Conditional;
    ExpStep(COND, s);
    TailTurns(COND, c, sq);
    CondLast(c, sq);
    Rejected(s0, s, v, s1);
  }

  // ----- the exception, on texts -----

  /** l % y op= a is laid out from k on. */
  predicate ModAssignment(sp: seq<Spaced>, k: nat, l: Expr, y: string, op: Tok, a: Expr)
  {
    var kl := k + |Print(l, PRODUCT)|;
    && kl + 3 < |sp| && WellFormed(l) && IsAssignOp(op) && Holds(sp, k, Print(l, PRODUCT))
    && sp[kl].lex == S(Mod) && sp[kl + 1].lex == Id(y) && sp[kl + 2].lex == Sym(OpAssign, op) && Rhs(sp, kl + 3, a)
  }

  lemma ModOperands(sp: seq<Spaced>, k: nat, l: Expr, y: string, op: Tok, a: Expr)
    requires ModAssignment(sp, k, l, y, op, a)
    ensures var kl := k + |Print(l, PRODUCT)|;
      && kl + 3 < |sp| && Follows(PRODUCT, sp[kl].lex) && sp[kl].lex.t == Mod
      && sp[kl + 1].lex == Id(y) && Plain(sp[kl + 2].lex) && sp[kl + 2].lex == Sym(OpAssign, op) && IsAssignOp(op)
    ensures var ka := k + |Print(l, PRODUCT)| + 3;
      && WellFormed(l) && Holds(sp, k, Print(l, PRODUCT)) && WellFormed(a) && Holds(sp, ka, Print(a, ASSIGN))
      && ka + |Print(a, ASSIGN)| < |sp| && Follows(ASSIGN, sp[ka + |Print(a, ASSIGN)|].lex)
  {
    hide Print, WellFormed, Holds;
  }

  /** The name right of the operator is the whole operand, and the state stands at op=. */
  lemma NameOperand(s1: State, d2: Result, op: Tok, sp: seq<Spaced>, k: nat, s2: State)
    requires Agrees(ReadExp(UNARY, s1), d2, UNARY, s1, sp, k, s2) && d2.Value? && k + 1 < |sp| && sp[k].lex == Sym(OpAssign, op)
    ensures ReadExp(POWER, s1) == Ok((d2.v, s2)) && s2.curtok == OpAssign && s2.assigntok == op
    ensures SameLevel(s2, s1) && Ready(s2, sp, k + 1, d2.m)
  {
    hide ReadExp, Tail, Texts, VarsOk, Separated, Text;
    LiftAgrees(POWER, UNARY, s1, d2, sp, k, s2);
    TailStops(POWER, d2.v, s2);
    ReadyAgain(s2, s1, sp, k, d2.m);
  }

  lemma LeftEarly(s0: State, s1: State, s2: State)
    requires ReadExp(PRODUCT, s0) == Tail(PRODUCT, INTMAX_MIN, s1) == Tail(PRODUCT, BinaryValue(Mod, INTMAX_MIN, -1), s2)
    requires s2.curtok == OpAssign
    ensures ReadExp(ASSIGN, s0) == Tail(ASSIGN, 0, s2)
  {
    hide ReadExp, Tail;
    TailStops(PRODUCT, 0, s2);
    Climb(ASSIGN, PRODUCT, s0, 0, s2);
  }

  lemma TurnEnds(s0: State, v: intmax, v2: intmax, s2: State)
    requires s2.curtok == OpAssign && !(v == INTMAX_MIN && v2 == -1)
    requires ReadExp(PRODUCT, s0) ==
      if ZeroDivide(Mod, v2, s2) then Fault(s2.env) else Tail(PRODUCT, BinaryValue(Mod, v, Divisor(Mod, v2)), BinState(Mod, v, v2, s2))
    ensures ReadExp(ASSIGN, s0).Fault?
  {
    hide ReadExp, Tail, BinaryValue;
    if ZeroDivide(Mod, v2, s2) {
      ClimbFault(ASSIGN, PRODUCT, s0, s2.env);
    } else {
      var w, s3 := BinaryValue(Mod, v, Divisor(Mod, v2)), s2.(lasttok := Num);
      TailStops(PRODUCT, w, s3);
      Climb(ASSIGN, PRODUCT, s0, w, s3);
      AssignFails(w, s3);
    }
  }

  lemma AssignFails(v: intmax, s: State)
    requires (s.curtok == Eq || s.curtok == OpAssign) && !Accepted(s)
    ensures Tail(ASSIGN, v, s) == Fault(s.env)
  {
    hide ReadExp;
    assert Tail(ASSIGN, v, s) == Assign(v, s);
  }

  /** l % y has been read and stands before op=. */
  predicate ModRead(s0: State, v: intmax, s1: State, v2: intmax, s2: State, op: Tok, y: string)
  {
    && ReadExp(PRODUCT, s0) == Tail(PRODUCT, v, s1) && s1.curtok == Mod && ReadExp(POWER, s1) == Ok((v2, s2))
    && s2.curtok == OpAssign && s2.assigntok == op && s2.lasttok == Str && s2.tokstr == Some(y)
    && SameLevel(s1, s0) && SameLevel(s2, s1)
  }

  lemma ReadMod(l: Expr, y: string, op: Tok, a: Expr, s0: State, sp: seq<Spaced>, k: nat, m: Vars) returns (s1: State, s2: State)
    requires Ready(s0, sp, k, m) && s0.noeval == 0 && ModAssignment(sp, k, l, y, op, a)
    requires Meaning(l, m, s0).Value? && ReadVar(y, Meaning(l, m, s0).m, true, |s0.stack|).Value?
    ensures var d1 := Meaning(l, m, s0);
      var d2 := ReadVar(y, d1.m, true, |s0.stack|);
      ModRead(s0, d1.v, s1, d2.v, s2, op, y) && Ready(s2, sp, k + |Print(l, PRODUCT)| + 3, d2.m)
  {
    hide ReadTok, Exp, Tail, ReadExp, Denote, ReadVar, Print, Holds, WellFormed, Texts, VarsOk, Agrees, Ready, Text, Separated,
      Follows, Plain, ModAssignment, Reached;
    var d1 := Meaning(l, m, s0);
    var d2 := ReadVar(y, d1.m, true, |s0.stack|);
    var kl := k + |Print(l, PRODUCT)|;
    ModOperands(sp, k, l, y, op, a);
    s1 := Parse(PRODUCT, l, s0, sp, k, m);
    AgreedThen(ReadExp(PRODUCT, s0), d1, PRODUCT, s0, sp, kl, s1);
    CurrentOp(s1, s0, sp, kl, d1.m);
    s2 := CaseVar(y, s1, sp, kl + 1, d1.m);
    NameOperand(s1, d2, op, sp, kl + 2, s2);
  }

  lemma TurnOfMod(s0: State, v: intmax, s1: State, v2: intmax, s2: State, op: Tok, y: string)
    requires ModRead(s0, v, s1, v2, s2, op, y)
    ensures if v == INTMAX_MIN && v2 == -1 then ReadExp(ASSIGN, s0) == Tail(ASSIGN, 0, s2) else ReadExp(ASSIGN, s0).Fault?
  {
    hide ReadExp, Tail, BinaryValue;
    BinStep(PRODUCT, v, s1, v2, s2);
    if v == INTMAX_MIN && v2 == -1 {
      LeftEarly(s0, s1, s2);
    } else {
      TurnEnds(s0, v, v2, s2);
    }
  }

  /** What op= stores from a left side worth 0. */
  function FromZero(op: Tok, y: string, d: Result): Result
  {
    if !d.Value? then d else Stored(true, OperateIn(true, op, 0, d.v), y, d.m)
  }

  lemma ZeroAssigned(s0: State, s2: State, y: string, op: Tok, a: Expr, sp: seq<Spaced>, k: nat, m: Vars) returns (s': State)
    requires Ready(s2, sp, k, m) && Rhs(sp, k, a) && IsAssignOp(op) && s0.noeval == 0 && SameLevel(s2, s0)
    requires s2.curtok == OpAssign && s2.assigntok == op && s2.lasttok == Str && s2.tokstr == Some(y)
    requires ReadExp(ASSIGN, s0) == Tail(ASSIGN, 0, s2)
    ensures Agrees(ReadExp(ASSIGN, s0), FromZero(op, y, Meaning(a, m, s0)), ASSIGN, s0, sp, k + |Print(a, ASSIGN)|, s')
  {
    hide ReadTok, Exp, Tail, ReadExp, Denote, Print, Holds, WellFormed, Agrees, Ready, Follows, OperateIn, Stored, Meaning;
    var ke := k + |Print(a, ASSIGN)|;
    var s3 := Parse(ASSIGN, a, s2, sp, k, m);
    s' := UpdateAgrees(0, s2, y, Meaning(a, m, s2), sp, ke, s3);
    SameMeaning(a, m, s2, s0);
    RebaseAgrees(ReadExp(ASSIGN, s0), FromZero(op, y, Meaning(a, m, s0)), ASSIGN, s2, s0, sp, ke, s');
  }

  /** l % y op= a, with evaluation on: when l is INTMAX_MIN and y is -1, y becomes 0 op a;
      otherwise it is an error. */
  lemma ModAssigns(l: Expr, y: string, op: Tok, a: Expr, s0: State, sp: seq<Spaced>, k: nat, m: Vars) returns (s': State)
    requires Ready(s0, sp, k, m) && s0.noeval == 0 && ModAssignment(sp, k, l, y, op, a)
    requires Meaning(l, m, s0).Value? && ReadVar(y, Meaning(l, m, s0).m, true, |s0.stack|).Value?
    ensures var d1 := Meaning(l, m, s0);
      var d2 := ReadVar(y, d1.m, true, |s0.stack|);
      if d1.v == INTMAX_MIN && d2.v == -1 then
        Agrees(ReadExp(ASSIGN, s0), FromZero(op, y, Meaning(a, d2.m, s0)), ASSIGN, s0, sp,
               k + |Print(l, PRODUCT)| + 3 + |Print(a, ASSIGN)|, s')
      else ReadExp(ASSIGN, s0).Fault?
  {
    hide ReadTok, Exp, Tail, ReadExp, Denote, ReadVar, Print, Holds, WellFormed, Agrees, Ready, Meaning, FromZero, Follows;
    var d1 := Meaning(l, m, s0);
    var d2 := ReadVar(y, d1.m, true, |s0.stack|);
    var s1, s2 := ReadMod(l, y, op, a, s0, sp, k, m);
    TurnOfMod(s0, d1.v, s1, d2.v, s2, op, y);
    s' := s2;
    if d1.v == INTMAX_MIN && d2.v == -1 {
      s' := ZeroAssigned(s0, s2, y, op, a, sp, k + |Print(l, PRODUCT)| + 3, d2.m);
    }
  }

  /** The same for evalexp on the whole text. */
  lemma ModAssignmentEvaluates(l: Expr, y: string, op: Tok, a: Expr, sp: seq<Spaced>, m: Vars, s: State)
    requires Separated(sp) && ModAssignment(sp, 0, l, y, op, a)
    requires var ke := |Print(l, PRODUCT)| + 3 + |Print(a, ASSIGN)|; ke < |sp| && sp[ke].lex == S(End)
    requires VarsOk(m) && s.env == Texts(m) && s.stack == []
    requires Denote(l, m, true, 1).Value? && ReadVar(y, Denote(l, m, true, 1).m, true, 1).Value?
    ensures var d1 := Denote(l, m, true, 1);
      var d2 := ReadVar(y, d1.m, true, 1);
      var d, r := FromZero(op, y, Denote(a, d2.m, true, 1)), EvalExp(Text(sp, 0), s);
      if d1.v == INTMAX_MIN && d2.v == -1 then !d.Unknown? ==> r == (if d.Value? then Some(d.v) else None, Texts(d.m))
      else r.0 == None
  {
    hide ReadTok, Exp, Tail, ReadExp, Denote, ReadVar, Print, VarsOk, Texts, ModAssignment, FromZero, Separated, IsBlank, Agrees;
    ModBounds(sp, l, y, op, a);
    LaidOutText(sp);
    var s0 := Enter(Text(sp, 0), s.(noeval := 0));
    var s1 := ModAssigns(l, y, op, a, s0, sp, 0, m);
    var d1 := Denote(l, m, true, 1);
    var d2 := ReadVar(y, d1.m, true, 1);
    if d1.v == INTMAX_MIN && d2.v == -1 {
      var ke := |Print(l, PRODUCT)| + 3 + |Print(a, ASSIGN)|;
      var d := FromZero(op, y, Denote(a, d2.m, true, 1));
      LiftAgrees(COMMA, ASSIGN, s0, d, sp, ke, s1);
      AgreesParts(ReadExp(COMMA, s0), d, COMMA, s0, sp, ke, s1);
      if d.Value? {
        AtEnd(s1, s0, d.v, sp, ke, d.m);
      }
    } else {
      ClimbFault(COMMA, ASSIGN, s0, ReadExp(ASSIGN, s0).env);
    }
  }

  lemma ModBounds(sp: seq<Spaced>, l: Expr, y: string, op: Tok, a: Expr)
    requires ModAssignment(sp, 0, l, y, op, a)
    ensures |sp| > 3
  {
  }

  lemma AtEnd(s1: State, s0: State, v: intmax, sp: seq<Spaced>, k: nat, m: Vars)
    requires Reached(s1, s0, sp, k, m) && sp[k].lex == S(End)
    ensures Tail(COMMA, v, s1) == Ok((v, s1)) && s1.curtok == End && s1.env == Texts(m) && s1.stack == s0.stack
  {
  }
}
