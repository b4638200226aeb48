/** The main theorem: one lemma per kind of tree, by induction on recursion room and tree. */
module ExprTheorem {
  import opened CStrings
  import opened Int64
  import opened ExprLexer
  import opened ExprMachine
  import opened ExprTree
  import opened ExprLayout
  import opened ExprCorrect
  import opened Options

  // ----- operands and operators, without trees -----

  /** From the level a tree is parsed at to the looser level it was asked for. */
  lemma LiftAgrees(l: nat, p: nat, s0: State, d: Result, sp: seq<Spaced>, k: nat, s': State)
    requires l <= p <= UNARY && Agrees(ReadExp(p, s0), d, p, s0, sp, k, s')
    requires k < |sp| && sp[k].lex.Sym? && OpLevel(sp[k].lex.t) <= l
    ensures Agrees(ReadExp(l, s0), d, l, s0, sp, k, s')
  {
    hide ReadExp, Tail, Texts;
    match d
    case Failure(m) => ClimbFault(l, p, s0, Texts(m));
    case Value(v, m) => Climb(l, p, s0, v, s');
    case Unknown(_) =>
  }

  lemma NumPrimary(s: State, sp: seq<Spaced>, k: nat)
    requires s.curtok == Num && Ahead(s, sp, k) && Plain(sp[k].lex)
    ensures Exp(PRIMARY, s) == Ok((s.tokval, AfterSym(s, sp[k].lex, Text(sp, k + 1))))
  {
    hide ReadTok;
    ReadPlain(s, sp, k);
  }

  /** exp0 on a name that is the current token, its look ahead being r. */
  function NameWith(s: State, r: Outcome<State>): Outcome<(intmax, State)>
  {
    var peek :- r;
    var s1 :- ReadTok(
      if peek.curtok == PostInc || peek.curtok == PostDec then
        Store(peek.(tokstr := s.tokstr, noeval := s.noeval, lasttok := Str), s.tokstr, IncDec(peek.curtok, s.tokval)).(curtok := Num)
      else s.(assigntok := peek.assigntok));
    Ok((s.tokval, s1))
  }

  lemma NameStep(s: State)
    requires s.curtok == Str
    ensures Exp(PRIMARY, s) == NameWith(s, ReadTok(s.(tokstr := None, noeval := 1)))
  {
    hide ReadTok, Store, IncDec;
    assert Exp(PRIMARY, s) == Name(s);
  }

  /** A name already read as curtok: exp0 looks past it and leaves the follower read. */
  lemma NamePrimary(s: State, sp: seq<Spaced>, k: nat)
    requires s.curtok == Str && Ahead(s, sp, k) && Plain(sp[k].lex)
    ensures Exp(PRIMARY, s) == Ok((s.tokval, AfterSym(s, sp[k].lex, Text(sp, k + 1))))
  {
    hide ReadTok, Exp, Name, Separated, Text, Store;
    NameStep(s);
    var p := s.(tokstr := None, noeval := 1);
    ReadPlain(p, sp, k);
    var q := s.(assigntok := ReadTok(p).value.assigntok);
    ReadPlain(q, sp, k);
  }

  lemma PrimaryFault(s0: State, s1: State, env: Env)
    requires ReadTok(s0) == Ok(s1) && !IsUnary(s1.curtok) && Exp(PRIMARY, s1) == Fault(env)
    ensures ReadExp(UNARY, s0) == Fault(env)
  {
    hide ReadTok;
    FromPrimary(s0);
  }

  lemma ReadFault(s0: State, env: Env)
    requires ReadTok(s0) == Fault(env)
    ensures ReadExp(UNARY, s0) == Fault(env)
  {
  }

  /** A primary of value v has been parsed: nothing is left to do at the unary level. */
  lemma PrimarySolved(s0: State, s1: State, v: intmax, m: Vars, sp: seq<Spaced>, k: nat, s': State)
    requires ReadTok(s0) == Ok(s1) && !IsUnary(s1.curtok)
    requires Exp(PRIMARY, s1) == Ok((v, s')) && Reached(s', s0, sp, k, m)
    ensures Agrees(ReadExp(UNARY, s0), Value(v, m), UNARY, s0, sp, k, s')
  {
    hide ReadTok, Reached;
    TailStops(UNARY, v, s');
    FromPrimary(s0);
  }

  /** A variable's name has been read and its value fetched. */
  predicate TargetRead(s: State, s0: State, x: string, v: intmax, m: Vars, rest: string)
  {
    && s.curtok == Str && s.lasttok == s0.curtok && s.tokval == v && s.tokstr == Some(x)
    && VarsOk(m) && s.env == Texts(m) && s.tp == rest && s.stack == s0.stack && s.noeval == s0.noeval
  }

  lemma StoreAgrees(s: State, x: string, v: intmax, m: Vars)
    requires VarsOk(m) && s.env == Texts(m)
    ensures var m1 := Put(s.noeval == 0, m, x, v);
      VarsOk(m1) && Store(s, Some(x), v) == s.(env := Texts(m1))
  {
    PutAgrees(m, x, v);
  }

  /** The follower of an operand has been read from s. */
  lemma ReachedBy(s: State, s0: State, sp: seq<Spaced>, k: nat, m: Vars)
    requires Ahead(s, sp, k) && Plain(sp[k].lex)
    requires VarsOk(m) && s.env == Texts(m) && s.stack == s0.stack && s.noeval == s0.noeval && !IsPre(s.curtok)
    ensures ReadTok(s) == Ok(AfterSym(s, sp[k].lex, Text(sp, k + 1)))
    ensures Reached(AfterSym(s, sp[k].lex, Text(sp, k + 1)), s0, sp, k, m)
  {
    hide ReadTok, VarsOk, Texts;
    ReadPlain(s, sp, k);
  }

  /** exp0 on ++x or --x: the operator is the current token, s1 has read the target. */
  lemma PreAgrees(s: State, s1: State, v: intmax, x: string, m: Vars, sp: seq<Spaced>, k: nat) returns (s': State)
    requires IsPre(s.curtok) && ReadTok(s.(lasttok := s.curtok)) == Ok(s1)
    requires k < |sp| && Separated(sp) && Plain(sp[k].lex)
    requires TargetRead(s1, s, x, v, m, Text(sp, k))
    ensures var w := IncDec(s.curtok, v);
      Exp(PRIMARY, s) == Ok((w, s')) && Reached(s', s, sp, k, Put(s.noeval == 0, m, x, w))
  {
    hide ReadTok, Put, VarsOk, Texts, Store, IncDec, Reached;
    var w := IncDec(s.curtok, v);
    StoreAgrees(s1, x, w, m);
    var s2 := Store(s1, s1.tokstr, w).(curtok := Num);
    ReachedBy(s2, s, sp, k, Put(s.noeval == 0, m, x, w));
    s' := AfterSym(s2, sp[k].lex, Text(sp, k + 1));
    assert Exp(PRIMARY, s) == PreIncDec(s);
  }

  lemma PreFault(s0: State, s: State, env: Env)
    requires ReadTok(s0) == Ok(s) && IsPre(s.curtok) && ReadTok(s.(lasttok := s.curtok)) == Fault(env)
    ensures ReadExp(UNARY, s0) == Fault(env)
  {
    hide ReadTok;
    assert PreIncDec(s) == Fault(env);
    assert Exp(PRIMARY, s) == PreIncDec(s);
    PrimaryFault(s0, s, env);
  }

  /** exp0 on x++ or x--: the name is the current token and its value has been read. */
  lemma PostAgrees(s: State, s0: State, v: intmax, x: string, m: Vars, sp: seq<Spaced>, k: nat) returns (s': State)
    requires k + 1 < |sp| && Separated(sp) && Plain(sp[k + 1].lex)
    requires sp[k].lex == S(PostInc) || sp[k].lex == S(PostDec)
    requires TargetRead(s, s0, x, v, m, Text(sp, k))
    ensures Exp(PRIMARY, s) == Ok((v, s'))
    ensures Reached(s', s0, sp, k + 1, Put(s0.noeval == 0, m, x, IncDec(sp[k].lex.t, v)))
  {
    hide ReadTok, Put, VarsOk, Texts, Store, IncDec, Reached, Separated, Text, Exp, Name;
    NameStep(s);
    var w := IncDec(sp[k].lex.t, v);
    ReadSym(s.(tokstr := None, noeval := 1), sp, k);
    var s1 := s.(tp := Text(sp, k + 1), curtok := sp[k].lex.t, lasttok := Str);
    StoreAgrees(s1, x, w, m);
    var s2 := Store(s1, s.tokstr, w).(curtok := Num);
    ReachedBy(s2, s0, sp, k + 1, Put(s0.noeval == 0, m, x, w));
    s' := AfterSym(s2, sp[k + 1].lex, Text(sp, k + 2));
  }

  /** exp1 after a unary operator has been read. */
  lemma UnaryAgrees(s0: State, s1: State, d: Result, sp: seq<Spaced>, k: nat, s2: State)
    requires ReadTok(s0) == Ok(s1) && IsUnary(s1.curtok) && s1.stack == s0.stack && s1.noeval == s0.noeval
    requires Agrees(ReadExp(UNARY, s1), d, UNARY, s1, sp, k, s2)
    ensures Agrees(ReadExp(UNARY, s0),
                   if !d.Value? then d else Value(UnaryValue(s1.curtok, d.v), d.m), UNARY, s0, sp, k, s2.(lasttok := Num))
  {
    hide ReadTok, UnaryValue, VarsOk, Texts;
    if d.Value? {
      TailStops(UNARY, d.v, s2);
      TailStops(UNARY, UnaryValue(s1.curtok, d.v), s2.(lasttok := Num));
    }
    assert ReadExp(UNARY, s0) == Exp(UNARY, s1);
  }

  // ----- binary operators -----

  /** lasttok after one turn of a binary loop. */
  function BinState(op: Tok, v: intmax, v2: intmax, s: State): State
  {
    if op == Mod && v == INTMAX_MIN && v2 == -1 then s else s.(lasttok := Num)
  }

  lemma BinStep(l: nat, v: intmax, s: State, v2: intmax, s2: State)
    requires BOR <= l <= PRODUCT && OpLevel(s.curtok) == l
    requires ReadExp(l + 1, s) == Ok((v2, s2))
    ensures Tail(l, v, s) ==
      if ZeroDivide(s.curtok, v2, s2) then Fault(s2.env)
      else Tail(l, BinaryValue(s.curtok, v, Divisor(s.curtok, v2)), BinState(s.curtok, v, v2, s2))
  {
    hide ReadExp, ReadTok, Exp;
    var r := Binary(l, v, s);
  }

  lemma BinStepFault(l: nat, v: intmax, s: State, env: Env)
    requires BOR <= l <= PRODUCT && OpLevel(s.curtok) == l
    requires ReadExp(l + 1, s) == Fault(env)
    ensures Tail(l, v, s) == Fault(env)
  {
    hide ReadExp, ReadTok, Exp;
    var r := Binary(l, v, s);
  }

  /** A binary turn from parsed operands. */
  lemma BinAgrees(p: nat, v: intmax, s1: State, d: Result, sp: seq<Spaced>, k: nat, s2: State) returns (s': State)
    requires BOR <= p <= PRODUCT && OpLevel(s1.curtok) == p
    requires Agrees(ReadExp(p + 1, s1), d, p + 1, s1, sp, k, s2)
    requires k < |sp| && Follows(p, sp[k].lex)
    ensures Agrees(Tail(p, v, s1),
                   if !d.Value? then d else FromOption(OperateIn(s1.noeval == 0, s1.curtok, v, d.v), d.m), p, s1, sp, k, s')
  {
    hide ReadExp, Tail, BinaryValue, OperateIn, Texts, VarsOk, Separated, Text, SeparatedAt, Ahead, Room;
    s' := s2;
    if d.Failure? {
      BinStepFault(p, v, s1, Texts(d.m));
    } else if d.Value? {
      TailStops(p + 1, d.v, s2);
      BinStep(p, v, s1, d.v, s2);
      OperateAgrees(s1.noeval == 0, s1.curtok, v, d.v);
      s' := BinState(s1.curtok, v, d.v, s2);
    }
  }

  // ----- the other operators -----

  lemma CommaAgrees(v: intmax, s1: State, d: Result, sp: seq<Spaced>, k: nat, s2: State)
    requires s1.curtok == Comma
    requires Agrees(ReadExp(ASSIGN, s1), d, ASSIGN, s1, sp, k, s2)
    requires k < |sp| && Follows(COMMA, sp[k].lex)
    ensures Agrees(Tail(COMMA, v, s1), d, COMMA, s1, sp, k, s2)
  {
    hide ReadExp, Texts, VarsOk;
    if d.Value? {
      TailStops(ASSIGN, d.v, s2);
    }
  }

  lemma PowerAgrees(v: intmax, s1: State, d: Result, sp: seq<Spaced>, k: nat, s2: State)
    requires s1.curtok == Power
    requires Agrees(ReadExp(POWER, s1), d, POWER, s1, sp, k, s2)
    requires k < |sp| && Follows(POWER, sp[k].lex)
    ensures Agrees(Tail(POWER, v, s1), if !d.Value? then d else Raised(v, d.v, d.m), POWER, s1, sp, k, s2.(lasttok := Num))
  {
    hide ReadExp, Texts, VarsOk, Wrap;
    if d.Value? {
      TailStops(POWER, d.v, s2);
      var s3 := s2.(lasttok := Num);
      if d.v == 0 {
        WrapId(1);
        TailStops(POWER, 1, s3);
      } else if d.v > 0 {
        TailStops(POWER, Wrap(Pow(v, d.v)), s3);
      }
    }
  }

  lemma LogicalStep(l: nat, v: intmax, s: State)
    requires (l == LOR || l == LAND) && s.curtok == LogicalTok(l)
    ensures l + 1 <= PRIMARY
    ensures var r := ReadExp(l + 1, Raise(s, Decided(l, v)));
      Tail(l, v, s) ==
        if r.Fault? then r
        else Tail(l, Join(l, v, r.value.0), Lower(r.value.1, Decided(l, v)).(lasttok := LogicalTok(l)))
  {
    hide ReadExp;
    var r := Logical(l, v, s);
  }

  lemma LogicalAgrees(l: nat, v: intmax, s1: State, d: Result, sp: seq<Spaced>, k: nat, s2: State) returns (s': State)
    requires (l == LOR || l == LAND) && s1.curtok == LogicalTok(l)
    requires Agrees(ReadExp(l + 1, Raise(s1, Decided(l, v))), d, l + 1, Raise(s1, Decided(l, v)), sp, k, s2)
    requires k < |sp| && Follows(l, sp[k].lex)
    ensures Agrees(Tail(l, v, s1), if !d.Value? then d else Value(Join(l, v, d.v), d.m), l, s1, sp, k, s')
  {
    hide *;
    LogicalStep(l, v, s1);
    AgreesParts(ReadExp(l + 1, Raise(s1, Decided(l, v))), d, l + 1, Raise(s1, Decided(l, v)), sp, k, s2);
    s' := s2;
    if d.Value? {
      OperandEnds(l, d.v, s2, Raise(s1, Decided(l, v)), sp, k, d.m);
      s' := Lower(s2, Decided(l, v)).(lasttok := LogicalTok(l));
      LoweredReached(s2, s1, Decided(l, v), l, sp, k, d.m);
    }
    Concluded(Tail(l, v, s1), if !d.Value? then d else Value(Join(l, v, d.v), d.m), l, s1, sp, k, s');
  }

  lemma AgreesParts(r: Outcome<(intmax, State)>, d: Result, l: nat, s0: State, sp: seq<Spaced>, k: nat, s': State)
    requires Agrees(r, d, l, s0, sp, k, s')
    ensures d.Failure? ==> r == Fault(Texts(d.m))
    ensures d.Value? ==> Reached(s', s0, sp, k, d.m) && r == Tail(l, d.v, s')
  {
    hide Reached, Texts, Tail;
  }

  lemma Concluded(r: Outcome<(intmax, State)>, d: Result, l: nat, s0: State, sp: seq<Spaced>, k: nat, s': State)
    requires d.Failure? ==> r == Fault(Texts(d.m))
    requires d.Value? ==> Reached(s', s0, sp, k, d.m) && r == Tail(l, d.v, s')
    ensures Agrees(r, d, l, s0, sp, k, s')
  {
    hide Reached, Texts, Tail;
  }

  /** The tighter level has nothing to do with what follows its operand at this one. */
  lemma OperandEnds(l: nat, v: intmax, s: State, s0: State, sp: seq<Spaced>, k: nat, m: Vars)
    requires Reached(s, s0, sp, k, m) && k < |sp| && Follows(l, sp[k].lex)
    ensures Tail(l + 1, v, s) == Ok((v, s))
  {
    hide Tail, Texts, VarsOk, Separated, Text;
    TailStops(l + 1, v, s);
  }

  lemma LoweredReached(s: State, s1: State, up: bool, l: nat, sp: seq<Spaced>, k: nat, m: Vars)
    requires Reached(s, Raise(s1, up), sp, k, m)
    ensures Reached(Lower(s, up).(lasttok := LogicalTok(l)), s1, sp, k, m)
  {
    hide Texts, VarsOk, Separated, Text, Plain;
  }

  lemma IfAgrees(v: intmax, s1: State, d: Result, sp: seq<Spaced>, k: nat, s2: State)
    requires s1.curtok == Ques
    requires Agrees(ReadExp(COMMA, Raise(s1, v == 0)), d, COMMA, Raise(s1, v == 0), sp, k, s2)
    requires k < |sp| && sp[k].lex == S(Col)
    ensures d.Failure? ==> Tail(COND, v, s1) == Fault(Texts(d.m))
    ensures d.Value? ==> Lower(s2, v == 0).curtok == Col
    ensures d.Value? ==> Tail(COND, v, s1) == Otherwise(v, d.v, Lower(s2, v == 0))
    ensures d.Value? ==> Reached(Lower(s2, v == 0), s1, sp, k, d.m)
  {
    hide ReadExp, Texts, VarsOk, Otherwise;
    IfStep(v, s1);
  }

  lemma ElseAgrees(v: intmax, v1: intmax, s1: State, d: Result, sp: seq<Spaced>, k: nat, s2: State) returns (s': State)
    requires s1.curtok == Col
    requires Agrees(ReadExp(COND, Raise(s1, v != 0)), d, COND, Raise(s1, v != 0), sp, k, s2)
    requires k < |sp| && Follows(COND, sp[k].lex)
    ensures Agrees(Otherwise(v, v1, s1), if !d.Value? then d else Value(if v != 0 then v1 else d.v, d.m), COND, s1, sp, k, s')
  {
    hide ReadExp, Texts, VarsOk, Otherwise, Tail;
    ElseStep(v, v1, s1);
    s' := s2;
    if d.Value? {
      TailStops(COND, d.v, s2);
      s' := Lower(s2, v != 0).(lasttok := Cond);
      TailStops(COND, if v != 0 then v1 else d.v, s');
    }
  }

  /** x = e, once x has been read and the right-hand side parsed. */
  lemma SetAgrees(s1: State, x: string, d: Result, sp: seq<Spaced>, k: nat, s2: State) returns (s': State)
    requires s1.curtok == Eq && s1.lasttok == Str && s1.tokstr == Some(x)
    requires Agrees(ReadExp(ASSIGN, s1), d, ASSIGN, s1, sp, k, s2)
    requires k < |sp| && Follows(ASSIGN, sp[k].lex)
    ensures Agrees(Tail(ASSIGN, 0, s1), if !d.Value? then d else Value(d.v, Put(s1.noeval == 0, d.m, x, d.v)), ASSIGN, s1, sp, k, s')
  {
    hide ReadExp, Texts, VarsOk, Put, Store, BinaryValue;
    s' := s2;
    if d.Value? {
      TailStops(ASSIGN, d.v, s2);
      StoreAgrees(s2, x, d.v, d.m);
      s' := Store(s2, Some(x), d.v).(tokstr := None);
      TailStops(ASSIGN, d.v, s');
    }
    assert Tail(ASSIGN, 0, s1) == Assign(0, s1);
  }

  function Updated(op: Tok, v: intmax, name: Option<string>, r: Outcome<(intmax, State)>): Outcome<(intmax, State)>
  {
    var (v2, s2) :- r;
    if ZeroDivide(op, v2, s2) then Fault(s2.env)
    else
      var w := BinaryValue(op, v, Divisor(op, v2));
      Ok((w, Store(s2, name, w).(tokstr := None)))
  }

  lemma UpdateStep(v: intmax, s: State)
    requires s.curtok == OpAssign && s.lasttok == Str && s.tokstr.Some? && IsAssignOp(s.assigntok)
    ensures Tail(ASSIGN, v, s) == Updated(s.assigntok, v, s.tokstr, ReadExp(ASSIGN, s))
  {
    hide ReadExp, Store, BinaryValue;
    assert Tail(ASSIGN, v, s) == Assign(v, s);
  }

  /** x op= e, once x has been read and the right-hand side parsed. */
  lemma UpdateAgrees(v: intmax, s1: State, x: string, d: Result, sp: seq<Spaced>, k: nat, s2: State) returns (s': State)
    requires s1.curtok == OpAssign && s1.lasttok == Str && s1.tokstr == Some(x) && IsAssignOp(s1.assigntok)
    requires Agrees(ReadExp(ASSIGN, s1), d, ASSIGN, s1, sp, k, s2)
    requires k < |sp| && Follows(ASSIGN, sp[k].lex)
    ensures Agrees(Tail(ASSIGN, v, s1),
                   if !d.Value? then d else
                   Stored(s1.noeval == 0, OperateIn(s1.noeval == 0, s1.assigntok, v, d.v), x, d.m), ASSIGN, s1, sp, k, s')
  {
    hide ReadExp, Tail, Texts, VarsOk, Put, Store, BinaryValue, OperateIn;
    UpdateStep(v, s1);
    s' := s2;
    if d.Value? {
      TailStops(ASSIGN, d.v, s2);
      OperateAgrees(s1.noeval == 0, s1.assigntok, v, d.v);
      var w := BinaryValue(s1.assigntok, v, Divisor(s1.assigntok, d.v));
      StoreAgrees(s2, x, w, d.m);
      s' := Store(s2, Some(x), w).(tokstr := None);
      TailStops(ASSIGN, w, s');
    }
  }

  // ----- one lemma per kind of tree -----

  lemma CaseNumber(t: string, s0: State, sp: seq<Spaced>, k: nat, m: Vars) returns (s': State)
    requires Ready(s0, sp, k, m) && k + 1 < |sp| && sp[k].lex == Lit(t) && Plain(sp[k + 1].lex)
    ensures Agrees(ReadExp(UNARY, s0), Meaning(Number(t), m, s0), UNARY, s0, sp, k + 1, s')
  {
    hide ReadTok, Exp, Tail, ReadExp, Reached, Texts, VarsOk, Separated, Text, SeparatedAt, Follows, WellFormed, Holds, Print, Body;
    ReadLit(s0, sp, k);
    s' := s0;
    if StrLong(t).None? {
      ReadFault(s0, s0.env);
    } else {
      var s1 := ReadTok(s0).value;
      NumPrimary(s1, sp, k + 1);
      ReachedBy(s1, s0, sp, k + 1, m);
      s' := AfterSym(s1, sp[k + 1].lex, Text(sp, k + 2));
      PrimarySolved(s0, s1, StrLong(t).value, m, sp, k + 1, s');
    }
  }

  /** A variable in operand position; its follower may be OP=. */
  lemma CaseVar(x: string, s0: State, sp: seq<Spaced>, k: nat, m: Vars) returns (s': State)
    requires Ready(s0, sp, k, m) && k + 1 < |sp| && sp[k].lex == Id(x) && Plain(sp[k + 1].lex) && sp[k + 1].lex.t != Eq
    ensures var d := ReadVar(x, m, s0.noeval == 0, |s0.stack|);
      Agrees(ReadExp(UNARY, s0), d, UNARY, s0, sp, k + 1, s') && (d.Value? ==> s'.lasttok == Str && s'.tokstr == Some(x))
    decreases Room(s0), 0, 3
  {
    hide ReadTok, Exp, Tail, ReadVar, Reached, Texts, VarsOk, Text, Separated;
    ReadTarget(x, s0, sp, k, m);
    var d := ReadVar(x, m, s0.noeval == 0, |s0.stack|);
    s' := s0;
    if d.Value? {
      var s1 := ReadTok(s0).value;
      NamePrimary(s1, sp, k + 1);
      ReachedBy(s1, s0, sp, k + 1, d.m);
      s' := AfterSym(s1, sp[k + 1].lex, Text(sp, k + 2));
      PrimarySolved(s0, s1, d.v, d.m, sp, k + 1, s');
    }
  }

  lemma ReadTarget(x: string, s0: State, sp: seq<Spaced>, k: nat, m: Vars)
    requires Ahead(s0, sp, k) && k + 1 < |sp| && sp[k].lex == Id(x) && sp[k + 1].lex.Sym? && !IsPre(sp[k + 1].lex.t)
    requires VarsOk(m) && s0.env == Texts(m)
    requires IsPre(s0.lasttok) || sp[k + 1].lex.t != Eq
    ensures var d := ReadVar(x, m, s0.noeval == 0, |s0.stack|);
      && (d.Failure? ==> ReadTok(s0) == Fault(Texts(d.m)))
      && (d.Value? ==> ReadTok(s0).Ok? && TargetRead(ReadTok(s0).value, s0, x, d.v, d.m, Text(sp, k + 1)))
    decreases Room(s0), 0, 2
  {
    hide ReadTok, ReadVar, StrEval, VarsOk, Texts;
    ReadId(s0, sp, k);
    EvalVar(x, Asking(s0, x, sp[k + 1].lex), m);
  }

  function PreTok(inc: bool): Tok { if inc then PreInc else PreDec }
  function PostTok(inc: bool): Tok { if inc then PostInc else PostDec }

  function PreMeaning(inc: bool, x: string, m: Vars, s: State): Result
  {
    var d := ReadVar(x, m, s.noeval == 0, |s.stack|);
    if !d.Value? then d else Value(Step(inc, d.v), Put(s.noeval == 0, d.m, x, Step(inc, d.v)))
  }

  lemma CasePre(inc: bool, x: string, s0: State, sp: seq<Spaced>, k: nat, m: Vars) returns (s': State)
    requires Ready(s0, sp, k, m) && k + 2 < |sp| && sp[k].lex == S(PreTok(inc)) && sp[k + 1].lex == Id(x) && Plain(sp[k + 2].lex)
    ensures Agrees(ReadExp(UNARY, s0), PreMeaning(inc, x, m, s0), UNARY, s0, sp, k + 2, s')
    decreases Room(s0), 0, 3
  {
    hide ReadTok, Exp, Tail, ReadExp, ReadVar, Reached, Put, TargetRead, Texts, VarsOk, Wrap, Text;
    ReadSym(s0, sp, k);
    var s := AfterSym(s0, sp[k].lex, Text(sp, k + 1));
    var t := s.(lasttok := s.curtok);
    ReadTarget(x, t, sp, k + 1, m);
    var d := ReadVar(x, m, s0.noeval == 0, |s0.stack|);
    s' := s0;
    if d.Failure? {
      PreFault(s0, s, Texts(d.m));
    } else if d.Value? {
      var w := Step(inc, d.v);
      var s1 := ReadTok(t).value;
      Retarget(s1, t, s, x, d.v, d.m, Text(sp, k + 2));
      s' := PreAgrees(s, s1, d.v, x, d.m, sp, k + 2);
      Rebase(s', s, s0, sp, k + 2, Put(s0.noeval == 0, d.m, x, w));
      PrimarySolved(s0, s, w, Put(s0.noeval == 0, d.m, x, w), sp, k + 2, s');
    }
  }

  lemma Retarget(s1: State, t: State, s: State, x: string, v: intmax, m: Vars, rest: string)
    requires TargetRead(s1, t, x, v, m, rest) && s.curtok == t.curtok && s.stack == t.stack && s.noeval == t.noeval
    ensures TargetRead(s1, s, x, v, m, rest)
  {
  }

  lemma Rebase(s': State, s: State, s0: State, sp: seq<Spaced>, k: nat, m: Vars)
    requires Reached(s', s, sp, k, m) && s.stack == s0.stack && s.noeval == s0.noeval
    ensures Reached(s', s0, sp, k, m)
  {
  }

  function PostMeaning(inc: bool, x: string, m: Vars, s: State): Result
  {
    var d := ReadVar(x, m, s.noeval == 0, |s.stack|);
    if !d.Value? then d else Value(d.v, Put(s.noeval == 0, d.m, x, Step(inc, d.v)))
  }

  lemma CasePost(inc: bool, x: string, s0: State, sp: seq<Spaced>, k: nat, m: Vars) returns (s': State)
    requires Ready(s0, sp, k, m) && k + 2 < |sp| && sp[k].lex == Id(x) && sp[k + 1].lex == S(PostTok(inc)) && Plain(sp[k + 2].lex)
    ensures Agrees(ReadExp(UNARY, s0), PostMeaning(inc, x, m, s0), UNARY, s0, sp, k + 2, s')
    decreases Room(s0), 0, 3
  {
    hide ReadTok, Exp, Tail, ReadVar, Reached, Put, Texts, VarsOk, Wrap, Text, Separated, Plain;
    ReadTarget(x, s0, sp, k, m);
    var d := ReadVar(x, m, s0.noeval == 0, |s0.stack|);
    s' := s0;
    if d.Value? {
      var s1 := ReadTok(s0).value;
      s' := PostAgrees(s1, s0, d.v, x, d.m, sp, k + 1);
      PrimarySolved(s0, s1, d.v, Put(s0.noeval == 0, d.m, x, Step(inc, d.v)), sp, k + 2, s');
    }
  }

  lemma Failed(r: Outcome<(intmax, State)>, d: Result, l: nat, s0: State, sp: seq<Spaced>, k: nat, s': State)
    requires !d.Value? && (d.Failure? ==> r == Fault(Texts(d.m)))
    ensures Agrees(r, d, l, s0, sp, k, s')
  {
  }

  lemma RebaseAgrees(r: Outcome<(intmax, State)>, d: Result, l: nat, s1: State, s0: State, sp: seq<Spaced>, k: nat, s': State)
    requires Agrees(r, d, l, s1, sp, k, s') && SameLevel(s1, s0)
    ensures Agrees(r, d, l, s0, sp, k, s')
  {
  }

  lemma FollowsTighter(l: nat, p: nat, x: Lexeme)
    requires Follows(l, x) && l < p
    ensures Follows(p, x)
  {
  }

  /** Same depth, same noeval: what the meaning of a tree depends on. */
  predicate SameLevel(s: State, s0: State) { s.stack == s0.stack && s.noeval == s0.noeval }

  lemma CaseUnary(op: Tok, a: Expr, s0: State, sp: seq<Spaced>, k: nat, m: Vars) returns (s': State)
    requires Ready(s0, sp, k, m) && k + 1 < |sp| && sp[k].lex == S(op) && IsUnary(op) && WellFormed(a)
    requires Holds(sp, k + 1, Print(a, UNARY)) && Follows(UNARY, sp[k + 1 + |Print(a, UNARY)|].lex)
    ensures Agrees(ReadExp(UNARY, s0), Meaning(Unary(op, a), m, s0), UNARY, s0, sp, k + 1 + |Print(a, UNARY)|, s')
    decreases Room(s0), 1, Unary(op, a), 0
  {
    hide ReadTok, Exp, Tail, ReadExp, UnaryValue, Denote, Print, Holds, Follows, WellFormed, Texts, VarsOk, Ready, Agrees;
    EqUnary(op, a, m, s0);
    var s1 := ReadOperator(op, s0, sp, k, m);
    var s2 := Parse(UNARY, a, s1, sp, k + 1, m);
    UnaryAgrees(s0, s1, Meaning(a, m, s0), sp, k + 1 + |Print(a, UNARY)|, s2);
    s' := s2.(lasttok := Num);
  }

  lemma ReadOperator(op: Tok, s0: State, sp: seq<Spaced>, k: nat, m: Vars) returns (s1: State)
    requires Ready(s0, sp, k, m) && k + 1 < |sp| && sp[k].lex == S(op) && IsUnary(op)
    ensures ReadTok(s0) == Ok(s1) && s1.curtok == op && Ready(s1, sp, k + 1, m) && SameLevel(s1, s0) && Room(s1) == Room(s0)
  {
    hide ReadTok, Texts, VarsOk;
    ReadSym(s0, sp, k);
    s1 := AfterSym(s0, sp[k].lex, Text(sp, k + 1));
  }

  lemma EqUnary(op: Tok, a: Expr, m: Vars, s: State)
    ensures var d := Meaning(a, m, s);
      Meaning(Unary(op, a), m, s) == if !d.Value? then d else Value(UnaryValue(op, d.v), d.m)
  {
    hide StrLong, UnaryValue, ReadVar, Put, OperateIn;
  }

  /** Left operand at level pa, operator, right operand at level pb, then a follower for level l. */
  predicate Infix(sp: seq<Spaced>, k: nat, a: Expr, pa: nat, x: Lexeme, b: Expr, pb: nat, l: nat)
  {
    var ka := k + |Print(a, pa)|;
    var ke := ka + 1 + |Print(b, pb)|;
    && pa <= UNARY && pb <= UNARY && ke < |sp|
    && WellFormed(a) && WellFormed(b)
    && Holds(sp, k, Print(a, pa)) && sp[ka].lex == x && Holds(sp, ka + 1, Print(b, pb))
    && Follows(pa, x) && Follows(pb, sp[ke].lex) && Follows(l, sp[ke].lex)
  }

  lemma InfixParts(sp: seq<Spaced>, k: nat, a: Expr, pa: nat, x: Lexeme, b: Expr, pb: nat, l: nat)
    requires Infix(sp, k, a, pa, x, b, pb, l)
    ensures var ka := k + |Print(a, pa)|;
      && ka + 1 < |sp| && sp[ka].lex == x && WellFormed(a) && pa <= UNARY && pa <= PRIMARY
      && Holds(sp, k, Print(a, pa)) && Follows(pa, sp[ka].lex)
  {
    hide Print, WellFormed, Holds, Follows;
  }

  function InfixEnd(k: nat, a: Expr, pa: nat, b: Expr, pb: nat): nat
  {
    k + |Print(a, pa)| + 1 + |Print(b, pb)|
  }

  /** What agreement gives the parser of the next operand. */
  lemma AgreedThen(r: Outcome<(intmax, State)>, d: Result, l: nat, s0: State, sp: seq<Spaced>, k: nat, s1: State)
    requires Agrees(r, d, l, s0, sp, k, s1) && k + 1 < |sp|
    ensures d.Failure? ==> r == Fault(Texts(d.m))
    ensures d.Value? ==>
      && r == Tail(l, d.v, s1) && SameLevel(s1, s0) && Room(s1) == Room(s0)
      && Reached(s1, s0, sp, k, d.m) && Ready(s1, sp, k + 1, d.m)
  {
    hide Tail, Texts, VarsOk, Separated, Text;
    if d.Value? {
      ReadyAgain(s1, s0, sp, k, d.m);
    }
  }

  /** Parse the left operand and stand before the right one. */
  lemma Left(a: Expr, pa: nat, x: Lexeme, b: Expr, pb: nat, l: nat, s0: State, sp: seq<Spaced>, k: nat, m: Vars) returns (s1: State)
    requires Ready(s0, sp, k, m) && Infix(sp, k, a, pa, x, b, pb, l)
    ensures var d := Meaning(a, m, s0);
      && (d.Failure? ==> ReadExp(pa, s0) == Fault(Texts(d.m)))
      && (d.Value? ==>
            && ReadExp(pa, s0) == Tail(pa, d.v, s1) && SameLevel(s1, s0) && Room(s1) == Room(s0)
            && Reached(s1, s0, sp, k + |Print(a, pa)|, d.m) && Ready(s1, sp, k + |Print(a, pa)| + 1, d.m))
    decreases Room(s0), 1, a, 6
  {
    hide *;
    InfixParts(sp, k, a, pa, x, b, pb, l);
    s1 := Parse(pa, a, s0, sp, k, m);
    AgreedThen(ReadExp(pa, s0), Meaning(a, m, s0), pa, s0, sp, k + |Print(a, pa)|, s1);
  }

  /** Parse the right operand. */
  lemma Right(a: Expr, pa: nat, x: Lexeme, b: Expr, pb: nat, l: nat, s1: State, sp: seq<Spaced>, k: nat, m: Vars) returns (s2: State)
    requires Infix(sp, k, a, pa, x, b, pb, l) && Ready(s1, sp, k + |Print(a, pa)| + 1, m)
    ensures var ke := InfixEnd(k, a, pa, b, pb);
      && Agrees(ReadExp(pb, s1), Meaning(b, m, s1), pb, s1, sp, ke, s2)
      && ke < |sp| && Follows(l, sp[ke].lex)
    decreases Room(s1), 1, b, 6
  {
    hide ReadTok, Exp, Tail, ReadExp, Denote, Print, Holds, WellFormed, Follows, Ready, Agrees;
    s2 := Parse(pb, b, s1, sp, k + |Print(a, pa)| + 1, m);
  }

  lemma CurrentOp(s1: State, s0: State, sp: seq<Spaced>, k: nat, m: Vars)
    requires Reached(s1, s0, sp, k, m)
    ensures s1.curtok == sp[k].lex.t
  {
  }

  lemma CaseBin(op: Tok, a: Expr, b: Expr, s0: State, sp: seq<Spaced>, k: nat, m: Vars) returns (s': State)
    requires IsBinary(op) && Ready(s0, sp, k, m)
    requires var p := OpLevel(op); Infix(sp, k, a, p, S(op), b, p + 1, p)
    ensures var p := OpLevel(op);
      Agrees(ReadExp(p, s0), Meaning(Bin(op, a, b), m, s0), p, s0, sp, InfixEnd(k, a, p, b, p + 1), s')
    decreases Room(s0), 1, Bin(op, a, b), 0
  {
    hide ReadTok, Exp, Tail, ReadExp, Denote, Print, OperateIn, Texts, Ready, Reached, Agrees, Follows, Holds, WellFormed;
    var p := OpLevel(op);
    var ke := InfixEnd(k, a, p, b, p + 1);
    EqBin(op, a, b, m, s0);
    var s1 := Left(a, p, S(op), b, p + 1, p, s0, sp, k, m);
    var d1 := Meaning(a, m, s0);
    s' := s1;
    if !d1.Value? {
      Failed(ReadExp(p, s0), d1, p, s0, sp, ke, s');
    } else {
      CurrentOp(s1, s0, sp, k + |Print(a, p)|, d1.m);
      var s2 := Right(a, p, S(op), b, p + 1, p, s1, sp, k, d1.m);
      s' := BinAgrees(p, d1.v, s1, Meaning(b, d1.m, s1), sp, ke, s2);
      RebaseAgrees(ReadExp(p, s0), Meaning(Bin(op, a, b), m, s0), p, s1, s0, sp, ke, s');
    }
  }

  lemma EqBin(op: Tok, a: Expr, b: Expr, m: Vars, s: State)
    ensures var d := Meaning(a, m, s);
      var d2 := Meaning(b, d.m, s);
      Meaning(Bin(op, a, b), m, s) ==
        if !d.Value? then d else if !d2.Value? then d2 else FromOption(OperateIn(s.noeval == 0, op, d.v, d2.v), d2.m)
  {
    hide StrLong, UnaryValue, ReadVar, Put, OperateIn, Raised;
  }

  lemma CasePwr(a: Expr, b: Expr, s0: State, sp: seq<Spaced>, k: nat, m: Vars) returns (s': State)
    requires Ready(s0, sp, k, m) && Infix(sp, k, a, UNARY, S(Power), b, POWER, POWER)
    ensures Agrees(ReadExp(POWER, s0), Meaning(Pwr(a, b), m, s0), POWER, s0, sp, InfixEnd(k, a, UNARY, b, POWER), s')
    decreases Room(s0), 1, Pwr(a, b), 0
  {
    hide ReadTok, Exp, Tail, ReadExp, Denote, Print, Texts, Ready, Reached, Raised, Agrees, Follows, Holds, WellFormed;
    var ke := InfixEnd(k, a, UNARY, b, POWER);
    EqPwr(a, b, m, s0);
    var s1 := Left(a, UNARY, S(Power), b, POWER, POWER, s0, sp, k, m);
    var d1 := Meaning(a, m, s0);
    s' := s1;
    ReadExpStep(POWER, s0);
    if !d1.Value? {
      Failed(ReadExp(POWER, s0), d1, POWER, s0, sp, ke, s');
    } else {
      CurrentOp(s1, s0, sp, k + |Print(a, UNARY)|, d1.m);
      TailStops(UNARY, d1.v, s1);
      var s2 := Right(a, UNARY, S(Power), b, POWER, POWER, s1, sp, k, d1.m);
      PowerAgrees(d1.v, s1, Meaning(b, d1.m, s1), sp, ke, s2);
      s' := s2.(lasttok := Num);
      RebaseAgrees(ReadExp(POWER, s0), Meaning(Pwr(a, b), m, s0), POWER, s1, s0, sp, ke, s');
    }
  }

  lemma EqPwr(a: Expr, b: Expr, m: Vars, s: State)
    ensures var d := Meaning(a, m, s);
      var d2 := Meaning(b, d.m, s);
      Meaning(Pwr(a, b), m, s) == if !d.Value? then d else if !d2.Value? then d2 else Raised(d.v, d2.v, d2.m)
  {
    hide StrLong, UnaryValue, ReadVar, Put, OperateIn, Raised;
  }

  /** And and Or. */
  function LogicalTree(l: nat, a: Expr, b: Expr): Expr { if l == LOR then Or(a, b) else And(a, b) }

  lemma CaseLogical(l: nat, a: Expr, b: Expr, s0: State, sp: seq<Spaced>, k: nat, m: Vars) returns (s': State)
    requires (l == LOR || l == LAND) && Ready(s0, sp, k, m) && Infix(sp, k, a, l, S(LogicalTok(l)), b, l + 1, l)
    ensures Agrees(ReadExp(l, s0), Meaning(LogicalTree(l, a, b), m, s0), l, s0, sp, InfixEnd(k, a, l, b, l + 1), s')
    decreases Room(s0), 1, LogicalTree(l, a, b), 0
  {
    hide ReadTok, Exp, Tail, ReadExp, Denote, Print, Texts, Ready, Reached, Join, Agrees, Follows, Holds, WellFormed;
    var ke := InfixEnd(k, a, l, b, l + 1);
    EqLogical(l, a, b, m, s0);
    var s1 := Left(a, l, S(LogicalTok(l)), b, l + 1, l, s0, sp, k, m);
    var d1 := Meaning(a, m, s0);
    s' := s1;
    if !d1.Value? {
      Failed(ReadExp(l, s0), d1, l, s0, sp, ke, s');
    } else {
      CurrentOp(s1, s0, sp, k + |Print(a, l)|, d1.m);
      var t := Raise(s1, Decided(l, d1.v));
      ReadyRaised(s1, Decided(l, d1.v), sp, k + |Print(a, l)| + 1, d1.m);
      var s2 := Right(a, l, S(LogicalTok(l)), b, l + 1, l, t, sp, k, d1.m);
      s' := LogicalAgrees(l, d1.v, s1, Meaning(b, d1.m, t), sp, ke, s2);
      RebaseAgrees(ReadExp(l, s0), Meaning(LogicalTree(l, a, b), m, s0), l, s1, s0, sp, ke, s');
    }
  }

  lemma ReadyRaised(s: State, up: bool, sp: seq<Spaced>, k: nat, m: Vars)
    requires Ready(s, sp, k, m)
    ensures Ready(Raise(s, up), sp, k, m) && Room(Raise(s, up)) == Room(s)
  {
  }

  lemma EqLogical(l: nat, a: Expr, b: Expr, m: Vars, s: State)
    requires l == LOR || l == LAND
    ensures var d := Meaning(a, m, s);
      Meaning(LogicalTree(l, a, b), m, s) ==
        if !d.Value? then d else
        var d2 := Meaning(b, d.m, Raise(s, Decided(l, d.v)));
        if !d2.Value? then d2 else Value(Join(l, d.v, d2.v), d2.m)
  {
    hide StrLong, UnaryValue, ReadVar, Put, OperateIn, Raised;
  }

  lemma CaseSeq(a: Expr, b: Expr, s0: State, sp: seq<Spaced>, k: nat, m: Vars) returns (s': State)
    requires Ready(s0, sp, k, m) && Infix(sp, k, a, COMMA, S(Comma), b, ASSIGN, COMMA)
    ensures Agrees(ReadExp(COMMA, s0), Meaning(Seq(a, b), m, s0), COMMA, s0, sp, InfixEnd(k, a, COMMA, b, ASSIGN), s')
    decreases Room(s0), 1, Seq(a, b), 0
  {
    hide ReadTok, Exp, Tail, ReadExp, Denote, Print, Texts, Ready, Reached, Agrees, Follows, Holds, WellFormed;
    var ke := InfixEnd(k, a, COMMA, b, ASSIGN);
    EqSeq(a, b, m, s0);
    var s1 := Left(a, COMMA, S(Comma), b, ASSIGN, COMMA, s0, sp, k, m);
    var d1 := Meaning(a, m, s0);
    s' := s1;
    if !d1.Value? {
      Failed(ReadExp(COMMA, s0), d1, COMMA, s0, sp, ke, s');
    } else {
      CurrentOp(s1, s0, sp, k + |Print(a, COMMA)|, d1.m);
      s' := Right(a, COMMA, S(Comma), b, ASSIGN, COMMA, s1, sp, k, d1.m);
      CommaAgrees(d1.v, s1, Meaning(b, d1.m, s1), sp, ke, s');
      RebaseAgrees(ReadExp(COMMA, s0), Meaning(Seq(a, b), m, s0), COMMA, s1, s0, sp, ke, s');
    }
  }

  lemma EqSeq(a: Expr, b: Expr, m: Vars, s: State)
    ensures var d := Meaning(a, m, s);
      Meaning(Seq(a, b), m, s) == if !d.Value? then d else Meaning(b, d.m, s)
  {
    hide StrLong, UnaryValue, ReadVar, Put, OperateIn, Raised;
  }

  // ----- the conditional -----

  /** Everything after the condition; s1 stands at the question mark. */
  lemma CaseThen(v: intmax, e: Expr, a: Expr, b: Expr, s1: State, sp: seq<Spaced>, k: nat, m: Vars) returns (s': State)
    requires Ready(s1, sp, k, m) && s1.curtok == Ques && Infix(sp, k, a, COMMA, S(Col), b, COND, COND) && a < e && b < e
    ensures Agrees(Tail(COND, v, s1), Branches(v, a, b, m, s1), COND, s1, sp, InfixEnd(k, a, COMMA, b, COND), s')
    decreases Room(s1), 1, e, 0
  {
    hide *;
    s' := ThenRead(v, a, b, s1, sp, k, m);
    if ThenMeaning(v, a, m, s1).Value? {
      s' := ThenElse(v, a, b, s1, sp, k, m, s');
    } else {
      BranchFails(v, a, b, s1, sp, InfixEnd(k, a, COMMA, b, COND), m, s');
    }
  }

  /** The first branch, with evaluation off when it is not wanted. */
  function ThenMeaning(v: intmax, a: Expr, m: Vars, s: State): Result { Meaning(a, m, Raise(s, v == 0)) }

  predicate ThenFailed(v: intmax, a: Expr, s1: State, m: Vars)
  {
    var d := ThenMeaning(v, a, m, s1);
    !d.Value? && (d.Failure? ==> Tail(COND, v, s1) == Fault(Texts(d.m)))
  }

  /** The first branch has been evaluated; s3 stands at the colon. */
  predicate ThenDone(v: intmax, a: Expr, s1: State, sp: seq<Spaced>, k: nat, m: Vars, s3: State)
  {
    var d := ThenMeaning(v, a, m, s1);
    && d.Value? && s3.curtok == Col && Tail(COND, v, s1) == Otherwise(v, d.v, s3)
    && Reached(s3, s1, sp, k + |Print(a, COMMA)|, d.m)
  }

  /** The first branch: a fault, or s3 stands at the colon behind it. */
  lemma ThenRead(v: intmax, a: Expr, b: Expr, s1: State, sp: seq<Spaced>, k: nat, m: Vars) returns (s3: State)
    requires Ready(s1, sp, k, m) && s1.curtok == Ques && Infix(sp, k, a, COMMA, S(Col), b, COND, COND)
    ensures if ThenMeaning(v, a, m, s1).Value? then ThenDone(v, a, s1, sp, k, m, s3) else ThenFailed(v, a, s1, m)
    decreases Room(s1), 1, a, 7
  {
    hide Agrees, Reached, Ready, Infix, Holds, Follows, WellFormed, Print, Tail, Otherwise, Denote, ReadExp, Texts, VarsOk, Text, Separated;
    InfixParts(sp, k, a, COMMA, S(Col), b, COND, COND);
    ReadyRaised(s1, v == 0, sp, k, m);
    var s2 := ThenBranch(a, b, Raise(s1, v == 0), sp, k, m);
    IfAgrees(v, s1, Meaning(a, m, Raise(s1, v == 0)), sp, k + |Print(a, COMMA)|, s2);
    s3 := Lower(s2, v == 0);
  }

  lemma ThenElse(v: intmax, a: Expr, b: Expr, s1: State, sp: seq<Spaced>, k: nat, m: Vars, s3: State) returns (s': State)
    requires Infix(sp, k, a, COMMA, S(Col), b, COND, COND) && ThenDone(v, a, s1, sp, k, m, s3)
    ensures Agrees(Tail(COND, v, s1), Branches(v, a, b, m, s1), COND, s1, sp, InfixEnd(k, a, COMMA, b, COND), s')
    decreases Room(s1), 1, b, 8
  {
    hide Agrees, Reached, Ready, Infix, Holds, Follows, WellFormed, Print, Tail, Otherwise, ReadExp, Texts, VarsOk, Text, Separated,
      Branches, ElseMeaning, ThenMeaning, InfixEnd;
    InfixParts(sp, k, a, COMMA, S(Col), b, COND, COND);
    var d := ThenMeaning(v, a, m, s1);
    AtColon(s3, s1, sp, k + |Print(a, COMMA)|, d.m);
    EqBranches(v, a, b, m, s1, s3);
    s' := CaseElse(v, d.v, a, b, s3, sp, k, d.m);
    RebaseAgrees(Tail(COND, v, s1), Branches(v, a, b, m, s1), COND, s3, s1, sp, InfixEnd(k, a, COMMA, b, COND), s');
  }

  function ElseMeaning(v: intmax, v1: intmax, b: Expr, m: Vars, s: State): Result
  {
    var d2 := Meaning(b, m, Raise(s, v != 0));
    if !d2.Value? then d2 else Value(if v != 0 then v1 else d2.v, d2.m)
  }

  lemma CaseElse(v: intmax, v1: intmax, a: Expr, b: Expr, s3: State, sp: seq<Spaced>, k: nat, m: Vars) returns (s': State)
    requires Infix(sp, k, a, COMMA, S(Col), b, COND, COND) && s3.curtok == Col && Ready(s3, sp, k + |Print(a, COMMA)| + 1, m)
    ensures Agrees(Otherwise(v, v1, s3), ElseMeaning(v, v1, b, m, s3), COND, s3, sp, InfixEnd(k, a, COMMA, b, COND), s')
    decreases Room(s3), 1, b, 7
  {
    hide ReadTok, Exp, Tail, ReadExp, Denote, Print, WellFormed, Texts, Otherwise, Ready, Reached, Holds, Follows, Agrees, Infix, InfixEnd;
    var t2 := Raise(s3, v != 0);
    ReadyRaised(s3, v != 0, sp, k + |Print(a, COMMA)| + 1, m);
    var s4 := Right(a, COMMA, S(Col), b, COND, COND, t2, sp, k, m);
    s' := ElseAgrees(v, v1, s3, Meaning(b, m, t2), sp, InfixEnd(k, a, COMMA, b, COND), s4);
  }

  lemma ThenBranch(a: Expr, b: Expr, t: State, sp: seq<Spaced>, k: nat, m: Vars) returns (s2: State)
    requires Ready(t, sp, k, m) && Infix(sp, k, a, COMMA, S(Col), b, COND, COND)
    ensures Agrees(ReadExp(COMMA, t), Meaning(a, m, t), COMMA, t, sp, k + |Print(a, COMMA)|, s2)
    decreases Room(t), 1, a, 6
  {
    hide ReadTok, Exp, Tail, ReadExp, Denote, Print, Holds, WellFormed, Follows, Ready, Agrees;
    s2 := Parse(COMMA, a, t, sp, k, m);
  }

  lemma AtColon(s3: State, s1: State, sp: seq<Spaced>, k: nat, m: Vars)
    requires Reached(s3, s1, sp, k, m) && k + 1 < |sp| && sp[k].lex == S(Col)
    ensures s3.curtok == Col && SameLevel(s3, s1) && Room(s3) == Room(s1) && Ready(s3, sp, k + 1, m)
  {
    ReadyAgain(s3, s1, sp, k, m);
  }

  /** Both branches of a conditional, the unwanted one with evaluation off. */
  function Branches(v: intmax, a: Expr, b: Expr, m: Vars, s: State): Result
  {
    var d1 := Meaning(a, m, Raise(s, v == 0));
    if !d1.Value? then d1 else
    var d2 := Meaning(b, d1.m, Raise(s, v != 0));
    if !d2.Value? then d2 else Value(if v != 0 then d1.v else d2.v, d2.m)
  }

  lemma BranchFails(v: intmax, a: Expr, b: Expr, s1: State, sp: seq<Spaced>, ke: nat, m: Vars, s': State)
    requires ThenFailed(v, a, s1, m)
    ensures Agrees(Tail(COND, v, s1), Branches(v, a, b, m, s1), COND, s1, sp, ke, s')
  {
    hide Meaning, Tail, Texts;
    assert Branches(v, a, b, m, s1) == ThenMeaning(v, a, m, s1);
    Failed(Tail(COND, v, s1), ThenMeaning(v, a, m, s1), COND, s1, sp, ke, s');
  }

  lemma EqBranches(v: intmax, a: Expr, b: Expr, m: Vars, s1: State, s3: State)
    requires SameLevel(s3, s1) && ThenMeaning(v, a, m, s1).Value?
    ensures var d := ThenMeaning(v, a, m, s1);
      Branches(v, a, b, m, s1) == ElseMeaning(v, d.v, b, d.m, s3)
  {
    hide Denote;
  }

  lemma EqIf(c: Expr, a: Expr, b: Expr, m: Vars, s: State)
    ensures var d := Meaning(c, m, s);
      Meaning(If(c, a, b), m, s) == if !d.Value? then d else Branches(d.v, a, b, d.m, s)
  {
    hide StrLong, UnaryValue, ReadVar, Put, OperateIn, Raised;
  }

  lemma BranchesSame(v: intmax, a: Expr, b: Expr, m: Vars, s1: State, s0: State)
    requires SameLevel(s1, s0)
    ensures Branches(v, a, b, m, s1) == Branches(v, a, b, m, s0)
  {
    hide Denote;
  }

  /** c ? a : b laid out from k on. */
  predicate Ternary(sp: seq<Spaced>, k: nat, c: Expr, a: Expr, b: Expr)
  {
    var kc := k + |Print(c, LOR)|;
    && kc + 1 < |sp| && WellFormed(c) && Holds(sp, k, Print(c, LOR)) && sp[kc].lex == S(Ques)
    && Infix(sp, kc + 1, a, COMMA, S(Col), b, COND, COND)
  }

  lemma TernaryParts(sp: seq<Spaced>, k: nat, c: Expr, a: Expr, b: Expr)
    requires Ternary(sp, k, c, a, b)
    ensures var kc := k + |Print(c, LOR)|;
      && kc + 1 < |sp| && WellFormed(c) && Holds(sp, k, Print(c, LOR)) && sp[kc].lex == S(Ques) && Follows(LOR, sp[kc].lex)
  {
    hide Print, Holds, WellFormed, Infix;
  }

  lemma Condition(c: Expr, a: Expr, b: Expr, s0: State, sp: seq<Spaced>, k: nat, m: Vars) returns (s1: State)
    requires Ready(s0, sp, k, m) && Ternary(sp, k, c, a, b)
    ensures var d := Meaning(c, m, s0);
      && (d.Failure? ==> ReadExp(COND, s0) == Fault(Texts(d.m)))
      && (d.Value? ==>
            && ReadExp(COND, s0) == Tail(COND, d.v, s1) && s1.curtok == Ques && SameLevel(s1, s0) && Room(s1) == Room(s0)
            && Ready(s1, sp, k + |Print(c, LOR)| + 1, d.m))
    decreases Room(s0), 1, c, 6
  {
    hide ReadTok, Exp, Tail, ReadExp, Denote, Print, Holds, WellFormed, Texts, Ternary, Ready, Agrees, Follows;
    TernaryParts(sp, k, c, a, b);
    s1 := Parse(LOR, c, s0, sp, k, m);
    AtQuestion(s1, s0, Meaning(c, m, s0), sp, k + |Print(c, LOR)|);
  }

  lemma AtQuestion(s1: State, s0: State, d: Result, sp: seq<Spaced>, k: nat)
    requires Agrees(ReadExp(LOR, s0), d, LOR, s0, sp, k, s1) && k + 1 < |sp| && sp[k].lex == S(Ques)
    ensures d.Failure? ==> ReadExp(COND, s0) == Fault(Texts(d.m))
    ensures d.Value? ==>
      && ReadExp(COND, s0) == Tail(COND, d.v, s1) && s1.curtok == Ques && SameLevel(s1, s0) && Room(s1) == Room(s0)
      && Ready(s1, sp, k + 1, d.m)
  {
    hide ReadTok, Exp, Tail, ReadExp, Texts, VarsOk;
    ReadExpStep(COND, s0);
    if d.Value? {
      TailStops(LOR, d.v, s1);
      ReadyAgain(s1, s0, sp, k, d.m);
    }
  }

  lemma CaseIf(c: Expr, a: Expr, b: Expr, s0: State, sp: seq<Spaced>, k: nat, m: Vars) returns (s': State)
    requires Ready(s0, sp, k, m) && Ternary(sp, k, c, a, b)
    ensures Agrees(ReadExp(COND, s0), Meaning(If(c, a, b), m, s0), COND, s0, sp,
                   InfixEnd(k + |Print(c, LOR)| + 1, a, COMMA, b, COND), s')
    decreases Room(s0), 1, If(c, a, b), 1
  {
    hide ReadTok, Exp, Tail, ReadExp, Denote, Print, WellFormed, Texts, Branches, Infix, Ready, Agrees, Holds;
    var kc := k + |Print(c, LOR)|;
    var ke := InfixEnd(kc + 1, a, COMMA, b, COND);
    EqIf(c, a, b, m, s0);
    var s1 := Condition(c, a, b, s0, sp, k, m);
    var d := Meaning(c, m, s0);
    s' := s1;
    if !d.Value? {
      Failed(ReadExp(COND, s0), d, COND, s0, sp, ke, s');
    } else {
      s' := CaseThen(d.v, If(c, a, b), a, b, s1, sp, kc + 1, d.m);
      BranchesSame(d.v, a, b, d.m, s1, s0);
      RebaseAgrees(ReadExp(COND, s0), Meaning(If(c, a, b), m, s0), COND, s1, s0, sp, ke, s');
    }
  }

  // ----- assignment -----

  /** The right-hand side from lexeme k on. */
  predicate Rhs(sp: seq<Spaced>, k: nat, a: Expr)
  {
    && k + |Print(a, ASSIGN)| < |sp| && WellFormed(a)
    && Holds(sp, k, Print(a, ASSIGN)) && Follows(ASSIGN, sp[k + |Print(a, ASSIGN)|].lex)
  }

  lemma CaseSet(x: string, a: Expr, s0: State, sp: seq<Spaced>, k: nat, m: Vars) returns (s': State)
    requires Ready(s0, sp, k, m) && k + 2 < |sp| && sp[k].lex == Id(x) && sp[k + 1].lex == S(Eq) && Rhs(sp, k + 2, a)
    ensures Agrees(ReadExp(ASSIGN, s0), Meaning(Set(x, a), m, s0), ASSIGN, s0, sp, k + 2 + |Print(a, ASSIGN)|, s')
    decreases Room(s0), 1, Set(x, a), 0
  {
    hide ReadTok, Exp, Tail, ReadExp, Denote, Print, Holds, WellFormed, Follows, Put, Ready, Agrees;
    EqSet(x, a, m, s0);
    var s1 := ReadLhs(x, s0, sp, k, m);
    var s2 := Parse(ASSIGN, a, s1, sp, k + 2, m);
    s' := SetAgrees(s1, x, Meaning(a, m, s1), sp, k + 2 + |Print(a, ASSIGN)|, s2);
    RebaseAgrees(ReadExp(ASSIGN, s0), Meaning(Set(x, a), m, s0), ASSIGN, s1, s0, sp, k + 2 + |Print(a, ASSIGN)|, s');
  }

  /** The target of a plain assignment is read but not evaluated. */
  lemma ReadLhs(x: string, s0: State, sp: seq<Spaced>, k: nat, m: Vars) returns (s1: State)
    requires Ready(s0, sp, k, m) && k + 2 < |sp| && sp[k].lex == Id(x) && sp[k + 1].lex == S(Eq)
    ensures ReadExp(ASSIGN, s0) == Tail(ASSIGN, 0, s1) && Ready(s1, sp, k + 2, m) && SameLevel(s1, s0) && Room(s1) == Room(s0)
    ensures s1.curtok == Eq && s1.lasttok == Str && s1.tokstr == Some(x)
  {
    hide ReadTok, Exp, Tail, ReadExp, Texts, VarsOk, StrEval, Text, Separated;
    ReadId(s0, sp, k);
    var s := Named(Asking(s0, x, sp[k + 1].lex), 0, Text(sp, k + 1));
    NamePrimary(s, sp, k + 1);
    ReachedBy(s, s0, sp, k + 1, m);
    s1 := AfterSym(s, sp[k + 1].lex, Text(sp, k + 2));
    PrimarySolved(s0, s, 0, m, sp, k + 1, s1);
    LiftAgrees(ASSIGN, UNARY, s0, Value(0, m), sp, k + 1, s1);
    ReadyAgain(s1, s0, sp, k + 1, m);
  }

  lemma EqSet(x: string, a: Expr, m: Vars, s: State)
    ensures var d := Meaning(a, m, s);
      Meaning(Set(x, a), m, s) == if !d.Value? then d else Value(d.v, Put(s.noeval == 0, d.m, x, d.v))
  {
    hide StrLong, UnaryValue, ReadVar, Put, OperateIn, Raised;
  }

  lemma CaseUpdate(op: Tok, x: string, a: Expr, s0: State, sp: seq<Spaced>, k: nat, m: Vars) returns (s': State)
    requires Ready(s0, sp, k, m) && k + 2 < |sp| && sp[k].lex == Id(x) && sp[k + 1].lex == Sym(OpAssign, op) && IsAssignOp(op)
    requires Rhs(sp, k + 2, a)
    ensures Agrees(ReadExp(ASSIGN, s0), Meaning(Update(op, x, a), m, s0), ASSIGN, s0, sp, k + 2 + |Print(a, ASSIGN)|, s')
    decreases Room(s0), 1, Update(op, x, a), 0
  {
    hide ReadTok, Exp, Tail, ReadExp, Denote, Print, Holds, WellFormed, Put, ReadVar, OperateIn, Stored, Ready, Agrees, Follows, IsAssignOp;
    var ke := k + 2 + |Print(a, ASSIGN)|;
    EqUpdate(op, x, a, m, s0);
    var s1 := ReadUpdated(op, x, s0, sp, k, m);
    var d := ReadVar(x, m, s0.noeval == 0, |s0.stack|);
    s' := s1;
    if !d.Value? {
      Failed(ReadExp(ASSIGN, s0), d, ASSIGN, s0, sp, ke, s');
    } else {
      var s2 := Parse(ASSIGN, a, s1, sp, k + 2, d.m);
      s' := UpdateAgrees(d.v, s1, x, Meaning(a, d.m, s1), sp, ke, s2);
      RebaseAgrees(ReadExp(ASSIGN, s0), Meaning(Update(op, x, a), m, s0), ASSIGN, s1, s0, sp, ke, s');
    }
  }

  /** The target of x OP= is evaluated before the right-hand side is. */
  lemma ReadUpdated(op: Tok, x: string, s0: State, sp: seq<Spaced>, k: nat, m: Vars) returns (s1: State)
    requires Ready(s0, sp, k, m) && k + 2 < |sp| && sp[k].lex == Id(x) && sp[k + 1].lex == Sym(OpAssign, op)
    ensures var d := ReadVar(x, m, s0.noeval == 0, |s0.stack|);
      && (d.Failure? ==> ReadExp(ASSIGN, s0) == Fault(Texts(d.m)))
      && (d.Value? ==>
            && ReadExp(ASSIGN, s0) == Tail(ASSIGN, d.v, s1) && Ready(s1, sp, k + 2, d.m) && SameLevel(s1, s0) && Room(s1) == Room(s0)
            && s1.curtok == OpAssign && s1.assigntok == op && s1.lasttok == Str && s1.tokstr == Some(x))
    decreases Room(s0), 0, 4
  {
    hide ReadTok, Exp, Tail, ReadExp, Texts, VarsOk, ReadVar;
    s1 := CaseVar(x, s0, sp, k, m);
    var d := ReadVar(x, m, s0.noeval == 0, |s0.stack|);
    LiftAgrees(ASSIGN, UNARY, s0, d, sp, k + 1, s1);
    if d.Value? {
      ReadyAgain(s1, s0, sp, k + 1, d.m);
    }
  }

  lemma EqUpdate(op: Tok, x: string, a: Expr, m: Vars, s: State)
    ensures var live := s.noeval == 0;
      var d := ReadVar(x, m, live, |s.stack|);
      var d2 := Meaning(a, d.m, s);
      Meaning(Update(op, x, a), m, s) ==
        if !d.Value? then d else if !d2.Value? then d2 else Stored(live, OperateIn(live, op, d.v, d2.v), x, d2.m)
  {
    hide ReadVar, Stored, OperateIn, StrLong, UnaryValue, Put, Raised, FromOption;
  }

  // ----- variables -----

  lemma EvalVar(x: string, s: State, m: Vars)
    requires VarsOk(m) && s.env == Texts(m)
    ensures var d := ReadVar(x, m, s.noeval == 0, |s.stack|);
      && (d.Failure? ==> StrEval(x, s) == Fault(Texts(d.m)))
      && (d.Value? ==> VarsOk(d.m) && StrEval(x, s).Ok?
                       && StrEval(x, s).value.0 == d.v && StrEval(x, s).value.1.env == Texts(d.m))
    decreases Room(s), 0, 1
  {
    hide Denote, ReadTok, ReadExp;
    if s.noeval == 0 && x in m {
      if m[x].Blank? {
        BlankText(m[x].gap);
      } else if m[x].Bound? {
        WrittenText(m[x].sp, m[x].tree);
        if |s.stack| < MAX_EXPR_RECURSION_LEVEL {
          Evaluate(m[x].sp, m[x].tree, s, m);
        }
      }
    }
  }

  lemma BlankText(gap: string)
    requires IsGap(gap)
    ensures IsBlank(gap)
  {
    SkipGap(gap, "");
    assert gap + "" == gap;
  }

  lemma WrittenText(sp: seq<Spaced>, e: Expr)
    requires Writes(sp, e)
    ensures !IsBlank(Text(sp, 0))
  {
    hide Separated, Print, WellFormed, Text;
    LaidOutText(sp);
  }

  lemma LaidOutText(sp: seq<Spaced>)
    requires Separated(sp) && |sp| > 1
    ensures !IsBlank(Text(sp, 0))
  {
    assert SeparatedAt(sp, 0);
    var x := sp[0].lex;
    var rest := Text(sp, 1);
    if x.Sym? {
      SymStart(x.t, x.asg);
    }
    assert |Spell(x)| > 0 && !IsSpace(Spell(x)[0]) && Spell(x)[0] != NUL;
    assert At(Spell(x) + rest, 0) == Spell(x)[0];
    SkipGap(sp[0].gap, Spell(x) + rest);
  }

  /** subexpr on a text that writes a tree down gives the tree's meaning. */
  lemma Evaluate(sp: seq<Spaced>, e: Expr, s: State, m: Vars)
    requires Writes(sp, e) && VarsOk(m) && s.env == Texts(m)
    requires s.noeval == 0 && |s.stack| < MAX_EXPR_RECURSION_LEVEL
    ensures var d, r := Denote(e, m, true, |s.stack| + 1), SubExpr(Text(sp, 0), s);
      && (d.Failure? ==> r == Fault(Texts(d.m)))
      && (d.Value? ==> VarsOk(d.m) && r.Ok? && r.value.0 == d.v && r.value.1.env == Texts(d.m))
    decreases Room(s), 0, 0
  {
    hide ReadTok, Exp, ReadExp, Denote, Print, Separated, Text, SeparatedAt, WellFormed, VarsOk, Texts, Holds, Body;
    WrittenText(sp, e);
    var s1 := Enter(Text(sp, 0), s);
    var s' := Parse(COMMA, e, s1, sp, 0, m);
  }

  // ----- from printed trees to the cases -----

  lemma LayInfix(sp: seq<Spaced>, k: nat, a: Expr, pa: nat, x: Lexeme, b: Expr, pb: nat, l: nat)
    requires var ls := Print(a, pa) + ([x] + Print(b, pb));
      && pa <= UNARY && pb <= UNARY && WellFormed(a) && WellFormed(b)
      && Holds(sp, k, ls) && Follows(pa, x) && Follows(l, sp[k + |ls|].lex) && (l == pb || l < pb)
    ensures Infix(sp, k, a, pa, x, b, pb, l)
    ensures k + |Print(a, pa) + ([x] + Print(b, pb))| == InfixEnd(k, a, pa, b, pb)
  {
    hide Print, WellFormed, Holds, Follows, Infix;
    InfixPieces(sp, k, Print(a, pa), x, Print(b, pb), l, pb);
    MakeInfix(sp, k, a, pa, x, b, pb, l);
  }

  lemma MakeInfix(sp: seq<Spaced>, k: nat, a: Expr, pa: nat, x: Lexeme, b: Expr, pb: nat, l: nat)
    requires var ka, ke := k + |Print(a, pa)|, k + |Print(a, pa)| + 1 + |Print(b, pb)|;
      && pa <= UNARY && pb <= UNARY && ke < |sp| && WellFormed(a) && WellFormed(b)
      && Holds(sp, k, Print(a, pa)) && sp[ka].lex == x && Holds(sp, ka + 1, Print(b, pb))
      && Follows(pa, x) && Follows(pb, sp[ke].lex) && Follows(l, sp[ke].lex)
    ensures Infix(sp, k, a, pa, x, b, pb, l)
  {
    hide Print, WellFormed, Holds, Follows;
  }

  lemma InfixPieces(sp: seq<Spaced>, k: nat, la: seq<Lexeme>, x: Lexeme, lb: seq<Lexeme>, l: nat, pb: nat)
    requires var ls := la + ([x] + lb); Holds(sp, k, ls) && Follows(l, sp[k + |ls|].lex) && (l == pb || l < pb)
    ensures var ke := k + |la| + 1 + |lb|;
      && |la + ([x] + lb)| == |la| + 1 + |lb| && ke < |sp| && Holds(sp, k, la) && sp[k + |la|].lex == x
      && Holds(sp, k + |la| + 1, lb) && Follows(pb, sp[ke].lex) && Follows(l, sp[ke].lex)
  {
    hide Holds, Follows;
    JoinedLength(la, x, lb);
    SplitHolds(sp, k, la, x, lb);
    HoldsEnd(sp, k + |la| + 1, lb);
    if l < pb {
      FollowsTighter(l, pb, sp[k + |la| + 1 + |lb|].lex);
    }
  }

  lemma JoinedLength(la: seq<Lexeme>, x: Lexeme, lb: seq<Lexeme>)
    ensures |la + ([x] + lb)| == |la| + 1 + |lb|
  {
  }

  lemma HoldsEnd(sp: seq<Spaced>, k: nat, ls: seq<Lexeme>)
    requires Holds(sp, k, ls)
    ensures k + |ls| < |sp|
  {
  }

  lemma IfParts(c: Expr, a: Expr, b: Expr)
    requires WellFormed(If(c, a, b))
    ensures WellFormed(c) && WellFormed(a) && WellFormed(b)
    ensures Body(If(c, a, b)) == Print(c, LOR) + ([S(Ques)] + (Print(a, COMMA) + ([S(Col)] + Print(b, COND))))
  {
    hide Print;
  }

  lemma LayTernary(sp: seq<Spaced>, k: nat, c: Expr, a: Expr, b: Expr)
    requires WellFormed(If(c, a, b)) && Holds(sp, k, Body(If(c, a, b))) && Follows(COND, sp[k + |Body(If(c, a, b))|].lex)
    ensures Ternary(sp, k, c, a, b)
    ensures k + |Body(If(c, a, b))| == InfixEnd(k + |Print(c, LOR)| + 1, a, COMMA, b, COND)
  {
    hide Print, Holds, Infix, Body, WellFormed;
    IfParts(c, a, b);
    var kc := k + |Print(c, LOR)|;
    var ls := Print(a, COMMA) + ([S(Col)] + Print(b, COND));
    SplitHolds(sp, k, Print(c, LOR), S(Ques), ls);
    HoldsEnd(sp, kc + 1, ls);
    LayInfix(sp, kc + 1, a, COMMA, S(Col), b, COND, COND);
  }

  lemma LayRhs(sp: seq<Spaced>, k: nat, x: string, y: Lexeme, a: Expr)
    requires var ls := [Id(x)] + ([y] + Print(a, ASSIGN));
      WellFormed(a) && Holds(sp, k, ls) && Follows(ASSIGN, sp[k + |ls|].lex)
    ensures k + 2 < |sp| && sp[k].lex == Id(x) && sp[k + 1].lex == y && Rhs(sp, k + 2, a)
  {
    hide Print, WellFormed, Follows;
    SplitHolds(sp, k, [Id(x)], y, Print(a, ASSIGN));
    HoldsAt(sp, k, [Id(x)], 0);
  }

  /** The level at which a tree without parentheses is parsed. */
  function BodyLevel(e: Expr): nat { if Prec(e) == PRIMARY then UNARY else Prec(e) }

  predicate Case(e: Expr, s0: State, sp: seq<Spaced>, k: nat, m: Vars)
  {
    && Ready(s0, sp, k, m) && WellFormed(e)
    && Holds(sp, k, Body(e)) && Follows(BodyLevel(e), sp[k + |Body(e)|].lex)
  }

  predicate Solved(e: Expr, s0: State, sp: seq<Spaced>, k: nat, m: Vars, s': State)
  {
    Agrees(ReadExp(BodyLevel(e), s0), Meaning(e, m, s0), BodyLevel(e), s0, sp, k + |Body(e)|, s')
  }

  lemma BodyPrimary(e: Expr, s0: State, sp: seq<Spaced>, k: nat, m: Vars) returns (s': State)
    requires Case(e, s0, sp, k, m) && Prec(e) == PRIMARY
    ensures Solved(e, s0, sp, k, m, s')
    decreases Room(s0), 1, e, 1
  {
    hide *;
    PrimaryTree(e);
    if e.Pre? || e.Post? {
      s' := BodyIncDec(e, s0, sp, k, m);
    } else if e.Paren? {
      s' := BodyParen(e.a, s0, sp, k, m);
    } else {
      s' := BodyLeaf(e, s0, sp, k, m);
    }
  }

  lemma PrimaryTree(e: Expr)
    requires Prec(e) == PRIMARY
    ensures e.Number? || e.Var? || e.Pre? || e.Post? || e.Paren?
  {
  }

  lemma BodyLeaf(e: Expr, s0: State, sp: seq<Spaced>, k: nat, m: Vars) returns (s': State)
    requires Case(e, s0, sp, k, m) && (e.Number? || e.Var?)
    ensures Solved(e, s0, sp, k, m, s')
    decreases Room(s0), 1, e, 0
  {
    hide ReadTok, Exp, Tail, ReadExp, ReadVar, Ready, Agrees, StrLong;
    HoldsAt(sp, k, Body(e), 0);
    if e.Number? {
      s' := CaseNumber(e.t, s0, sp, k, m);
    } else {
      s' := CaseVar(e.x, s0, sp, k, m);
    }
  }

  lemma BodyIncDec(e: Expr, s0: State, sp: seq<Spaced>, k: nat, m: Vars) returns (s': State)
    requires Case(e, s0, sp, k, m) && (e.Pre? || e.Post?)
    ensures Solved(e, s0, sp, k, m, s')
    decreases Room(s0), 1, e, 0
  {
    hide *;
    IncDecParts(e, s0, sp, k, m);
    IncDecMeaning(e, m, s0);
    if e.Pre? {
      s' := CasePre(e.inc, e.x, s0, sp, k, m);
    } else {
      s' := CasePost(e.inc, e.x, s0, sp, k, m);
    }
    Solve(e, UNARY, s0, sp, k, m, k + 2, s');
  }

  lemma IncDecParts(e: Expr, s0: State, sp: seq<Spaced>, k: nat, m: Vars)
    requires Case(e, s0, sp, k, m) && (e.Pre? || e.Post?)
    ensures Ready(s0, sp, k, m) && k + 2 < |sp| && Plain(sp[k + 2].lex)
    ensures e.Pre? ==> sp[k].lex == S(PreTok(e.inc)) && sp[k + 1].lex == Id(e.x)
    ensures e.Post? ==> sp[k].lex == Id(e.x) && sp[k + 1].lex == S(PostTok(e.inc))
    ensures |Body(e)| == 2 && BodyLevel(e) == UNARY <= PRIMARY
  {
    hide Ready;
    HoldsAt(sp, k, Body(e), 0);
    HoldsAt(sp, k, Body(e), 1);
  }

  lemma IncDecMeaning(e: Expr, m: Vars, s: State)
    requires e.Pre? || e.Post?
    ensures Meaning(e, m, s) == if e.Pre? then PreMeaning(e.inc, e.x, m, s) else PostMeaning(e.inc, e.x, m, s)
  {
    hide ReadVar, Put, Step;
  }

  /** Parentheses written in the tree itself. */
  lemma BodyParen(a: Expr, s0: State, sp: seq<Spaced>, k: nat, m: Vars) returns (s': State)
    requires Case(Paren(a), s0, sp, k, m)
    ensures Solved(Paren(a), s0, sp, k, m, s')
    decreases Room(s0), 1, Paren(a), 0
  {
    hide *;
    ParenParts(a, s0, sp, k, m);
    var s1 := ReadParen(s0, sp, k, m);
    EqParen(a, m, s0, s1);
    var s2 := Parse(COMMA, a, s1, sp, k + 1, m);
    s' := ParenAgrees(s0, s1, Meaning(a, m, s1), sp, k + 1 + |Print(a, COMMA)|, s2);
    Solve(Paren(a), UNARY, s0, sp, k, m, k + 2 + |Print(a, COMMA)|, s');
  }

  lemma ParenParts(a: Expr, s0: State, sp: seq<Spaced>, k: nat, m: Vars)
    requires Case(Paren(a), s0, sp, k, m)
    ensures var kr := k + 1 + |Print(a, COMMA)|;
      && Ready(s0, sp, k, m) && WellFormed(a) && kr + 1 < |sp| && sp[k].lex == S(LPar) && Holds(sp, k + 1, Print(a, COMMA))
      && sp[kr].lex == S(RPar) && Follows(COMMA, sp[kr].lex) && Plain(sp[kr + 1].lex)
    ensures k + |Body(Paren(a))| == k + 2 + |Print(a, COMMA)| && COMMA <= UNARY == BodyLevel(Paren(a)) <= PRIMARY
  {
    hide *;
    CaseParts(Paren(a), s0, sp, k, m);
    ParenBody(a);
    LayEnclosed(Print(a, COMMA), sp, k);
    FollowsPlain(BodyLevel(Paren(a)), sp[k + |Body(Paren(a))|].lex);
  }

  lemma CaseParts(e: Expr, s0: State, sp: seq<Spaced>, k: nat, m: Vars)
    requires Case(e, s0, sp, k, m)
    ensures Ready(s0, sp, k, m) && WellFormed(e) && Holds(sp, k, Body(e)) && k + |Body(e)| < |sp|
    ensures Follows(BodyLevel(e), sp[k + |Body(e)|].lex)
  {
    hide Ready, WellFormed, Body, Follows, BodyLevel;
  }

  lemma ParenBody(a: Expr)
    ensures Body(Paren(a)) == [S(LPar)] + Print(a, COMMA) + [S(RPar)] && |Body(Paren(a))| == |Print(a, COMMA)| + 2
    ensures WellFormed(Paren(a)) ==> WellFormed(a)
    ensures COMMA <= UNARY == BodyLevel(Paren(a)) <= PRIMARY && Follows(COMMA, S(RPar))
  {
    hide Print;
  }

  lemma FollowsPlain(l: nat, x: Lexeme)
    requires Follows(l, x)
    ensures Plain(x)
  {
  }

  lemma EqParen(a: Expr, m: Vars, s0: State, s1: State)
    requires SameLevel(s1, s0)
    ensures Meaning(Paren(a), m, s0) == Meaning(a, m, s1)
  {
    hide StrLong, UnaryValue, ReadVar, Put, OperateIn, Raised;
  }

  lemma BodySet(x: string, a: Expr, s0: State, sp: seq<Spaced>, k: nat, m: Vars) returns (s': State)
    requires Case(Set(x, a), s0, sp, k, m)
    ensures Solved(Set(x, a), s0, sp, k, m, s')
    decreases Room(s0), 1, Set(x, a), 1
  {
    hide ReadTok, Exp, Tail, ReadExp, Denote, Ready, Agrees, Print, Holds, Rhs, Follows;
    LayRhs(sp, k, x, S(Eq), a);
    s' := CaseSet(x, a, s0, sp, k, m);
  }

  lemma BodyUpdate(op: Tok, x: string, a: Expr, s0: State, sp: seq<Spaced>, k: nat, m: Vars) returns (s': State)
    requires Case(Update(op, x, a), s0, sp, k, m)
    ensures Solved(Update(op, x, a), s0, sp, k, m, s')
    decreases Room(s0), 1, Update(op, x, a), 1
  {
    hide ReadTok, Exp, Tail, ReadExp, Denote, Ready, Agrees, Print, Holds, Rhs, Follows;
    LayRhs(sp, k, x, Sym(OpAssign, op), a);
    s' := CaseUpdate(op, x, a, s0, sp, k, m);
  }

  lemma UnaryParts(op: Tok, a: Expr, s0: State, sp: seq<Spaced>, k: nat, m: Vars)
    requires Case(Unary(op, a), s0, sp, k, m)
    ensures var ke := k + 1 + |Print(a, UNARY)|;
      && Ready(s0, sp, k, m) && k + 1 < |sp| && sp[k].lex == S(op) && IsUnary(op) && WellFormed(a)
      && Holds(sp, k + 1, Print(a, UNARY)) && ke < |sp| && Follows(UNARY, sp[ke].lex)
    ensures k + |Body(Unary(op, a))| == k + 1 + |Print(a, UNARY)| && BodyLevel(Unary(op, a)) == UNARY <= PRIMARY
  {
    hide Ready, Print, Follows;
    var ls := Print(a, UNARY);
    assert Body(Unary(op, a)) == [] + ([S(op)] + ls);
    SplitHolds(sp, k, [], S(op), ls);
  }

  lemma Solve(e: Expr, l: nat, s0: State, sp: seq<Spaced>, k: nat, m: Vars, ke: nat, s': State)
    requires l == BodyLevel(e) <= PRIMARY && ke == k + |Body(e)|
    requires Agrees(ReadExp(l, s0), Meaning(e, m, s0), l, s0, sp, ke, s')
    ensures Solved(e, s0, sp, k, m, s')
  {
    hide Agrees, ReadExp, Body, Prec;
  }

  lemma BodyUnary(e: Expr, s0: State, sp: seq<Spaced>, k: nat, m: Vars) returns (s': State)
    requires Case(e, s0, sp, k, m) && e.Unary?
    ensures Solved(e, s0, sp, k, m, s')
    decreases Room(s0), 1, e, 1
  {
    hide *;
    UnaryParts(e.uop, e.a, s0, sp, k, m);
    s' := CaseUnary(e.uop, e.a, s0, sp, k, m);
    Solve(e, UNARY, s0, sp, k, m, k + 1 + |Print(e.a, UNARY)|, s');
  }

  lemma BodyBin(op: Tok, a: Expr, b: Expr, s0: State, sp: seq<Spaced>, k: nat, m: Vars) returns (s': State)
    requires Case(Bin(op, a, b), s0, sp, k, m)
    ensures Solved(Bin(op, a, b), s0, sp, k, m, s')
    decreases Room(s0), 1, Bin(op, a, b), 1
  {
    hide ReadTok, Exp, Tail, ReadExp, Denote, Ready, Agrees, Print, Holds, Infix, Follows;
    FollowsOwn(op);
    LayInfix(sp, k, a, OpLevel(op), S(op), b, OpLevel(op) + 1, OpLevel(op));
    s' := CaseBin(op, a, b, s0, sp, k, m);
  }

  /** An infix operator may follow its own left operand. */
  lemma FollowsOwn(op: Tok)
    requires IsBinary(op) || op in {Lor, Land, Comma, Power}
    ensures Follows(if op == Power then UNARY else OpLevel(op), S(op))
  {
  }

  lemma BodyPwr(a: Expr, b: Expr, s0: State, sp: seq<Spaced>, k: nat, m: Vars) returns (s': State)
    requires Case(Pwr(a, b), s0, sp, k, m)
    ensures Solved(Pwr(a, b), s0, sp, k, m, s')
    decreases Room(s0), 1, Pwr(a, b), 1
  {
    hide ReadTok, Exp, Tail, ReadExp, Denote, Ready, Agrees, Print, Holds, Infix, Follows;
    FollowsOwn(Power);
    LayInfix(sp, k, a, UNARY, S(Power), b, POWER, POWER);
    s' := CasePwr(a, b, s0, sp, k, m);
  }

  lemma BodyLogical(l: nat, a: Expr, b: Expr, s0: State, sp: seq<Spaced>, k: nat, m: Vars) returns (s': State)
    requires (l == LOR || l == LAND) && Case(LogicalTree(l, a, b), s0, sp, k, m)
    ensures Solved(LogicalTree(l, a, b), s0, sp, k, m, s')
    decreases Room(s0), 1, LogicalTree(l, a, b), 1
  {
    hide ReadTok, Exp, Tail, ReadExp, Denote, Ready, Agrees, Print, Holds, Infix, Follows;
    FollowsOwn(LogicalTok(l));
    LayInfix(sp, k, a, l, S(LogicalTok(l)), b, l + 1, l);
    s' := CaseLogical(l, a, b, s0, sp, k, m);
  }

  lemma BodySeq(a: Expr, b: Expr, s0: State, sp: seq<Spaced>, k: nat, m: Vars) returns (s': State)
    requires Case(Seq(a, b), s0, sp, k, m)
    ensures Solved(Seq(a, b), s0, sp, k, m, s')
    decreases Room(s0), 1, Seq(a, b), 1
  {
    hide ReadTok, Exp, Tail, ReadExp, Denote, Ready, Agrees, Print, Holds, Infix, Follows;
    FollowsOwn(Comma);
    LayInfix(sp, k, a, COMMA, S(Comma), b, ASSIGN, COMMA);
    s' := CaseSeq(a, b, s0, sp, k, m);
  }

  /** A tree without outer parentheses. */
  lemma ParseBody(e: Expr, s0: State, sp: seq<Spaced>, k: nat, m: Vars) returns (s': State)
    requires Case(e, s0, sp, k, m)
    ensures Solved(e, s0, sp, k, m, s')
    decreases Room(s0), 1, e, 3
  {
    hide ReadTok, Exp, Tail, ReadExp, Denote, Ready, Agrees, Print, Holds, Ternary, Body, Follows, Case, Solved;
    match e
    case Unary(_, _) => s' := BodyUnary(e, s0, sp, k, m);
    case Bin(op, a, b) => s' := BodyBin(op, a, b, s0, sp, k, m);
    case Pwr(a, b) => s' := BodyPwr(a, b, s0, sp, k, m);
    case And(a, b) => s' := BodyLogical(LAND, a, b, s0, sp, k, m);
    case Or(a, b) => s' := BodyLogical(LOR, a, b, s0, sp, k, m);
    case If(c, a, b) => s' := BodyIf(c, a, b, s0, sp, k, m);
    case Set(x, a) => s' := BodySet(x, a, s0, sp, k, m);
    case Update(op, x, a) => s' := BodyUpdate(op, x, a, s0, sp, k, m);
    case Seq(a, b) => s' := BodySeq(a, b, s0, sp, k, m);
    case _ => s' := BodyPrimary(e, s0, sp, k, m);
  }

  lemma BodyIf(c: Expr, a: Expr, b: Expr, s0: State, sp: seq<Spaced>, k: nat, m: Vars) returns (s': State)
    requires Case(If(c, a, b), s0, sp, k, m)
    ensures Solved(If(c, a, b), s0, sp, k, m, s')
    decreases Room(s0), 1, If(c, a, b), 2
  {
    hide ReadTok, Exp, Tail, ReadExp, Denote, Ready, Agrees, Print, Holds, Ternary, Body, Follows;
    LayTernary(sp, k, c, a, b);
    s' := CaseIf(c, a, b, s0, sp, k, m);
  }

  /** exp0 on a parenthesised tree. */
  lemma ParenAgrees(s0: State, s1: State, d: Result, sp: seq<Spaced>, k: nat, s2: State) returns (s': State)
    requires ReadTok(s0) == Ok(s1) && s1.curtok == LPar && SameLevel(s1, s0)
    requires Agrees(ReadExp(COMMA, s1), d, COMMA, s1, sp, k, s2)
    requires k + 1 < |sp| && sp[k].lex == S(RPar) && Plain(sp[k + 1].lex)
    ensures Agrees(ReadExp(UNARY, s0), d, UNARY, s0, sp, k + 1, s')
  {
    hide ReadTok, ReadExp, Texts, VarsOk;
    s' := s2;
    if d.Failure? {
      assert Exp0(s1) == Fault(Texts(d.m));
      PrimaryFault(s0, s1, Texts(d.m));
    } else if d.Value? {
      AtParen(s2, s1, d.v, sp, k, d.m);
      ReachedBy(s2, s0, sp, k + 1, d.m);
      s' := AfterSym(s2, sp[k + 1].lex, Text(sp, k + 2));
      assert Exp0(s1) == Ok((d.v, s'));
      PrimarySolved(s0, s1, d.v, d.m, sp, k + 1, s');
    }
  }

  lemma AtParen(s2: State, s1: State, v: intmax, sp: seq<Spaced>, k: nat, m: Vars)
    requires Reached(s2, s1, sp, k, m) && k + 1 < |sp| && sp[k].lex == S(RPar)
    ensures Tail(COMMA, v, s2) == Ok((v, s2)) && s2.curtok == RPar && Ahead(s2, sp, k + 1)
  {
  }

  lemma LayParen(e: Expr, sp: seq<Spaced>, k: nat, l: nat)
    requires Prec(e) < l && Holds(sp, k, Print(e, l))
    ensures sp[k].lex == S(LPar) && Holds(sp, k + 1, Body(e)) && sp[k + 1 + |Body(e)|].lex == S(RPar)
    ensures |Print(e, l)| == |Body(e)| + 2 && k + 2 + |Body(e)| < |sp|
  {
    hide Body;
    LayEnclosed(Body(e), sp, k);
  }

  lemma LayEnclosed(ls: seq<Lexeme>, sp: seq<Spaced>, k: nat)
    requires Holds(sp, k, [S(LPar)] + ls + [S(RPar)])
    ensures k + 2 + |ls| < |sp| && sp[k].lex == S(LPar) && Holds(sp, k + 1, ls) && sp[k + 1 + |ls|].lex == S(RPar)
  {
    var all := [S(LPar)] + ls + [S(RPar)];
    assert all[0] == S(LPar);
    assert all[1 + |ls|] == S(RPar);
    forall i | 0 <= i < |ls|
      ensures sp[k + 1 + i].lex == ls[i]
    {
      assert all[1 + i] == ls[i];
    }
  }

  lemma ReadParen(s0: State, sp: seq<Spaced>, k: nat, m: Vars) returns (s1: State)
    requires Ready(s0, sp, k, m) && k + 1 < |sp| && sp[k].lex == S(LPar)
    ensures ReadTok(s0) == Ok(s1) && s1.curtok == LPar && Ready(s1, sp, k + 1, m) && SameLevel(s1, s0) && Room(s1) == Room(s0)
  {
    hide ReadTok, Texts, VarsOk;
    ReadSym(s0, sp, k);
    s1 := AfterSym(s0, sp[k].lex, Text(sp, k + 1));
  }

  lemma ParenCase(e: Expr, s: State, sp: seq<Spaced>, k: nat, m: Vars)
    requires Ready(s, sp, k, m) && WellFormed(e) && Holds(sp, k, Body(e))
    requires k + |Body(e)| < |sp| && sp[k + |Body(e)|].lex == S(RPar)
    ensures Case(e, s, sp, k, m)
  {
    hide Ready, WellFormed, Holds, Body;
  }

  lemma ParseParen(l: nat, e: Expr, s0: State, sp: seq<Spaced>, k: nat, m: Vars) returns (s': State)
    requires Ready(s0, sp, k, m) && WellFormed(e) && Prec(e) < l <= UNARY
    requires Holds(sp, k, Print(e, l)) && Plain(sp[k + |Print(e, l)|].lex)
    ensures Agrees(ReadExp(UNARY, s0), Meaning(e, m, s0), UNARY, s0, sp, k + |Print(e, l)|, s')
    decreases Room(s0), 1, e, 4
  {
    hide *;
    LayParen(e, sp, k, l);
    var s1 := ReadParen(s0, sp, k, m);
    ParenCase(e, s1, sp, k + 1, m);
    var s2 := ParseBody(e, s1, sp, k + 1, m);
    s' := CloseParen(e, s0, s1, sp, k, m, s2);
  }

  lemma CloserStops(e: Expr, x: Lexeme)
    requires x == S(RPar)
    ensures x.Sym? && OpLevel(x.t) <= COMMA <= BodyLevel(e) <= UNARY
  {
  }

  lemma SameMeaning(e: Expr, m: Vars, s1: State, s0: State)
    requires SameLevel(s1, s0)
    ensures Meaning(e, m, s1) == Meaning(e, m, s0)
  {
    hide Denote;
  }

  lemma CloseParen(e: Expr, s0: State, s1: State, sp: seq<Spaced>, k: nat, m: Vars, s2: State) returns (s': State)
    requires ReadTok(s0) == Ok(s1) && s1.curtok == LPar && SameLevel(s1, s0) && Solved(e, s1, sp, k + 1, m, s2)
    requires var kr := k + 1 + |Body(e)|; kr + 1 < |sp| && sp[kr].lex == S(RPar) && Plain(sp[kr + 1].lex)
    ensures Agrees(ReadExp(UNARY, s0), Meaning(e, m, s0), UNARY, s0, sp, k + 2 + |Body(e)|, s')
  {
    hide *;
    CloserStops(e, sp[k + 1 + |Body(e)|].lex);
    OpenAgrees(COMMA, e, s1, sp, k + 1, m, s2);
    SameMeaning(e, m, s1, s0);
    s' := ParenAgrees(s0, s1, Meaning(e, m, s1), sp, k + 1 + |Body(e)|, s2);
  }

  /** A printed tree, at any level. */
  lemma Parse(l: nat, e: Expr, s0: State, sp: seq<Spaced>, k: nat, m: Vars) returns (s': State)
    requires Ready(s0, sp, k, m) && WellFormed(e) && l <= UNARY
    requires Holds(sp, k, Print(e, l)) && Follows(l, sp[k + |Print(e, l)|].lex)
    ensures Agrees(ReadExp(l, s0), Meaning(e, m, s0), l, s0, sp, k + |Print(e, l)|, s')
    decreases Room(s0), 1, e, 5
  {
    hide *;
    HoldsEnd(sp, k, Print(e, l));
    FollowerOf(l, sp[k + |Print(e, l)|].lex);
    if Prec(e) >= l {
      OpenParts(l, e, s0, sp, k, m);
      s' := ParseBody(e, s0, sp, k, m);
      OpenAgrees(l, e, s0, sp, k, m, s');
    } else {
      s' := ParseParen(l, e, s0, sp, k, m);
      LiftAgrees(l, UNARY, s0, Meaning(e, m, s0), sp, k + |Print(e, l)|, s');
    }
  }

  lemma FollowerOf(l: nat, x: Lexeme)
    requires Follows(l, x)
    ensures x.Sym? && Plain(x) && OpLevel(x.t) <= l
  {
  }

  /** Without parentheses the tree's body stands there, and its follower may follow it. */
  lemma OpenParts(l: nat, e: Expr, s0: State, sp: seq<Spaced>, k: nat, m: Vars)
    requires Ready(s0, sp, k, m) && WellFormed(e) && l <= Prec(e)
    requires Holds(sp, k, Print(e, l)) && k + |Print(e, l)| < |sp| && Follows(l, sp[k + |Print(e, l)|].lex) && l <= UNARY
    ensures Print(e, l) == Body(e) && l <= BodyLevel(e) <= UNARY && Case(e, s0, sp, k, m)
  {
    hide Ready, WellFormed, Holds, Body, Follows, Prec;
    if l < BodyLevel(e) {
      FollowsTighter(l, BodyLevel(e), sp[k + |Print(e, l)|].lex);
    }
  }

  lemma OpenAgrees(l: nat, e: Expr, s0: State, sp: seq<Spaced>, k: nat, m: Vars, s': State)
    requires l <= BodyLevel(e) <= UNARY && Solved(e, s0, sp, k, m, s')
    requires var ke := k + |Body(e)|; ke < |sp| && sp[ke].lex.Sym? && OpLevel(sp[ke].lex.t) <= l
    ensures l <= PRIMARY && Agrees(ReadExp(l, s0), Meaning(e, m, s0), l, s0, sp, k + |Body(e)|, s')
  {
    hide Agrees, ReadExp, Body, Prec, Meaning;
    LiftAgrees(l, BodyLevel(e), s0, Meaning(e, m, s0), sp, k + |Body(e)|, s');
  }
}
