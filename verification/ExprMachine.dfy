/** The arithmetic evaluator: a recursive-descent parser that evaluates while it parses.
    State holds the globals of expr.c; every function maps the state before a call to the
    state after it.  A fault (evalerror, a longjmp) keeps only what survives it: the
    variables. */
module ExprMachine {
  import opened CStrings
  import opened Int64
  import opened ExprLexer
  import opened Options

  const MAX_EXPR_RECURSION_LEVEL: nat := 1024

  /** Shell variables: name to text. */
  type Env = map<string, string>

  /** What pushexp saves. */
  datatype Context = Context(curtok: Tok, lasttok: Tok, tp: string,
                             tokval: intmax, tokstr: Option<string>, noeval: nat)

  /** expr_stack; its length is expr_depth, which never passes the limit. */
  type Stack = s: seq<Context> | |s| <= MAX_EXPR_RECURSION_LEVEL

  datatype State = State(
    tp: string,               // text not yet scanned
    curtok: Tok, lasttok: Tok,
    assigntok: Tok,           // the OP of OP=
    tokval: intmax, tokstr: Option<string>,
    noeval: nat,
    env: Env,
    stack: Stack)

  datatype Outcome<+T> = Ok(value: T) | Fault(env: Env) {
    predicate IsFailure() { Fault? }
    function PropagateFailure<U>(): Outcome<U> requires Fault? { Fault(env) }
    function Extract(): T requires Ok? { value }
  }

  // ----- grammar levels, loosest first -----

  const COMMA: nat := 0
  const ASSIGN: nat := 1
  const COND: nat := 2
  const LOR: nat := 3
  const LAND: nat := 4
  const BOR: nat := 5
  const BXOR: nat := 6
  const BAND: nat := 7
  const EQUAL: nat := 8
  const COMPARE: nat := 9
  const SHIFT: nat := 10
  const SUM: nat := 11
  const PRODUCT: nat := 12
  const POWER: nat := 13
  const UNARY: nat := 14
  const PRIMARY: nat := 15

  /** The level whose loop or test consumes the token; tokens no level consumes get COMMA. */
  function OpLevel(t: Tok): (l: nat)
    ensures l <= POWER
  {
    match t
    case Eq => ASSIGN case OpAssign => ASSIGN
    case Ques => COND
    case Lor => LOR case Land => LAND
    case Bor => BOR case Bxor => BXOR case Band => BAND
    case EqEq => EQUAL case Neq => EQUAL
    case Leq => COMPARE case Geq => COMPARE case Lt => COMPARE case Gt => COMPARE
    case Lsh => SHIFT case Rsh => SHIFT
    case Plus => SUM case Minus => SUM
    case Mul => PRODUCT case Div => PRODUCT case Mod => PRODUCT
    case Power => POWER
    case _ => COMMA
  }

  // ----- operator values -----

  function BoolVal(b: bool): intmax { if b then 1 else 0 }

  /** A shift takes the low six bits of its count. */
  function ShiftCount(n: intmax): nat { n % 64 }

  /** The value one turn of a binary loop (levels BOR to PRODUCT) computes; division has a
      non-zero divisor, and INTMAX_MIN by -1 does not reach imaxdiv. */
  function BinaryValue(op: Tok, a: intmax, b: intmax): intmax
    requires op == Div || op == Mod ==> b != 0
  {
    match op
    case Bor => Bitwise(BitOr, a, b)
    case Bxor => Bitwise(BitXor, a, b)
    case Band => Bitwise(BitAnd, a, b)
    case EqEq => BoolVal(a == b)
    case Neq => BoolVal(a != b)
    case Leq => BoolVal(a <= b)
    case Geq => BoolVal(a >= b)
    case Lt => BoolVal(a < b)
    case Gt => BoolVal(a > b)
    case Lsh => Wrap(a * Pow2(ShiftCount(b)))
    case Rsh => Wrap(a / Pow2(ShiftCount(b)))
    case Plus => Wrap(a + b)
    case Minus => Wrap(a - b)
    case Mul => Wrap(a * b)
    case Div => if a == INTMAX_MIN && b == -1 then INTMAX_MIN else QuotInRange(a, b); Quot(a, b)
    case Mod => if a == INTMAX_MIN && b == -1 then 0 else QuotInRange(a, b); Rem(a, b)
    case _ => a
  }

  predicate IsAssignOp(op: Tok) { op in {Mul, Div, Mod, Plus, Minus, Lsh, Rsh, Band, Bor, Bxor} }

  // ----- the measure that makes evaluation terminate -----

  /** Room left on the context stack. */
  function Room(s: State): nat { MAX_EXPR_RECURSION_LEVEL - |s.stack| }

  /** Text left, counting the token already read. */
  function Left(s: State): nat { 2 * |s.tp| + (if s.curtok == End then 0 else 1) }

  /** What every call keeps: the context stack, noeval, and, when noeval is set, every
      variable.  It never gives text back. */
  predicate Kept(s: State, s': State)
  {
    && s'.stack == s.stack
    && s'.noeval == s.noeval
    && Left(s') <= Left(s)
    && (s.noeval > 0 ==> s'.env == s.env)
  }

  predicate KeptOnFault(s: State, env: Env) { s.noeval > 0 ==> env == s.env }

  // ----- reading a token -----

  /** readtok. */
  function ReadTok(s: State): (r: Outcome<State>)
    ensures r.Ok? ==> Kept(s, r.value)
    ensures r.Ok? && s.curtok != End ==> Left(r.value) < Left(s)
    ensures r.Fault? ==> KeptOnFault(s, r.env)
    decreases Room(s), Left(s), 2
  {
    match Lex(s.tp, s.curtok, s.lasttok)
    case LexError => Fault(s.env)
    case LexEnd(rest) => Ok(s.(lasttok := s.curtok, curtok := End, tp := rest))
    case LexOp(tok, asg, rest) =>
      Ok(s.(lasttok := s.curtok, curtok := tok, tp := rest,
            assigntok := if tok == OpAssign then asg else s.assigntok))
    case LexNumber(digits, rest) =>
      var n := StrLong(digits);
      if n.None? then Fault(s.env)
      else Ok(s.(lasttok := s.curtok, curtok := Num, tp := rest, tokval := n.value))
    case LexName(name, rest) =>
      // look one token ahead with evaluation off, then restore everything but assigntok
      var peek :- ReadTok(s.(tp := rest, curtok := Str, tokstr := None, noeval := 1));
      var s1 := s.(tokstr := Some(name), assigntok := peek.assigntok, env := s.env);
      if IsPre(s.lasttok) || peek.curtok != Eq then
        var (v, s2) :- StrEval(name, s1);
        Ok(s2.(tokval := v, lasttok := s2.curtok, curtok := Str, tp := rest))
      else
        Ok(s1.(tokval := 0, lasttok := s.curtok, curtok := Str, tp := rest))
  }

  /** expr_streval for a scalar: the variable's text is itself evaluated. */
  function StrEval(name: string, s: State): (r: Outcome<(intmax, State)>)
    ensures r.Ok? ==> OnlyVariables(s, r.value.1)
    ensures r.Fault? ==> KeptOnFault(s, r.env)
    decreases Room(s), Left(s), 1
  {
    if s.noeval > 0 then Ok((0, s))
    else if name !in s.env then Ok((0, s))
    else SubExpr(s.env[name], s)
  }

  /** The two states differ in variables and assigntok only, and in no variable under noeval. */
  predicate OnlyVariables(s: State, s': State)
  {
    && s' == s.(env := s'.env, assigntok := s'.assigntok)
    && (s.noeval > 0 ==> s'.env == s.env)
  }

  predicate IsBlank(text: string) { At(SkipSpace(text), 0) == NUL }

  function Push(s: State): (r: State)
    requires |s.stack| < MAX_EXPR_RECURSION_LEVEL
    ensures |r.stack| == |s.stack| + 1
  {
    s.(stack := s.stack + [Context(s.curtok, s.lasttok, s.tp, s.tokval, s.tokstr, s.noeval)])
  }

  function Pop(s: State): State
    requires s.stack != []
  {
    var c := s.stack[|s.stack| - 1];
    s.(stack := s.stack[..|s.stack| - 1], curtok := c.curtok, lasttok := c.lasttok, tp := c.tp,
       tokval := c.tokval, tokstr := c.tokstr, noeval := c.noeval)
  }

  function Enter(text: string, s: State): State
    requires |s.stack| < MAX_EXPR_RECURSION_LEVEL
  {
    Push(s).(tp := text, curtok := End, lasttok := End, tokstr := None, tokval := 0)
  }

  /** subexpr: evaluate a text in a fresh context and come back to the present one. */
  function SubExpr(text: string, s: State): (r: Outcome<(intmax, State)>)
    ensures r.Ok? ==> OnlyVariables(s, r.value.1)
    ensures r.Fault? ==> KeptOnFault(s, r.env)
    ensures |s.stack| == MAX_EXPR_RECURSION_LEVEL ==> r == if IsBlank(text) then Ok((0, s)) else Fault(s.env)
    decreases Room(s), Left(s), 0
  {
    if IsBlank(text) then Ok((0, s))
    else if |s.stack| >= MAX_EXPR_RECURSION_LEVEL then Fault(s.env)
    else
      var (v, s2) :- ReadExp(COMMA, Enter(text, s));
      if s2.curtok != End then Fault(s2.env) else Ok((v, Pop(s2)))
  }

  // ----- the grammar -----

  /** Read a token, then parse at level l: what every use of a parsing function does. */
  function ReadExp(l: nat, s: State): (r: Outcome<(intmax, State)>)
    requires l <= PRIMARY
    ensures r.Ok? ==> Kept(s, r.value.1)
    ensures r.Ok? && s.curtok != End ==> Left(r.value.1) < Left(s)
    ensures r.Fault? ==> KeptOnFault(s, r.env)
    decreases Room(s), Left(s), if s.curtok == End then 7 + PRIMARY else 3
  {
    var s1 :- ReadTok(s);
    Exp(l, s1)
  }

  /** The parsing function of one level: parse at the next tighter level, then do what this
      level does with the value (expcomma, expassign, expcond, explor, expland, expbor,
      expbxor, expband, exp5, exp4, expshift, exp3, expmuldiv, exppower, exp1, exp0). */
  function Exp(l: nat, s: State): (r: Outcome<(intmax, State)>)
    requires l <= PRIMARY
    ensures r.Ok? ==> Kept(s, r.value.1)
    ensures r.Fault? ==> KeptOnFault(s, r.env)
    decreases Room(s), Left(s), 6 + PRIMARY - l
  {
    if l == PRIMARY then Exp0(s)
    else if l == UNARY then
      if s.curtok in {Not, Bnot, Minus, Plus} then
        var (v, s1) :- ReadExp(UNARY, s);
        Ok((UnaryValue(s.curtok, v), s1.(lasttok := Num)))
      else Exp(PRIMARY, s)
    else
      var (v, s1) :- Exp(l + 1, s);
      Tail(l, v, s1)
  }

  function UnaryValue(op: Tok, v: intmax): intmax
  {
    match op
    case Not => BoolVal(v == 0)
    case Bnot => -1 - v
    case Minus => Wrap(0 - v)
    case _ => v
  }

  /** What a level does after its first operand. */
  function Tail(l: nat, v: intmax, s: State): (r: Outcome<(intmax, State)>)
    ensures r.Ok? ==> Kept(s, r.value.1)
    ensures r.Fault? ==> KeptOnFault(s, r.env)
    decreases Room(s), Left(s), 5
  {
    if l == COMMA && s.curtok == Comma then
      var (v2, s2) :- ReadExp(ASSIGN, s);
      Tail(COMMA, v2, s2)
    else if l == ASSIGN && (s.curtok == Eq || s.curtok == OpAssign) then Assign(v, s)
    else if l == COND && s.curtok == Ques then Conditional(v, s)
    else if (l == LOR || l == LAND) && s.curtok == LogicalTok(l) then
      var (v2, s2) :- Logical(l, v, s);
      Tail(l, v2, s2)
    else if BOR <= l <= PRODUCT && OpLevel(s.curtok) == l then
      var (v2, s2) :- Binary(l, v, s);
      Tail(l, v2, s2)
    else if l == POWER && s.curtok == Power then
      var (v2, s1) :- ReadExp(POWER, s);
      var s2 := s1.(lasttok := Num);
      if v2 == 0 then Ok((1, s2))
      else if v2 < 0 then Fault(s2.env)
      else Tail(POWER, Wrap(Pow(v, v2)), s2)
    else Ok((v, s))
  }

  function LogicalTok(l: nat): Tok { if l == LOR then Lor else Land }

  /** Does the left operand decide the operator? */
  predicate Decided(l: nat, v: intmax) { if l == LOR then v != 0 else v == 0 }

  function Join(l: nat, v: intmax, v2: intmax): intmax
  {
    BoolVal(if l == LOR then v != 0 || v2 != 0 else v != 0 && v2 != 0)
  }

  /** noeval++ and noeval-- under a set_noeval flag. */
  function Raise(s: State, up: bool): State { if up then s.(noeval := s.noeval + 1) else s }

  function Lower(s: State, up: bool): State
  {
    if up && s.noeval > 0 then s.(noeval := s.noeval - 1) else s
  }

  /** One turn of the loops of explor and expland: the right operand runs with noeval raised
      when the left one decides. */
  function Logical(l: nat, v: intmax, s: State): (r: Outcome<(intmax, State)>)
    requires l == LOR || l == LAND
    requires s.curtok != End
    ensures r.Ok? ==> Kept(s, r.value.1) && Left(r.value.1) < Left(s)
    ensures r.Fault? ==> KeptOnFault(s, r.env)
    decreases Room(s), Left(s), 4
  {
    var (v2, s2) :- ReadExp(l + 1, Raise(s, Decided(l, v)));
    Ok((Join(l, v, v2), Lower(s2, Decided(l, v)).(lasttok := LogicalTok(l))))
  }

  /** The right operand a division really uses when it is not an error. */
  function Divisor(op: Tok, b: intmax): (r: intmax)
    ensures op == Div || op == Mod ==> r != 0
  {
    if (op == Div || op == Mod) && b == 0 then 1 else b
  }

  predicate ZeroDivide(op: Tok, b: intmax, s: State)
  {
    (op == Div || op == Mod) && b == 0 && s.noeval == 0
  }

  /** One turn of the loops of expbor to expmuldiv. */
  function Binary(l: nat, v: intmax, s: State): (r: Outcome<(intmax, State)>)
    requires BOR <= l <= PRODUCT
    requires s.curtok != End
    ensures r.Ok? ==> Kept(s, r.value.1) && Left(r.value.1) < Left(s)
    ensures r.Fault? ==> KeptOnFault(s, r.env)
    decreases Room(s), Left(s), 4
  {
    var op := s.curtok;
    var (v2, s2) :- ReadExp(l + 1, s);
    if ZeroDivide(op, v2, s2) then Fault(s2.env)
    else if op == Mod && v == INTMAX_MIN && v2 == -1 then
      Ok((0, s2))  // `continue': lasttok is not set
    else
      Ok((BinaryValue(op, v, Divisor(op, v2)), s2.(lasttok := Num)))
  }

  /** The assignment part of expassign. */
  function Assign(v: intmax, s: State): (r: Outcome<(intmax, State)>)
    requires s.curtok == Eq || s.curtok == OpAssign
    ensures r.Ok? ==> Kept(s, r.value.1)
    ensures r.Fault? ==> KeptOnFault(s, r.env)
    decreases Room(s), Left(s), 4
  {
    if s.lasttok != Str || s.tokstr.None? then Fault(s.env) else
    var op, special := s.assigntok, s.curtok == OpAssign;
    var (v2, s2) :- ReadExp(ASSIGN, s);
    if special && ZeroDivide(op, v2, s2) then Fault(s2.env)
    else if special && !IsAssignOp(op) then Fault(s2.env)
    else
      var w := if special then BinaryValue(op, v, Divisor(op, v2)) else v2;
      Ok((w, Store(s2, s.tokstr, w).(tokstr := None)))
  }

  /** The `?' half of expcond. */
  function Conditional(v: intmax, s: State): (r: Outcome<(intmax, State)>)
    requires s.curtok == Ques
    ensures r.Ok? ==> Kept(s, r.value.1)
    ensures r.Fault? ==> KeptOnFault(s, r.env)
    decreases Room(s), Left(s), 4
  {
    var s1 :- ReadTok(Raise(s, v == 0));
    if s1.curtok == End || s1.curtok == Col then Fault(s1.env) else
    var (v1, s2) :- Exp(COMMA, s1);
    if s2.curtok != Col then Fault(s2.env) else
    Otherwise(v, v1, Lower(s2, v == 0))
  }

  /** The `:' half of expcond. */
  function Otherwise(v: intmax, v1: intmax, s: State): (r: Outcome<(intmax, State)>)
    requires s.curtok == Col
    ensures r.Ok? ==> Kept(s, r.value.1)
    ensures r.Fault? ==> KeptOnFault(s, r.env)
    decreases Room(s), Left(s), 4
  {
    var s1 :- ReadTok(Raise(s, v != 0));
    if s1.curtok == End then Fault(s1.env) else
    var (v2, s2) :- Exp(COND, s1);
    Ok((if v != 0 then v1 else v2, Lower(s2, v != 0).(lasttok := Cond)))
  }

  function IncDec(t: Tok, v: intmax): intmax
  {
    if t == PreInc || t == PostInc then Wrap(v + 1) else Wrap(v - 1)
  }

  function Store(s: State, name: Option<string>, v: intmax): State
  {
    if s.noeval == 0 && name.Some? then s.(env := s.env[name.value := Itos(v)]) else s
  }

  /** exp0. */
  function Exp0(s: State): (r: Outcome<(intmax, State)>)
    ensures r.Ok? ==> Kept(s, r.value.1)
    ensures r.Fault? ==> KeptOnFault(s, r.env)
    decreases Room(s), Left(s), 5
  {
    if IsPre(s.curtok) then PreIncDec(s)
    else if s.curtok == LPar then
      var (v, s1) :- ReadExp(COMMA, s);
      if s1.curtok != RPar then Fault(s1.env) else
      var s2 :- ReadTok(s1);
      Ok((v, s2))
    else if s.curtok == Num then
      var s1 :- ReadTok(s);
      Ok((s.tokval, s1))
    else if s.curtok == Str then Name(s)
    else Fault(s.env)
  }

  /** ++x and --x: curtok becomes Num so that `--x=7' is an error. */
  function PreIncDec(s: State): (r: Outcome<(intmax, State)>)
    requires IsPre(s.curtok)
    ensures r.Ok? ==> Kept(s, r.value.1)
    ensures r.Fault? ==> KeptOnFault(s, r.env)
    decreases Room(s), Left(s), 4
  {
    var s1 :- ReadTok(s.(lasttok := s.curtok));
    if s1.curtok != Str then Fault(s1.env) else
    var v := IncDec(s.curtok, s1.tokval);
    var s2 :- ReadTok(Store(s1, s1.tokstr, v).(curtok := Num));
    Ok((v, s2))
  }

  /** A name, possibly followed by ++ or --: look one token ahead with evaluation off. */
  function Name(s: State): (r: Outcome<(intmax, State)>)
    requires s.curtok == Str
    ensures r.Ok? ==> Kept(s, r.value.1)
    ensures r.Fault? ==> KeptOnFault(s, r.env)
    decreases Room(s), Left(s), 4
  {
    var peek :- ReadTok(s.(tokstr := None, noeval := 1));
    if peek.curtok == PostInc || peek.curtok == PostDec then
      var s1 := peek.(tokstr := s.tokstr, noeval := s.noeval, lasttok := Str);
      var s2 :- ReadTok(Store(s1, s.tokstr, IncDec(peek.curtok, s.tokval)).(curtok := Num));
      Ok((s.tokval, s2))
    else
      var s2 :- ReadTok(s.(assigntok := peek.assigntok));
      Ok((s.tokval, s2))
  }

  // ----- one unfolding of each level -----

  function ThenTail(l: nat, r: Outcome<(intmax, State)>): Outcome<(intmax, State)>
  {
    if r.Fault? then r else Tail(l, r.value.0, r.value.1)
  }

  lemma ExpStep(l: nat, s: State)
    requires l < UNARY
    ensures Exp(l, s) == ThenTail(l, Exp(l + 1, s))
  {
  }

  /** Does level l have more to do at this token? */
  predicate Continues(l: nat, t: Tok)
  {
    if l == COMMA then t == Comma else l <= POWER && OpLevel(t) == l
  }

  lemma TailStops(l: nat, v: intmax, s: State)
    requires !Continues(l, s.curtok)
    ensures Tail(l, v, s) == Ok((v, s))
  {
  }

  lemma TailTurns(l: nat, v: intmax, s: State)
    requires Continues(l, s.curtok) && l <= PRODUCT
    ensures l == COMMA ==> Tail(l, v, s) == ThenTail(l, ReadExp(ASSIGN, s))
    ensures l == ASSIGN ==> Tail(l, v, s) == Assign(v, s)
    ensures l == COND ==> Tail(l, v, s) == Conditional(v, s)
    ensures l == LOR || l == LAND ==> Tail(l, v, s) == ThenTail(l, Logical(l, v, s))
    ensures BOR <= l <= PRODUCT ==> Tail(l, v, s) == ThenTail(l, Binary(l, v, s))
  {
  }

  function Named(s: State, v: intmax, rest: string): State
  {
    s.(tokval := v, lasttok := s.curtok, curtok := Str, tp := rest)
  }

  /** readtok on a name, its look ahead being peek. */
  function NameRead(s: State, x: string, rest: string, peek: Outcome<State>): Outcome<State>
  {
    var p :- peek;
    var s1 := s.(tokstr := Some(x), assigntok := p.assigntok);
    if IsPre(s.lasttok) || p.curtok != Eq then
      var (v, s2) :- StrEval(x, s1);
      Ok(Named(s2, v, rest))
    else Ok(Named(s1, 0, rest))
  }

  lemma ReadNameStep(s: State, x: string, rest: string)
    requires Lex(s.tp, s.curtok, s.lasttok) == LexName(x, rest)
    ensures ReadTok(s) == NameRead(s, x, rest, ReadTok(s.(tp := rest, curtok := Str, tokstr := None, noeval := 1)))
  {
    hide Lex, StrEval;
  }

  // ----- entry -----

  /** evalexp: the value, or none for a fault, and the variables left behind. */
  function EvalExp(text: string, s: State): (Option<intmax>, Env)
    requires s.stack == []
  {
    var r := SubExpr(text, s.(noeval := 0));
    if r.Ok? then (Some(r.value.0), r.value.1.env) else (None, r.env)
  }
}
