/** What the main theorem says about whole evaluations. */
module ExprResults {
  import opened Int64
  import opened ExprLexer
  import opened ExprMachine
  import opened ExprTree
  import opened ExprTheorem
  import opened Options

  /** evalexp on any text that writes a tree down: the tree's value and the variables it
      leaves, or a fault with the variables reached so far. */
  lemma EvalExpIsMeaning(sp: seq<Spaced>, e: Expr, m: Vars, s: State)
    requires Writes(sp, e) && VarsOk(m) && s.env == Texts(m) && s.stack == []
    ensures var d := Denote(e, m, true, 1);
      !d.Unknown? ==> EvalExp(Text(sp, 0), s) == (if d.Value? then Some(d.v) else None, Texts(d.m))
  {
    hide Denote, SubExpr, Writes, Texts, VarsOk;
    Evaluate(sp, e, s.(noeval := 0), m);
  }

  /** The variables as plain texts: every environment is one of these. */
  function Opened(env: Env): Vars { map x | x in env :: Other(env[x]) }

  lemma EveryEnvironment(env: Env)
    ensures VarsOk(Opened(env)) && Texts(Opened(env)) == env
  {
  }

  // ----- variables that refer to one another -----

  /** A tree that names no variable. */
  predicate Constant(e: Expr)
  {
    match e
    case Number(_) => true
    case Unary(_, a) => Constant(a)
    case Bin(_, a, b) => Constant(a) && Constant(b)
    case Pwr(a, b) => Constant(a) && Constant(b)
    case And(a, b) => Constant(a) && Constant(b)
    case Or(a, b) => Constant(a) && Constant(b)
    case If(c, a, b) => Constant(c) && Constant(a) && Constant(b)
    case Seq(a, b) => Constant(a) && Constant(b)
    case Paren(a) => Constant(a)
    case _ => false
  }

  /** The variable a tree reads before it does anything but compute with literals. */
  function FirstRead(e: Expr): Option<string>
  {
    match e
    case Number(_) => None
    case Var(x) => Some(x)
    case Pre(_, x) => Some(x)
    case Post(_, x) => Some(x)
    case Unary(_, a) => FirstRead(a)
    case Bin(_, a, b) => FirstOf(a, FirstRead(a), FirstRead(b))
    case Pwr(a, b) => FirstOf(a, FirstRead(a), FirstRead(b))
    case And(a, _) => FirstRead(a)
    case Or(a, _) => FirstRead(a)
    case If(c, _, _) => FirstRead(c)
    case Set(_, a) => FirstRead(a)
    case Update(_, x, _) => Some(x)
    case Seq(a, b) => FirstOf(a, FirstRead(a), FirstRead(b))
    case Paren(a) => FirstRead(a)
  }

  function FirstOf(a: Expr, left: Option<string>, right: Option<string>): Option<string>
  {
    if Constant(a) then right else left
  }

  /** The first thing each variable of the set does is to read another one of the set. */
  predicate Circular(xs: set<string>, m: Vars)
  {
    forall x :: x in xs ==> x in m && m[x].Bound? && FirstRead(m[x].tree).Some? && FirstRead(m[x].tree).value in xs
  }

  lemma {:induction false} ConstantKeeps(e: Expr, m: Vars, live: bool, depth: nat)
    requires Constant(e)
    ensures Denote(e, m, live, depth).m == m && !Denote(e, m, live, depth).Unknown?
    decreases e
  {
    hide OperateIn, UnaryValue, Raised;
    match e
    case Number(_) =>
    case Unary(_, a) => ConstantKeeps(a, m, live, depth);
    case Paren(a) => ConstantKeeps(a, m, live, depth);
    case Bin(op, a, b) => ConstantKeeps(a, m, live, depth); ConstantKeeps(b, m, live, depth);
    case Pwr(a, b) => PowerKeeps(a, b, m, live, depth);
    case Seq(a, b) => ConstantKeeps(a, m, live, depth); ConstantKeeps(b, m, live, depth);
    case And(a, b) => ConstantKeeps(a, m, live, depth); ConstantKeeps(b, m, live, depth); ConstantKeeps(b, m, false, depth);
    case Or(a, b) => ConstantKeeps(a, m, live, depth); ConstantKeeps(b, m, live, depth); ConstantKeeps(b, m, false, depth);
    case If(c, a, b) =>
      ConstantKeeps(c, m, live, depth);
      ConstantKeeps(a, m, live, depth);
      ConstantKeeps(a, m, false, depth);
      ConstantKeeps(b, m, live, depth);
      ConstantKeeps(b, m, false, depth);
  }

  lemma PowerKeeps(a: Expr, b: Expr, m: Vars, live: bool, depth: nat)
    requires Constant(a) && Constant(b)
    ensures Denote(Pwr(a, b), m, live, depth).m == m && !Denote(Pwr(a, b), m, live, depth).Unknown?
    decreases Pwr(a, b), 0
  {
    ConstantKeeps(a, m, live, depth);
    ConstantKeeps(b, m, live, depth);
  }

  lemma {:induction false} CircularFails(e: Expr, xs: set<string>, m: Vars, depth: nat)
    requires Circular(xs, m) && FirstRead(e).Some? && FirstRead(e).value in xs
    ensures Denote(e, m, true, depth) == Failure(m)
    decreases MAX_EXPR_RECURSION_LEVEL - depth, 1, e
  {
    hide Circular, OperateIn, UnaryValue, Raised, Stored, Put;
    match e
    case Var(x) => CircularVariable(x, xs, m, depth);
    case Pre(_, x) => CircularVariable(x, xs, m, depth);
    case Post(_, x) => CircularVariable(x, xs, m, depth);
    case Update(_, x, _) => CircularVariable(x, xs, m, depth);
    case Unary(_, a) => CircularFails(a, xs, m, depth);
    case Paren(a) => CircularFails(a, xs, m, depth);
    case Set(_, a) => CircularFails(a, xs, m, depth);
    case And(a, _) => CircularFails(a, xs, m, depth);
    case Or(a, _) => CircularFails(a, xs, m, depth);
    case If(c, _, _) => CircularFails(c, xs, m, depth);
    case Bin(_, a, b) => CircularPair(e, a, b, xs, m, depth);
    case Pwr(a, b) => CircularPair(e, a, b, xs, m, depth);
    case Seq(a, b) => CircularPair(e, a, b, xs, m, depth);
  }

  lemma CircularVariable(x: string, xs: set<string>, m: Vars, depth: nat)
    requires Circular(xs, m) && x in xs
    ensures ReadVar(x, m, true, depth) == Failure(m)
    decreases MAX_EXPR_RECURSION_LEVEL - depth, 0
  {
    hide Denote, FirstRead;
    if depth < MAX_EXPR_RECURSION_LEVEL {
      CircularFails(m[x].tree, xs, m, depth + 1);
    }
  }

  lemma CircularPair(e: Expr, a: Expr, b: Expr, xs: set<string>, m: Vars, depth: nat)
    requires (e.Bin? || e.Pwr? || e.Seq?) && e.a == a && e.b == b
    requires Circular(xs, m) && FirstRead(e).Some? && FirstRead(e).value in xs
    ensures Denote(e, m, true, depth) == Failure(m)
    decreases MAX_EXPR_RECURSION_LEVEL - depth, 1, e, 0
  {
    hide Circular, OperateIn, Raised;
    if Constant(a) {
      ConstantKeeps(a, m, true, depth);
      CircularFails(b, xs, m, depth);
    } else {
      CircularFails(a, xs, m, depth);
    }
  }

  /** Evaluating an expression that first reads a variable defined in terms of itself, as in
      num=num+2, or one of a circle of such variables, ends: in a fault, with every variable
      as it was. */
  lemma CircularVariablesFault(sp: seq<Spaced>, e: Expr, xs: set<string>, m: Vars, s: State)
    requires Writes(sp, e) && VarsOk(m) && s.env == Texts(m) && s.stack == []
    requires Circular(xs, m) && FirstRead(e).Some? && FirstRead(e).value in xs
    ensures EvalExp(Text(sp, 0), s) == (None, s.env)
  {
    hide Denote, Writes, Texts, VarsOk, EvalExp, Circular, FirstRead;
    EvalExpIsMeaning(sp, e, m, s);
    CircularFails(e, xs, m, 1);
  }

  // ----- stored values -----

  lemma IntTreeMeans(v: intmax, m: Vars, depth: nat)
    ensures Denote(IntTree(v), m, true, depth) == Value(v, m)
  {
    hide StrLong, Decimal, ReadVar, OperateIn, Raised, Stored, Put;
    if v < 0 {
      WrapNeg(0 - v);
      StrLongDecimal(0 - v);
      assert Denote(Number(Decimal(0 - v)), m, true, depth) == Value(Wrap(0 - v), m);
    } else {
      StrLongDecimal(v);
    }
    WrapId(v);
  }

  /** A value stored as decimal text by an assignment and read back by evaluating that text
      is unchanged, for every 64-bit value and whatever the other variables hold. */
  lemma StoredValueReadsBack(x: string, v: intmax, s: State)
    requires s.noeval == 0 && |s.stack| < MAX_EXPR_RECURSION_LEVEL
    ensures var t := Store(s, Some(x), v);
      t.env[x] == Itos(v) && StrEval(x, t).Ok? && StrEval(x, t).value.0 == v && StrEval(x, t).value.1.env == t.env
  {
    hide Denote, StrEval, Itos, VarsOk, Texts, Opened;
    var m := Opened(s.env);
    EveryEnvironment(s.env);
    var m1 := m[x := IntBound(v)];
    StoreAgrees(s, x, v, m);
    IntTreeMeans(v, m1, |s.stack| + 1);
    EvalVar(x, Store(s, Some(x), v), m1);
  }

  // ----- operands that are parsed but not wanted -----

  /** The value an unwanted operand is given: every variable reads 0 and a zero divisor
      counts as 1.  None is a fault: a negative exponent and a bad literal are errors even there. */
  function Phantom(e: Expr): Option<intmax>
  {
    match e
    case Number(t) => StrLong(t)
    case Var(_) => Some(0)
    case Pre(inc, _) => Some(Step(inc, 0))
    case Post(_, _) => Some(0)
    case Unary(op, a) => if Phantom(a).None? then None else Some(UnaryValue(op, Phantom(a).value))
    case Bin(op, a, b) =>
      if Phantom(a).None? || Phantom(b).None? then None else OperateIn(false, op, Phantom(a).value, Phantom(b).value)
    case Pwr(a, b) =>
      if Phantom(a).None? || Phantom(b).None? || Phantom(b).value < 0 then None
      else Some(Wrap(Pow(Phantom(a).value, Phantom(b).value)))
    case And(a, b) =>
      if Phantom(a).None? || Phantom(b).None? then None else Some(BoolVal(Phantom(a).value != 0 && Phantom(b).value != 0))
    case Or(a, b) =>
      if Phantom(a).None? || Phantom(b).None? then None else Some(BoolVal(Phantom(a).value != 0 || Phantom(b).value != 0))
    case If(c, a, b) =>
      if Phantom(c).None? || Phantom(a).None? || Phantom(b).None? then None
      else if Phantom(c).value != 0 then Phantom(a) else Phantom(b)
    case Set(_, a) => Phantom(a)
    case Update(op, _, a) => if Phantom(a).None? then None else OperateIn(false, op, 0, Phantom(a).value)
    case Seq(a, b) => if Phantom(a).None? then None else Phantom(b)
    case Paren(a) => Phantom(a)
  }

  /** An unwanted operand changes no variable, whatever it contains, and its value does not
      depend on the variables. */
  lemma {:induction false} UnwantedKeepsVariables(e: Expr, m: Vars, depth: nat)
    ensures Denote(e, m, false, depth) == FromOption(Phantom(e), m)
    decreases e
  {
    hide OperateIn, UnaryValue, Wrap, Step, StrLong, Pow;
    match e
    case Number(_) =>
    case Var(_) =>
    case Pre(_, _) =>
    case Post(_, _) =>
    case Unary(_, a) => UnwantedKeepsVariables(a, m, depth);
    case Bin(_, a, b) => UnwantedPair(e, a, b, m, depth);
    case Pwr(a, b) => UnwantedPair(e, a, b, m, depth);
    case And(a, b) => UnwantedLogical(e, a, b, m, depth);
    case Or(a, b) => UnwantedLogical(e, a, b, m, depth);
    case If(c, a, b) => UnwantedIf(c, a, b, m, depth);
    case Set(_, a) => UnwantedKeepsVariables(a, m, depth);
    case Update(_, _, a) => UnwantedKeepsVariables(a, m, depth);
    case Seq(a, b) => UnwantedPair(e, a, b, m, depth);
    case Paren(a) => UnwantedKeepsVariables(a, m, depth);
  }

  lemma UnwantedPair(e: Expr, a: Expr, b: Expr, m: Vars, depth: nat)
    requires (e.Bin? || e.Pwr? || e.Seq?) && e.a == a && e.b == b
    ensures Denote(e, m, false, depth) == FromOption(Phantom(e), m)
    decreases e, 0
  {
    hide OperateIn, UnaryValue, Wrap, StrLong, Pow;
    UnwantedKeepsVariables(a, m, depth);
    UnwantedKeepsVariables(b, m, depth);
  }

  lemma UnwantedLogical(e: Expr, a: Expr, b: Expr, m: Vars, depth: nat)
    requires e == And(a, b) || e == Or(a, b)
    ensures Denote(e, m, false, depth) == FromOption(Phantom(e), m)
    decreases e, 0
  {
    hide OperateIn, UnaryValue, Wrap, StrLong, Pow;
    UnwantedKeepsVariables(a, m, depth);
    UnwantedKeepsVariables(b, m, depth);
  }

  lemma UnwantedIf(c: Expr, a: Expr, b: Expr, m: Vars, depth: nat)
    ensures Denote(If(c, a, b), m, false, depth) == FromOption(Phantom(If(c, a, b)), m)
    decreases If(c, a, b), 0
  {
    hide OperateIn, UnaryValue, Wrap, StrLong, Pow;
    UnwantedKeepsVariables(c, m, depth);
    UnwantedKeepsVariables(a, m, depth);
    UnwantedKeepsVariables(b, m, depth);
  }

  /** The short-circuit meaning of C: an unwanted operand is not looked at. */
  function Lazy(e: Expr, m: Vars, depth: nat): Result
    decreases MAX_EXPR_RECURSION_LEVEL - depth, 1, e
  {
    match e
    case Number(t) => FromOption(StrLong(t), m)
    case Var(x) => LazyVar(x, m, depth)
    case Pre(inc, x) =>
      var d := LazyVar(x, m, depth);
      if !d.Value? then d else Value(Step(inc, d.v), Put(true, d.m, x, Step(inc, d.v)))
    case Post(inc, x) =>
      var d := LazyVar(x, m, depth);
      if !d.Value? then d else Value(d.v, Put(true, d.m, x, Step(inc, d.v)))
    case Unary(op, a) =>
      var d := Lazy(a, m, depth);
      if !d.Value? then d else Value(UnaryValue(op, d.v), d.m)
    case Bin(op, a, b) =>
      var d := Lazy(a, m, depth);
      if !d.Value? then d else
      var d2 := Lazy(b, d.m, depth);
      if !d2.Value? then d2 else FromOption(Operate(op, d.v, d2.v), d2.m)
    case Pwr(a, b) =>
      var d := Lazy(a, m, depth);
      if !d.Value? then d else
      var d2 := Lazy(b, d.m, depth);
      if !d2.Value? then d2 else Raised(d.v, d2.v, d2.m)
    case And(a, b) =>
      var d := Lazy(a, m, depth);
      if !d.Value? || d.v == 0 then d else
      var d2 := Lazy(b, d.m, depth);
      if !d2.Value? then d2 else Value(BoolVal(d2.v != 0), d2.m)
    case Or(a, b) =>
      var d := Lazy(a, m, depth);
      if !d.Value? then d else if d.v != 0 then Value(1, d.m) else
      var d2 := Lazy(b, d.m, depth);
      if !d2.Value? then d2 else Value(BoolVal(d2.v != 0), d2.m)
    case If(c, a, b) =>
      var d := Lazy(c, m, depth);
      if !d.Value? then d else if d.v != 0 then Lazy(a, d.m, depth) else Lazy(b, d.m, depth)
    case Set(x, a) =>
      var d := Lazy(a, m, depth);
      if !d.Value? then d else Value(d.v, Put(true, d.m, x, d.v))
    case Update(op, x, a) =>
      var d := LazyVar(x, m, depth);
      if !d.Value? then d else
      var d2 := Lazy(a, d.m, depth);
      if !d2.Value? then d2 else Stored(true, Operate(op, d.v, d2.v), x, d2.m)
    case Seq(a, b) =>
      var d := Lazy(a, m, depth);
      if !d.Value? then d else Lazy(b, d.m, depth)
    case Paren(a) => Lazy(a, m, depth)
  }

  function LazyVar(x: string, m: Vars, depth: nat): Result
    decreases MAX_EXPR_RECURSION_LEVEL - depth, 0
  {
    if x !in m || m[x].Blank? then Value(0, m)
    else if m[x].Other? then Unknown(m)
    else if depth >= MAX_EXPR_RECURSION_LEVEL then Failure(m)
    else Lazy(m[x].tree, m, depth + 1)
  }

  /** Along the short-circuit run of the tree, every operand left unwanted has a phantom value. */
  predicate Forgiving(e: Expr, m: Vars, depth: nat)
    decreases MAX_EXPR_RECURSION_LEVEL - depth, 1, e
  {
    match e
    case Number(_) => true
    case Var(x) => ForgivingVar(x, m, depth)
    case Pre(_, x) => ForgivingVar(x, m, depth)
    case Post(_, x) => ForgivingVar(x, m, depth)
    case Unary(_, a) => Forgiving(a, m, depth)
    case Bin(_, a, b) =>
      var d := Lazy(a, m, depth);
      Forgiving(a, m, depth) && (d.Value? ==> Forgiving(b, d.m, depth))
    case Pwr(a, b) =>
      var d := Lazy(a, m, depth);
      Forgiving(a, m, depth) && (d.Value? ==> Forgiving(b, d.m, depth))
    case And(a, b) =>
      var d := Lazy(a, m, depth);
      Forgiving(a, m, depth) && (d.Value? ==> if d.v == 0 then Phantom(b).Some? else Forgiving(b, d.m, depth))
    case Or(a, b) =>
      var d := Lazy(a, m, depth);
      Forgiving(a, m, depth) && (d.Value? ==> if d.v != 0 then Phantom(b).Some? else Forgiving(b, d.m, depth))
    case If(c, a, b) =>
      var d := Lazy(c, m, depth);
      Forgiving(c, m, depth) && (d.Value? ==>
        if d.v != 0 then Forgiving(a, d.m, depth) && (Lazy(a, d.m, depth).Value? ==> Phantom(b).Some?)
        else Phantom(a).Some? && Forgiving(b, d.m, depth))
    case Set(_, a) => Forgiving(a, m, depth)
    case Update(_, x, a) =>
      var d := LazyVar(x, m, depth);
      ForgivingVar(x, m, depth) && (d.Value? ==> Forgiving(a, d.m, depth))
    case Seq(a, b) =>
      var d := Lazy(a, m, depth);
      Forgiving(a, m, depth) && (d.Value? ==> Forgiving(b, d.m, depth))
    case Paren(a) => Forgiving(a, m, depth)
  }

  predicate ForgivingVar(x: string, m: Vars, depth: nat)
    decreases MAX_EXPR_RECURSION_LEVEL - depth, 0
  {
    x in m && m[x].Bound? && depth < MAX_EXPR_RECURSION_LEVEL ==> Forgiving(m[x].tree, m, depth + 1)
  }

  /** Agreement on a tree or a variable, or a fault. */
  predicate LazyOrFault(d: Result, lazy: Result, forgiving: bool)
  {
    if forgiving then d == lazy else d.Failure?
  }

  /** Evaluation is short-circuit evaluation, or fails where an unwanted operand does. */
  lemma {:induction false} LazyUnlessFault(e: Expr, m: Vars, depth: nat)
    ensures LazyOrFault(Denote(e, m, true, depth), Lazy(e, m, depth), Forgiving(e, m, depth))
    decreases MAX_EXPR_RECURSION_LEVEL - depth, 1, e
  {
    hide OperateIn, Operate, UnaryValue, Raised, Stored, Put, Phantom;
    match e
    case Number(_) =>
    case Var(x) => VariableIsLazy(x, m, depth);
    case Pre(_, x) => VariableIsLazy(x, m, depth);
    case Post(_, x) => VariableIsLazy(x, m, depth);
    case Unary(_, a) => LazyUnlessFault(a, m, depth);
    case Paren(a) => LazyUnlessFault(a, m, depth);
    case Set(_, a) => LazyUnlessFault(a, m, depth);
    case Update(op, x, a) => UpdateIsLazy(op, x, a, m, depth);
    case And(a, b) => LogicalIsLazy(e, a, b, m, depth);
    case Or(a, b) => LogicalIsLazy(e, a, b, m, depth);
    case If(c, a, b) => IfIsLazy(c, a, b, m, depth);
    case Bin(_, a, b) => PairIsLazy(e, a, b, m, depth);
    case Pwr(a, b) => PairIsLazy(e, a, b, m, depth);
    case Seq(a, b) => PairIsLazy(e, a, b, m, depth);
  }

  lemma VariableIsLazy(x: string, m: Vars, depth: nat)
    ensures LazyOrFault(ReadVar(x, m, true, depth), LazyVar(x, m, depth), ForgivingVar(x, m, depth))
    decreases MAX_EXPR_RECURSION_LEVEL - depth, 0
  {
    hide Denote, Lazy, Forgiving;
    if x in m && m[x].Bound? && depth < MAX_EXPR_RECURSION_LEVEL {
      LazyUnlessFault(m[x].tree, m, depth + 1);
    }
  }

  lemma UpdateIsLazy(op: Tok, x: string, a: Expr, m: Vars, depth: nat)
    ensures var e := Update(op, x, a);
      LazyOrFault(Denote(e, m, true, depth), Lazy(e, m, depth), Forgiving(e, m, depth))
    decreases MAX_EXPR_RECURSION_LEVEL - depth, 1, Update(op, x, a), 0
  {
    hide Put, ReadVar, LazyVar, ForgivingVar, Operate;
    VariableIsLazy(x, m, depth);
    LazyUnlessFault(a, LazyVar(x, m, depth).m, depth);
  }

  lemma PairIsLazy(e: Expr, a: Expr, b: Expr, m: Vars, depth: nat)
    requires (e.Bin? || e.Pwr? || e.Seq?) && e.a == a && e.b == b
    ensures LazyOrFault(Denote(e, m, true, depth), Lazy(e, m, depth), Forgiving(e, m, depth))
    decreases MAX_EXPR_RECURSION_LEVEL - depth, 1, e, 0
  {
    hide Operate, Raised;
    LazyUnlessFault(a, m, depth);
    LazyUnlessFault(b, Lazy(a, m, depth).m, depth);
  }

  lemma LogicalIsLazy(e: Expr, a: Expr, b: Expr, m: Vars, depth: nat)
    requires e == And(a, b) || e == Or(a, b)
    ensures LazyOrFault(Denote(e, m, true, depth), Lazy(e, m, depth), Forgiving(e, m, depth))
    decreases MAX_EXPR_RECURSION_LEVEL - depth, 1, e, 0
  {
    hide Phantom;
    LazyUnlessFault(a, m, depth);
    var d := Lazy(a, m, depth);
    if d.Value? {
      if (d.v == 0) == e.And? {
        UnwantedKeepsVariables(b, d.m, depth);
      } else {
        LazyUnlessFault(b, d.m, depth);
      }
    }
  }

  lemma IfIsLazy(c: Expr, a: Expr, b: Expr, m: Vars, depth: nat)
    ensures var e := If(c, a, b);
      LazyOrFault(Denote(e, m, true, depth), Lazy(e, m, depth), Forgiving(e, m, depth))
    decreases MAX_EXPR_RECURSION_LEVEL - depth, 1, If(c, a, b), 0
  {
    hide Phantom;
    LazyUnlessFault(c, m, depth);
    var d := Lazy(c, m, depth);
    if d.Value? {
      if d.v != 0 {
        LazyUnlessFault(a, d.m, depth);
        UnwantedKeepsVariables(b, Lazy(a, d.m, depth).m, depth);
      } else {
        UnwantedKeepsVariables(a, d.m, depth);
        LazyUnlessFault(b, d.m, depth);
      }
    }
  }

  /** Of a whole tree whose short-circuit run does not fail: evaluation agrees with it if and
      only if no operand left unwanted on the way is without a phantom value. */
  lemma LazyExactly(e: Expr, m: Vars, depth: nat)
    requires !Lazy(e, m, depth).Failure?
    ensures Denote(e, m, true, depth) == Lazy(e, m, depth) <==> Forgiving(e, m, depth)
    ensures !Forgiving(e, m, depth) ==> Denote(e, m, true, depth).Failure?
  {
    hide Denote, Lazy, Forgiving;
    LazyUnlessFault(e, m, depth);
  }

  // ----- a check on the text alone -----

  /** Every operand that && , || or ?: may leave unwanted has a phantom value. */
  predicate Guarded(e: Expr)
  {
    match e
    case Unary(_, a) => Guarded(a)
    case Bin(_, a, b) => Guarded(a) && Guarded(b)
    case Pwr(a, b) => Guarded(a) && Guarded(b)
    case And(a, b) => Guarded(a) && Guarded(b) && Phantom(b).Some?
    case Or(a, b) => Guarded(a) && Guarded(b) && Phantom(b).Some?
    case If(c, a, b) => Guarded(c) && Guarded(a) && Guarded(b) && Phantom(a).Some? && Phantom(b).Some?
    case Set(_, a) => Guarded(a)
    case Update(_, _, a) => Guarded(a)
    case Seq(a, b) => Guarded(a) && Guarded(b)
    case Paren(a) => Guarded(a)
    case _ => true
  }

  predicate VarsGuarded(m: Vars) { forall x :: x in m && m[x].Bound? ==> Guarded(m[x].tree) }

  lemma PutGuarded(m: Vars, x: string, v: intmax)
    requires VarsGuarded(m)
    ensures VarsGuarded(Put(true, m, x, v))
  {
  }

  lemma {:induction false} GuardedForgives(e: Expr, m: Vars, depth: nat)
    requires Guarded(e) && VarsGuarded(m)
    ensures Forgiving(e, m, depth) && VarsGuarded(Lazy(e, m, depth).m)
    decreases MAX_EXPR_RECURSION_LEVEL - depth, 1, e
  {
    hide VarsGuarded, Phantom, Operate, UnaryValue, Put;
    match e
    case Number(_) =>
    case Var(x) => GuardedVariable(x, m, depth);
    case Pre(inc, x) => GuardedVariable(x, m, depth); GuardedPut(LazyVar(x, m, depth), x, inc);
    case Post(inc, x) => GuardedVariable(x, m, depth); GuardedPut(LazyVar(x, m, depth), x, inc);
    case Unary(_, a) => GuardedForgives(a, m, depth);
    case Paren(a) => GuardedForgives(a, m, depth);
    case Set(x, a) =>
      GuardedForgives(a, m, depth);
      if Lazy(a, m, depth).Value? {
        PutGuarded(Lazy(a, m, depth).m, x, Lazy(a, m, depth).v);
      }
    case Update(op, x, a) => GuardedUpdate(op, x, a, m, depth);
    case And(a, b) => GuardedForgives(a, m, depth); GuardedForgives(b, Lazy(a, m, depth).m, depth);
    case Or(a, b) => GuardedForgives(a, m, depth); GuardedForgives(b, Lazy(a, m, depth).m, depth);
    case If(c, a, b) =>
      GuardedForgives(c, m, depth);
      GuardedForgives(a, Lazy(c, m, depth).m, depth);
      GuardedForgives(b, Lazy(c, m, depth).m, depth);
    case Bin(_, a, b) => GuardedForgives(a, m, depth); GuardedForgives(b, Lazy(a, m, depth).m, depth);
    case Pwr(a, b) => GuardedForgives(a, m, depth); GuardedForgives(b, Lazy(a, m, depth).m, depth);
    case Seq(a, b) => GuardedForgives(a, m, depth); GuardedForgives(b, Lazy(a, m, depth).m, depth);
  }

  lemma GuardedVariable(x: string, m: Vars, depth: nat)
    requires VarsGuarded(m)
    ensures ForgivingVar(x, m, depth) && VarsGuarded(LazyVar(x, m, depth).m)
    decreases MAX_EXPR_RECURSION_LEVEL - depth, 0
  {
    hide Lazy, Guarded, Forgiving;
    if x in m && m[x].Bound? && depth < MAX_EXPR_RECURSION_LEVEL {
      GuardedForgives(m[x].tree, m, depth + 1);
    }
  }

  lemma GuardedPut(d: Result, x: string, inc: bool)
    requires VarsGuarded(d.m)
    ensures d.Value? ==> VarsGuarded(Put(true, d.m, x, Step(inc, d.v)))
  {
    hide VarsGuarded, Put;
    if d.Value? {
      PutGuarded(d.m, x, Step(inc, d.v));
    }
  }

  lemma GuardedUpdate(op: Tok, x: string, a: Expr, m: Vars, depth: nat)
    requires Guarded(a) && VarsGuarded(m)
    ensures var e := Update(op, x, a); Forgiving(e, m, depth) && VarsGuarded(Lazy(e, m, depth).m)
    decreases MAX_EXPR_RECURSION_LEVEL - depth, 1, Update(op, x, a), 0
  {
    hide Put, VarsGuarded, Guarded, LazyVar, ForgivingVar, Operate;
    GuardedVariable(x, m, depth);
    var d := LazyVar(x, m, depth);
    if d.Value? {
      GuardedForgives(a, d.m, depth);
      var d2 := Lazy(a, d.m, depth);
      if d2.Value? && Operate(op, d.v, d2.v).Some? {
        PutGuarded(d2.m, x, Operate(op, d.v, d2.v).value);
      }
    }
  }

  /** Under that condition evaluation is exactly short-circuit evaluation. */
  lemma EvaluationIsLazy(e: Expr, m: Vars, depth: nat)
    requires Guarded(e) && VarsGuarded(m)
    ensures Denote(e, m, true, depth) == Lazy(e, m, depth) && VarsGuarded(Lazy(e, m, depth).m)
  {
    hide Denote, Lazy, Forgiving, Guarded, VarsGuarded;
    GuardedForgives(e, m, depth);
    LazyUnlessFault(e, m, depth);
  }

  /** At one operator the condition reads: && with a zero left operand agrees with its
      short-circuit run if and only if the right operand has a phantom value. */
  lemma AndIsLazyExactly(a: Expr, b: Expr, m: Vars, depth: nat)
    requires Forgiving(a, m, depth) && Lazy(a, m, depth).Value? && Lazy(a, m, depth).v == 0
    ensures Denote(And(a, b), m, true, depth) == Lazy(And(a, b), m, depth) <==> Phantom(b).Some?
  {
    hide Denote, Phantom;
    LazyExactly(And(a, b), m, depth);
  }

  lemma OrIsLazyExactly(a: Expr, b: Expr, m: Vars, depth: nat)
    requires Forgiving(a, m, depth) && Lazy(a, m, depth).Value? && Lazy(a, m, depth).v != 0
    ensures Denote(Or(a, b), m, true, depth) == Lazy(Or(a, b), m, depth) <==> Phantom(b).Some?
  {
    hide Denote, Phantom;
    LazyExactly(Or(a, b), m, depth);
  }

  /** At one ?: likewise, for whichever branch is not wanted. */
  lemma IfIsLazyExactly(c: Expr, a: Expr, b: Expr, m: Vars, depth: nat)
    requires Forgiving(c, m, depth) && Lazy(c, m, depth).Value? && Lazy(If(c, a, b), m, depth).Value?
    requires var d := Lazy(c, m, depth); Forgiving(if d.v != 0 then a else b, d.m, depth)
    ensures Denote(If(c, a, b), m, true, depth) == Lazy(If(c, a, b), m, depth)
       <==> Phantom(if Lazy(c, m, depth).v != 0 then b else a).Some?
  {
    hide Denote, Phantom;
    LazyExactly(If(c, a, b), m, depth);
  }

  lemma SmallDecimals()
    ensures Decimal(0) == "0" && Decimal(1) == "1" && Decimal(2) == "2"
  {
  }

  /** 0 && 2 ** -1 is an error, although its right operand is not wanted. */
  lemma UnwantedNegativeExponent(m: Vars)
    ensures var e := And(Number("0"), Pwr(Number("2"), Unary(Minus, Number("1"))));
      Lazy(e, m, 1) == Value(0, m) && Denote(e, m, true, 1) == Failure(m)
  {
    hide StrLong, Decimal;
    var minusOne := Unary(Minus, Number("1"));
    var b := Pwr(Number("2"), minusOne);
    SmallDecimals();
    StrLongDecimal(0);
    StrLongDecimal(1);
    StrLongDecimal(2);
    WrapId(0);
    WrapId(1);
    WrapId(-1);
    assert Phantom(minusOne) == Some(-1);
    assert Phantom(b) == None;
    UnwantedKeepsVariables(b, m, 1);
  }
}
