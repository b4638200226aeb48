/** Expression trees, their meaning, and how they are written down. */
module ExprTree {
  import opened CStrings
  import opened Int64
  import opened ExprLexer
  import opened ExprMachine
  import opened Options

  datatype Expr =
    | Number(t: string)  // a literal as it is written
    | Var(x: string)
    | Pre(inc: bool, x: string)
    | Post(inc: bool, x: string)
    | Unary(uop: Tok, a: Expr)
    | Bin(op: Tok, a: Expr, b: Expr)
    | Pwr(a: Expr, b: Expr)
    | And(a: Expr, b: Expr)
    | Or(a: Expr, b: Expr)
    | If(c: Expr, a: Expr, b: Expr)
    | Set(x: string, a: Expr)
    | Update(op: Tok, x: string, a: Expr)  // x op= a
    | Seq(a: Expr, b: Expr)
    | Paren(a: Expr)  // parentheses that precedence does not need

  predicate IsName(x: string)
  {
    && |x| > 0 && NameStart(x[0])
    && forall i :: 0 <= i < |x| ==> NameChar(x[i])
  }

  /** A literal: a digit, then digits, letters, #, @ or _.  It need not have a value. */
  predicate IsNumeral(t: string)
  {
    && |t| > 0 && IsDigit(t[0])
    && forall i :: 0 <= i < |t| ==> NumChar(t[i])
  }

  predicate IsBinary(op: Tok) { BOR <= OpLevel(op) <= PRODUCT }
  predicate IsUnary(op: Tok) { op in {Not, Bnot, Minus, Plus} }

  predicate WellFormed(e: Expr)
  {
    match e
    case Number(t) => IsNumeral(t)
    case Var(x) => IsName(x)
    case Pre(_, x) => IsName(x)
    case Post(_, x) => IsName(x)
    case Unary(op, a) => IsUnary(op) && WellFormed(a)
    case Bin(op, a, b) => IsBinary(op) && WellFormed(a) && WellFormed(b)
    case Pwr(a, b) => WellFormed(a) && WellFormed(b)
    case And(a, b) => WellFormed(a) && WellFormed(b)
    case Or(a, b) => WellFormed(a) && WellFormed(b)
    case If(c, a, b) => WellFormed(c) && WellFormed(a) && WellFormed(b)
    case Set(x, a) => IsName(x) && WellFormed(a)
    case Update(op, x, a) => IsAssignOp(op) && IsName(x) && WellFormed(a)
    case Seq(a, b) => WellFormed(a) && WellFormed(b)
    case Paren(a) => WellFormed(a)
  }

  // ----- writing a tree down -----

  datatype Lexeme = Id(name: string) | Lit(numeral: string) | Sym(t: Tok, asg: Tok)

  function S(t: Tok): Lexeme { Sym(t, End) }

  /** The precedence table. */
  function Prec(e: Expr): (l: nat)
    ensures l <= PRIMARY
  {
    match e
    case Unary(_, _) => UNARY
    case Pwr(_, _) => POWER
    case Bin(op, _, _) => OpLevel(op)
    case And(_, _) => LAND
    case Or(_, _) => LOR
    case If(_, _, _) => COND
    case Set(_, _) => ASSIGN
    case Update(_, _, _) => ASSIGN
    case Seq(_, _) => COMMA
    case _ => PRIMARY
  }

  /** The tree where an operand of level l is expected: in parentheses where precedence needs
      them, and wherever the tree itself has some. */
  function Print(e: Expr, l: nat): (r: seq<Lexeme>)
    ensures |r| > 0
    decreases e, 1
  {
    if Prec(e) >= l then Body(e) else [S(LPar)] + Body(e) + [S(RPar)]
  }

  function Body(e: Expr): (r: seq<Lexeme>)
    ensures |r| > 0
    decreases e, 0
  {
    match e
    case Number(t) => [Lit(t)]
    case Var(x) => [Id(x)]
    case Pre(inc, x) => [S(if inc then PreInc else PreDec), Id(x)]
    case Post(inc, x) => [Id(x), S(if inc then PostInc else PostDec)]
    case Unary(op, a) => [S(op)] + Print(a, UNARY)
    case Bin(op, a, b) => Print(a, OpLevel(op)) + ([S(op)] + Print(b, OpLevel(op) + 1))
    case Pwr(a, b) => Print(a, UNARY) + ([S(Power)] + Print(b, POWER))
    case And(a, b) => Print(a, LAND) + ([S(Land)] + Print(b, LAND + 1))
    case Or(a, b) => Print(a, LOR) + ([S(Lor)] + Print(b, LOR + 1))
    case If(c, a, b) => Print(c, LOR) + ([S(Ques)] + (Print(a, COMMA) + ([S(Col)] + Print(b, COND))))
    case Set(x, a) => [Id(x)] + ([S(Eq)] + Print(a, ASSIGN))
    case Update(op, x, a) => [Id(x)] + ([Sym(OpAssign, op)] + Print(a, ASSIGN))
    case Seq(a, b) => Print(a, COMMA) + ([S(Comma)] + Print(b, ASSIGN))
    case Paren(a) => [S(LPar)] + Print(a, COMMA) + [S(RPar)]
  }

  function SymText(t: Tok, asg: Tok): string
  {
    match t
    case Eq => "=" case Ques => "?" case Col => ":" case Comma => "," case LPar => "(" case RPar => ")"
    case Lor => "||" case Land => "&&" case Bor => "|" case Bxor => "^" case Band => "&"
    case EqEq => "==" case Neq => "!=" case Leq => "<=" case Geq => ">=" case Lt => "<" case Gt => ">"
    case Lsh => "<<" case Rsh => ">>" case Plus => "+" case Minus => "-"
    case Mul => "*" case Div => "/" case Mod => "%" case Power => "**"
    case Not => "!" case Bnot => "~"
    case PreInc => "++" case PostInc => "++" case PreDec => "--" case PostDec => "--"
    case OpAssign => (if asg == Lsh then "<<" else if asg == Rsh then ">>" else [OpChar(asg)]) + "="
    case _ => ""
  }

  function OpChar(t: Tok): char
  {
    match t
    case Mul => '*' case Div => '/' case Mod => '%' case Plus => '+' case Minus => '-'
    case Band => '&' case Bor => '|' case Bxor => '^'
    case _ => '?'
  }

  function Spell(x: Lexeme): string
  {
    match x
    case Id(name) => name
    case Lit(t) => t
    case Sym(t, asg) => SymText(t, asg)
  }

  /** Would the character c, right after the lexeme, be taken for part of it? */
  predicate Fuses(x: Lexeme, c: char)
  {
    match x
    case Id(_) => NameChar(c) || c == '['
    case Lit(_) => NumChar(c)
    case Sym(t, _) =>
      match t
      case Eq => c == '=' case Not => c == '='
      case Gt => c == '=' || c == '>' case Lt => c == '=' || c == '<'
      case Lsh => c == '=' case Rsh => c == '='
      case Band => c == '&' || c == '=' case Bor => c == '|' || c == '='
      case Mul => c == '*' || c == '=' case Plus => c == '+' || c == '=' case Minus => c == '-' || c == '='
      case Div => c == '=' case Mod => c == '=' case Bxor => c == '='
      case _ => false
  }

  predicate LexemeOk(x: Lexeme)
  {
    match x
    case Id(name) => IsName(name)
    case Lit(t) => IsNumeral(t)
    case Sym(t, asg) =>
      && t != Str && t != Num && t != Cond
      && (if t == OpAssign then IsAssignOp(asg) else asg == End)
  }

  /** A lexeme, the white space before it, and the text from that white space on. */
  datatype Spaced = Spaced(gap: string, lex: Lexeme, text: string)

  /** The text from lexeme k on. */
  function Text(sp: seq<Spaced>, k: nat): string { if k < |sp| then sp[k].text else "" }

  predicate IsGap(g: string) { forall i :: 0 <= i < |g| ==> IsSpace(g[i]) }

  predicate SeparatedAt(sp: seq<Spaced>, k: nat)
    requires k < |sp|
  {
    && sp[k].text == sp[k].gap + (Spell(sp[k].lex) + Text(sp, k + 1))
    && IsGap(sp[k].gap) && LexemeOk(sp[k].lex)
    && !Fuses(sp[k].lex, At(Text(sp, k + 1), 0))
    && (sp[k].lex.Sym? && IsPre(sp[k].lex.t) ==> k + 1 < |sp| && sp[k + 1].lex.Id?)
    && (sp[k].lex == S(End) ==> k + 1 == |sp|)
  }

  /** The layout keeps its lexemes apart; a prefix ++ or -- stands before a name. */
  predicate Separated(sp: seq<Spaced>)
  {
    forall k {:trigger SeparatedAt(sp, k)} :: 0 <= k < |sp| ==> SeparatedAt(sp, k)
  }

  /** From k on, the layout's lexemes are ls, and one more follows. */
  predicate Holds(sp: seq<Spaced>, k: nat, ls: seq<Lexeme>)
  {
    k + |ls| < |sp| && forall i :: 0 <= i < |ls| ==> sp[k + i].lex == ls[i]
  }

  /** sp writes the tree down: its lexemes, in any legal layout, to the end of the text. */
  predicate Writes(sp: seq<Spaced>, e: Expr)
  {
    && WellFormed(e) && Separated(sp)
    && |sp| == |Print(e, COMMA)| + 1 && Holds(sp, 0, Print(e, COMMA))
    && sp[|sp| - 1].lex == S(End)
  }

  // ----- meaning -----

  /** What a variable holds: blank text, text that writes down a tree, or any other text. */
  datatype Bound = Blank(gap: string) | Bound(sp: seq<Spaced>, tree: Expr) | Other(text: string)

  type Vars = map<string, Bound>

  predicate BoundOk(b: Bound)
  {
    match b
    case Blank(gap) => IsGap(gap)
    case Bound(sp, tree) => Writes(sp, tree)
    case Other(_) => true
  }

  predicate VarsOk(m: Vars) { forall x :: x in m ==> BoundOk(m[x]) }

  function BoundText(b: Bound): string
  {
    match b
    case Blank(gap) => gap
    case Bound(sp, _) => Text(sp, 0)
    case Other(text) => text
  }

  /** The shell's view of the variables: texts. */
  function Texts(m: Vars): Env { map x | x in m :: BoundText(m[x]) }

  /** The tree an integer is stored as: a literal, or minus a literal. */
  function IntTree(v: intmax): Expr
  {
    if v < 0 then Unary(Minus, Number(Decimal(0 - v))) else Number(Decimal(v))
  }

  function IntBound(v: intmax): Bound
  {
    Bound(if v < 0 then [Spaced("", S(Minus), Itos(v)), Spaced("", Lit(Decimal(0 - v)), Decimal(0 - v)), Spaced("", S(End), "")]
          else [Spaced("", Lit(Decimal(v)), Itos(v)), Spaced("", S(End), "")],
          IntTree(v))
  }

  /** Unknown: the text of a variable that is no tree's has been asked for. */
  datatype Result = Value(v: intmax, m: Vars) | Failure(m: Vars) | Unknown(m: Vars)

  /** Exact division, product, ... reduced to 64 bits; None for a zero divisor. */
  function Operate(op: Tok, a: intmax, b: intmax): Option<intmax>
  {
    match op
    case Div => if b == 0 then None else Some(Wrap(Quot(a, b)))
    case Mod => if b == 0 then None else Some(Wrap(Rem(a, b)))
    case _ => Some(BinaryValue(op, a, b))
  }

  /** An operand that is parsed but not wanted reads every variable as 0, stores nothing and
      takes 1 for a zero divisor. */
  function OperateIn(live: bool, op: Tok, a: intmax, b: intmax): Option<intmax>
  {
    if !live && (op == Div || op == Mod) && b == 0 then Operate(op, a, 1) else Operate(op, a, b)
  }

  function Put(live: bool, m: Vars, x: string, v: intmax): Vars
  {
    if live then m[x := IntBound(v)] else m
  }

  function ReadVar(x: string, m: Vars, live: bool, depth: nat): Result
    decreases MAX_EXPR_RECURSION_LEVEL - depth, 0, 0
  {
    if !live || x !in m || m[x].Blank? then Value(0, m)
    else if m[x].Other? then Unknown(m)
    else if depth >= MAX_EXPR_RECURSION_LEVEL then Failure(m)
    else Denote(m[x].tree, m, true, depth + 1)
  }

  /** The value of a tree and the variables after it; depth counts the texts being evaluated. */
  function Denote(e: Expr, m: Vars, live: bool, depth: nat): Result
    decreases MAX_EXPR_RECURSION_LEVEL - depth, 1, e
  {
    match e
    case Number(t) => FromOption(StrLong(t), m)
    case Var(x) => ReadVar(x, m, live, depth)
    case Pre(inc, x) =>
      var d := ReadVar(x, m, live, depth);
      if !d.Value? then d else
      var w := Step(inc, d.v);
      Value(w, Put(live, d.m, x, w))
    case Post(inc, x) =>
      var d := ReadVar(x, m, live, depth);
      if !d.Value? then d else Value(d.v, Put(live, d.m, x, Step(inc, d.v)))
    case Unary(op, a) =>
      var d := Denote(a, m, live, depth);
      if !d.Value? then d else Value(UnaryValue(op, d.v), d.m)
    case Bin(op, a, b) =>
      var d := Denote(a, m, live, depth);
      if !d.Value? then d else
      var d2 := Denote(b, d.m, live, depth);
      if !d2.Value? then d2 else FromOption(OperateIn(live, op, d.v, d2.v), d2.m)
    case Pwr(a, b) =>
      var d := Denote(a, m, live, depth);
      if !d.Value? then d else
      var d2 := Denote(b, d.m, live, depth);
      if !d2.Value? then d2 else Raised(d.v, d2.v, d2.m)
    case And(a, b) =>
      var d := Denote(a, m, live, depth);
      if !d.Value? then d else
      var d2 := Denote(b, d.m, live && d.v != 0, depth);
      if !d2.Value? then d2 else Value(BoolVal(d.v != 0 && d2.v != 0), d2.m)
    case Or(a, b) =>
      var d := Denote(a, m, live, depth);
      if !d.Value? then d else
      var d2 := Denote(b, d.m, live && d.v == 0, depth);
      if !d2.Value? then d2 else Value(BoolVal(d.v != 0 || d2.v != 0), d2.m)
    case If(c, a, b) =>
      var d := Denote(c, m, live, depth);
      if !d.Value? then d else
      var d1 := Denote(a, d.m, live && d.v != 0, depth);
      if !d1.Value? then d1 else
      var d2 := Denote(b, d1.m, live && d.v == 0, depth);
      if !d2.Value? then d2 else Value(if d.v != 0 then d1.v else d2.v, d2.m)
    case Set(x, a) =>
      var d := Denote(a, m, live, depth);
      if !d.Value? then d else Value(d.v, Put(live, d.m, x, d.v))
    case Update(op, x, a) =>
      var d := ReadVar(x, m, live, depth);
      if !d.Value? then d else
      var d2 := Denote(a, d.m, live, depth);
      if !d2.Value? then d2 else Stored(live, OperateIn(live, op, d.v, d2.v), x, d2.m)
    case Seq(a, b) =>
      var d := Denote(a, m, live, depth);
      if !d.Value? then d else Denote(b, d.m, live, depth)
    case Paren(a) => Denote(a, m, live, depth)
  }

  function Step(inc: bool, v: intmax): intmax { Wrap(if inc then v + 1 else v - 1) }

  function FromOption(r: Option<intmax>, m: Vars): Result
  {
    if r.None? then Failure(m) else Value(r.value, m)
  }

  function Raised(v: intmax, w: intmax, m: Vars): Result
  {
    if w < 0 then Failure(m) else Value(Wrap(Pow(v, w)), m)
  }

  function Stored(live: bool, r: Option<intmax>, x: string, m: Vars): Result
  {
    if r.None? then Failure(m) else Value(r.value, Put(live, m, x, r.value))
  }
}
