/** The evaluator as the source runs it: globals updated in place, loops at every
    left-associative level.  Each method is proved equal to the machine of ExprMachine. */
module ExprClass {
  import opened CStrings
  import opened Int64
  import opened ExprLexer
  import M = ExprMachine
  import opened Options

  /** A parsing method either faulted, leaving the variables, or did what the machine does. */
  predicate Did(r: M.Outcome<M.State>, ok: bool, s: M.State)
  {
    if r.Ok? then ok && s == r.value else !ok && s.env == r.env
  }

  predicate DidVal(r: M.Outcome<(intmax, M.State)>, ok: bool, v: intmax, s: M.State)
  {
    if r.Ok? then ok && (v, s) == r.value else !ok && s.env == r.env
  }

  /** After a look ahead all is as before but for the name and the operator of `op='. */
  predicate Peeked(p: M.Outcome<M.State>, name: string, ok: bool, peektok: Tok, s: M.State, s1: M.State)
  {
    if p.Fault? then !ok && s1.env == p.env
    else ok && peektok == p.value.curtok && s1 == s.(tokstr := Some(name), assigntok := p.value.assigntok)
  }

  /** Where a name leaves the state before its last token is read. */
  function AfterPeek(s: M.State): M.Outcome<M.State>
  {
    var p := M.ReadTok(s.(tokstr := None, noeval := 1));
    if p.Fault? then p
    else if p.value.curtok == PostInc || p.value.curtok == PostDec then
      var s1 := p.value.(tokstr := s.tokstr, noeval := s.noeval, lasttok := Str);
      M.Ok(M.Store(s1, s.tokstr, M.IncDec(p.value.curtok, s.tokval)).(curtok := Num))
    else M.Ok(s.(assigntok := p.value.assigntok))
  }

  class Evaluator {
    var tp: string
    var curtok: Tok
    var lasttok: Tok
    var assigntok: Tok
    var tokval: intmax
    var tokstr: Option<string>
    var noeval: nat
    var env: M.Env
    var stack: M.Stack

    function Snap(): M.State
      reads this
    {
      M.State(tp, curtok, lasttok, assigntok, tokval, tokstr, noeval, env, stack)
    }

    constructor (variables: M.Env)
      ensures Snap() == M.State("", End, End, End, 0, None, 0, variables, [])
    {
      tp, curtok, lasttok, assigntok, tokval, tokstr, noeval := "", End, End, End, 0, None, 0;
      env, stack := variables, [];
    }

    method Readtok() returns (ok: bool)
      modifies this
      ensures Did(M.ReadTok(old(Snap())), ok, Snap())
      decreases M.Room(Snap()), M.Left(Snap()), 2
    {
      hide Lex, M.StrEval;
      var token := Scan(tp, curtok, lasttok);
      ok := true;
      match token {
        case LexError =>
          return false;
        case LexEnd(rest) =>
          lasttok, curtok, tp := curtok, End, rest;
        case LexOp(tok, asg, rest) =>
          if tok == OpAssign {
            assigntok := asg;
          }
          lasttok, curtok, tp := curtok, tok, rest;
        case LexNumber(digits, rest) =>
          var n := StrLongLoop(digits);
          if n.None? {
            return false;
          }
          tokval := n.value;
          lasttok, curtok, tp := curtok, Num, rest;
        case LexName(name, rest) =>
          ok := ReadName(name, rest);
      }
    }

    /** readtok on an identifier: look one token ahead with evaluation off, then take its value. */
    method ReadName(name: string, rest: string) returns (ok: bool)
      requires Lex(tp, curtok, lasttok) == LexName(name, rest)
      modifies this
      ensures Did(M.ReadTok(old(Snap())), ok, Snap())
      decreases M.Room(Snap()), M.Left(Snap()), 2, 0
    {
      hide Lex, M.StrEval, M.ReadTok;
      M.ReadNameStep(Snap(), name, rest);
      var peektok;
      ok, peektok := Peek(name, rest);
      if !ok {
        return false;
      }
      if IsPre(lasttok) || peektok != Eq {
        var v;
        ok, v := ExprStreval(name);
        if !ok {
          return false;
        }
        tokval := v;
      } else {
        tokval := 0;
      }
      lasttok, curtok, tp := curtok, Str, rest;
    }

    /** SAVETOK, the next token with evaluation off, RESTORETOK. */
    method Peek(name: string, rest: string) returns (ok: bool, peektok: Tok)
      requires |rest| < |tp|
      modifies this
      ensures Peeked(M.ReadTok(old(Snap()).(tp := rest, curtok := Str, tokstr := None, noeval := 1)), name, ok, peektok, old(Snap()), Snap())
      decreases M.Room(Snap()), M.Left(Snap()), 0
    {
      hide M.ReadTok;
      tokstr := Some(name);
      var ec := M.Context(curtok, lasttok, tp, tokval, tokstr, noeval);
      tokstr, tp, noeval, curtok := None, rest, 1, Str;
      ok := Readtok();
      peektok := curtok;
      if ok {
        Restore(ec);
      }
    }

    /** RESTORETOK. */
    method Restore(c: M.Context)
      modifies this
      ensures Snap() == old(Snap()).(curtok := c.curtok, lasttok := c.lasttok, tp := c.tp,
                                     tokval := c.tokval, tokstr := c.tokstr, noeval := c.noeval)
    {
      curtok, lasttok, tp, tokval, tokstr, noeval := c.curtok, c.lasttok, c.tp, c.tokval, c.tokstr, c.noeval;
    }

    method ExprStreval(name: string) returns (ok: bool, v: intmax)
      modifies this
      ensures DidVal(M.StrEval(name, old(Snap())), ok, v, Snap())
      decreases M.Room(Snap()), M.Left(Snap()), 1
    {
      if noeval > 0 || name !in env {
        return true, 0;
      }
      ok, v := Subexpr(env[name]);
    }

    // ----- contexts -----

    method Pushexp() returns (ok: bool)
      modifies this
      ensures ok == (|old(stack)| < M.MAX_EXPR_RECURSION_LEVEL)
      ensures Snap() == if ok then M.Push(old(Snap())) else old(Snap())
    {
      if |stack| >= M.MAX_EXPR_RECURSION_LEVEL {
        return false;
      }
      stack := stack + [M.Context(curtok, lasttok, tp, tokval, tokstr, noeval)];
      return true;
    }

    method Popexp() returns (ok: bool)
      modifies this
      ensures ok == (old(stack) != [])
      ensures Snap() == if ok then M.Pop(old(Snap())) else old(Snap())
    {
      if |stack| <= 0 {
        return false;
      }
      var context := stack[|stack| - 1];
      stack := stack[..|stack| - 1];
      Restore(context);
      return true;
    }

    method Subexpr(expr: string) returns (ok: bool, val: intmax)
      modifies this
      ensures DidVal(M.SubExpr(expr, old(Snap())), ok, val, Snap())
      decreases M.Room(Snap()), M.Left(Snap()), 0
    {
      hide M.Exp, M.ReadTok, M.ReadExp, M.Push, M.Pop, M.StrEval, SkipSpace;
      val := 0;
      var p := SkipBlanks(expr);
      if At(p, 0) == NUL {
        return true, 0;
      }
      ok := Pushexp();
      if !ok {
        return;
      }
      tp, curtok, lasttok, tokstr, tokval := expr, End, End, None, 0;
      ok, val := Readexp(M.COMMA);
      if !ok {
        return;
      }
      if curtok != End {
        return false, 0;
      }
      ok := Popexp();
    }

    // ----- the grammar -----

    /** readtok and then the parsing function of level l. */
    method Readexp(l: nat) returns (ok: bool, value: intmax)
      requires l in {M.COMMA, M.ASSIGN, M.POWER, M.UNARY} || M.LAND <= l <= M.PRODUCT
      modifies this
      ensures DidVal(M.ReadExp(l, old(Snap())), ok, value, Snap())
      decreases M.Room(Snap()), M.Left(Snap()), if curtok == End then 7 + M.PRIMARY else 3
    {
      hide M.Exp, M.ReadTok;
      value := 0;
      ok := Readtok();
      if !ok {
        return;
      }
      if l == M.COMMA {
        ok, value := Expcomma();
      } else if l == M.ASSIGN {
        ok, value := Expassign();
      } else if l == M.LAND {
        ok, value := Explogical(l);
      } else if l <= M.PRODUCT {
        ok, value := Expbinary(l);
      } else if l == M.POWER {
        ok, value := Exppower();
      } else {
        ok, value := Exp1();
      }
    }

    method Expcomma() returns (ok: bool, value: intmax)
      modifies this
      ensures DidVal(M.Exp(M.COMMA, old(Snap())), ok, value, Snap())
      decreases M.Room(Snap()), M.Left(Snap()), 6 + M.PRIMARY - M.COMMA
    {
      hide M.Exp, M.ReadTok, M.Tail, M.ReadExp;
      ghost var s0 := Snap();
      M.ExpStep(M.COMMA, s0);
      ok, value := Expassign();
      if !ok {
        return;
      }
      while curtok == Comma
        invariant ok && M.Tail(M.COMMA, value, Snap()) == M.Exp(M.COMMA, s0) && M.Kept(s0, Snap())
        decreases M.Left(Snap())
      {
        M.TailTurns(M.COMMA, value, Snap());
        ok, value := Readexp(M.ASSIGN);
        if !ok {
          return;
        }
      }
      M.TailStops(M.COMMA, value, Snap());
    }

    method Expassign() returns (ok: bool, value: intmax)
      modifies this
      ensures DidVal(M.Exp(M.ASSIGN, old(Snap())), ok, value, Snap())
      decreases M.Room(Snap()), M.Left(Snap()), 6 + M.PRIMARY - M.ASSIGN
    {
      hide M.Exp, M.ReadTok, M.Tail, M.ReadExp, M.Assign;
      M.ExpStep(M.ASSIGN, Snap());
      ok, value := Expcond();
      if !ok {
        return;
      }
      if curtok == Eq || curtok == OpAssign {
        M.TailTurns(M.ASSIGN, value, Snap());
        ok, value := Assignment(value);
      } else {
        M.TailStops(M.ASSIGN, value, Snap());
      }
    }

    /** The assignment half of expassign; v is the value read from the target. */
    method Assignment(v: intmax) returns (ok: bool, value: intmax)
      requires curtok == Eq || curtok == OpAssign
      modifies this
      ensures DidVal(M.Assign(v, old(Snap())), ok, value, Snap())
      decreases M.Room(Snap()), M.Left(Snap()), 4
    {
      hide M.Exp, M.ReadTok, M.Tail, M.ReadExp, M.BinaryValue, M.Store;
      var special, op := curtok == OpAssign, assigntok;
      if lasttok != Str || tokstr.None? {
        return false, 0;
      }
      var lhs := tokstr;
      ok, value := Readexp(M.ASSIGN);
      if !ok {
        return;
      }
      if special {
        if (op == Div || op == Mod) && value == 0 {
          if noeval == 0 {
            return false, 0;
          }
          value := 1;
        }
        if !M.IsAssignOp(op) {
          return false, 0;
        }
        value := M.BinaryValue(op, v, value);
      }
      Bind(lhs, value);
      tokstr := None;
    }

    /** expr_bind_variable, unless evaluation is off. */
    method Bind(name: Option<string>, v: intmax)
      modifies this`env
      ensures Snap() == M.Store(old(Snap()), name, v)
    {
      if noeval == 0 && name.Some? {
        env := env[name.value := Itos(v)];
      }
    }

    method Expcond() returns (ok: bool, rval: intmax)
      modifies this
      ensures DidVal(M.Exp(M.COND, old(Snap())), ok, rval, Snap())
      decreases M.Room(Snap()), M.Left(Snap()), 6 + M.PRIMARY - M.COND
    {
      hide M.Exp, M.ReadTok, M.Tail, M.ReadExp, M.Conditional;
      M.ExpStep(M.COND, Snap());
      ok, rval := Explogical(M.LOR);
      if !ok {
        return;
      }
      if curtok == Ques {
        M.TailTurns(M.COND, rval, Snap());
        ok, rval := Conditional(rval);
      } else {
        M.TailStops(M.COND, rval, Snap());
      }
    }

    /** noeval++ and noeval-- under set_noeval. */
    method Raise(setNoeval: bool)
      modifies this`noeval
      ensures Snap() == M.Raise(old(Snap()), setNoeval)
    {
      if setNoeval {
        noeval := noeval + 1;
      }
    }

    method Lower(setNoeval: bool)
      requires setNoeval ==> noeval > 0
      modifies this`noeval
      ensures Snap() == M.Lower(old(Snap()), setNoeval)
    {
      if setNoeval {
        noeval := noeval - 1;
      }
    }

    /** The `?' half of expcond. */
    method Conditional(cval: intmax) returns (ok: bool, rval: intmax)
      requires curtok == Ques
      modifies this
      ensures DidVal(M.Conditional(cval, old(Snap())), ok, rval, Snap())
      decreases M.Room(Snap()), M.Left(Snap()), 4
    {
      hide M.Exp, M.ReadTok, M.Otherwise;
      rval := 0;
      var val1;
      Raise(cval == 0);
      ok := Readtok();
      if !ok {
        return;
      }
      if curtok == End || curtok == Col {
        return false, 0;
      }
      ok, val1 := Expcomma();
      if !ok {
        return;
      }
      if curtok != Col {
        return false, 0;
      }
      Lower(cval == 0);
      ok, rval := Otherwise(cval, val1);
    }

    /** The `:' half of expcond. */
    method Otherwise(cval: intmax, val1: intmax) returns (ok: bool, rval: intmax)
      requires curtok == Col
      modifies this
      ensures DidVal(M.Otherwise(cval, val1, old(Snap())), ok, rval, Snap())
      decreases M.Room(Snap()), M.Left(Snap()), 4
    {
      hide M.Exp, M.ReadTok;
      rval := 0;
      var val2;
      Raise(cval != 0);
      ok := Readtok();
      if !ok {
        return;
      }
      if curtok == End {
        return false, 0;
      }
      ok, val2 := Expcond();
      if !ok {
        return;
      }
      Lower(cval != 0);
      rval := if cval != 0 then val1 else val2;
      lasttok := Cond;
    }

    /** explor and expland. */
    method Explogical(l: nat) returns (ok: bool, val1: intmax)
      requires l == M.LOR || l == M.LAND
      modifies this
      ensures DidVal(M.Exp(l, old(Snap())), ok, val1, Snap())
      decreases M.Room(Snap()), M.Left(Snap()), 6 + M.PRIMARY - l
    {
      hide M.Exp, M.ReadTok, M.Tail, M.ReadExp, M.Logical;
      ghost var s0 := Snap();
      M.ExpStep(l, s0);
      if l == M.LOR {
        ok, val1 := Explogical(M.LAND);
      } else {
        ok, val1 := Expbinary(M.BOR);
      }
      if !ok {
        return;
      }
      while curtok == M.LogicalTok(l)
        invariant ok && M.Tail(l, val1, Snap()) == M.Exp(l, s0) && M.Kept(s0, Snap())
        decreases M.Left(Snap())
      {
        M.TailTurns(l, val1, Snap());
        ok, val1 := LogicalTurn(l, val1);
        if !ok {
          return;
        }
      }
      M.TailStops(l, val1, Snap());
    }

    /** One turn of the loop in explor or expland. */
    method LogicalTurn(l: nat, val1: intmax) returns (ok: bool, val: intmax)
      requires (l == M.LOR || l == M.LAND) && curtok == M.LogicalTok(l)
      modifies this
      ensures DidVal(M.Logical(l, val1, old(Snap())), ok, val, Snap())
      decreases M.Room(Snap()), M.Left(Snap()), 4
    {
      hide M.Exp, M.ReadTok, M.ReadExp;
      val := 0;
      var val2;
      var setNoeval := M.Decided(l, val1);
      Raise(setNoeval);
      ok, val2 := Readexp(l + 1);
      if !ok {
        return;
      }
      Lower(setNoeval);
      val := M.Join(l, val1, val2);
      lasttok := M.LogicalTok(l);
    }

    /** expbor, expbxor, expband, exp5, exp4, expshift, exp3 and expmuldiv. */
    method Expbinary(l: nat) returns (ok: bool, val1: intmax)
      requires M.BOR <= l <= M.PRODUCT
      modifies this
      ensures DidVal(M.Exp(l, old(Snap())), ok, val1, Snap())
      decreases M.Room(Snap()), M.Left(Snap()), 6 + M.PRIMARY - l
    {
      hide M.Exp, M.ReadTok, M.Tail, M.ReadExp, M.Binary, M.OpLevel;
      ghost var s0 := Snap();
      M.ExpStep(l, s0);
      if l < M.PRODUCT {
        ok, val1 := Expbinary(l + 1);
      } else {
        ok, val1 := Exppower();
      }
      if !ok {
        return;
      }
      while M.OpLevel(curtok) == l
        invariant ok && M.Tail(l, val1, Snap()) == M.Exp(l, s0) && M.Kept(s0, Snap())
        decreases M.Left(Snap())
      {
        M.TailTurns(l, val1, Snap());
        ok, val1 := BinaryTurn(l, val1);
        if !ok {
          return;
        }
      }
      M.TailStops(l, val1, Snap());
    }

    /** One turn of a binary loop. */
    method BinaryTurn(l: nat, val1: intmax) returns (ok: bool, val: intmax)
      requires M.BOR <= l <= M.PRODUCT && M.OpLevel(curtok) == l
      modifies this
      ensures DidVal(M.Binary(l, val1, old(Snap())), ok, val, Snap())
      decreases M.Room(Snap()), M.Left(Snap()), 4
    {
      hide M.Exp, M.ReadTok, M.ReadExp, M.BinaryValue;
      val := 0;
      var op := curtok;
      var val2;
      ok, val2 := Readexp(l + 1);
      if !ok {
        return;
      }
      if (op == Div || op == Mod) && val2 == 0 {
        if noeval == 0 {
          return false, 0;
        }
        val2 := 1;
      } else if op == Mod && val1 == INTMAX_MIN && val2 == -1 {
        return true, 0;
      }
      val := M.BinaryValue(op, val1, val2);
      lasttok := Num;
    }

    method Exppower() returns (ok: bool, val1: intmax)
      modifies this
      ensures DidVal(M.Exp(M.POWER, old(Snap())), ok, val1, Snap())
      decreases M.Room(Snap()), M.Left(Snap()), 6 + M.PRIMARY - M.POWER
    {
      hide M.Exp, M.ReadTok, M.ReadExp;
      ghost var s0 := Snap();
      M.ExpStep(M.POWER, s0);
      ok, val1 := Exp1();
      if !ok {
        return;
      }
      while curtok == Power
        invariant ok && M.Tail(M.POWER, val1, Snap()) == M.Exp(M.POWER, s0) && M.Kept(s0, Snap())
        decreases M.Left(Snap())
      {
        var val2;
        ok, val2 := Readexp(M.POWER);
        if !ok {
          return;
        }
        lasttok := Num;
        if val2 == 0 {
          return true, 1;
        }
        if val2 < 0 {
          return false, 0;
        }
        val1 := IPow(val1, val2);
      }
    }

    method Exp1() returns (ok: bool, val: intmax)
      modifies this
      ensures DidVal(M.Exp(M.UNARY, old(Snap())), ok, val, Snap())
      decreases M.Room(Snap()), M.Left(Snap()), 6 + M.PRIMARY - M.UNARY
    {
      hide M.ReadTok, M.ReadExp, M.Exp0, M.UnaryValue;
      if curtok in {Not, Bnot, Minus, Plus} {
        var op := curtok;
        ok, val := Readexp(M.UNARY);
        if !ok {
          return;
        }
        val := M.UnaryValue(op, val);
        lasttok := Num;
      } else {
        ok, val := Exp0();
      }
    }

    method Exp0() returns (ok: bool, val: intmax)
      modifies this
      ensures DidVal(M.Exp0(old(Snap())), ok, val, Snap())
      decreases M.Room(Snap()), M.Left(Snap()), 5
    {
      hide M.ReadTok, M.ReadExp, M.PreIncDec, M.Name;
      val := 0;
      if IsPre(curtok) {
        ok, val := Preincdec();
      } else if curtok == LPar {
        ok, val := Readexp(M.COMMA);
        if !ok {
          return;
        }
        if curtok != RPar {
          return false, 0;
        }
        ok := Readtok();
      } else if curtok == Num {
        val := tokval;
        ok := Readtok();
      } else if curtok == Str {
        ok, val := Identifier();
      } else {
        ok := false;
      }
    }

    method Preincdec() returns (ok: bool, val: intmax)
      requires IsPre(curtok)
      modifies this
      ensures DidVal(M.PreIncDec(old(Snap())), ok, val, Snap())
      decreases M.Room(Snap()), M.Left(Snap()), 4
    {
      hide M.ReadTok, M.Store, M.IncDec, M.Exp, M.StrEval, M.SubExpr, M.KeptOnFault;
      val := 0;
      var stok := curtok;
      lasttok := curtok;
      ok := Readtok();
      if !ok {
        return;
      }
      if curtok != Str {
        return false, 0;
      }
      var v2 := M.IncDec(stok, tokval);
      Bind(tokstr, v2);
      curtok := Num;
      ok := Readtok();
      val := v2;
    }

    method Identifier() returns (ok: bool, val: intmax)
      requires curtok == Str
      modifies this
      ensures DidVal(M.Name(old(Snap())), ok, val, Snap())
      decreases M.Room(Snap()), M.Left(Snap()), 4
    {
      hide M.ReadTok, M.IncDec;
      val := tokval;
      ok := PeekOperator();
      if ok {
        ok := Readtok();
      }
    }

    /** Look ahead for ++ or -- behind a name: store the new value, or restore all. */
    method PeekOperator() returns (ok: bool)
      requires curtok == Str
      modifies this
      ensures Did(AfterPeek(old(Snap())), ok, Snap())
      decreases M.Room(Snap()), M.Left(Snap()), 3
    {
      hide M.ReadTok, M.Store, M.IncDec, M.KeptOnFault, M.StrEval, M.SubExpr;
      var val := tokval;
      var ec := M.Context(curtok, lasttok, tp, tokval, tokstr, noeval);
      tokstr, noeval := None, 1;
      ok := Readtok();
      if !ok {
        return;
      }
      var stok := curtok;
      if stok == PostInc || stok == PostDec {
        tokstr, noeval, lasttok := ec.tokstr, ec.noeval, Str;
        Bind(tokstr, M.IncDec(stok, val));
        curtok := Num;
      } else {
        Restore(ec);
      }
    }

    /** evalexp: on a fault every context is discarded and noeval is cleared. */
    method Evalexp(expr: string) returns (r: Option<intmax>)
      requires stack == []
      modifies this
      ensures stack == [] && noeval == 0
      ensures (r, env) == M.EvalExp(expr, old(Snap()))
    {
      noeval := 0;
      var ok, val := Subexpr(expr);
      if !ok {
        stack, noeval := [], 0;
        return None;
      }
      return Some(val);
    }
  }
}
