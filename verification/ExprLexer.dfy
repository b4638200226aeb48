/** Tokens of the arithmetic evaluator and the character scanner inside readtok. */
module ExprLexer {
  import opened CStrings
  import opened Int64
  import opened Options

  /** The token codes; End is token 0. */
  datatype Tok =
    | End | Str | Num
    | Eq | OpAssign | Ques | Col | Comma | LPar | RPar
    | Lor | Land | Bor | Bxor | Band
    | EqEq | Neq | Leq | Geq | Lt | Gt
    | Lsh | Rsh | Plus | Minus | Mul | Div | Mod | Power
    | Not | Bnot
    | PreInc | PreDec | PostInc | PostDec
    | Cond  // never read: expcond leaves it in lasttok

  predicate IsPre(t: Tok) { t == PreInc || t == PreDec }

  // ----- characters -----

  predicate IsSpace(c: char) { c == ' ' || c == '\t' || c == '\n' }
  predicate IsDigit(c: char) { '0' <= c <= '9' }
  predicate IsAlpha(c: char) { 'a' <= c <= 'z' || 'A' <= c <= 'Z' }
  predicate NameStart(c: char) { IsAlpha(c) || c == '_' }
  predicate NameChar(c: char) { IsAlpha(c) || IsDigit(c) || c == '_' }
  predicate NumChar(c: char) { IsAlpha(c) || IsDigit(c) || c == '#' || c == '@' || c == '_' }

  function SkipSpace(s: string): (r: string)
    ensures |r| <= |s|
    ensures !IsSpace(At(r, 0))
  {
    if |s| > 0 && IsSpace(s[0]) then SkipSpace(s[1..]) else s
  }

  function NameLen(s: string): (n: nat)
    ensures n <= |s|
    ensures |s| > 0 && NameChar(s[0]) ==> n > 0
  {
    if |s| > 0 && NameChar(s[0]) then 1 + NameLen(s[1..]) else 0
  }

  function NumLen(s: string): (n: nat)
    ensures n <= |s|
    ensures |s| > 0 && NumChar(s[0]) ==> n > 0
  {
    if |s| > 0 && NumChar(s[0]) then 1 + NumLen(s[1..]) else 0
  }

  // ----- scanning one token -----

  datatype Lexed =
    | LexEnd(rest: string)
    | LexName(name: string, rest: string)
    | LexNumber(digits: string, rest: string)
    | LexOp(tok: Tok, asg: Tok, rest: string)  // asg is the OP of OP=, else End
    | LexError

  /** The scanning part of readtok: white space, then one token.  What `++` and `--` are
      depends on the current and the previous token. */
  function Lex(text: string, curtok: Tok, lasttok: Tok): (r: Lexed)
    ensures !r.LexError? ==> |r.rest| <= |text|
    ensures r.LexName? || r.LexNumber? || r.LexOp? ==> |r.rest| < |text|
  {
    LexHere(SkipSpace(text), curtok, lasttok)
  }

  function LexHere(s: string, curtok: Tok, lasttok: Tok): (r: Lexed)
    ensures !r.LexError? ==> |r.rest| <= |s|
    ensures r.LexName? || r.LexNumber? || r.LexOp? ==> |r.rest| < |s|
  {
    if At(s, 0) == NUL then LexEnd(s)
    else if NameStart(s[0]) then LexWord(s)
    else LexOther(s, curtok, lasttok)
  }

  function LexOther(s: string, curtok: Tok, lasttok: Tok): (r: Lexed)
    requires |s| > 0
    ensures r.LexNumber? || r.LexOp? ==> |r.rest| < |s|
    ensures r.LexNumber? || r.LexOp? || r.LexError?
  {
    if IsDigit(s[0]) then LexNumeral(s) else LexOperator(s, curtok, lasttok)
  }

  function LexWord(s: string): (r: Lexed)
    requires |s| > 0 && NameStart(s[0])
    ensures r.LexName? ==> |r.rest| < |s|
    ensures r.LexName? || r.LexError?
  {
    var n := NameLen(s);
    if At(s, n) == '[' then LexError else LexName(s[..n], s[n..])
  }

  function LexNumeral(s: string): (r: Lexed)
    requires |s| > 0 && IsDigit(s[0])
    ensures r.LexNumber? && |r.rest| < |s|
  {
    var n := NumLen(s);
    LexNumber(s[..n], s[n..])
  }

  function LexOperator(s: string, curtok: Tok, lasttok: Tok): (r: Lexed)
    requires |s| > 0
    ensures r.LexOp? ==> |r.rest| < |s|
    ensures r.LexOp? || r.LexError?
  {
    var c, c1, c2 := s[0], At(s, 1), At(s, 2);
    if c == '=' && c1 == '=' then LexOp(EqEq, End, s[2..])
    else if c == '!' && c1 == '=' then LexOp(Neq, End, s[2..])
    else if c == '>' && c1 == '=' then LexOp(Geq, End, s[2..])
    else if c == '<' && c1 == '=' then LexOp(Leq, End, s[2..])
    else if c == '<' && c1 == '<' then
      if c2 == '=' then LexOp(OpAssign, Lsh, s[3..]) else LexOp(Lsh, End, s[2..])
    else if c == '>' && c1 == '>' then
      if c2 == '=' then LexOp(OpAssign, Rsh, s[3..]) else LexOp(Rsh, End, s[2..])
    else if c == '&' && c1 == '&' then LexOp(Land, End, s[2..])
    else if c == '|' && c1 == '|' then LexOp(Lor, End, s[2..])
    else if c == '*' && c1 == '*' then LexOp(Power, End, s[2..])
    else if (c == '-' || c == '+') && c1 == c then LexDouble(s, curtok, lasttok)
    else if c1 == '=' && SingleOp(c) in {Mul, Div, Mod, Plus, Minus, Band, Bxor, Bor} then
      LexOp(OpAssign, SingleOp(c), s[2..])
    else if SingleOp(c) == End then LexError
    else LexOp(SingleOp(c), End, s[1..])
  }

  /** `++` and `--`. */
  function LexDouble(s: string, curtok: Tok, lasttok: Tok): (r: Lexed)
    requires |s| >= 2
    ensures r.LexOp? ==> |r.rest| < |s|
    ensures r.LexOp? || r.LexError?
  {
    var minus := s[0] == '-';
    if curtok == Str then LexOp(if minus then PostDec else PostInc, End, s[2..])
    else if curtok == Num && IsPre(lasttok) then LexError
    else if NameStart(At(SkipSpace(s[2..]), 0)) then LexOp(if minus then PreDec else PreInc, End, s[2..])
    else LexOp(if minus then Minus else Plus, End, s[1..])
  }

  /** One-character operators; End for a character that is not one. */
  function SingleOp(c: char): Tok
  {
    match c
    case '=' => Eq case '>' => Gt case '<' => Lt case '+' => Plus case '-' => Minus
    case '*' => Mul case '/' => Div case '%' => Mod case '!' => Not case '(' => LPar
    case ')' => RPar case '&' => Band case '|' => Bor case '^' => Bxor case '~' => Bnot
    case '?' => Ques case ':' => Col case ',' => Comma
    case _ => End
  }

  // ----- numbers -----

  /** The value of one digit character in a base, as strlong assigns it. */
  function DigitValue(c: char, base: int): Option<int>
  {
    if IsDigit(c) then Some(c as int - '0' as int)
    else if 'a' <= c <= 'z' then Some(c as int - 'a' as int + 10)
    else if 'A' <= c <= 'Z' then Some(c as int - 'A' as int + (if base <= 36 then 10 else 36))
    else if c == '@' then Some(62)
    else if c == '_' then Some(63)
    else None
  }

  predicate ValidNumChar(c: char) { IsAlpha(c) || IsDigit(c) || c == '_' || c == '@' }

  /** The digit loop of strlong: None is an evaluation error. */
  function ScanNumber(s: string, base: int, foundbase: bool, val: intmax): Option<intmax>
  {
    if s == "" || s[0] == NUL then Some(val)
    else if s[0] == '#' then
      if foundbase || val < 2 || val > 64 || !ValidNumChar(At(s, 1)) then None
      else ScanNumber(s[1..], val, true, 0)
    else if DigitValue(s[0], base).None? then Some(val)
    else
      var d := DigitValue(s[0], base).value;
      if d >= base then None else ScanNumber(s[1..], base, foundbase, Wrap(val * base + d))
  }

  function NumberStart(num: string): (string, int, bool)
  {
    if At(num, 0) != '0' then (num, 10, false)
    else if At(num, 1) == 'x' || At(num, 1) == 'X' then (num[2..], 16, true)
    else (num[1..], 8, true)
  }

  function StrLong(num: string): Option<intmax>
  {
    var (s, base, found) := NumberStart(num);
    ScanNumber(s, base, found, 0)
  }

  /** strlong as the source runs it: a loop over the characters. */
  method StrLongLoop(num: string) returns (r: Option<intmax>)
    ensures r == StrLong(num)
  {
    var s, base, foundbase := num, 10, false;
    if At(s, 0) == '0' {
      s := s[1..];
      if At(s, 0) == NUL {
        return Some(0);
      }
      if At(s, 0) == 'x' || At(s, 0) == 'X' {
        base := 16;
        s := s[1..];
      } else {
        base := 8;
      }
      foundbase := true;
    }
    var val: intmax := 0;
    while At(s, 0) != NUL
      invariant ScanNumber(s, base, foundbase, val) == StrLong(num)
      decreases |s|
    {
      var c := s[0];
      if c == '#' {
        if foundbase || val < 2 || val > 64 {
          return None;
        }
        base, val, foundbase := val, 0, true;
        if !ValidNumChar(At(s, 1)) {
          return None;
        }
      } else if ValidNumChar(c) {
        var d := DigitValue(c, base).value;
        if d >= base {
          return None;
        }
        val := Wrap(val * base + d);
      } else {
        return Some(val);
      }
      s := s[1..];
    }
    return Some(val);
  }

  // ----- the pointer loops of readtok -----

  /** The pointer loops of readtok: white space, then a name or a number. */
  method Scan(text: string, cur: Tok, last: Tok) returns (r: Lexed)
    ensures r == Lex(text, cur, last)
  {
    var cp := SkipBlanks(text);
    r := ScanHere(cp, cur, last);
  }

  lemma HereIs(s: string, curtok: Tok, lasttok: Tok)
    ensures At(s, 0) == NUL ==> LexHere(s, curtok, lasttok) == LexEnd(s)
    ensures At(s, 0) != NUL ==> |s| > 0
    ensures At(s, 0) != NUL ==> LexHere(s, curtok, lasttok) == if NameStart(s[0]) then LexWord(s) else LexOther(s, curtok, lasttok)
  {
    hide LexWord, LexOther, NameStart;
  }

  method ScanHere(cp: string, cur: Tok, last: Tok) returns (r: Lexed)
    ensures r == LexHere(cp, cur, last)
  {
    hide *;
    HereIs(cp, cur, last);
    if At(cp, 0) == NUL {
      return LexEnd(cp);
    }
    if NameStart(cp[0]) {
      r := ScanWord(cp);
      return;
    }
    r := ScanOther(cp, cur, last);
  }

  method ScanOther(cp: string, cur: Tok, last: Tok) returns (r: Lexed)
    requires |cp| > 0
    ensures r == LexOther(cp, cur, last)
  {
    hide LexOperator, IsDigit;
    if IsDigit(cp[0]) {
      var n := ScanNumeral(cp);
      r := LexNumber(cp[..n], cp[n..]);
    } else {
      r := LexOperator(cp, cur, last);
    }
  }

  method ScanWord(cp: string) returns (r: Lexed)
    requires |cp| > 0 && NameStart(cp[0])
    ensures r == LexWord(cp)
  {
    var n := ScanName(cp);
    if At(cp, n) == '[' {
      return LexError;
    }
    return LexName(cp[..n], cp[n..]);
  }

  method SkipBlanks(text: string) returns (cp: string)
    ensures cp == SkipSpace(text)
  {
    cp := text;
    while At(cp, 0) != NUL && IsSpace(At(cp, 0))
      invariant SkipSpace(cp) == SkipSpace(text)
      decreases |cp|
    {
      cp := cp[1..];
    }
  }

  method ScanName(cp: string) returns (i: nat)
    ensures i == NameLen(cp)
  {
    i := 0;
    while NameChar(At(cp, i))
      invariant i <= |cp| && i + NameLen(cp[i..]) == NameLen(cp)
      decreases |cp| - i
    {
      assert cp[i..][1..] == cp[i + 1..];
      i := i + 1;
    }
  }

  method ScanNumeral(cp: string) returns (i: nat)
    ensures i == NumLen(cp)
  {
    i := 0;
    while NumChar(At(cp, i))
      invariant i <= |cp| && i + NumLen(cp[i..]) == NumLen(cp)
      decreases |cp| - i
    {
      assert cp[i..][1..] == cp[i + 1..];
      i := i + 1;
    }
  }

  // ----- what a literal means -----

  predicate DigitsOf(digits: string, base: int)
  {
    forall i :: 0 <= i < |digits| ==>
      DigitValue(digits[i], base).Some? && DigitValue(digits[i], base).value < base
  }

  /** Positional value of a digit string: each digit times the power of the base for its place. */
  function Positional(digits: string, base: int): int
    requires DigitsOf(digits, base)
  {
    if digits == "" then 0
    else DigitValue(digits[0], base).value * Pow(base, |digits| - 1) + Positional(digits[1..], base)
  }

  /** The same number accumulated from the left, without wrapping. */
  function Horner(acc: int, digits: string, base: int): int
    requires DigitsOf(digits, base)
    decreases |digits|
  {
    if digits == "" then acc
    else Horner(acc * base + DigitValue(digits[0], base).value, digits[1..], base)
  }

  lemma {:induction false} HornerIsPositional(acc: int, digits: string, base: int)
    requires DigitsOf(digits, base)
    ensures Horner(acc, digits, base) == acc * Pow(base, |digits|) + Positional(digits, base)
    decreases |digits|
  {
    if digits != "" {
      var d, p := DigitValue(digits[0], base).value, Pow(base, |digits| - 1);
      HornerIsPositional(acc * base + d, digits[1..], base);
      Distribute(acc, base, d, p);
    }
  }

  lemma Distribute(acc: int, base: int, d: int, p: int)
    ensures (acc * base + d) * p == acc * (base * p) + d * p
  {
  }

  lemma {:induction false} HornerSnoc(acc: int, digits: string, c: char, base: int)
    requires DigitsOf(digits, base) && DigitsOf(digits + [c], base) && DigitValue(c, base).Some?
    ensures Horner(acc, digits + [c], base) == Horner(acc, digits, base) * base + DigitValue(c, base).value
    decreases |digits|
  {
    var s := digits + [c];
    if digits == "" {
      assert s[1..] == "";
    } else {
      assert s[0] == digits[0] && s[1..] == digits[1..] + [c];
      HornerSnoc(acc * base + DigitValue(s[0], base).value, digits[1..], c, base);
    }
  }

  /** The wrapping loop and the exact accumulation agree modulo 2^64, over any text after
      the digits. */
  lemma {:induction false} ScanDigits(acc: int, digits: string, tail: string, base: int, foundbase: bool)
    requires DigitsOf(digits, base)
    ensures ScanNumber(digits + tail, base, foundbase, Wrap(acc))
         == ScanNumber(tail, base, foundbase, Wrap(Horner(acc, digits, base)))
    decreases |digits|
  {
    var s := digits + tail;
    if digits == "" {
      assert s == tail;
    } else {
      var d := DigitValue(digits[0], base).value;
      assert s[0] == digits[0] && s[1..] == digits[1..] + tail;
      WrapStep(acc, base, d);
      ScanDigits(acc * base + d, digits[1..], tail, base, foundbase);
    }
  }

  lemma WrapStep(p: int, base: int, d: int)
    ensures Wrap(Wrap(p) * base + d) == Wrap(p * base + d)
  {
    WrapMul(Wrap(p), base);
    WrapId(Wrap(p));
    WrapMul(p, base);
    WrapAdd(Wrap(p) * base, d);
    WrapAdd(p * base, d);
  }

  /** For every digit string of a base, the loop returns the positional value modulo 2^64. */
  lemma ScanIsPositional(digits: string, base: int, foundbase: bool)
    requires DigitsOf(digits, base)
    ensures ScanNumber(digits, base, foundbase, 0) == Some(Wrap(Positional(digits, base)))
  {
    assert digits + "" == digits;
    WrapId(0);
    ScanDigits(0, digits, "", base, foundbase);
    HornerIsPositional(0, digits, base);
  }

  // ----- decimal text -----

  function DigitChar(d: nat): (c: char)
    requires d < 10
    ensures IsDigit(c) && forall b :: DigitValue(c, b) == Some(d)
  {
    ('0' as int + d) as char
  }

  /** Decimal digits of a natural number, no leading zero. */
  function Decimal(n: nat): (s: string)
    ensures |s| > 0 && forall i :: 0 <= i < |s| ==> IsDigit(s[i])
    ensures n > 0 ==> s[0] != '0'
  {
    if n < 10 then [DigitChar(n)] else Decimal(n / 10) + [DigitChar(n % 10)]
  }

  /** itos. */
  function Itos(v: intmax): string
  {
    if v < 0 then "-" + Decimal(0 - v) else Decimal(v)
  }

  lemma DecimalDigits(n: nat)
    ensures DigitsOf(Decimal(n), 10)
  {
    var s := Decimal(n);
    forall i | 0 <= i < |s|
      ensures DigitValue(s[i], 10).Some? && DigitValue(s[i], 10).value < 10
    {
      assert IsDigit(s[i]);
    }
  }

  lemma {:induction false} DecimalValue(n: nat)
    ensures DigitsOf(Decimal(n), 10) && Horner(0, Decimal(n), 10) == n
  {
    DecimalDigits(n);
    if n < 10 {
      assert Decimal(n)[1..] == "";
    } else {
      DecimalValue(n / 10);
      HornerSnoc(0, Decimal(n / 10), DigitChar(n % 10), 10);
    }
  }

  /** Reading a decimal literal back gives the number modulo 2^64, whatever its size. */
  lemma StrLongDecimal(n: nat)
    ensures StrLong(Decimal(n)) == Some(Wrap(n))
  {
    var s := Decimal(n);
    DecimalValue(n);
    if n > 0 {
      assert NumberStart(s) == (s, 10, false);
      ScanIsPositional(s, 10, false);
      HornerIsPositional(0, s, 10);
    } else {
      WrapId(0);
      assert NumberStart(s) == ("", 8, true);
    }
  }

  /** 0digits is octal. */
  lemma StrLongOctal(digits: string)
    requires |digits| > 0 && DigitsOf(digits, 8)
    ensures StrLong("0" + digits) == Some(Wrap(Positional(digits, 8)))
  {
    var num := "0" + digits;
    assert num[1..] == digits && At(num, 1) == digits[0];
    assert DigitValue(digits[0], 8).Some?;
    assert NumberStart(num) == (digits, 8, true);
    ScanIsPositional(digits, 8, true);
  }

  /** 0xdigits is hexadecimal. */
  lemma StrLongHex(digits: string)
    requires DigitsOf(digits, 16)
    ensures StrLong("0x" + digits) == Some(Wrap(Positional(digits, 16)))
  {
    var num := "0x" + digits;
    assert num[2..] == digits;
    assert NumberStart(num) == (digits, 16, true);
    ScanIsPositional(digits, 16, true);
  }

  /** base#digits for every base from 2 to 64. */
  lemma StrLongBase(base: int, digits: string)
    requires 2 <= base <= 64 && |digits| > 0 && DigitsOf(digits, base)
    ensures StrLong(Decimal(base) + "#" + digits) == Some(Wrap(Positional(digits, base)))
  {
    hide ScanNumber, Horner, Positional, Decimal, DigitsOf, Wrap;
    var d, tail := Decimal(base), "#" + digits;
    var num := d + tail;
    assert Decimal(base) + "#" + digits == num;
    DecimalValue(base);
    assert num[0] == d[0];
    assert NumberStart(num) == (num, 10, false);
    WrapId(0);
    WrapId(base);
    ScanDigits(0, d, tail, 10, false);
    HashDigit(base, digits);
    ScanIsPositional(digits, base, true);
  }

  lemma HashDigit(base: intmax, digits: string)
    requires 2 <= base <= 64 && |digits| > 0 && DigitsOf(digits, base)
    ensures ScanNumber("#" + digits, 10, false, base) == ScanNumber(digits, base, true, 0)
  {
    var tail := "#" + digits;
    assert tail[1..] == digits && At(tail, 1) == digits[0];
    assert DigitValue(digits[0], base).Some?;
  }
}
