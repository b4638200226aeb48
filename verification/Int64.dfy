/** The intmax_t arithmetic of the shell: 64-bit two's complement that wraps. */
module Int64 {
  const MODULUS: int := 0x1_0000_0000_0000_0000
  const INTMAX_MAX: int := 0x7FFF_FFFF_FFFF_FFFF
  const INTMAX_MIN: int := -0x8000_0000_0000_0000

  type intmax = x: int | INTMAX_MIN <= x <= INTMAX_MAX

  const INT_MAX: int := 0x7FFF_FFFF

  /** Conversion to a 32-bit int. */
  function ToInt(x: int): (r: int)
    ensures -INT_MAX - 1 <= r <= INT_MAX
    ensures -INT_MAX - 1 <= x <= INT_MAX ==> r == x
  {
    var m := x % 0x1_0000_0000;
    if m > INT_MAX then m - 0x1_0000_0000 else m
  }

  /** The one 64-bit value congruent to x; every wrapping operator is Wrap of the exact one. */
  function Wrap(x: int): (r: intmax)
    ensures (x - r) % MODULUS == 0
  {
    var m := x % MODULUS;
    var r := if m > INTMAX_MAX then m - MODULUS else m;
    assert x - m == x / MODULUS * MODULUS;
    MultipleOfModulus(x / MODULUS);
    MultipleOfModulus(x / MODULUS + 1);
    r
  }

  lemma MultipleOfModulus(k: int)
    ensures (k * MODULUS) % MODULUS == 0
  {
  }

  /** Wrap is characterised by range and congruence. */
  lemma WrapUnique(x: int, r: intmax, k: int)
    requires x == r + k * MODULUS
    ensures Wrap(x) == r
  {
    var w := Wrap(x);
    var j := (x - w) / MODULUS;
    assert x == w + j * MODULUS;
    assert (j - k) * MODULUS == r - w;
    assert j == k;
  }

  lemma WrapShift(x: int, k: int)
    ensures Wrap(x + k * MODULUS) == Wrap(x)
  {
    var w := Wrap(x);
    var j := (x - w) / MODULUS;
    assert x == w + j * MODULUS;
    assert x + k * MODULUS == w + (j + k) * MODULUS;
    WrapUnique(x + k * MODULUS, w, j + k);
  }

  lemma WrapId(x: intmax)
    ensures Wrap(x) == x
  {
    WrapUnique(x, x, 0);
  }

  /** Wrapping the factors first changes nothing. */
  lemma WrapMul(a: int, b: int)
    ensures Wrap(Wrap(a) * Wrap(b)) == Wrap(a * b)
  {
    var wa, wb := Wrap(a), Wrap(b);
    var j, k := (a - wa) / MODULUS, (b - wb) / MODULUS;
    assert a == wa + j * MODULUS && b == wb + k * MODULUS;
    var m := wa * k + j * wb + j * k * MODULUS;
    calc {
      a * b;
      (wa + j * MODULUS) * (wb + k * MODULUS);
      wa * wb + wa * (k * MODULUS) + (j * MODULUS) * wb + (j * MODULUS) * (k * MODULUS);
      { assert (j * MODULUS) * (k * MODULUS) == (j * k * MODULUS) * MODULUS;
        assert wa * (k * MODULUS) == (wa * k) * MODULUS;
        assert (j * MODULUS) * wb == (j * wb) * MODULUS; }
      wa * wb + m * MODULUS;
    }
    WrapShift(wa * wb, m);
  }

  lemma WrapAdd(a: int, b: int)
    ensures Wrap(Wrap(a) + b) == Wrap(a + b)
  {
    var j := (a - Wrap(a)) / MODULUS;
    assert a == Wrap(a) + j * MODULUS;
    WrapShift(Wrap(a) + b, j);
  }

  lemma WrapNeg(a: int)
    ensures Wrap(0 - Wrap(a)) == Wrap(0 - a)
  {
    var j := (a - Wrap(a)) / MODULUS;
    assert a == Wrap(a) + j * MODULUS;
    WrapShift(0 - Wrap(a), -j);
  }

  // ----- division as C does it: truncation toward zero -----

  function Quot(a: int, b: int): int
    requires b != 0
  {
    var q := Abs(a) / Abs(b);
    if (a < 0) == (b < 0) then q else -q
  }

  function Rem(a: int, b: int): int
    requires b != 0
  {
    var m := Abs(a) % Abs(b);
    if a < 0 then -m else m
  }

  function Abs(a: int): nat { if a < 0 then -a else a }

  /** The C identity that fixes quotient and remainder: (a/b)*b + a%b == a, |a%b| < |b|,
      and a non-zero remainder has the sign of the dividend. */
  lemma TruncatedDivision(a: int, b: int)
    requires b != 0
    ensures a == Quot(a, b) * b + Rem(a, b)
    ensures Abs(Rem(a, b)) < Abs(b)
    ensures Rem(a, b) == 0 || ((Rem(a, b) < 0) == (a < 0))
  {
    var q, m := Abs(a) / Abs(b), Abs(a) % Abs(b);
    assert Abs(a) == q * Abs(b) + m;
    if a < 0 {
      assert a == -(q * Abs(b)) - m;
    }
  }

  /** The only 64-bit quotient that does not fit is INTMAX_MIN / -1. */
  lemma QuotInRange(a: intmax, b: intmax)
    requires b != 0 && !(a == INTMAX_MIN && b == -1)
    ensures INTMAX_MIN <= Quot(a, b) <= INTMAX_MAX
    ensures INTMAX_MIN <= Rem(a, b) <= INTMAX_MAX
  {
    SmallerQuotient(Abs(a), Abs(b));
    if Abs(b) == 1 {
      assert Abs(a) / 1 == Abs(a);
    }
  }

  lemma SmallerQuotient(a: nat, b: nat)
    requires b > 0
    ensures 0 <= a / b <= a && 0 <= a % b <= a
    ensures b >= 2 ==> 2 * (a / b) <= a
  {
    var q := a / b;
    assert a == q * b + a % b;
    if b >= 2 {
      MulMonotone(q, 2, b);
    }
  }

  lemma MulMonotone(q: nat, x: nat, y: nat)
    requires x <= y
    ensures q * x <= q * y
  {
  }

  // ----- powers -----

  function Pow(base: int, e: nat): int
  {
    if e == 0 then 1 else base * Pow(base, e - 1)
  }

  lemma {:induction false} PowSquare(base: int, e: nat)
    ensures Pow(base * base, e) == Pow(base, 2 * e)
  {
    if e > 0 {
      PowSquare(base, e - 1);
      assert Pow(base, 2 * e) == base * Pow(base, 2 * e - 1);
      assert Pow(base, 2 * e - 1) == base * Pow(base, 2 * (e - 1));
      assert base * (base * Pow(base, 2 * (e - 1))) == (base * base) * Pow(base, 2 * (e - 1));
    }
  }

  lemma {:induction false} PowWrapBase(base: int, e: nat)
    ensures Wrap(Pow(Wrap(base), e)) == Wrap(Pow(base, e))
  {
    if e > 0 {
      PowWrapBase(base, e - 1);
      var p, q := Pow(Wrap(base), e - 1), Pow(base, e - 1);
      WrapMul(Wrap(base), p);
      WrapId(Wrap(base));
      WrapMul(base, q);
    }
  }

  /** One squaring step: the accumulated result times base^e is unchanged modulo 2^64. */
  lemma SquaringStep(result: int, base: int, e: nat)
    requires e > 0
    ensures Wrap(Wrap(if e % 2 == 1 then result * base else result) * Pow(Wrap(base * base), e / 2))
         == Wrap(result * Pow(base, e))
  {
    var h := e / 2;
    var exact := if e % 2 == 1 then result * base else result;
    WrapPower(exact, base * base, h);
    PowSquare(base, h);
    if e % 2 == 1 {
      assert e == 2 * h + 1;
      MulAssoc(result, base, Pow(base, 2 * h));
    }
  }

  lemma MulAssoc(a: int, b: int, c: int)
    ensures (a * b) * c == a * (b * c)
  {
  }

  lemma WrapPower(x: int, b: int, h: nat)
    ensures Wrap(Wrap(x) * Pow(Wrap(b), h)) == Wrap(x * Pow(b, h))
  {
    var p, q := Pow(Wrap(b), h), Pow(b, h);
    PowWrapBase(b, h);
    WrapMul(Wrap(x), p);
    WrapId(Wrap(x));
    WrapMul(x, q);
  }

  /** ipow: repeated squaring in wrapping arithmetic is exact power modulo 2^64. */
  method IPow(base0: intmax, exp0: intmax) returns (result: intmax)
    requires exp0 >= 0
    ensures result == Wrap(Pow(base0, exp0))
  {
    var base: intmax, exp: int := base0, exp0;
    result := 1;
    while exp != 0
      invariant 0 <= exp
      invariant Wrap(result * Pow(base, exp)) == Wrap(Pow(base0, exp0))
      decreases exp
    {
      SquaringStep(result, base, exp);
      WrapId(result);
      if exp % 2 == 1 {
        result := Wrap(result * base);
      }
      exp := exp / 2;
      base := Wrap(base * base);
    }
    WrapId(result);
  }

  // ----- bitwise operators on the two's complement bits -----

  datatype BitOp = BitAnd | BitOr | BitXor

  function OneBit(op: BitOp, a: nat, b: nat): nat
    requires a < 2 && b < 2
  {
    match op
    case BitAnd => if a == 1 && b == 1 then 1 else 0
    case BitOr => if a == 1 || b == 1 then 1 else 0
    case BitXor => if a != b then 1 else 0
  }

  /** The low `width` bits of a op b. */
  function Bits(op: BitOp, a: nat, b: nat, width: nat): (r: nat)
    ensures r < Pow2(width)
  {
    if width == 0 then 0
    else OneBit(op, a % 2, b % 2) + 2 * Bits(op, a / 2, b / 2, width - 1)
  }

  function Pow2(n: nat): (r: nat)
    ensures r >= 1
  {
    if n == 0 then 1 else 2 * Pow2(n - 1)
  }

  function Bit(a: nat, k: nat): nat { (a / Pow2(k)) % 2 }

  /** Each bit of the result is the operator applied to the two bits at that place. */
  lemma {:induction false} BitsAt(op: BitOp, a: nat, b: nat, width: nat, k: nat)
    requires k < width
    ensures Bit(Bits(op, a, b, width), k) == OneBit(op, Bit(a, k), Bit(b, k))
  {
    var r := Bits(op, a, b, width);
    if k > 0 {
      BitsAt(op, a / 2, b / 2, width - 1, k - 1);
      BitShift(a, k);
      BitShift(b, k);
      BitShift(r, k);
      assert r / 2 == Bits(op, a / 2, b / 2, width - 1);
    }
  }

  lemma BitShift(a: nat, k: nat)
    requires k > 0
    ensures Bit(a, k) == Bit(a / 2, k - 1)
  {
    var p := Pow2(k - 1);
    DivDiv(a, p);
  }

  lemma DivDiv(a: nat, p: nat)
    requires p > 0
    ensures a / (2 * p) == (a / 2) / p
  {
    var q, m := a / (2 * p), a % (2 * p);
    assert a == q * (2 * p) + m;
    assert a == 2 * (q * p) + m;
    assert a / 2 == q * p + m / 2;
    assert m / 2 < p;
    DivUnique(a / 2, p, q, m / 2);
  }

  lemma DivUnique(a: nat, p: nat, q: nat, r: nat)
    requires p > 0 && a == q * p + r && r < p
    ensures a / p == q
  {
    var d := a / p;
    assert a == d * p + a % p;
    assert (d - q) * p == r - a % p;
    SmallMultiple(d - q, p);
  }

  lemma SmallMultiple(x: int, p: int)
    requires -p < x * p < p
    ensures x == 0
  {
  }

  function Bitwise(op: BitOp, a: intmax, b: intmax): intmax
  {
    Wrap(Bits(op, a % MODULUS, b % MODULUS, 64))
  }

  /** Masking with 2^k - 1 is the remainder by 2^k. */
  lemma {:induction false} MaskIsRemainder(a: nat, k: nat, width: nat)
    requires k <= width
    ensures Bits(BitAnd, a, Pow2(k) - 1, width) == a % Pow2(k)
  {
    if k == 0 {
      AndZero(a, width);
    } else {
      MaskIsRemainder(a / 2, k - 1, width - 1);
      var p, m := Pow2(k - 1), Pow2(k) - 1;
      assert m == 2 * (p - 1) + 1;
      assert m % 2 == 1 && m / 2 == p - 1;
      assert OneBit(BitAnd, a % 2, 1) == a % 2;
      assert Bits(BitAnd, a, m, width) == a % 2 + 2 * Bits(BitAnd, a / 2, p - 1, width - 1);
      ModDouble(a, p);
    }
  }

  lemma {:induction false} AndZero(a: nat, width: nat)
    ensures Bits(BitAnd, a, 0, width) == 0
  {
    if width > 0 {
      AndZero(a / 2, width - 1);
    }
  }

  lemma ModDouble(a: nat, p: nat)
    requires p > 0
    ensures a % (2 * p) == a % 2 + 2 * ((a / 2) % p)
  {
    DivDiv(a, p);
    var q := a / (2 * p);
    assert a / 2 == q * p + (a / 2) % p;
    assert a == q * (2 * p) + a % (2 * p);
    assert a == 2 * (a / 2) + a % 2;
    assert q * (2 * p) == 2 * (q * p);
  }
}
