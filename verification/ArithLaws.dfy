/**
 * What the operators of the arithmetic evaluator compute, by laws that relate them to each other and to the
 * integers. An operator is named by its spelling.
 */
module ArithLaws {
  import opened Option
  import opened IntMax
  import opened ArithTokens
  import opened ArithLex
  import opened ArithEval

  /** The code of an operator with one or two characters. */
  function Op(text: string): int
    requires 1 <= |text| <= 2
  {
    if |text| == 1 then OpCode1(text[0]) else OpCode2(text[0], text[1])
  }

  function Do(a: int, text: string, b: int): Result<int, ArithError>
    requires 1 <= |text| <= 2
  {
    DoBinop(Op(text), a, b)
  }

  /** The next integer, and after the last one the first. */
  function Succ(a: int): int {
    if a == INTMAX_MAX then INTMAX_MIN else a + 1
  }

  lemma WrapOnce(x: int)
    requires INTMAX_MIN - TWO_64 <= x < INTMAX_MAX + 1 + TWO_64
    ensures Wrap(x) == if x > INTMAX_MAX then x - TWO_64 else if x < INTMAX_MIN then x + TWO_64 else x
  {}

  // ---------- sums, differences and products ----------

  /** Adding is counting on. */
  lemma Sums(a: int, b: int)
    requires InRange(a) && InRange(b)
    ensures Do(a, "+", 0) == Ok(a)
    ensures Do(a, "+", b).Ok? && Do(a, "+", Succ(b)) == Ok(Succ(Do(a, "+", b).value))
  {
    WrapOnce(a);
    WrapOnce(a + b);
    WrapOnce(a + Succ(b));
    hide Wrap;
  }

  /** Subtracting undoes adding. */
  lemma Differences(a: int, b: int)
    requires InRange(a) && InRange(b)
    ensures Do(a, "-", b).Ok? && InRange(Do(a, "-", b).value)
    ensures Do(Do(a, "-", b).value, "+", b) == Ok(a) && Do(a, "-", 0) == Ok(a)
  {
    WrapOnce(a);
    WrapOnce(a - b);
    var d := Wrap(a - b);
    hide Wrap;
    WrapOnce(d + b);
  }

  lemma WrapSame(x: int, y: int, k: int)
    requires x == y + k * TWO_64
    ensures Wrap(x) == Wrap(y)
  {
    assert x % TWO_64 == y % TWO_64;
  }

  lemma WrapPart(x: int) returns (k: int)
    ensures x == Wrap(x) + k * TWO_64
  {
    k := x / TWO_64 + if x % TWO_64 > INTMAX_MAX then 1 else 0;
  }

  /** A sum does not depend on when it is wrapped. */
  lemma WrapSum(x: int, a: int)
    ensures Wrap(Wrap(x) + a) == Wrap(x + a)
  {
    var k := WrapPart(x);
    hide Wrap;
    WrapSame(x + a, Wrap(x) + a, k);
  }

  /** Multiplying is adding again and again. */
  lemma Products(a: int, b: int)
    requires InRange(a) && InRange(b)
    ensures Do(a, "*", 0) == Ok(0)
    ensures Do(a, "*", b).Ok? && Do(a, "*", Succ(b)) == Do(Do(a, "*", b).value, "+", a)
  {
    hide Wrap;
    WrapOnce(0);
    assert a * 0 == 0;
    WrapSum(a * b, a);
    assert a * (b + 1) == a * b + a;
    if b == INTMAX_MAX {
      assert a * INTMAX_MIN == a * (b + 1) + -a * TWO_64;
      WrapSame(a * INTMAX_MIN, a * b + a, -a);
    }
  }

  // ---------- quotients and remainders ----------

  /** Division fails by 0 and where the quotient would be out of range. */
  lemma Divides(a: int, b: int)
    requires InRange(a) && InRange(b)
    ensures Do(a, "/", b).Ok? <==> b != 0 && (b == -1 ==> a != INTMAX_MIN)
    ensures Do(a, "/", b).Err? ==> Do(a, "/", b) == Err(Division)
    ensures Do(a, "%", b).Ok? <==> Do(a, "/", b).Ok?
    ensures Do(a, "%", b).Err? ==> Do(a, "%", b) == Err(Division)
  {}

  /** The remainder is less than the divisor and has the sign of the dividend. */
  lemma Remainders(a: int, b: int)
    requires InRange(a) && InRange(b) && Do(a, "/", b).Ok? && Do(a, "%", b).Ok?
    ensures var q, r := Do(a, "/", b).value, Do(a, "%", b).value;
            && a == q * b + r && (if b > 0 then -b < r < b else b < r < -b)
            && (a >= 0 ==> r >= 0) && (a <= 0 ==> r <= 0)
  {
    assert Do(a, "/", b).value == Quot(a, b) && Do(a, "%", b).value == Remainder(a, b);
    var c := if a >= 0 then a else -a;
    assert c == b * (c / b) + c % b;
    assert -(c / b) * b == -(b * (c / b));
  }

  // ---------- shifts ----------

  lemma PowStep(n: int)
    requires 0 <= n < 63
    ensures Pow2((n + 1) % WIDTH) == 2 * Pow2(n % WIDTH) && Pow2(0 % WIDTH) == 1
  {}

  /** A shift to the left doubles. */
  lemma LeftShifts(a: int, n: int)
    requires InRange(a) && InRange(n)
    ensures Do(a, "<<", 0) == Ok(a)
    ensures 0 <= n < 63 ==>
              && Do(a, "<<", n).Ok?
              && Do(a, "<<", n + 1) == Do(Do(a, "<<", n).value, "+", Do(a, "<<", n).value)
  {
    hide Wrap, Pow2;
    PowStep(0);
    WrapOnce(a);
    if 0 <= n < 63 {
      PowStep(n);
      var x := a * Pow2(n % WIDTH);
      assert a * (2 * Pow2(n % WIDTH)) == x + x;
      WrapSum(x, x);
      WrapSum(x, Wrap(x));
    }
  }

  lemma Halved(a: int, p: int)
    requires p > 0
    ensures 2 * (a / (2 * p)) <= a / p <= 2 * (a / (2 * p)) + 1
  {
    var h, h2 := a / p, a / (2 * p);
    assert p * h <= a < p * h + p;
    assert 2 * p * h2 <= a < 2 * p * h2 + 2 * p;
    if h < 2 * h2 {
      Ordered(p, h + 1, 2 * h2);
    } else if h > 2 * h2 + 1 {
      Ordered(p, 2 * h2 + 2, h);
    }
  }

  lemma Ordered(p: int, x: int, y: int)
    requires p > 0 && x <= y
    ensures p * x <= p * y
  {}

  /** A shift to the right halves, and rounds down. */
  lemma RightShifts(a: int, n: int)
    requires InRange(a) && InRange(n)
    ensures Do(a, ">>", 0) == Ok(a)
    ensures 0 <= n < 63 ==>
              && Do(a, ">>", n).Ok? && Do(a, ">>", n + 1).Ok?
              && var h := Do(a, ">>", n + 1).value; 2 * h <= Do(a, ">>", n).value <= 2 * h + 1
  {
    hide Pow2;
    PowStep(0);
    if 0 <= n < 63 {
      PowStep(n);
      Halved(a, Pow2(n % WIDTH));
    }
  }

  // ---------- comparisons ----------

  /** Exactly one of three holds, the lesser comes first when counting, and the other comparisons follow. */
  lemma Comparisons(a: int, b: int)
    ensures {Do(a, "<", b), Do(a, "==", b), Do(a, ">", b)} == {Ok(0), Ok(1)}
    ensures Do(a, "<", b) == Ok(1) <==> b - a > 0
    ensures Do(a, ">", b) == Do(b, "<", a) && (Do(a, "==", b) == Ok(1) <==> a == b)
    ensures Do(a, "<=", b) == Do(0, "==", Do(a, ">", b).value)
    ensures Do(a, ">=", b) == Do(0, "==", Do(a, "<", b).value)
    ensures Do(a, "!=", b) == Do(0, "==", Do(a, "==", b).value)
    ensures !(Do(a, "<", b) == Do(a, "==", b) == Ok(1))
  {
  }

  // ---------- bits ----------

  /** Bit i in two's complement. */
  predicate Bit(x: int, i: nat)
    decreases i
  {
    if i == 0 then x % 2 == 1 else Bit(x / 2, i - 1)
  }

  predicate Fits(x: int, n: nat) {
    0 - Pow2(n) <= x < Pow2(n)
  }

  lemma Pow63()
    ensures Pow2(63) == INTMAX_MAX + 1
  {
    assert Pow2(16) == 0x1_0000;
    Pow2Sum(16, 16);
    Pow2Sum(32, 16);
    Pow2Sum(48, 15);
    assert Pow2(15) == 0x8000;
  }

  lemma {:induction false} Pow2Sum(m: nat, n: nat)
    ensures Pow2(m + n) == Pow2(m) * Pow2(n)
  {
    if n > 0 {
      Pow2Sum(m, n - 1);
      assert Pow2(m + n) == 2 * Pow2(m + n - 1);
      assert Pow2(m) * (2 * Pow2(n - 1)) == 2 * (Pow2(m) * Pow2(n - 1));
    }
  }

  /** The bits determine the number. */
  lemma {:induction false} BitsDecide(x: int, y: int, n: nat)
    requires Fits(x, n) && Fits(y, n) && forall i: nat :: i <= n ==> Bit(x, i) == Bit(y, i)
    ensures x == y
    decreases n
  {
    assert Bit(x, 0) == Bit(y, 0);
    if n > 0 {
      forall i: nat | i <= n - 1
        ensures Bit(x / 2, i) == Bit(y / 2, i)
      {
        assert Bit(x, i + 1) == Bit(y, i + 1);
      }
      BitsDecide(x / 2, y / 2, n - 1);
    }
  }

  lemma HalfBit(x: int, e: int, i: nat)
    requires 0 <= e <= 1
    ensures Bit(2 * x + e, i) == if i == 0 then e == 1 else Bit(x, i - 1)
  {
    assert (2 * x + e) / 2 == x && (2 * x + e) % 2 == e;
  }

  lemma {:induction false} AndBits(a: int, b: int, n: nat, i: nat)
    requires i < n
    ensures Bit(BitAnd(a, b, n), i) <==> Bit(a, i) && Bit(b, i)
    decreases n
  {
    HalfBit(BitAnd(a / 2, b / 2, n - 1), (a % 2) * (b % 2), i);
    if i > 0 {
      AndBits(a / 2, b / 2, n - 1, i - 1);
    }
  }

  lemma {:induction false} NotBits(a: int, i: nat)
    ensures Bit(BitNot(a), i) <==> !Bit(a, i)
    decreases i
  {
    if i > 0 {
      assert BitNot(a) / 2 == BitNot(a / 2);
      NotBits(a / 2, i - 1);
    }
  }

  lemma {:induction false} XorBits(a: int, b: int, n: nat, i: nat)
    requires i < n
    ensures Bit(BitNot(BitAnd(BitNot(a), BitNot(b), n)) - BitAnd(a, b, n), i) <==> Bit(a, i) != Bit(b, i)
    decreases n
  {
    var a', b' := a / 2, b / 2;
    var rest := BitNot(BitAnd(BitNot(a'), BitNot(b'), n - 1)) - BitAnd(a', b', n - 1);
    var e := if a % 2 == b % 2 then 0 else 1;
    assert BitNot(a) / 2 == BitNot(a') && BitNot(b) / 2 == BitNot(b');
    assert BitNot(BitAnd(BitNot(a), BitNot(b), n)) - BitAnd(a, b, n) == 2 * rest + e;
    HalfBit(rest, e, i);
    if i > 0 {
      XorBits(a', b', n - 1, i - 1);
    }
  }

  lemma FitsHalf(x: int, k: nat)
    requires Fits(x, k)
    ensures Fits(x / 2, if k > 0 then k - 1 else 0)
  {}

  lemma FitsDouble(x: int, e: int, k: nat)
    requires Fits(x, if k > 0 then k - 1 else 0) && 0 <= e <= 1 && (k == 0 ==> -e == x)
    ensures Fits(2 * x + e, k)
  {}

  lemma {:induction false} AndFits(a: int, b: int, n: nat, k: nat)
    requires Fits(a, k) && Fits(b, k) && k <= n
    ensures Fits(BitAnd(a, b, n), k)
    decreases n
  {
    if k == 0 {
      AllBits(a, b, n);
    } else {
      hide Fits, Pow2;
      FitsHalf(a, k);
      FitsHalf(b, k);
      AndFits(a / 2, b / 2, n - 1, k - 1);
      FitsDouble(BitAnd(a / 2, b / 2, n - 1), (a % 2) * (b % 2), k);
    }
  }

  lemma {:induction false} AllBits(a: int, b: int, n: nat)
    requires Fits(a, 0) && Fits(b, 0)
    ensures BitAnd(a, b, n) == if a == b then a else 0
    decreases n
  {
    if n > 0 {
      AllBits(a / 2, b / 2, n - 1);
    }
  }

  /** The bitwise operators, bit by bit; all results are in range. */
  lemma Bits(a: int, b: int, i: nat)
    requires InRange(a) && InRange(b) && i < 64
    ensures Do(a, "&", b).Ok? && (Bit(Do(a, "&", b).value, i) <==> Bit(a, i) && Bit(b, i))
    ensures Do(a, "|", b).Ok? && (Bit(Do(a, "|", b).value, i) <==> Bit(a, i) || Bit(b, i))
    ensures Do(a, "^", b).Ok? && (Bit(Do(a, "^", b).value, i) <==> Bit(a, i) != Bit(b, i))
  {
    hide BitAnd, BitNot;
    AndBits(a, b, WIDTH, i);
    NotBits(a, i);
    NotBits(b, i);
    AndBits(BitNot(a), BitNot(b), WIDTH, i);
    NotBits(BitAnd(BitNot(a), BitNot(b), WIDTH), i);
    XorBits(a, b, WIDTH, i);
  }

  lemma {:induction false} XorFits(a: int, b: int, n: nat, k: nat)
    requires Fits(a, k) && Fits(b, k) && k <= n
    ensures Fits(BitNot(BitAnd(BitNot(a), BitNot(b), n)) - BitAnd(a, b, n), k)
    decreases n
  {
    if n > 0 {
      var a', b' := a / 2, b / 2;
      var rest := BitNot(BitAnd(BitNot(a'), BitNot(b'), n - 1)) - BitAnd(a', b', n - 1);
      assert BitNot(a) / 2 == BitNot(a') && BitNot(b) / 2 == BitNot(b');
      assert BitNot(BitAnd(BitNot(a), BitNot(b), n)) - BitAnd(a, b, n) == 2 * rest + if a % 2 == b % 2 then 0 else 1;
      XorFits(a', b', n - 1, if k > 0 then k - 1 else 0);
    }
  }

  lemma Range63(x: int)
    ensures InRange(x) <==> Fits(x, 63)
  {
    Pow63();
  }

  /** They are the only numbers in range with those bits. */
  lemma AndOnly(a: int, b: int, v: int)
    requires InRange(a) && InRange(b) && InRange(v)
    requires forall i: nat :: i < 64 ==> (Bit(v, i) <==> Bit(a, i) && Bit(b, i))
    ensures Do(a, "&", b) == Ok(v)
  {
    Range63(a);
    Range63(b);
    Range63(v);
    AndFits(a, b, WIDTH, 63);
    hide BitAnd, Bit, Pow2;
    var x := Do(a, "&", b).value;
    forall i: nat | i < 64
      ensures Bit(x, i) == Bit(v, i)
    {
      Bits(a, b, i);
    }
    BitsDecide(v, x, 63);
  }

  lemma OrOnly(a: int, b: int, v: int)
    requires InRange(a) && InRange(b) && InRange(v)
    requires forall i: nat :: i < 64 ==> (Bit(v, i) <==> Bit(a, i) || Bit(b, i))
    ensures Do(a, "|", b) == Ok(v)
  {
    Range63(a);
    Range63(b);
    Range63(v);
    AndFits(BitNot(a), BitNot(b), WIDTH, 63);
    hide BitAnd, Bit, Pow2;
    var x := Do(a, "|", b).value;
    forall i: nat | i < 64
      ensures Bit(x, i) == Bit(v, i)
    {
      Bits(a, b, i);
    }
    BitsDecide(v, x, 63);
  }

  lemma XorOnly(a: int, b: int, v: int)
    requires InRange(a) && InRange(b) && InRange(v)
    requires forall i: nat :: i < 64 ==> (Bit(v, i) <==> Bit(a, i) != Bit(b, i))
    ensures Do(a, "^", b) == Ok(v)
  {
    hide BitAnd, Bit, Pow2, BitNot, Do, Fits;
    XorInRange(a, b);
    Range63(v);
    forall i: nat | i < 64
      ensures Bit(Do(a, "^", b).value, i) == Bit(v, i)
    {
      Bits(a, b, i);
    }
    BitsDecide(v, Do(a, "^", b).value, 63);
  }

  lemma XorInRange(a: int, b: int)
    requires InRange(a) && InRange(b)
    ensures Do(a, "^", b).Ok? && Fits(Do(a, "^", b).value, 63)
  {
    Range63(a);
    Range63(b);
    XorFits(a, b, WIDTH, 63);
    hide BitAnd, Pow2, BitNot, Fits;
  }

  // ---------- one operand ----------

  /** A negated number adds up to 0 with the number; `!` is a comparison with 0; `~` turns each bit. */
  lemma Unary(a: int, i: nat)
    requires InRange(a)
    ensures InRange(DoUnop(Op("-"), a)) && Do(a, "+", DoUnop(Op("-"), a)) == Ok(0)
    ensures DoUnop(Op("+"), a) == a
    ensures Ok(DoUnop(Op("!"), a)) == Do(a, "==", 0)
    ensures InRange(DoUnop(Op("~"), a)) && (Bit(DoUnop(Op("~"), a), i) <==> !Bit(a, i))
  {
    WrapOnce(-a);
    WrapOnce(a + Wrap(-a));
    hide Wrap;
    NotBits(a, i);
  }
}
