/**
 * What the constructs of an arithmetic expression mean, by equations between expressions; how operators bind, by the
 * trees that they spell; and what the digits of a number are worth.
 */
module ArithMeaning {
  import opened Option
  import opened IntMax
  import opened CharClass
  import opened ArithTokens
  import opened ArithLex
  import opened ArithSyntax
  import opened ArithEval
  import opened ArithLaws

  // ---------- constructs ----------

  /** A condition picks one of two; `!` picks the other. */
  lemma Choices(c: Expr, t: Expr, f: Expr, v: int, s: Store)
    requires v != 0
    ensures Eval(Cond(Lit(v), t, f), s) == Eval(t, s) && Eval(Cond(Lit(0), t, f), s) == Eval(f, s)
    ensures Eval(Cond(Unary(Op("!"), c), t, f), s) == Eval(Cond(c, f, t), s)
  {}

  /** `l && r` is `l ? !!r : 0`, and `l || r` is `l ? 1 : !!r`. */
  lemma Junctions(l: Expr, r: Expr, s: Store)
    ensures Eval(And(l, r), s) == Eval(Cond(l, Unary(Op("!"), Unary(Op("!"), r)), Lit(0)), s)
    ensures Eval(Or(l, r), s) == Eval(Cond(l, Lit(1), Unary(Op("!"), Unary(Op("!"), r))), s)
  {
    var a := Eval(l, s);
    if a.Ok? {
      Twice(r, a.value.s);
    }
  }

  lemma Twice(r: Expr, s: Store)
    ensures var b := Eval(r, s);
            Eval(Unary(Op("!"), Unary(Op("!"), r)), s)
            == if b.Err? then b else Ok(Value(OfBool(b.value.v != 0), b.value.s))
  {
    var b := Eval(r, s);
    assert Eval(Unary(Op("!"), r), s) == if b.Err? then b else Ok(Value(OfBool(b.value.v == 0), b.value.s));
  }

  /** A variable has what was assigned to it, and no other has changed. */
  lemma Assigns(x: string, y: string, e: Expr, s: Store)
    ensures var r, b := Eval(Assign(x, Op("="), e), s), Eval(e, s);
            match b
            case Err(_) => r == b
            case Ok(v) =>
              if x in v.s.readonly then r == Err(ReadOnly)
              else
                && r.Ok? && r.value.v == v.v && r.value.s.readonly == v.s.readonly
                && LookupVarInt(r.value.s, x) == Ok(v.v)
                && (y != x ==> LookupVarInt(r.value.s, y) == LookupVarInt(v.s, y))
  {}

  /** The code of an operator that is also a compound assignment. */
  function CompoundOp(text: string): int
    requires 1 <= |text| <= 2
  {
    if |text| == 1 then OpCode2(text[0], '=') else OpCode3(text[0], text[1], '=')
  }

  const COMPOUND: set<string> := {"*", "/", "%", "+", "-", "<<", ">>", "&", "^", "|"}

  /** `x += e` is `x = x + v`, where v is the value of e, which is found first. */
  lemma Compounds(text: string, x: string, e: Expr, s: Store)
    requires text in COMPOUND
    ensures 1 <= |text| <= 2 && IsAssop(CompoundOp(text))
    ensures var b := Eval(e, s);
            Eval(Assign(x, CompoundOp(text), e), s)
            == if b.Err? then b else Eval(Assign(x, Op("="), Bin(Op(text), Var(x), Lit(b.value.v))), b.value.s)
  {
    CompoundCodes(text);
    hide DoBinop, Op, BaseOp;
    var b := Eval(e, s);
    if b.Ok? {
      var t, v := b.value.s, b.value.v;
      assert Eval(Var(x), t) == if LookupVarInt(t, x).Ok? then Ok(Value(LookupVarInt(t, x).value, t))
                                else Err(LookupVarInt(t, x).error);
      assert Eval(Lit(v), t) == Ok(Value(v, t));
    }
  }

  lemma CompoundCodes(text: string)
    requires text in COMPOUND
    ensures 1 <= |text| <= 2 && BaseOp(CompoundOp(text)) == Op(text) && CompoundOp(text) != Op("=")
    ensures IsAssop(CompoundOp(text)) && IsBinop(Op(text))
  {}

  /** Operands are evaluated from left to right. */
  lemma LeftFirst(l: Expr, text: string, r: Expr, s: Store)
    requires 1 <= |text| <= 2
    ensures var a := Eval(l, s);
            Eval(Bin(Op(text), l, r), s) == if a.Err? then a else Eval(Bin(Op(text), Lit(a.value.v), r), a.value.s)
    ensures var b := Eval(r, s);
            Eval(Bin(Op(text), Lit(0), r), s)
            == if b.Err? then b else Eval(Bin(Op(text), Lit(0), Lit(b.value.v)), b.value.s)
  {
    hide DoBinop, Op;
  }

  /** With operands that are numbers the operator decides. */
  lemma Operators(a: int, text: string, b: int, s: Store)
    requires 1 <= |text| <= 2
    ensures Eval(Bin(Op(text), Lit(a), Lit(b)), s)
            == if Do(a, text, b).Ok? then Ok(Value(Do(a, text, b).value, s)) else Err(Do(a, text, b).error)
  {
    hide DoBinop, Op;
  }

  /** A variable that is not set counts as 0; parentheses and a single number stand for what is in them. */
  lemma Leaves(x: string, a: int, e: Expr, s: Store)
    ensures x !in s.vars ==> Eval(Var(x), s) == Ok(Value(0, s))
    ensures x in s.vars && s.vars[x] == Number(a) ==> Eval(Var(x), s) == Ok(Value(a, s))
    ensures x in s.vars && s.vars[x] == NotNumber ==> Eval(Var(x), s) == Err(BadNumber)
    ensures Eval(Lit(a), s) == Ok(Value(a, s)) && Eval(Paren(e), s) == Eval(e, s)
  {}

  // ---------- how operators bind ----------

  /** The levels of C, from the tightest. */
  const LEVELS: seq<set<string>> :=
    [{"*", "/", "%"}, {"+", "-"}, {"<<", ">>"}, {"<", "<=", ">", ">="}, {"==", "!="}, {"&"}, {"^"}, {"|"}]

  lemma LevelOf(text: string, i: nat)
    requires i < 8 && text in LEVELS[i]
    ensures 1 <= |text| <= 2 && IsBinop(Op(text)) && Prec(Op(text)) == i
  {}

  lemma Reads(e: Expr, ts: Toks)
    requires Wf(e, ASSIGN) && Flat(e) == ts
    ensures Parse(ts) == Some(e)
  {
    ParseIsGrammar(ts, e);
  }

  /** Of two operators the one of the tighter level takes the operand between them; at one level the left one does. */
  lemma Binding(a: int, b: int, c: int, f: string, i: nat, g: string, j: nat)
    requires i < 8 && j < 8 && f in LEVELS[i] && g in LEVELS[j]
    ensures 1 <= |f| <= 2 && 1 <= |g| <= 2 && ValidLexeme(Sym(Op(f))) && ValidLexeme(Sym(Op(g)))
    ensures Parse([Num(a), Sym(Op(f)), Num(b), Sym(Op(g)), Num(c)])
            == Some(if i <= j then Bin(Op(g), Bin(Op(f), Lit(a), Lit(b)), Lit(c))
                    else Bin(Op(f), Lit(a), Bin(Op(g), Lit(b), Lit(c))))
  {
    LevelOf(f, i);
    LevelOf(g, j);
    var p, q := Op(f), Op(g);
    hide Op, Prec;
    var ts := [Num(a), Sym(p), Num(b), Sym(q), Num(c)];
    if i <= j {
      var l := Bin(p, Lit(a), Lit(b));
      assert Flat(l) == [Num(a), Sym(p), Num(b)];
      assert Flat(Bin(q, l, Lit(c))) == ts;
      Reads(Bin(q, l, Lit(c)), ts);
    } else {
      var r := Bin(q, Lit(b), Lit(c));
      assert Flat(r) == [Num(b), Sym(q), Num(c)];
      assert Flat(Bin(p, Lit(a), r)) == ts;
      Reads(Bin(p, Lit(a), r), ts);
    }
  }

  /** `&&` binds looser than those, and `||` looser than `&&`. */
  lemma JunctionBinding(a: int, b: int, c: int)
    ensures Parse([Num(a), Sym(Op("|")), Num(b), Sym(Op("&&")), Num(c)])
            == Some(And(Bin(Op("|"), Lit(a), Lit(b)), Lit(c)))
    ensures Parse([Num(a), Sym(Op("&&")), Num(b), Sym(Op("||")), Num(c)]) == Some(Or(And(Lit(a), Lit(b)), Lit(c)))
    ensures Parse([Num(a), Sym(Op("||")), Num(b), Sym(Op("&&")), Num(c)]) == Some(Or(Lit(a), And(Lit(b), Lit(c))))
  {
    BarCode();
    hide OpCode1, OpCode2;
    var l := Bin(ARITH_BOR, Lit(a), Lit(b));
    assert Flat(l) == [Num(a), Sym(ARITH_BOR), Num(b)];
    Reads(And(l, Lit(c)), [Num(a), Sym(ARITH_BOR), Num(b), Sym(ARITH_AND), Num(c)]);
    assert Flat(And(Lit(a), Lit(b))) == [Num(a), Sym(ARITH_AND), Num(b)];
    Reads(Or(And(Lit(a), Lit(b)), Lit(c)), [Num(a), Sym(ARITH_AND), Num(b), Sym(ARITH_OR), Num(c)]);
    assert Flat(And(Lit(b), Lit(c))) == [Num(b), Sym(ARITH_AND), Num(c)];
    Reads(Or(Lit(a), And(Lit(b), Lit(c))), [Num(a), Sym(ARITH_OR), Num(b), Sym(ARITH_AND), Num(c)]);
  }

  lemma BarCode()
    ensures Op("|") == ARITH_BOR && Op("&&") == ARITH_AND && Op("||") == ARITH_OR
  {}

  /** Assignment binds looser than `||`, and a sign tighter than any operator. */
  lemma OuterBinding(a: int, b: int, x: string)
    ensures Parse([Name(x), Sym(Op("=")), Num(a), Sym(Op("||")), Num(b)])
            == Some(Assign(x, Op("="), Or(Lit(a), Lit(b))))
    ensures Parse([Sym(Op("-")), Num(a), Sym(Op("*")), Num(b)])
            == Some(Bin(Op("*"), Unary(Op("-"), Lit(a)), Lit(b)))
  {
    SignCodes();
    hide OpCode1, OpCode2;
    assert Flat(Or(Lit(a), Lit(b))) == [Num(a), Sym(ARITH_OR), Num(b)];
    Reads(Assign(x, ARITH_ASS, Or(Lit(a), Lit(b))), [Name(x), Sym(ARITH_ASS), Num(a), Sym(ARITH_OR), Num(b)]);
    assert Flat(Unary(ARITH_SUB, Lit(a))) == [Sym(ARITH_SUB), Num(a)];
    Reads(Bin(ARITH_MUL, Unary(ARITH_SUB, Lit(a)), Lit(b)), [Sym(ARITH_SUB), Num(a), Sym(ARITH_MUL), Num(b)]);
  }

  lemma SignCodes()
    ensures Op("=") == ARITH_ASS && Op("||") == ARITH_OR && Op("-") == ARITH_SUB && Op("*") == ARITH_MUL
    ensures Op("?") == ARITH_QMARK && Op(":") == ARITH_COLON
  {}

  /** Conditions lean right. */
  lemma ConditionLeans(a: int, b: int, c: int, d: int, e: int)
    ensures Parse([Num(a), Sym(Op("?")), Num(b), Sym(Op(":")), Num(c), Sym(Op("?")), Num(d), Sym(Op(":")), Num(e)])
            == Some(Cond(Lit(a), Lit(b), Cond(Lit(c), Lit(d), Lit(e))))
  {
    SignCodes();
    hide OpCode1, OpCode2;
    var inner := Cond(Lit(c), Lit(d), Lit(e));
    assert Flat(inner) == [Num(c), Sym(ARITH_QMARK), Num(d), Sym(ARITH_COLON), Num(e)];
    Reads(Cond(Lit(a), Lit(b), inner),
          [Num(a), Sym(ARITH_QMARK), Num(b), Sym(ARITH_COLON),
           Num(c), Sym(ARITH_QMARK), Num(d), Sym(ARITH_COLON), Num(e)]);
  }

  /** Assignments lean right, and one may stand between the signs of a condition. */
  lemma AssignmentLeans(a: int, b: int, c: int, x: string, y: string)
    ensures Parse([Name(x), Sym(Op("=")), Name(y), Sym(Op("=")), Num(a)])
            == Some(Assign(x, Op("="), Assign(y, Op("="), Lit(a))))
    ensures Parse([Num(a), Sym(Op("?")), Name(x), Sym(Op("=")), Num(b), Sym(Op(":")), Num(c)])
            == Some(Cond(Lit(a), Assign(x, Op("="), Lit(b)), Lit(c)))
  {
    SignCodes();
    hide OpCode1, OpCode2;
    assert Flat(Assign(y, ARITH_ASS, Lit(a))) == [Name(y), Sym(ARITH_ASS), Num(a)];
    Reads(Assign(x, ARITH_ASS, Assign(y, ARITH_ASS, Lit(a))),
          [Name(x), Sym(ARITH_ASS), Name(y), Sym(ARITH_ASS), Num(a)]);
    assert Flat(Assign(x, ARITH_ASS, Lit(b))) == [Name(x), Sym(ARITH_ASS), Num(b)];
    Reads(Cond(Lit(a), Assign(x, ARITH_ASS, Lit(b)), Lit(c)),
          [Num(a), Sym(ARITH_QMARK), Name(x), Sym(ARITH_ASS), Num(b), Sym(ARITH_COLON), Num(c)]);
  }

  // ---------- numbers ----------

  const DIGITS := "0123456789abcdef"

  /** A number in some base. */
  function InBase(n: nat, base: nat): (s: string)
    requires 2 <= base <= 16
    ensures s != ""
  {
    (if n < base then "" else InBase(n / base, base)) + [DIGITS[n % base]]
  }

  lemma DigitWorth(d: nat)
    requires d < 16
    ensures DigitValue(DIGITS[d]) == d && (d >= 10 ==> DigitValue("ABCDEF"[d - 10]) == d)
    ensures IsDigit(DIGITS[d]) <==> d < 10
  {}

  lemma LastDigit(t: string, c: char, base: nat)
    ensures Digits(t + [c], base) == base * Digits(t, base) + DigitValue(c)
  {
    assert (t + [c])[..|t|] == t;
  }

  /** All digits are below the base, and the first is not 0. */
  predicate Written(s: string, n: nat, base: nat) {
    s != "" && (n > 0 ==> s[0] != '0') && AllBelow(s, base)
  }

  predicate AllBelow(s: string, base: nat) {
    forall i :: 0 <= i < |s| ==> DigitValue(s[i]) < base
  }

  lemma WrittenMore(t: string, m: nat, c: char, n: nat, base: nat)
    requires Written(t, m, base) && DigitValue(c) < base && (m == 0 ==> n == 0)
    ensures Written(t + [c], n, base)
  {
    hide DigitValue;
  }

  lemma Quotient(n: nat, base: nat)
    requires 2 <= base <= 16
    ensures n == base * (n / base) + n % base && n % base < base && (n >= base ==> 0 < n / base < n)
  {}

  lemma InBaseStep(n: nat, base: nat)
    requires 2 <= base <= 16
    ensures InBase(n, base) == (if n < base then "" else InBase(n / base, base)) + [DIGITS[n % base]]
  {}

  lemma {:induction false} DigitsOf(n: nat, base: nat)
    requires 2 <= base <= 16
    ensures Digits(InBase(n, base), base) == n && Written(InBase(n, base), n, base)
  {
    hide DigitValue, Digits, InBase, Written;
    Quotient(n, base);
    var q, r := n / base, n % base;
    DigitWorth(r);
    InBaseStep(n, base);
    if n >= base {
      DigitsOf(q, base);
      LastDigit(InBase(q, base), DIGITS[r], base);
      WrittenMore(InBase(q, base), q, DIGITS[r], n, base);
    } else {
      OneDigit(n, base);
    }
  }

  lemma OneDigit(n: nat, base: nat)
    requires n < base <= 16
    ensures var s := "" + [DIGITS[n]]; Digits(s, base) == n && Written(s, n, base)
  {
    NoDigits(base);
    DigitWorth(n);
    LastDigit("", DIGITS[n], base);
    hide DigitValue;
  }

  lemma NoDigits(base: nat)
    ensures base * Digits("", base) == 0 && DIGITS[0] == '0' && forall d :: 0 < d < 16 ==> DIGITS[d] != '0'
  {}

  /** No digit of the base follows. */
  predicate Ends(s: string, base: nat) {
    DigitValue(Peek(s, 0)) >= base
  }

  lemma {:induction false} RunEnds(d: string, s: string, base: nat)
    requires base <= 16 && Ends(s, base) && AllBelow(d, base)
    ensures DigitRun(d + s, base) == |d|
  {
    if d == "" {
      assert d + s == s;
    } else {
      assert (d + s)[1..] == d[1..] + s;
      RunEnds(d[1..], s, base);
    }
  }

  function AtMost(n: int): int {
    if n > INTMAX_MAX then INTMAX_MAX else n
  }

  lemma ReadBase(n: nat, base: nat, s: string)
    requires 2 <= base <= 16 && Ends(s, base)
    ensures DigitRun(InBase(n, base) + s, base) == |InBase(n, base)|
    ensures Saturated(InBase(n, base) + s, base) == AtMost(n)
  {
    var d := InBase(n, base);
    DigitsOf(n, base);
    RunEnds(d, s, base);
    assert (d + s)[..|d|] == d;
  }

  /** Numbers in base 16, 8 and 10 are worth what they say, up to the largest value. */
  lemma Hexadecimal(n: nat, s: string)
    requires Ends(s, 16)
    ensures var t := "0x" + (InBase(n, 16) + s);
            NumberValue(t) == AtMost(n) && NumberLength(t) == 2 + |InBase(n, 16)|
  {
    var d := InBase(n, 16);
    var t := "0x" + (d + s);
    DigitsOf(n, 16);
    ReadBase(n, 16, s);
    assert t[2..] == d + s && Peek(t, 2) == d[0];
  }

  lemma Octal(n: nat, s: string)
    requires Ends(s, 8)
    ensures var t := "0" + (InBase(n, 8) + s);
            NumberValue(t) == AtMost(n) && NumberLength(t) == 1 + |InBase(n, 8)|
  {
    hide InBase, Digits, DigitRun, DigitValue, IsHex;
    var d := InBase(n, 8);
    var t := "0" + (d + s);
    DigitsOf(n, 8);
    DigitWorth(0);
    NoDigits(8);
    RunEnds("0" + d, s, 8);
    ZeroFirst(d, 8);
    assert t == ("0" + d) + s && t[..1 + |d|] == "0" + d;
    NotHex(t, d[0]);
  }

  lemma NotHex(t: string, c: char)
    requires |t| >= 2 && t[0] == '0' && t[1] == c && DigitValue(c) < 8
    ensures !IsHex(t) && Peek(t, 0) == '0'
  {}

  lemma {:induction false} ZeroFirst(d: string, base: nat)
    ensures Digits("0" + d, base) == Digits(d, base)
    decreases |d|
  {
    if d == "" {
      assert "0" + d == "0" && "0"[..0] == "";
      assert Digits("", base) == 0;
      assert base * 0 == 0;
    } else {
      assert ("0" + d)[..|d|] == "0" + d[..|d| - 1];
      ZeroFirst(d[..|d| - 1], base);
    }
  }

  lemma DecimalNumber(n: nat, s: string)
    requires n > 0 && Ends(s, 10)
    ensures var t := InBase(n, 10) + s;
            NumberValue(t) == AtMost(n) && NumberLength(t) == |InBase(n, 10)|
  {
    DigitsOf(n, 10);
    ReadBase(n, 10, s);
  }
}
