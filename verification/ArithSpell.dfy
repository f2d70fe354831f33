/** Writing tokens as text, and reading them back: from a tree to its text to the same tree. */
module ArithSpell {
  import opened Option
  import opened IntMax
  import opened ArithTokens
  import opened ArithLex
  import opened CharClass
  import opened ArithSyntax

  function Digit(d: nat): char
    requires d < 10
  {
    '0' + d as char
  }

  function Decimal(n: nat): (s: string)
    ensures s != ""
  {
    if n < 10 then [Digit(n)] else Decimal(n / 10) + [Digit(n % 10)]
  }

  function Spelling(op: int): string {
    if op == ARITH_ASS then "="
    else if op == ARITH_OR then "||"
    else if op == ARITH_AND then "&&"
    else if op == ARITH_NOT then "!"
    else if op == ARITH_LE then "<="
    else if op == ARITH_GE then ">="
    else if op == ARITH_LT then "<"
    else if op == ARITH_GT then ">"
    else if op == ARITH_EQ then "=="
    else if op == ARITH_REM then "%"
    else if op == ARITH_BAND then "&"
    else if op == ARITH_LSHIFT then "<<"
    else if op == ARITH_RSHIFT then ">>"
    else if op == ARITH_MUL then "*"
    else if op == ARITH_ADD then "+"
    else if op == ARITH_BOR then "|"
    else if op == ARITH_SUB then "-"
    else if op == ARITH_BXOR then "^"
    else if op == ARITH_DIV then "/"
    else if op == ARITH_NE then "!="
    else if op == ARITH_REMASS then "%="
    else if op == ARITH_BANDASS then "&="
    else if op == ARITH_LSHIFTASS then "<<="
    else if op == ARITH_RSHIFTASS then ">>="
    else if op == ARITH_MULASS then "*="
    else if op == ARITH_ADDASS then "+="
    else if op == ARITH_BORASS then "|="
    else if op == ARITH_SUBASS then "-="
    else if op == ARITH_BXORASS then "^="
    else if op == ARITH_DIVASS then "/="
    else if op == ARITH_LPAREN then "("
    else if op == ARITH_RPAREN then ")"
    else if op == ARITH_BNOT then "~"
    else if op == ARITH_QMARK then "?"
    else ":"
  }

  predicate IsName(x: string) {
    x != "" && IsNameStart(x[0]) && forall i :: 0 <= i < |x| ==> IsInName(x[i])
  }

  /** Numbers in range, names a shell variable may have, and any symbol but the bad one. */
  predicate Spellable(l: Lexeme) {
    match l
    case Num(v) => 0 <= v <= INTMAX_MAX
    case Name(x) => IsName(x)
    case Sym(op) => op != ARITH_BAD
  }

  function Spell(l: Lexeme): string
    requires Spellable(l)
  {
    match l
    case Num(v) => Decimal(v)
    case Name(x) => x
    case Sym(op) => Spelling(op)
  }

  predicate AllSpellable(ts: Toks) {
    forall i :: 0 <= i < |ts| ==> Spellable(ts[i])
  }

  function Text(ts: Toks): string
    requires AllSpellable(ts)
  {
    if ts == [] then "" else Spell(ts[0]) + (" " + Text(ts[1..]))
  }

  // ---------- numbers ----------

  predicate AllDigits(s: string) {
    forall i :: 0 <= i < |s| ==> IsDigit(s[i])
  }

  lemma {:induction false} DecimalDigits(n: nat)
    ensures AllDigits(Decimal(n)) && Digits(Decimal(n), 10) == n
    ensures Decimal(n)[0] == '0' ==> n == 0
  {
    if n >= 10 {
      DecimalDigits(n / 10);
      var s := Decimal(n);
      assert s[..|s| - 1] == Decimal(n / 10);
    }
  }

  lemma {:induction false} DigitRunStops(d: string, s: string, base: nat)
    requires forall i :: 0 <= i < |d| ==> DigitValue(d[i]) < base
    requires s != "" && s[0] == ' ' && base <= 16
    ensures DigitRun(d + s, base) == |d|
  {
    if d != "" {
      assert (d + s)[1..] == d[1..] + s;
      DigitRunStops(d[1..], s, base);
    }
  }

  lemma LexNumber(n: nat, s: string)
    requires n <= INTMAX_MAX && s != "" && s[0] == ' '
    ensures IsDigit(Peek(Decimal(n) + s, 0))
    ensures LexHere(Decimal(n) + s) == Found(Num(n), |Decimal(n)|)
  {
    var d := Decimal(n);
    DecimalDigits(n);
    if d[0] == '0' {
      assert d == "0";
      DigitRunStops(d, s, 8);
      assert (d + s)[..1] == d;
      assert Digits(d, 8) == 0 by { assert d[..0] == ""; }
      assert !IsHex(d + s);
    } else {
      DigitRunStops(d, s, 10);
      assert (d + s)[..|d|] == d;
    }
  }

  // ---------- names ----------

  lemma {:induction false} NameStops(x: string, s: string)
    requires forall i :: 0 <= i < |x| ==> IsInName(x[i])
    requires s != "" && s[0] == ' '
    ensures NameLength(x + s) == |x|
  {
    if x != "" {
      assert (x + s)[1..] == x[1..] + s;
      NameStops(x[1..], s);
    }
  }

  // ---------- any lexeme ----------

  lemma LexSpelled(l: Lexeme, s: string)
    requires Spellable(l) && s != "" && s[0] == ' '
    ensures !IsBlank(Peek(Spell(l) + s, 0))
    ensures LexHere(Spell(l) + s) == Found(l, |Spell(l)|) && |Spell(l)| > 0
  {
    match l
    case Num(v) =>
      DecimalDigits(v);
      LexNumber(v, s);
    case Name(x) =>
      NameStops(x, s);
      assert (x + s)[..|x|] == x;
    case Sym(op) =>
      var t := Spelling(op);
      assert Peek(t + s, |t|) == ' ';
      assert forall i :: 0 <= i < |t| ==> Peek(t + s, i) == t[i];
  }

  /** Text with a blank after every token lexes to those tokens. */
  lemma {:induction false} LexText(ts: Toks)
    requires AllSpellable(ts)
    ensures LexAll(Text(ts)) == ts
  {
    if ts != [] {
      var l, tail := ts[0], Text(ts[1..]);
      var s := Spell(l) + (" " + tail);
      LexSpelled(l, " " + tail);
      assert SkipBlanks(s) == s;
      assert s[|Spell(l)|..] == " " + tail;
      assert (" " + tail)[1..] == tail;
      assert LexAll(" " + tail) == LexAll(tail);
      LexText(ts[1..]);
    }
  }

  /** Every grammatical tree is read back from its text. */
  lemma TextRoundTrip(e: Expr)
    requires Wf(e, ASSIGN) && AllSpellable(Flat(e))
    ensures Parse(LexAll(Text(Flat(e)))) == Some(e)
  {
    LexText(Flat(e));
    ParseIsGrammar(Flat(e), e);
  }
}
