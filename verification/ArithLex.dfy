/**
 * Lexing for the arithmetic evaluator (src/arith_yylex.c). The specification is a table of spellings
 * searched longest first; the scanner is a character switch that reaches the assignment operators by
 * adding 11 to the code of the plain operator.
 */
module ArithLex {
  import opened IntMax
  import opened ArithTokens
  import opened CharClass

  // ---------- operators ----------

  function OpCode1(c: char): int {
    match c
    case '=' => ARITH_ASS
    case '<' => ARITH_LT
    case '>' => ARITH_GT
    case '|' => ARITH_BOR
    case '&' => ARITH_BAND
    case '!' => ARITH_NOT
    case '(' => ARITH_LPAREN
    case ')' => ARITH_RPAREN
    case '*' => ARITH_MUL
    case '/' => ARITH_DIV
    case '%' => ARITH_REM
    case '+' => ARITH_ADD
    case '-' => ARITH_SUB
    case '~' => ARITH_BNOT
    case '^' => ARITH_BXOR
    case '?' => ARITH_QMARK
    case ':' => ARITH_COLON
    case _ => 0
  }

  const ARITH_REMASS := 24
  const ARITH_BANDASS := 25
  const ARITH_LSHIFTASS := 26
  const ARITH_RSHIFTASS := 27
  const ARITH_MULASS := 28
  const ARITH_ADDASS := 29
  const ARITH_BORASS := 30
  const ARITH_SUBASS := 31
  const ARITH_BXORASS := 32
  const ARITH_DIVASS := 33

  function OpCode2(c: char, d: char): int {
    if d == '=' then
      match c
      case '=' => ARITH_EQ
      case '!' => ARITH_NE
      case '<' => ARITH_LE
      case '>' => ARITH_GE
      case '*' => ARITH_MULASS
      case '/' => ARITH_DIVASS
      case '%' => ARITH_REMASS
      case '+' => ARITH_ADDASS
      case '-' => ARITH_SUBASS
      case '&' => ARITH_BANDASS
      case '|' => ARITH_BORASS
      case '^' => ARITH_BXORASS
      case _ => 0
    else if c != d then 0
    else match c
      case '<' => ARITH_LSHIFT
      case '>' => ARITH_RSHIFT
      case '&' => ARITH_AND
      case '|' => ARITH_OR
      case _ => 0
  }

  function OpCode3(c: char, d: char, e: char): int {
    if e != '=' || c != d then 0
    else if c == '<' then ARITH_LSHIFTASS
    else if c == '>' then ARITH_RSHIFTASS
    else 0
  }

  // ---------- numbers: strtoimax with base 0 ----------

  function DigitValue(c: char): nat {
    if '0' <= c <= '9' then (c - '0') as nat
    else if 'a' <= c <= 'f' then (c - 'a') as nat + 10
    else if 'A' <= c <= 'F' then (c - 'A') as nat + 10
    else 16
  }

  /** How many characters at the front are digits of the base. */
  function DigitRun(s: string, base: nat): (n: nat)
    ensures n <= |s|
  {
    if s == "" || DigitValue(s[0]) >= base then 0 else 1 + DigitRun(s[1..], base)
  }

  function Digits(s: string, base: nat): nat {
    if s == "" then 0 else base * Digits(s[..|s| - 1], base) + DigitValue(s[|s| - 1])
  }

  /** A number reads as many digits as it can and saturates at the largest value. */
  function Saturated(s: string, base: nat): int {
    var v := Digits(s[..DigitRun(s, base)], base);
    if v > INTMAX_MAX then INTMAX_MAX else v
  }

  predicate IsHex(s: string) {
    Peek(s, 0) == '0' && (Peek(s, 1) == 'x' || Peek(s, 1) == 'X') && DigitValue(Peek(s, 2)) < 16
  }

  function NumberLength(s: string): nat {
    if IsHex(s) then 2 + DigitRun(s[2..], 16)
    else DigitRun(s, if Peek(s, 0) == '0' then 8 else 10)
  }

  function NumberValue(s: string): int {
    if IsHex(s) then Saturated(s[2..], 16)
    else Saturated(s, if Peek(s, 0) == '0' then 8 else 10)
  }

  // ---------- one lexeme ----------

  function SkipBlanks(s: string): (r: string)
    ensures |r| <= |s|
    ensures !IsBlank(Peek(r, 0))
  {
    if IsBlank(Peek(s, 0)) then SkipBlanks(s[1..]) else s
  }

  datatype Lexed = End | Found(lexeme: Lexeme, length: nat)

  /** The lexeme at the front of text without leading blanks; a bad character has length 0. */
  function LexHere(s: string): (r: Lexed)
    requires !IsBlank(Peek(s, 0))
    ensures r.Found? ==> r.length <= |s|
    ensures r.Found? && r.length == 0 ==> r.lexeme == Sym(ARITH_BAD)
  {
    var c := Peek(s, 0);
    if c == '\0' then End
    else if IsDigit(c) then Found(Num(NumberValue(s)), NumberLength(s))
    else if IsNameStart(c) then Found(Name(s[..NameLength(s)]), NameLength(s))
    else LexOperator(s)
  }

  /** The longest spelling in the table wins. */
  function LexOperator(s: string): (r: Lexed)
    ensures r.Found? && r.length <= |s|
    ensures r.length == 0 ==> r.lexeme == Sym(ARITH_BAD)
  {
    var c, d, e := Peek(s, 0), Peek(s, 1), Peek(s, 2);
    if OpCode3(c, d, e) != 0 then Found(Sym(OpCode3(c, d, e)), 3)
    else if OpCode2(c, d) != 0 then Found(Sym(OpCode2(c, d)), 2)
    else if OpCode1(c) != 0 then Found(Sym(OpCode1(c)), 1)
    else Found(Sym(ARITH_BAD), 0)
  }

  function LexAll(s: string): Toks
    decreases |s|
  {
    var here := SkipBlanks(s);
    match LexHere(here)
    case End => []
    case Found(l, n) => if n == 0 then [l] else [l] + LexAll(here[n..])
  }
}
