/** Token codes of the arithmetic evaluator (src/arith_yacc.h) and token streams. */
module ArithTokens {
  const ARITH_ASS := 1
  const ARITH_OR := 2
  const ARITH_AND := 3
  const ARITH_BAD := 4
  const ARITH_NUM := 5
  const ARITH_VAR := 6
  const ARITH_NOT := 7
  const ARITH_BINOP_MIN := 8
  const ARITH_LE := 8
  const ARITH_GE := 9
  const ARITH_LT := 10
  const ARITH_GT := 11
  const ARITH_EQ := 12
  const ARITH_REM := 13
  const ARITH_BAND := 14
  const ARITH_LSHIFT := 15
  const ARITH_RSHIFT := 16
  const ARITH_MUL := 17
  const ARITH_ADD := 18
  const ARITH_BOR := 19
  const ARITH_SUB := 20
  const ARITH_BXOR := 21
  const ARITH_DIV := 22
  const ARITH_NE := 23
  const ARITH_BINOP_MAX := 24
  const ARITH_ASS_MIN := 24
  const ARITH_ASS_MAX := 34
  const ARITH_LPAREN := 34
  const ARITH_RPAREN := 35
  const ARITH_BNOT := 36
  const ARITH_QMARK := 37
  const ARITH_COLON := 38

  /** A lexeme is a number, a name, or a symbol that carries nothing but its code. */
  datatype AnyLexeme = Num(val: int) | Name(name: string) | Sym(code: int)

  predicate ValidLexeme(l: AnyLexeme) {
    l.Sym? ==> 1 <= l.code <= ARITH_COLON && l.code != ARITH_NUM && l.code != ARITH_VAR
  }

  type Lexeme = l: AnyLexeme | ValidLexeme(l) witness Num(0)
  type Toks = seq<Lexeme>

  function Code(l: Lexeme): int {
    match l
    case Num(_) => ARITH_NUM
    case Name(_) => ARITH_VAR
    case Sym(c) => c
  }

  /** The code yylex returns at the head of a stream; 0 is end of input. */
  function Tok(ts: Toks): int {
    if ts == [] then 0 else Code(ts[0])
  }

  /** What is left once the head is lexed. A bad character is reported without being consumed. */
  function Rest(ts: Toks): Toks {
    if ts == [] || Code(ts[0]) == ARITH_BAD then ts else ts[1..]
  }

  predicate IsBinop(op: int) {
    ARITH_BINOP_MIN <= op < ARITH_BINOP_MAX
  }

  predicate IsAssop(op: int) {
    op == ARITH_ASS || ARITH_ASS_MIN <= op < ARITH_ASS_MAX
  }

  predicate IsUnop(op: int) {
    op == ARITH_ADD || op == ARITH_SUB || op == ARITH_NOT || op == ARITH_BNOT
  }

  /** The precedence table; a smaller number binds tighter. */
  function Prec(op: int): (p: nat)
    requires IsBinop(op)
    ensures p < ARITH_MAX_PREC
  {
    if op == ARITH_MUL || op == ARITH_DIV || op == ARITH_REM then 0
    else if op == ARITH_ADD || op == ARITH_SUB then 1
    else if op == ARITH_LSHIFT || op == ARITH_RSHIFT then 2
    else if op == ARITH_LT || op == ARITH_LE || op == ARITH_GT || op == ARITH_GE then 3
    else if op == ARITH_EQ || op == ARITH_NE then 4
    else if op == ARITH_BAND then 5
    else if op == ARITH_BXOR then 6
    else 7
  }

  const ARITH_MAX_PREC: nat := 8
}
