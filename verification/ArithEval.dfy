/** What an arithmetic expression means: its value and the variables it leaves behind. */
module ArithEval {
  import opened Option
  import opened IntMax
  import opened ArithTokens
  import opened ArithSyntax

  datatype ArithError = Syntax | Division | BadNumber | ReadOnly

  /** The text of a shell variable, as far as arithmetic can tell. */
  datatype VarText = Number(n: int) | NotNumber

  datatype Store = Store(vars: map<string, VarText>, readonly: set<string>)

  datatype Value = Value(v: int, s: Store)

  /** An unset variable counts as 0; one whose text is not a number is an error. */
  function LookupVarInt(s: Store, x: string): Result<int, ArithError> {
    if x !in s.vars then Ok(0)
    else match s.vars[x]
      case Number(n) => Ok(n)
      case NotNumber => Err(BadNumber)
  }

  function SetVarInt(s: Store, x: string, v: int): Result<Value, ArithError> {
    if x in s.readonly then Err(ReadOnly)
    else Ok(Value(v, s.(vars := s.vars[x := Number(v)])))
  }

  function DoBinop(op: int, a: int, b: int): Result<int, ArithError> {
    if op == ARITH_MUL then Ok(Wrap(a * b))
    else if op == ARITH_ADD then Ok(Wrap(a + b))
    else if op == ARITH_SUB then Ok(Wrap(a - b))
    else if op == ARITH_LSHIFT then Ok(Shl(a, b))
    else if op == ARITH_RSHIFT then Ok(Shr(a, b))
    else if op == ARITH_LT then Ok(OfBool(a < b))
    else if op == ARITH_LE then Ok(OfBool(a <= b))
    else if op == ARITH_GT then Ok(OfBool(a > b))
    else if op == ARITH_GE then Ok(OfBool(a >= b))
    else if op == ARITH_EQ then Ok(OfBool(a == b))
    else if op == ARITH_NE then Ok(OfBool(a != b))
    else if op == ARITH_BAND then Ok(BitAnd(a, b, WIDTH))
    else if op == ARITH_BXOR then Ok(BitXor(a, b))
    else if op == ARITH_BOR then Ok(BitOr(a, b))
    else if b == 0 || (a == INTMAX_MIN && b == -1) then Err(Division)
    else Ok(if op == ARITH_REM then Remainder(a, b) else Quot(a, b))
  }

  function DoUnop(op: int, v: int): int {
    if op == ARITH_SUB then Wrap(-v)
    else if op == ARITH_NOT then OfBool(v == 0)
    else if op == ARITH_BNOT then BitNot(v)
    else v
  }

  /** The operator that a compound assignment applies. */
  function BaseOp(op: int): int { op - 11 }

  /** Left to right, with short circuit; the right side of an assignment comes before its target is read. */
  function Eval(e: Expr, s: Store): Result<Value, ArithError> {
    match e
    case Lit(v) => Ok(Value(v, s))
    case Var(x) => var v :- LookupVarInt(s, x); Ok(Value(v, s))
    case Paren(i) => Eval(i, s)
    case Unary(op, a) => var a :- Eval(a, s); Ok(Value(DoUnop(op, a.v), a.s))
    case Bin(op, l, r) =>
      var a :- Eval(l, s);
      var b :- Eval(r, a.s);
      var v :- DoBinop(op, a.v, b.v);
      Ok(Value(v, b.s))
    case And(l, r) =>
      var a :- Eval(l, s);
      if a.v == 0 then Ok(Value(0, a.s)) else
      var b :- Eval(r, a.s);
      Ok(Value(OfBool(b.v != 0), b.s))
    case Or(l, r) =>
      var a :- Eval(l, s);
      if a.v != 0 then Ok(Value(1, a.s)) else
      var b :- Eval(r, a.s);
      Ok(Value(OfBool(b.v != 0), b.s))
    case Cond(c, t, f) =>
      var a :- Eval(c, s);
      if a.v != 0 then Eval(t, a.s) else Eval(f, a.s)
    case Assign(x, op, r) =>
      var b :- Eval(r, s);
      Assigned(b.s, x, op, b.v)
  }

  function Assigned(s: Store, x: string, op: int, v: int): Result<Value, ArithError> {
    if op == ARITH_ASS then SetVarInt(s, x, v) else
    var a :- LookupVarInt(s, x);
    var w :- DoBinop(BaseOp(op), a, v);
    SetVarInt(s, x, w)
  }
}
