/**
 * The one-pass evaluator of src/arith_yacc.c: it parses by precedence climbing and computes as it goes,
 * with one token of lookahead in global variables and a flag that turns evaluation off.
 * It is proved against the parser of ArithSyntax and the meaning of ArithEval.
 */
module ArithYacc {
  import opened Option
  import opened IntMax
  import opened ArithTokens
  import opened ArithLex
  import opened CharClass
  import opened ArithSyntax
  import opened ArithEval

  /** The union behind yylval: which member is live depends on the token lexed last. */
  datatype YyVal = Val(val: int) | Ptr(name: string)

  ghost predicate Holds(v: YyVal, ts: Toks) {
    && (Tok(ts) == ARITH_NUM ==> v == Val(ts[0].val))
    && (Tok(ts) == ARITH_VAR ==> v == Ptr(ts[0].name))
  }

  /** A chain fails the way its leftmost operand fails. */
  lemma {:induction false} ClimbFails(p: nat, a: Expr, ts: Toks, s: Store)
    requires Eval(a, s).Err?
    ensures Climb(p, a, ts).Some? ==> Eval(Climb(p, a, ts).value.e, s) == Eval(a, s)
    decreases |ts|
  {
    if IsBinop(Tok(ts)) && Prec(Tok(ts)) < p {
      var op := Tok(ts);
      var b := ParseBin(Prec(op), ts[1..]);
      if b.Some? {
        assert Eval(Bin(op, a, b.value.e), s) == Eval(a, s);
        ClimbFails(p, Bin(op, a, b.value.e), b.value.rest, s);
      }
    }
  }

  lemma OperandFails(p: nat, ts: Toks, s: Store)
    ensures var a := ParsePrimary(ts);
            a.Some? && Eval(a.value.e, s).Err? && ParseBin(p, ts).Some? ==>
            Eval(ParseBin(p, ts).value.e, s) == Eval(a.value.e, s)
  {
    var a := ParsePrimary(ts);
    if a.Some? && Eval(a.value.e, s).Err? {
      ClimbFails(p, a.value.e, a.value.rest, s);
    }
  }

  /** What a function must return, given how the stream parses and the stores before and after. */
  ghost predicate Meaning(p: Option<Parsed>, noeval: bool, before: Store, r: Result<int, ArithError>, after: Store) {
    match p
    case None => r.Err? && (noeval ==> after == before && r.error == Syntax)
    case Some(q) =>
      if noeval then
        r.Ok? && after == before
      else
        match Eval(q.e, before)
        case Err(x) => r == Err(x)
        case Ok(w) => r == Ok(w.v) && after == w.s
  }

  /** If the right operand fails, the whole chain fails with it. */
  lemma OperandErrs(ea: Expr, a: int, op: int, p: nat, ts: Toks, noeval: bool, s0: Store, s1: Store,
                    r: Result<int, ArithError>, s2: Store)
    requires IsBinop(op) && r.Err?
    requires if noeval then s1 == s0 else Eval(ea, s0) == Ok(Value(a, s1))
    requires Meaning(ParseBin(Prec(op), ts), noeval, s1, r, s2)
    ensures Meaning(ParseBinop2(ea, op, p, ts), noeval, s0, r, s2)
  {
    var b := ParseBin(Prec(op), ts);
    if b.Some? {
      ClimbFails(p, Bin(op, ea, b.value.e), b.value.rest, s0);
    }
  }

  /** Otherwise the chain grows by the operator, or fails where the operator does. */
  lemma OperandOk(ea: Expr, a: int, op: int, p: nat, ts: Toks, noeval: bool, s0: Store, s1: Store,
                  b: int, s2: Store)
    requires IsBinop(op)
    requires if noeval then s1 == s0 else Eval(ea, s0) == Ok(Value(a, s1))
    requires Meaning(ParseBin(Prec(op), ts), noeval, s1, Ok(b), s2)
    ensures var eb := ParseBin(Prec(op), ts);
            eb.Some? &&
            var e := Bin(op, ea, eb.value.e);
            && ParseBinop2(ea, op, p, ts) == Climb(p, e, eb.value.rest)
            && (noeval ==> s2 == s0)
            && (!noeval && DoBinop(op, a, b).Ok? ==> Eval(e, s0) == Ok(Value(DoBinop(op, a, b).value, s2)))
            && (!noeval && DoBinop(op, a, b).Err? ==>
                  Meaning(ParseBinop2(ea, op, p, ts), noeval, s0, DoBinop(op, a, b), s2))
  {
    var eb := ParseBin(Prec(op), ts);
    if !noeval && DoBinop(op, a, b).Err? {
      ClimbFails(p, Bin(op, ea, eb.value.e), eb.value.rest, s0);
    }
  }

  lemma AndMeans(ts: Toks, noeval: bool, s0: Store, a: int, s1: Store, r: Result<int, ArithError>, s2: Store)
    requires Meaning(ParseBin(ARITH_MAX_PREC, ts), noeval, s0, Ok(a), s1)
    requires Tok(ParseBin(ARITH_MAX_PREC, ts).value.rest) == ARITH_AND
    requires Meaning(ParseAnd(ParseBin(ARITH_MAX_PREC, ts).value.rest[1..]), noeval || a == 0, s1, r, s2)
    ensures Meaning(ParseAnd(ts), noeval, s0, if r.Ok? then Ok(OfBool(a != 0 && r.value != 0)) else r, s2)
  {}

  lemma OrMeans(ts: Toks, noeval: bool, s0: Store, a: int, s1: Store, r: Result<int, ArithError>, s2: Store)
    requires Meaning(ParseAnd(ts), noeval, s0, Ok(a), s1)
    requires Tok(ParseAnd(ts).value.rest) == ARITH_OR
    requires Meaning(ParseOr(ParseAnd(ts).value.rest[1..]), noeval || a != 0, s1, r, s2)
    ensures Meaning(ParseOr(ts), noeval, s0, if r.Ok? then Ok(OfBool(a != 0 || r.value != 0)) else r, s2)
  {}

  lemma AssignMeans(ts: Toks, noeval: bool, s0: Store, r: Result<int, ArithError>, s1: Store)
    requires Tok(ts) == ARITH_VAR && IsAssop(Tok(ts[1..]))
    requires Meaning(ParseAssign(ts[2..]), noeval, s0, r, s1)
    ensures noeval || r.Err? ==> Meaning(ParseAssign(ts), noeval, s0, r, s1)
    ensures r.Ok? ==> ParseAssign(ts).Some? && ParseAssign(ts).value.rest == ParseAssign(ts[2..]).value.rest
    ensures !noeval && r.Ok? ==>
              Eval(ParseAssign(ts).value.e, s0) == Assigned(s1, ts[0].name, Tok(ts[1..]), r.value)
  {}

  class Evaluator {
    var arith_buf: string
    var yylval: YyVal
    var last_token: int
    var store: Store

    constructor (s: Store)
      ensures store == s
    {
      arith_buf, yylval, last_token, store := "", Val(0), 0, s;
    }

    // ---------- where the machine stands in the token stream ----------

    /** The head of ts was lexed last. */
    ghost predicate Lexed(tok: int, ts: Toks)
      reads this`arith_buf, this`yylval
    {
      tok == Tok(ts) && Holds(yylval, ts) && LexAll(arith_buf) == Rest(ts)
    }

    /** The head of ts is the current token, and the one after it is the lookahead. */
    ghost predicate Current(token: int, val: YyVal, op: int, ts: Toks)
      reads this`arith_buf, this`yylval
    {
      token == Tok(ts) && Holds(val, ts) && Lexed(op, Rest(ts))
    }

    /** On success, what the function read stops at last_token. */
    ghost predicate Outcome(p: Option<Parsed>, noeval: bool, before: Store, r: Result<int, ArithError>)
      reads this
    {
      Meaning(p, noeval, before, r, store) && (r.Ok? ==> Lexed(last_token, p.value.rest))
    }

    // ---------- src/arith_yylex.c ----------

    method Yylex() returns (value: int)
      modifies this`arith_buf, this`yylval
      ensures Lexed(value, LexAll(old(arith_buf)))
      ensures value != ARITH_NUM && value != ARITH_VAR ==> yylval == old(yylval)
    {
      var buf := arith_buf;
      while IsBlank(Peek(buf, 0))
        invariant LexAll(buf) == LexAll(arith_buf)
        decreases |buf|
      {
        buf := buf[1..];
      }
      ghost var here := buf;
      assert LexAll(here) == LexAll(arith_buf);
      assert SkipBlanks(here) == here;
      var c := Peek(buf, 0);
      if IsDigit(c) {
        yylval := Val(NumberValue(buf));
        arith_buf := buf[NumberLength(buf)..];
        return ARITH_NUM;
      } else if IsNameStart(c) {
        var p := buf;
        buf := buf[1..];
        while IsInName(Peek(buf, 0))
          invariant |buf| < |p| && buf == p[|p| - |buf|..]
          invariant NameLength(p) == |p| - |buf| + NameLength(buf)
          decreases |buf|
        {
          assert buf[1..] == p[|p| - |buf| + 1..];
          buf := buf[1..];
        }
        yylval := Ptr(p[..|p| - |buf|]);
        arith_buf := buf;
        return ARITH_VAR;
      }
      value, buf := ScanOperator(buf);
      if value == ARITH_BAD {
        return;
      }
      arith_buf := buf;
    }

    /** The switch over operator characters. */
    static method ScanOperator(buf: string) returns (value: int, rest: string)
      requires !IsDigit(Peek(buf, 0)) && !IsNameStart(Peek(buf, 0)) && !IsBlank(Peek(buf, 0))
      ensures Peek(buf, 0) == '\0' ==> value == 0 && rest == buf
      ensures Peek(buf, 0) != '\0' ==>
                var l := LexOperator(buf);
                l.lexeme == Sym(value) && (value != ARITH_BAD ==> rest == buf[l.length..])
    {
      var c, d := Peek(buf, 0), Peek(buf, 1);
      match c {
        case '=' => value, rest := CheckEq(ARITH_ASS, buf[1..]);
        case '>' =>
          if d == '=' {
            value, rest := ARITH_GE, buf[2..];
          } else if d == '>' {
            value, rest := CheckEq(ARITH_RSHIFT, buf[2..]);
          } else {
            value, rest := ARITH_GT, buf[1..];
          }
        case '<' =>
          if d == '=' {
            value, rest := ARITH_LE, buf[2..];
          } else if d == '<' {
            value, rest := CheckEq(ARITH_LSHIFT, buf[2..]);
          } else {
            value, rest := ARITH_LT, buf[1..];
          }
        case '|' =>
          if d != '|' {
            value, rest := CheckEq(ARITH_BOR, buf[1..]);
          } else {
            value, rest := ARITH_OR, buf[2..];
          }
        case '&' =>
          if d != '&' {
            value, rest := CheckEq(ARITH_BAND, buf[1..]);
          } else {
            value, rest := ARITH_AND, buf[2..];
          }
        case '!' =>
          if d != '=' {
            value, rest := ARITH_NOT, buf[1..];
          } else {
            value, rest := ARITH_NE, buf[2..];
          }
        case '\0' => value, rest := 0, buf;
        case '(' => value, rest := ARITH_LPAREN, buf[1..];
        case ')' => value, rest := ARITH_RPAREN, buf[1..];
        case '*' => value, rest := CheckEq(ARITH_MUL, buf[1..]);
        case '/' => value, rest := CheckEq(ARITH_DIV, buf[1..]);
        case '%' => value, rest := CheckEq(ARITH_REM, buf[1..]);
        case '+' => value, rest := CheckEq(ARITH_ADD, buf[1..]);
        case '-' => value, rest := CheckEq(ARITH_SUB, buf[1..]);
        case '~' => value, rest := ARITH_BNOT, buf[1..];
        case '^' => value, rest := CheckEq(ARITH_BXOR, buf[1..]);
        case '?' => value, rest := ARITH_QMARK, buf[1..];
        case ':' => value, rest := ARITH_COLON, buf[1..];
        case _ => value, rest := ARITH_BAD, buf;
      }
    }

    /** A following '=' turns an operator into the one whose code is 11 higher. */
    static method CheckEq(op: int, buf: string) returns (value: int, rest: string)
      ensures if Peek(buf, 0) == '=' then value == op + 11 && rest == buf[1..] else value == op && rest == buf
    {
      if Peek(buf, 0) != '=' {
        return op, buf;
      }
      return op + 11, buf[1..];
    }

    // ---------- src/arith_yacc.c ----------

    /** The jump back to the switch after a unary plus is a call here. */
    method Primary(token: int, val0: YyVal, op: int, noeval: bool, ghost ts: Toks)
      returns (r: Result<int, ArithError>)
      requires Current(token, val0, op, ts)
      modifies this
      ensures Outcome(ParsePrimary(ts), noeval, old(store), r)
      decreases |ts|, 0
    {
      hide LexAll, DoBinop;
      var val := val0;
      if token == ARITH_LPAREN {
        var result :- Assignment(op, noeval, ts[1..]);
        if last_token != ARITH_RPAREN {
          return Err(Syntax);
        }
        last_token := Yylex();
        return Ok(result);
      } else if token == ARITH_NUM {
        last_token := op;
        return Ok(val.val);
      } else if token == ARITH_VAR {
        last_token := op;
        if noeval {
          var garbage: int := *;  // the union is read through the member that is not live
          return Ok(garbage);
        }
        r := LookupVarInt(store, val.name);
      } else if token == ARITH_ADD || token == ARITH_SUB || token == ARITH_NOT || token == ARITH_BNOT {
        val := yylval;
        var next := Yylex();
        var a :- Primary(op, val, next, noeval, ts[1..]);
        return Ok(DoUnop(token, a));
      } else {
        return Err(Syntax);
      }
    }

    /** The right operand of op, with every operator after it that binds tighter. */
    method Operand(op: int, noeval: bool, ghost ts: Toks) returns (r: Result<int, ArithError>)
      requires IsBinop(op) && LexAll(arith_buf) == ts
      modifies this
      ensures Outcome(ParseBin(Prec(op), ts), noeval, old(store), r)
      decreases |ts|, 1
    {
      hide LexAll, DoBinop;
      ghost var s0 := store;
      OperandFails(Prec(op), ts, s0);
      var token := Yylex();
      var val := yylval;
      var next := Yylex();
      var b :- Primary(token, val, next, noeval, ts);
      var op2 := last_token;
      ghost var q := ParsePrimary(ts).value;
      assert ParseBin(Prec(op), ts) == Climb(Prec(op), q.e, q.rest);
      if IsBinop(op2) && Prec(op2) < Prec(op) {
        b :- Binop2(b, op2, Prec(op), noeval, q.e, q.rest[1..], s0);
      }
      return Ok(b);
    }

    /** Goes on from operand a, spelled by ghost tree ea that was read starting in store s0. */
    method Binop2(a0: int, op0: int, prec: nat, noeval: bool, ghost ea0: Expr, ghost ts0: Toks, ghost s0: Store)
      returns (r: Result<int, ArithError>)
      requires IsBinop(op0) && LexAll(arith_buf) == ts0
      requires if noeval then store == s0 else Eval(ea0, s0) == Ok(Value(a0, store))
      modifies this
      ensures Outcome(ParseBinop2(ea0, op0, prec, ts0), noeval, s0, r)
      decreases |ts0|, 2
    {
      hide LexAll, DoBinop;
      var a, op := a0, op0;
      ghost var ea, ts, whole := ea0, ts0, ParseBinop2(ea0, op0, prec, ts0);
      while true
        invariant IsBinop(op) && LexAll(arith_buf) == ts && |ts| <= |ts0|
        invariant if noeval then store == s0 else Eval(ea, s0) == Ok(Value(a, store))
        invariant whole == ParseBinop2(ea, op, prec, ts)
        decreases |ts|
      {
        ghost var s1 := store;
        var operand := Operand(op, noeval, ts);
        if operand.Err? {
          OperandErrs(ea, a, op, prec, ts, noeval, s0, s1, operand, store);
          return operand;
        }
        var b, op2 := operand.value, last_token;
        OperandOk(ea, a, op, prec, ts, noeval, s0, s1, b, store);
        ghost var eb := ParseBin(Prec(op), ts).value;
        if noeval {
          a := b;
        } else {
          a :- DoBinop(op, a, b);
        }
        ea, ts := Bin(op, ea, eb.e), eb.rest;
        if !IsBinop(op2) || Prec(op2) >= prec {
          return Ok(a);
        }
        op, ts := op2, ts[1..];
      }
    }

    method Binop(token: int, val: YyVal, op0: int, noeval: bool, ghost ts: Toks)
      returns (r: Result<int, ArithError>)
      requires Current(token, val, op0, ts)
      modifies this
      ensures Outcome(ParseBin(ARITH_MAX_PREC, ts), noeval, old(store), r)
      decreases |ts|, 1
    {
      hide LexAll, DoBinop;
      ghost var s0 := store;
      OperandFails(ARITH_MAX_PREC, ts, s0);
      var a :- Primary(token, val, op0, noeval, ts);
      var op := last_token;
      ghost var q := ParsePrimary(ts).value;
      assert ParseBin(ARITH_MAX_PREC, ts) == Climb(ARITH_MAX_PREC, q.e, q.rest);
      if !IsBinop(op) {
        return Ok(a);
      }
      r := Binop2(a, op, ARITH_MAX_PREC, noeval, q.e, q.rest[1..], s0);
    }

    method And(token0: int, val0: YyVal, op0: int, noeval: bool, ghost ts: Toks)
      returns (r: Result<int, ArithError>)
      requires Current(token0, val0, op0, ts)
      modifies this
      ensures Outcome(ParseAnd(ts), noeval, old(store), r)
      decreases |ts|, 3
    {
      hide LexAll, DoBinop;
      var a :- Binop(token0, val0, op0, noeval, ts);
      if last_token != ARITH_AND {
        return Ok(a);
      }
      ghost var ts1 := ParseBin(ARITH_MAX_PREC, ts).value.rest;
      var token := Yylex();
      var val := yylval;
      var op := Yylex();
      ghost var s1 := store;
      var rest := And(token, val, op, noeval || a == 0, ts1[1..]);
      AndMeans(ts, noeval, old(store), a, s1, rest, store);
      var b :- rest;
      return Ok(OfBool(a != 0 && b != 0));
    }

    method Or(token0: int, val0: YyVal, op0: int, noeval: bool, ghost ts: Toks)
      returns (r: Result<int, ArithError>)
      requires Current(token0, val0, op0, ts)
      modifies this
      ensures Outcome(ParseOr(ts), noeval, old(store), r)
      decreases |ts|, 4
    {
      hide LexAll, DoBinop;
      var a :- And(token0, val0, op0, noeval, ts);
      if last_token != ARITH_OR {
        return Ok(a);
      }
      ghost var ts1 := ParseAnd(ts).value.rest;
      var token := Yylex();
      var val := yylval;
      var op := Yylex();
      ghost var s1 := store;
      var rest := Or(token, val, op, noeval || a != 0, ts1[1..]);
      OrMeans(ts, noeval, old(store), a, s1, rest, store);
      var b :- rest;
      return Ok(OfBool(a != 0 || b != 0));
    }

    method Cond(token0: int, val0: YyVal, op0: int, noeval: bool, ghost ts: Toks)
      returns (r: Result<int, ArithError>)
      requires Current(token0, val0, op0, ts)
      modifies this
      ensures Outcome(ParseCond(ts), noeval, old(store), r)
      decreases |ts|, 5
    {
      hide LexAll, DoBinop;
      var a :- Or(token0, val0, op0, noeval, ts);
      if last_token != ARITH_QMARK {
        return Ok(a);
      }
      ghost var ts1 := ParseOr(ts).value.rest;
      var first := Yylex();
      var b :- Assignment(first, noeval || a == 0, ts1[1..]);
      if last_token != ARITH_COLON {
        return Err(Syntax);
      }
      ghost var ts2 := ParseAssign(ts1[1..]).value.rest;
      var token := Yylex();
      var val := yylval;
      var op := Yylex();
      var c :- Cond(token, val, op, noeval || a != 0, ts2[1..]);
      return Ok(if a != 0 then b else c);
    }

    method Assignment(var0: int, noeval: bool, ghost ts: Toks)
      returns (r: Result<int, ArithError>)
      requires Lexed(var0, ts)
      modifies this
      ensures Outcome(ParseAssign(ts), noeval, old(store), r)
      decreases |ts|, 6
    {
      hide LexAll, DoBinop;
      var val := yylval;
      var op := Yylex();
      if var0 != ARITH_VAR || !IsAssop(op) {
        r := Cond(var0, val, op, noeval, ts);
        return;
      }
      var first := Yylex();
      var rhs := Assignment(first, noeval, ts[2..]);
      AssignMeans(ts, noeval, old(store), rhs, store);
      var result :- rhs;
      if noeval {
        return Ok(result);
      }
      if op != ARITH_ASS {
        var before :- LookupVarInt(store, val.name);
        result :- DoBinop(op - 11, before, result);
      }
      var w :- SetVarInt(store, val.name, result);
      store := w.s;
      return Ok(w.v);
    }

    /** The value and the store are those of the one tree that the text spells, if there is one. */
    method Arith(s: string) returns (r: Result<int, ArithError>)
      modifies this
      ensures match Parse(LexAll(s))
              case None => r.Err?
              case Some(e) =>
                match Eval(e, old(store))
                case Err(x) => r == Err(x)
                case Ok(w) => r == Ok(w.v) && store == w.s
    {
      hide LexAll, DoBinop;
      arith_buf := s;
      var first := Yylex();
      var result :- Assignment(first, false, LexAll(s));
      if last_token != 0 {
        return Err(Syntax);
      }
      return Ok(result);
    }
  }
}
