/**
 * The grammar that the arithmetic evaluator accepts, stated without an algorithm (which trees are
 * well formed and which tokens spell them), and a parser for it that climbs precedences the way
 * src/arith_yacc.c does. The two agree on every token stream.
 */
module ArithSyntax {
  import opened Option
  import opened ArithTokens

  datatype Expr =
    | Lit(val: int)
    | Var(name: string)
    | Paren(inner: Expr)
    | Unary(uop: int, arg: Expr)
    | Bin(op: int, l: Expr, r: Expr)
    | And(l: Expr, r: Expr)
    | Or(l: Expr, r: Expr)
    | Cond(c: Expr, t: Expr, f: Expr)
    | Assign(x: string, aop: int, rhs: Expr)

  // ---------- the grammar ----------

  // Levels of the grammar: 0 is a primary, 1 to 8 admit the operators of precedence below them.
  const PRIMARY: nat := 0
  const AND: nat := 9
  const OR: nat := 10
  const COND: nat := 11
  const ASSIGN: nat := 12

  /**
   * Which trees are grammatical at a level. Operators that bind tighter sit lower; chains of one
   * precedence lean left; `&&`, `||`, `?:` and assignment lean right.
   */
  predicate Wf(e: Expr, level: nat) {
    match e
    case Lit(_) => true
    case Var(_) => true
    case Paren(i) => Wf(i, ASSIGN)
    case Unary(op, a) => IsUnop(op) && Wf(a, PRIMARY)
    case Bin(op, l, r) => IsBinop(op) && Prec(op) < level && Wf(l, Prec(op) + 1) && Wf(r, Prec(op))
    case And(l, r) => AND <= level && Wf(l, ARITH_MAX_PREC) && Wf(r, AND)
    case Or(l, r) => OR <= level && Wf(l, AND) && Wf(r, OR)
    case Cond(c, t, f) => COND <= level && Wf(c, OR) && Wf(t, ASSIGN) && Wf(f, COND)
    case Assign(_, op, r) => ASSIGN <= level && IsAssop(op) && Wf(r, ASSIGN)
  }

  lemma {:induction false} WfLooser(e: Expr, p: nat, q: nat)
    requires Wf(e, p) && p <= q
    ensures Wf(e, q)
  {}

  /** The tokens that spell a tree; codes outside the symbol range are spelled as a bad token. */
  function Flat(e: Expr): Toks {
    match e
    case Lit(v) => [Num(v)]
    case Var(x) => [Name(x)]
    case Paren(i) => [Sym(ARITH_LPAREN)] + Flat(i) + [Sym(ARITH_RPAREN)]
    case Unary(op, a) => [Symbol(op)] + Flat(a)
    case Bin(op, l, r) => Flat(l) + ([Symbol(op)] + Flat(r))
    case And(l, r) => Flat(l) + ([Sym(ARITH_AND)] + Flat(r))
    case Or(l, r) => Flat(l) + ([Sym(ARITH_OR)] + Flat(r))
    case Cond(c, t, f) => Flat(c) + ([Sym(ARITH_QMARK)] + (Flat(t) + ([Sym(ARITH_COLON)] + Flat(f))))
    case Assign(x, op, r) => [Name(x), Symbol(op)] + Flat(r)
  }

  function Symbol(op: int): Lexeme {
    if ValidLexeme(Sym(op)) then Sym(op) else Sym(ARITH_BAD)
  }

  // ---------- the parser ----------

  datatype Parsed = Parsed(e: Expr, rest: Toks)

  function ParsePrimary(ts: Toks): (r: Option<Parsed>)
    ensures r.Some? ==> |r.value.rest| < |ts|
    decreases |ts|, 0
  {
    var t := Tok(ts);
    if t == ARITH_LPAREN then
      var p :- ParseAssign(ts[1..]);
      if Tok(p.rest) == ARITH_RPAREN then Some(Parsed(Paren(p.e), p.rest[1..])) else None
    else if t == ARITH_NUM then
      Some(Parsed(Lit(ts[0].val), ts[1..]))
    else if t == ARITH_VAR then
      Some(Parsed(Var(ts[0].name), ts[1..]))
    else if IsUnop(t) then
      var p :- ParsePrimary(ts[1..]);
      Some(Parsed(Unary(t, p.e), p.rest))
    else
      None
  }

  /** A primary and every operator after it that binds tighter than level p. */
  function ParseBin(p: nat, ts: Toks): (r: Option<Parsed>)
    ensures r.Some? ==> |r.value.rest| < |ts|
    decreases |ts|, 1
  {
    var a :- ParsePrimary(ts);
    Climb(p, a.e, a.rest)
  }

  /** Having read operand a, go on while the next operator binds tighter than level p. */
  function Climb(p: nat, a: Expr, ts: Toks): (r: Option<Parsed>)
    ensures r.Some? ==> |r.value.rest| <= |ts|
    decreases |ts|, 3
  {
    if IsBinop(Tok(ts)) && Prec(Tok(ts)) < p then
      ParseBinop2(a, Tok(ts), p, ts[1..])
    else
      Some(Parsed(a, ts))
  }

  function ParseBinop2(a: Expr, op: int, p: nat, ts: Toks): (r: Option<Parsed>)
    requires IsBinop(op)
    ensures r.Some? ==> |r.value.rest| < |ts|
    decreases |ts|, 2
  {
    var b :- ParseBin(Prec(op), ts);
    Climb(p, Bin(op, a, b.e), b.rest)
  }

  function ParseAnd(ts: Toks): (r: Option<Parsed>)
    ensures r.Some? ==> |r.value.rest| < |ts|
    decreases |ts|, 3
  {
    var a :- ParseBin(ARITH_MAX_PREC, ts);
    if Tok(a.rest) != ARITH_AND then Some(a) else
    var b :- ParseAnd(a.rest[1..]);
    Some(Parsed(And(a.e, b.e), b.rest))
  }

  function ParseOr(ts: Toks): (r: Option<Parsed>)
    ensures r.Some? ==> |r.value.rest| < |ts|
    decreases |ts|, 4
  {
    var a :- ParseAnd(ts);
    if Tok(a.rest) != ARITH_OR then Some(a) else
    var b :- ParseOr(a.rest[1..]);
    Some(Parsed(Or(a.e, b.e), b.rest))
  }

  function ParseCond(ts: Toks): (r: Option<Parsed>)
    ensures r.Some? ==> |r.value.rest| < |ts|
    decreases |ts|, 5
  {
    var a :- ParseOr(ts);
    if Tok(a.rest) != ARITH_QMARK then Some(a) else
    var b :- ParseAssign(a.rest[1..]);
    if Tok(b.rest) != ARITH_COLON then None else
    var c :- ParseCond(b.rest[1..]);
    Some(Parsed(Cond(a.e, b.e, c.e), c.rest))
  }

  function ParseAssign(ts: Toks): (r: Option<Parsed>)
    ensures r.Some? ==> |r.value.rest| < |ts|
    decreases |ts|, 6
  {
    if Tok(ts) == ARITH_VAR && IsAssop(Tok(ts[1..])) then
      var r :- ParseAssign(ts[2..]);
      Some(Parsed(Assign(ts[0].name, Tok(ts[1..]), r.e), r.rest))
    else
      ParseCond(ts)
  }

  /** A whole expression: nothing may be left over. */
  function Parse(ts: Toks): Option<Expr> {
    var p :- ParseAssign(ts);
    if p.rest == [] then Some(p.e) else None
  }

  // ---------- every parse is grammatical and spells the tokens it consumed ----------

  /** Tree e is grammatical at a level and spells what lies between ts and rest. */
  ghost predicate Spells(e: Expr, level: nat, ts: Toks, rest: Toks) {
    Wf(e, level) && ts == Flat(e) + rest
  }

  predicate Stops(p: nat, ts: Toks) {
    IsBinop(Tok(ts)) ==> p <= Prec(Tok(ts))
  }

  /** Tokens l, then the operator at the head of mid, then r, up to rest. */
  lemma Infix(l: Toks, op: int, r: Toks, ts: Toks, mid: Toks, rest: Toks)
    requires ts == l + mid && Tok(mid) == op && op !in {0, ARITH_NUM, ARITH_VAR} && mid[1..] == r + rest
    ensures ts == (l + ([Symbol(op)] + r)) + rest
  {
    assert mid == [mid[0]] + mid[1..];
    assert mid[0] == Symbol(op);
  }

  lemma SpellsParen(e: Expr, ts: Toks, mid: Toks)
    requires Tok(ts) == ARITH_LPAREN && Spells(e, ASSIGN, ts[1..], mid) && Tok(mid) == ARITH_RPAREN
    ensures Spells(Paren(e), PRIMARY, ts, mid[1..])
  {
    var open, close := [Sym(ARITH_LPAREN)], [Sym(ARITH_RPAREN)];
    assert mid == close + mid[1..] && ts == open + ts[1..];
    assert ts == (open + Flat(e) + close) + mid[1..];
  }

  lemma SpellsUnary(op: int, e: Expr, ts: Toks, rest: Toks)
    requires Tok(ts) == op && IsUnop(op) && Spells(e, PRIMARY, ts[1..], rest)
    ensures Spells(Unary(op, e), PRIMARY, ts, rest)
  {
    assert ts == [Symbol(op)] + ts[1..];
  }

  lemma SpellsBin(a: Expr, b: Expr, op: int, p: nat, ts: Toks, rest: Toks)
    requires IsBinop(op) && Prec(op) < p && Tok(ts) == op
    requires Wf(a, Prec(op) + 1) && Spells(b, Prec(op), ts[1..], rest)
    ensures Spells(Bin(op, a, b), p, Flat(a) + ts, rest)
  {
    Infix(Flat(a), op, Flat(b), Flat(a) + ts, ts, rest);
  }

  lemma SpellsAnd(a: Expr, b: Expr, ts: Toks, mid: Toks, rest: Toks)
    requires Spells(a, ARITH_MAX_PREC, ts, mid) && Tok(mid) == ARITH_AND && Spells(b, AND, mid[1..], rest)
    ensures Spells(And(a, b), AND, ts, rest)
  {
    Infix(Flat(a), ARITH_AND, Flat(b), ts, mid, rest);
  }

  lemma SpellsOr(a: Expr, b: Expr, ts: Toks, mid: Toks, rest: Toks)
    requires Spells(a, AND, ts, mid) && Tok(mid) == ARITH_OR && Spells(b, OR, mid[1..], rest)
    ensures Spells(Or(a, b), OR, ts, rest)
  {
    Infix(Flat(a), ARITH_OR, Flat(b), ts, mid, rest);
  }

  lemma SpellsCond(a: Expr, b: Expr, c: Expr, ts: Toks, ts1: Toks, ts2: Toks, rest: Toks)
    requires Spells(a, OR, ts, ts1) && Tok(ts1) == ARITH_QMARK
    requires Spells(b, ASSIGN, ts1[1..], ts2) && Tok(ts2) == ARITH_COLON
    requires Spells(c, COND, ts2[1..], rest)
    ensures Spells(Cond(a, b, c), COND, ts, rest)
  {
    Infix(Flat(b), ARITH_COLON, Flat(c), ts1[1..], ts2, rest);
    Infix(Flat(a), ARITH_QMARK, Flat(b) + ([Sym(ARITH_COLON)] + Flat(c)), ts, ts1, rest);
  }

  lemma SpellsAssign(x: string, op: int, e: Expr, ts: Toks, rest: Toks)
    requires |ts| >= 2 && ts[0] == Name(x) && IsAssop(op) && Code(ts[1]) == op
    requires Spells(e, ASSIGN, ts[2..], rest)
    ensures Spells(Assign(x, op, e), ASSIGN, ts, rest)
  {
    assert ts == [Name(x), Symbol(op)] + ts[2..];
  }

  lemma SpellsLooser(e: Expr, p: nat, q: nat, ts: Toks, rest: Toks)
    requires Spells(e, p, ts, rest) && p <= q
    ensures Spells(e, q, ts, rest)
  {
    WfLooser(e, p, q);
  }

  lemma {:induction false} PrimarySound(ts: Toks)
    ensures var r := ParsePrimary(ts);
            r.Some? ==> Spells(r.value.e, PRIMARY, ts, r.value.rest)
    decreases |ts|, 0
  {
    var t := Tok(ts);
    if t == ARITH_LPAREN {
      AssignSound(ts[1..]);
      var p := ParseAssign(ts[1..]);
      if p.Some? && Tok(p.value.rest) == ARITH_RPAREN {
        SpellsParen(p.value.e, ts, p.value.rest);
      }
    } else if IsUnop(t) {
      PrimarySound(ts[1..]);
      var p := ParsePrimary(ts[1..]);
      if p.Some? {
        SpellsUnary(t, p.value.e, ts, p.value.rest);
      }
    }
  }

  lemma {:induction false} BinSound(p: nat, ts: Toks)
    ensures var r := ParseBin(p, ts);
            r.Some? ==> Spells(r.value.e, p, ts, r.value.rest) && Stops(p, r.value.rest)
    decreases |ts|, 1
  {
    PrimarySound(ts);
    var a := ParsePrimary(ts);
    if a.Some? {
      ClimbSound(p, a.value.e, a.value.rest);
    }
  }

  /** The operand so far may be a chain that ends no tighter than the operator that follows it. */
  lemma {:induction false} ClimbSound(p: nat, a: Expr, ts: Toks)
    requires Wf(a, PRIMARY) || (Wf(a, p) && a.Bin? && Stops(Prec(a.op), ts))
    ensures var r := Climb(p, a, ts);
            r.Some? ==> Spells(r.value.e, p, Flat(a) + ts, r.value.rest) && Stops(p, r.value.rest)
    decreases |ts|, 3
  {
    var op := Tok(ts);
    if IsBinop(op) && Prec(op) < p {
      BinSound(Prec(op), ts[1..]);
      var b := ParseBin(Prec(op), ts[1..]);
      if b.Some? {
        var Parsed(eb, rest) := b.value;
        WfLooser(a, if a.Bin? then Prec(a.op) + 1 else PRIMARY, Prec(op) + 1);
        SpellsBin(a, eb, op, p, ts, rest);
        ClimbSound(p, Bin(op, a, eb), rest);
      }
    } else {
      WfLooser(a, if a.Bin? then p else PRIMARY, p);
    }
  }

  lemma {:induction false} AndSound(ts: Toks)
    ensures var r := ParseAnd(ts);
            r.Some? ==> Spells(r.value.e, AND, ts, r.value.rest)
    decreases |ts|, 3
  {
    BinSound(ARITH_MAX_PREC, ts);
    var a := ParseBin(ARITH_MAX_PREC, ts);
    if a.Some? {
      var Parsed(ea, mid) := a.value;
      SpellsLooser(ea, ARITH_MAX_PREC, AND, ts, mid);
      if Tok(mid) == ARITH_AND {
        AndSound(mid[1..]);
        var b := ParseAnd(mid[1..]);
        if b.Some? {
          SpellsAnd(ea, b.value.e, ts, mid, b.value.rest);
        }
      }
    }
  }

  lemma {:induction false} OrSound(ts: Toks)
    ensures var r := ParseOr(ts);
            r.Some? ==> Spells(r.value.e, OR, ts, r.value.rest)
    decreases |ts|, 4
  {
    AndSound(ts);
    var a := ParseAnd(ts);
    if a.Some? {
      var Parsed(ea, mid) := a.value;
      SpellsLooser(ea, AND, OR, ts, mid);
      if Tok(mid) == ARITH_OR {
        OrSound(mid[1..]);
        var b := ParseOr(mid[1..]);
        if b.Some? {
          SpellsOr(ea, b.value.e, ts, mid, b.value.rest);
        }
      }
    }
  }

  lemma {:induction false} CondSound(ts: Toks)
    ensures var r := ParseCond(ts);
            r.Some? ==> Spells(r.value.e, COND, ts, r.value.rest)
    decreases |ts|, 5
  {
    OrSound(ts);
    var a := ParseOr(ts);
    if a.Some? {
      var Parsed(ea, ts1) := a.value;
      SpellsLooser(ea, OR, COND, ts, ts1);
      if Tok(ts1) == ARITH_QMARK {
        AssignSound(ts1[1..]);
        var b := ParseAssign(ts1[1..]);
        if b.Some? && Tok(b.value.rest) == ARITH_COLON {
          var Parsed(eb, ts2) := b.value;
          CondSound(ts2[1..]);
          var c := ParseCond(ts2[1..]);
          if c.Some? {
            SpellsCond(ea, eb, c.value.e, ts, ts1, ts2, c.value.rest);
          }
        }
      }
    }
  }

  lemma {:induction false} AssignSound(ts: Toks)
    ensures var r := ParseAssign(ts);
            r.Some? ==> Spells(r.value.e, ASSIGN, ts, r.value.rest)
    decreases |ts|, 6
  {
    if Tok(ts) == ARITH_VAR && IsAssop(Tok(ts[1..])) {
      AssignSound(ts[2..]);
      var r := ParseAssign(ts[2..]);
      if r.Some? {
        SpellsAssign(ts[0].name, Tok(ts[1..]), r.value.e, ts, r.value.rest);
      }
    } else {
      CondSound(ts);
      var r := ParseCond(ts);
      if r.Some? {
        SpellsLooser(r.value.e, COND, ASSIGN, ts, r.value.rest);
      }
    }
  }

  // ---------- every grammatical tree is found again from its tokens ----------

  predicate EndsAnd(ts: Toks) { !IsBinop(Tok(ts)) && Tok(ts) != ARITH_AND }
  predicate EndsOr(ts: Toks) { EndsAnd(ts) && Tok(ts) != ARITH_OR }
  predicate EndsCond(ts: Toks) { EndsOr(ts) && Tok(ts) != ARITH_QMARK }
  predicate EndsAssign(ts: Toks) { EndsCond(ts) && !IsAssop(Tok(ts)) }

  lemma {:induction false} PrimaryComplete(e: Expr, ts: Toks)
    requires Wf(e, PRIMARY)
    ensures ParsePrimary(Flat(e) + ts) == Some(Parsed(e, ts))
    decreases e, 0
  {
    match e
    case Lit(_) =>
    case Var(_) =>
    case Paren(i) =>
      assert Flat(e) + ts == [Sym(ARITH_LPAREN)] + (Flat(i) + ([Sym(ARITH_RPAREN)] + ts));
      AssignComplete(i, [Sym(ARITH_RPAREN)] + ts);
    case Unary(op, a) =>
      assert Flat(e) + ts == [Symbol(op)] + (Flat(a) + ts);
      PrimaryComplete(a, ts);
  }

  /**
   * The heart of precedence climbing: reading a chain at any level looser than its own top operator,
   * before an operator that does not bind tighter than that, rebuilds the chain and climbs on.
   */
  lemma {:induction false} BinComplete(e: Expr, p: nat, ts: Toks)
    requires p <= ARITH_MAX_PREC && Wf(e, p)
    requires e.Bin? ==> Stops(Prec(e.op), ts)
    ensures ParseBin(p, Flat(e) + ts) == Climb(p, e, ts)
    decreases e, 1
  {
    if e.Bin? {
      var Bin(op, l, r) := e;
      var q := Prec(op);
      var ts1 := [Symbol(op)] + (Flat(r) + ts);
      assert Flat(e) + ts == Flat(l) + ts1;
      WfLooser(l, q + 1, p);
      BinComplete(l, p, ts1);
      assert ts1[1..] == Flat(r) + ts;
      BinComplete(r, q, ts);
    } else {
      PrimaryComplete(e, ts);
    }
  }

  lemma {:induction false} AndComplete(e: Expr, ts: Toks)
    requires Wf(e, AND) && EndsAnd(ts)
    ensures ParseAnd(Flat(e) + ts) == Some(Parsed(e, ts))
    decreases e, 2
  {
    if e.And? {
      var And(l, r) := e;
      var ts1 := [Sym(ARITH_AND)] + (Flat(r) + ts);
      assert Flat(e) + ts == Flat(l) + ts1;
      BinComplete(l, ARITH_MAX_PREC, ts1);
      assert ts1[1..] == Flat(r) + ts;
      AndComplete(r, ts);
    } else {
      BinComplete(e, ARITH_MAX_PREC, ts);
    }
  }

  lemma {:induction false} OrComplete(e: Expr, ts: Toks)
    requires Wf(e, OR) && EndsOr(ts)
    ensures ParseOr(Flat(e) + ts) == Some(Parsed(e, ts))
    decreases e, 3
  {
    if e.Or? {
      var Or(l, r) := e;
      var ts1 := [Sym(ARITH_OR)] + (Flat(r) + ts);
      assert Flat(e) + ts == Flat(l) + ts1;
      AndComplete(l, ts1);
      assert ts1[1..] == Flat(r) + ts;
      OrComplete(r, ts);
    } else {
      AndComplete(e, ts);
    }
  }

  lemma {:induction false} CondComplete(e: Expr, ts: Toks)
    requires Wf(e, COND) && EndsCond(ts)
    ensures ParseCond(Flat(e) + ts) == Some(Parsed(e, ts))
    decreases e, 4
  {
    if e.Cond? {
      var Cond(c, t, f) := e;
      var ts2 := [Sym(ARITH_COLON)] + (Flat(f) + ts);
      var ts1 := [Sym(ARITH_QMARK)] + (Flat(t) + ts2);
      assert Flat(e) + ts == Flat(c) + ts1;
      OrComplete(c, ts1);
      assert ts1[1..] == Flat(t) + ts2;
      AssignComplete(t, ts2);
      assert ts2[1..] == Flat(f) + ts;
      CondComplete(f, ts);
    } else {
      OrComplete(e, ts);
    }
  }

  lemma NotAnAssignment(e: Toks, ts: Toks)
    requires e != [] && !StartsAssignment(e) && !IsAssop(Tok(ts))
    ensures Tok(e + ts) == ARITH_VAR ==> !IsAssop(Tok((e + ts)[1..]))
  {}

  lemma {:induction false} AssignComplete(e: Expr, ts: Toks)
    requires Wf(e, ASSIGN) && EndsAssign(ts)
    ensures ParseAssign(Flat(e) + ts) == Some(Parsed(e, ts))
    decreases e, 5
  {
    if e.Assign? {
      var Assign(x, op, r) := e;
      assert Flat(e) + ts == [Name(x), Symbol(op)] + (Flat(r) + ts);
      assert (Flat(e) + ts)[1..] == [Symbol(op)] + (Flat(r) + ts);
      AssignComplete(r, ts);
    } else {
      NoAssignmentAhead(e);
      NotAnAssignment(Flat(e), ts);
      CondComplete(e, ts);
    }
  }

  predicate StartsAssignment(ts: Toks) {
    |ts| >= 2 && ts[0].Name? && IsAssop(Code(ts[1]))
  }

  /** A tree that is not an assignment never starts with a name and an assignment operator. */
  lemma {:induction false} NoAssignmentAhead(e: Expr)
    requires Wf(e, COND)
    ensures Flat(e) != [] && !StartsAssignment(Flat(e))
    decreases e
  {
    match e
    case Cond(c, t, f) => NoAssignmentAhead(c);
    case Or(l, r) => NoAssignmentAhead(l);
    case And(l, r) => NoAssignmentAhead(l);
    case Bin(op, l, r) => NoAssignmentAhead(l);
    case _ =>
  }

  /** The parser accepts exactly the spellings of grammatical trees, and finds the one tree. */
  lemma ParseIsGrammar(ts: Toks, e: Expr)
    ensures Parse(ts) == Some(e) <==> Wf(e, ASSIGN) && Flat(e) == ts
  {
    AssignSound(ts);
    assert Flat(e) + [] == Flat(e);
    if Wf(e, ASSIGN) {
      AssignComplete(e, []);
    }
  }

  /** So the grammar is unambiguous. */
  lemma Unambiguous(e1: Expr, e2: Expr)
    requires Wf(e1, ASSIGN) && Wf(e2, ASSIGN) && Flat(e1) == Flat(e2)
    ensures e1 == e2
  {
    ParseIsGrammar(Flat(e1), e1);
    ParseIsGrammar(Flat(e1), e2);
  }
}
