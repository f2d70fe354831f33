/** Each construct of the grammar, one step at a time, on any tokens whose parts are known to parse. */
module ShellSteps {
  import opened Option
  import opened ShellTokens
  import opened ShellNodes
  import opened ShellGrammar

  /** Tokens that may follow a printed command. None of them is a word, so none turns into a keyword. */
  predicate Separator(t: Token) {
    match t
    case TNL | TSEMI | TBACKGND | TAND | TOR | TPIPE | TRP | TENDCASE => true
    case _ => false
  }

  predicate Follow(ts: Toks) {
    ts == [] || Separator(ts[0])
  }

  predicate FollowPipeline(ts: Toks) {
    Follow(ts) && (ts == [] || ts[0] != TPIPE)
  }

  /** What may follow a whole and-or list. */
  predicate FollowItem(ts: Toks) {
    FollowPipeline(ts) && (ts == [] || (ts[0] != TAND && ts[0] != TOR))
  }

  predicate CanStart(t: Token) {
    match t
    case TWORD(_) | TREDIR(_) | TLP => true
    case TKWD(k, _) => k in {BEGIN, NOT, IF, UNTIL, WHILE, FOR, CASE}
    case _ => false
  }

  function Gives(n: Node, rest: Toks): Option<Parsed> { Some(Parsed(n, rest)) }

  // ---------- reading ----------

  lemma ReadFollow(f: Flags, ts: Toks)
    requires Follow(ts) && !f.nl
    ensures Read(f, ts) == if ts == [] then (TEOF, []) else (ts[0], ts[1..])
    ensures Pushback(Read(f, ts).0, Read(f, ts).1) == ts
  {}

  lemma ReadKwd(f: Flags, k: Keyword, ts: Toks)
    requires f.kwd
    ensures Read(f, [Kwd(k)] + ts) == (Key(k), ts)
  {
    assert ([Kwd(k)] + ts)[1..] == ts;
  }

  lemma ReadAny(t: Token, ts: Toks)
    requires t != TEOF
    ensures Read(NONE, [t] + ts) == (t, ts)
  {
    assert ([t] + ts)[1..] == ts;
  }

  // ---------- lists ----------

  lemma StepList(nlflag: nat, n1: Node, ts: Toks, tok: Token, ts1: Toks, n2: Node, rest: Toks)
    requires nlflag == 0 || nlflag == 2
    requires Read(NLKWD, ts) == (tok, ts1) && CanStart(tok)
    requires Andor([tok] + ts1) == Gives(n2, rest)
    ensures List(nlflag, n1, ts) == ListRest(2, n1, n2, rest)
  {
    hide FindKwd, Andor, ListRest;
    assert !EndsList(tok);
  }

  /** A list ends where the next token ends lists, after a separator... */
  lemma StepListEnds(n1: Node, n2: Node, sep: Token, k: Keyword, ts: Toks)
    requires sep == TSEMI || sep == TNL || sep == TBACKGND
    requires EndsList(Key(k))
    ensures ListRest(2, n1, n2, [sep, Kwd(k)] + ts)
            == Gives(Join(n1, if sep == TBACKGND then InBackground(n2) else n2), [Key(k)] + ts)
  {
    hide FindKwd;
    var n := Join(n1, if sep == TBACKGND then InBackground(n2) else n2);
    var end := [Kwd(k)] + ts;
    assert [sep, Kwd(k)] + ts == [sep] + end;
    ReadAny(sep, end);
    ReadKwd(NLKWD, k, ts);
    assert Read(NLKWD, [TNL] + end) == (Key(k), ts) by {
      assert ([TNL] + end)[1..] == end;
    }
    assert List(2, n, if sep == TNL then [TNL] + end else end) == Gives(n, [Key(k)] + ts);
  }

  /** ... or without one. */
  lemma StepListStops(n1: Node, n2: Node, t: Token, ts: Toks)
    requires t == TRP || t == TENDCASE
    ensures ListRest(2, n1, n2, [t] + ts) == Gives(Join(n1, n2), [t] + ts)
  {
    hide FindKwd;
    ReadAny(t, ts);
  }

  // ---------- and-or lists and pipelines ----------

  lemma StepItem(ts: Toks, n: Node, rest: Toks)
    requires Pipeline(NONE, ts) == Gives(n, rest) && FollowItem(rest)
    ensures Andor(ts) == Gives(n, rest)
  {
    hide FindKwd;
    ReadFollow(NONE, rest);
  }

  lemma StepAndor(ts: Toks, n1: Node, op: Token, ts1: Toks, n2: Node, rest: Toks)
    requires op == TAND || op == TOR
    requires Pipeline(NONE, ts) == Gives(n1, [op] + ts1)
    requires Pipeline(NLKWD, ts1) == Gives(n2, rest) && FollowItem(rest)
    ensures Andor(ts) == Gives(if op == TAND then NAND(n1, n2) else NOR(n1, n2), rest)
  {
    hide FindKwd;
    ReadAny(op, ts1);
    ReadFollow(NONE, rest);
    var n := if op == TAND then NAND(n1, n2) else NOR(n1, n2);
    assert AndorRest(n, rest) == Gives(n, rest);
    assert AndorRest(n1, [op] + ts1) == AndorRest(n, rest);
  }

  lemma StepCommand(f: Flags, ts: Toks, tok: Token, ts1: Toks, n: Node, rest: Toks)
    requires Read(f, ts) == (tok, ts1) && tok != TEOF && !IsKwd(tok, NOT)
    requires CommandFrom(tok, ts1) == Gives(n, rest) && FollowPipeline(rest)
    ensures Pipeline(f, ts) == Gives(n, rest)
  {
    hide FindKwd;
    ReadFollow(NONE, rest);
    ReadAny(tok, ts1);
    assert ShellGrammar.Command(NONE, [tok] + ts1) == Gives(n, rest);
    assert PipelineBody(NONE, [tok] + ts1) == Gives(n, rest);
  }

  lemma StepNot(f: Flags, ts: Toks, w: Word, ts1: Toks, tok: Token, ts2: Toks, n: Node, rest: Toks)
    requires Read(f, ts) == (TKWD(NOT, w), ts1)
    requires Read(KWD, ts1) == (tok, ts2) && tok != TEOF
    requires CommandFrom(tok, ts2) == Gives(n, rest) && FollowPipeline(rest)
    ensures Pipeline(f, ts) == Gives(NNOT(n), rest)
  {
    hide FindKwd;
    ReadFollow(NONE, rest);
    assert ShellGrammar.Command(KWD, ts1) == Gives(n, rest);
    assert PipelineBody(KWD, ts1) == Gives(n, rest);
  }

  lemma StepPipe(f: Flags, ts: Toks, tok: Token, ts1: Toks, n: Node, ts2: Toks, ns: seq<Node>, rest: Toks)
    requires Read(f, ts) == (tok, ts1) && tok != TEOF && !IsKwd(tok, NOT)
    requires CommandFrom(tok, ts1) == Gives(n, [TPIPE] + ts2)
    requires PipeItems(ts2) == Some(ParsedNodes(ns, rest))
    ensures Pipeline(f, ts) == Gives(NPIPE(false, [n] + ns), rest)
  {
    hide FindKwd;
    ReadAny(tok, ts1);
    ReadAny(TPIPE, ts2);
    assert ShellGrammar.Command(NONE, [tok] + ts1) == Gives(n, [TPIPE] + ts2);
    assert PipelineBody(NONE, [tok] + ts1) == Gives(NPIPE(false, [n] + ns), rest);
  }

  lemma StepPipeItem(ts: Toks, tok: Token, ts1: Toks, n: Node, ts2: Toks, ns: seq<Node>, rest: Toks)
    requires Read(NLKWD, ts) == (tok, ts1) && tok != TEOF
    requires CommandFrom(tok, ts1) == Gives(n, [TPIPE] + ts2)
    requires PipeItems(ts2) == Some(ParsedNodes(ns, rest))
    ensures PipeItems(ts) == Some(ParsedNodes([n] + ns, rest))
  {
    hide FindKwd;
    ReadAny(TPIPE, ts2);
    assert ShellGrammar.Command(NLKWD, ts) == Gives(n, [TPIPE] + ts2);
  }

  lemma StepPipeLast(ts: Toks, tok: Token, ts1: Toks, n: Node, rest: Toks)
    requires Read(NLKWD, ts) == (tok, ts1) && tok != TEOF
    requires CommandFrom(tok, ts1) == Gives(n, rest) && FollowPipeline(rest)
    ensures PipeItems(ts) == Some(ParsedNodes([n], rest))
  {
    hide FindKwd;
    ReadFollow(NONE, rest);
    assert ShellGrammar.Command(NLKWD, ts) == Gives(n, rest);
  }

  // ---------- commands ----------

  lemma StepCompound(tok: Token, ts: Toks, n: Node, rest: Toks, rs: seq<RedirNode>, rest2: Toks)
    requires tok == TLP || tok.TKWD?
    requires Compound(tok, ts) == Gives(n, rest)
    requires Redirs(KWD, rest) == Some(ParsedRedirs(rs, rest2))
    ensures CommandFrom(tok, ts) == Gives(WithRedirs(n, rs), rest2)
  {
    hide FindKwd;
    assert Redirected(n, rest) == Gives(WithRedirs(n, rs), rest2);
  }

  lemma StepBegin(w: Word, ts: Toks, n: Node, rest: Toks)
    requires List(0, NULL, ts) == Gives(n, [Key(END)] + rest)
    ensures Compound(TKWD(BEGIN, w), ts) == Gives(n, rest)
  {
    hide FindKwd, List;
    ReadAny(Key(END), rest);
    assert BracePart(ts) == Gives(n, rest);
  }

  lemma StepSubshell(ts: Toks, n: Node, rest: Toks)
    requires List(0, NULL, ts) == Gives(n, [TRP] + rest)
    ensures Compound(TLP, ts) == Gives(NSUBSHELL(n, []), rest)
  {
    hide FindKwd, List;
    ReadAny(TRP, rest);
    assert SubshellPart(ts) == Gives(NSUBSHELL(n, []), rest);
  }

  lemma StepDo(f: Flags, ts: Toks, ts1: Toks, n: Node, rest: Toks)
    requires Read(f, ts) == (Key(DO), ts1)
    requires List(0, NULL, ts1) == Gives(n, [Key(DONE)] + rest)
    ensures DoBody(f, ts) == Gives(n, rest)
  {
    hide FindKwd, List;
    ReadAny(Key(DONE), rest);
  }

  lemma StepWhilePart(k: Keyword, ts: Toks, n: Node, ts1: Toks, b: Node, rest: Toks)
    requires List(0, NULL, ts) == Gives(n, [Key(DO)] + ts1)
    requires List(0, NULL, ts1) == Gives(b, [Key(DONE)] + rest)
    ensures WhilePart(k, ts) == Gives(if k == WHILE then NWHILE(n, b) else NUNTIL(n, b), rest)
  {
    hide FindKwd, List;
    ReadAny(Key(DO), ts1);
    StepDo(NONE, [Key(DO)] + ts1, ts1, b, rest);
  }

  lemma StepWhile(k: Keyword, w: Word, ts: Toks, n: Node, ts1: Toks, b: Node, rest: Toks)
    requires k == WHILE || k == UNTIL
    requires List(0, NULL, ts) == Gives(n, [Key(DO)] + ts1)
    requires List(0, NULL, ts1) == Gives(b, [Key(DONE)] + rest)
    ensures Compound(TKWD(k, w), ts) == Gives(if k == WHILE then NWHILE(n, b) else NUNTIL(n, b), rest)
  {
    hide FindKwd, List, WhilePart, ForPart, CasePart, IfCommand, BracePart;
    StepWhilePart(k, ts, n, ts1, b, rest);
  }

  lemma StepForPart(x: Word, args: seq<Word>, ts: Toks, ts1: Toks, ts2: Toks, b: Node, rest: Toks)
    requires ts == [TWORD(x), Kwd(IN)] + ts1 && !x.quoted && CharClass.GoodName(x.text)
    requires Words(ts1) == ParsedWords(args, TSEMI, [Kwd(DO)] + ts2)
    requires DoBody(NLKWD, [Kwd(DO)] + ts2) == Gives(b, rest)
    ensures ForPart(ts) == Gives(NFOR(args, b, x.text), rest)
  {
    hide FindKwd, DoBody, Words, CharClass.GoodName;
    assert ts == [TWORD(x)] + ([Kwd(IN)] + ts1);
    ReadAny(TWORD(x), [Kwd(IN)] + ts1);
    ReadKwd(NLKWD, IN, ts1);
    assert ForWords([Kwd(IN)] + ts1) == Some(ParsedWords(args, TSEMI, [Kwd(DO)] + ts2));
  }

  lemma StepFor(w: Word, x: Word, args: seq<Word>, ts: Toks, ts1: Toks, ts2: Toks, b: Node, rest: Toks)
    requires ts == [TWORD(x), Kwd(IN)] + ts1 && !x.quoted && CharClass.GoodName(x.text)
    requires Words(ts1) == ParsedWords(args, TSEMI, [Kwd(DO)] + ts2)
    requires List(0, NULL, ts2) == Gives(b, [Key(DONE)] + rest)
    ensures Compound(TKWD(FOR, w), ts) == Gives(NFOR(args, b, x.text), rest)
  {
    hide FindKwd, List, Words, DoBody, WhilePart, ForPart, CasePart, IfCommand, BracePart, CharClass.GoodName;
    ReadKwd(NLKWD, DO, ts2);
    StepDo(NLKWD, [Kwd(DO)] + ts2, ts2, b, rest);
    StepForPart(x, args, ts, ts1, ts2, b, rest);
  }

  lemma StepIf(w: Word, ts: Toks, n: Node, rest: Toks)
    requires IfPart(ts) == Gives(n, [Key(FI)] + rest)
    ensures Compound(TKWD(IF, w), ts) == Gives(n, rest)
  {
    hide FindKwd, IfPart, WhilePart, ForPart, CasePart, BracePart;
    ReadAny(Key(FI), rest);
    assert IfCommand(ts) == Gives(n, rest);
  }

  /** if test then part, and what follows. */
  lemma StepIfPart(ts: Toks, c: Node, ts1: Toks, t: Node, k: Keyword, ts2: Toks)
    requires List(0, NULL, ts) == Gives(c, [Key(THEN)] + ts1)
    requires List(0, NULL, ts1) == Gives(t, [Key(k)] + ts2)
    ensures k == FI ==> IfPart(ts) == Gives(NIF(c, t, NULL), [Key(FI)] + ts2)
    ensures k == ELSE && List(0, NULL, ts2).Some? ==>
              IfPart(ts) == Gives(NIF(c, t, List(0, NULL, ts2).value.n), List(0, NULL, ts2).value.rest)
    ensures k == ELIF && IfPart(ts2).Some? ==>
              IfPart(ts) == Gives(NIF(c, t, IfPart(ts2).value.n), IfPart(ts2).value.rest)
  {
    hide FindKwd, List;
    ReadAny(Key(THEN), ts1);
    ReadAny(Key(k), ts2);
  }

  lemma StepCase(w: Word, expr: Word, ts: Toks, ts1: Toks, cs: seq<Clause>, rest: Toks)
    requires ts == [TWORD(expr), Kwd(IN)] + ts1
    requires Clauses(ts1) == Some(ParsedClauses(cs, rest))
    ensures Compound(TKWD(CASE, w), ts) == Gives(NCASE(expr, cs), rest)
  {
    hide FindKwd, Clauses, WhilePart, ForPart, IfCommand, BracePart;
    assert ts == [TWORD(expr)] + ([Kwd(IN)] + ts1);
    ReadAny(TWORD(expr), [Kwd(IN)] + ts1);
    ReadKwd(NLKWD, IN, ts1);
    assert CasePart(ts) == Gives(NCASE(expr, cs), rest);
  }

  /** pattern ) list ;; and more clauses */
  lemma StepClause(ts: Toks, first: Token, ts1: Toks, ws: seq<Word>, ts2: Toks, body: Node, ts3: Toks,
                   cs: seq<Clause>, rest: Toks)
    requires Read(NLKWD, ts) == (first, ts1) && !IsKwd(first, ESAC) && WordOf(first).Some?
    requires Patterns(first, ts1) == Some(ParsedWords(ws, TRP, ts2))
    requires List(2, NULL, ts2) == Gives(body, [TENDCASE] + ts3)
    requires Clauses(ts3) == Some(ParsedClauses(cs, rest))
    ensures Clauses(ts) == Some(ParsedClauses([NCLIST(ws, body)] + cs, rest))
  {
    hide FindKwd, List, Patterns;
    assert Read(NLKWD, [TENDCASE] + ts3) == (TENDCASE, ts3) by {
      assert ([TENDCASE] + ts3)[1..] == ts3;
    }
  }
}
