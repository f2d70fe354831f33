/** What a list can turn into when the command it starts with is known. */
module ShellStarts {
  import opened ShellTokens
  import opened ShellNodes
  import opened ShellGrammar
  import opened ShellSteps

  /** A list that has an item already is that item, or a sequence. */
  lemma {:induction false} ListKeeps(nlflag: nat, n1: Node, ts: Toks)
    requires nlflag <= 3 && n1 != NULL && List(nlflag, n1, ts).Some?
    ensures var n := List(nlflag, n1, ts).value.n; n == n1 || n.NSEMI?
    decreases |ts|, 6
  {
    hide FindKwd, EndsList, Andor, ListRest;
    var chknl := nlflag % 2 == 0;
    var (tok, rest) := Read(Flags(chknl, true), ts);
    if tok != TNL && tok != TEOF && !(nlflag == 2 && EndsList(tok)) {
      var q := Andor(Pushback(tok, rest)).value;
      ListRestKeeps(if chknl then 2 else 3, n1, q.n, q.rest);
    }
  }

  lemma {:induction false} ListRestKeeps(nlflag: nat, n1: Node, n2: Node, ts: Toks)
    requires (nlflag == 2 || nlflag == 3) && (n1 != NULL || n2 != NULL) && ListRest(nlflag, n1, n2, ts).Some?
    ensures var n := ListRest(nlflag, n1, n2, ts).value.n;
            n == Join(n1, n2) || n == Join(n1, InBackground(n2)) || n.NSEMI?
    decreases |ts|, 7
  {
    hide FindKwd, List;
    var (tok, rest) := Read(NONE, ts);
    var n := Join(n1, if tok == TBACKGND then InBackground(n2) else n2);
    if tok == TNL || tok == TBACKGND || tok == TSEMI {
      ListKeeps(nlflag, n, if tok == TNL then Pushback(tok, rest) else rest);
    }
  }

  /** What c turns into if something joins it to what follows. */
  predicate Wraps(n: Node, c: Node) {
    n == c || n.NPIPE? || n.NAND? || n.NOR? || n.NSEMI? || n.NBACKGND?
  }

  lemma {:induction false} AndorRestWraps(n1: Node, ts: Toks)
    requires AndorRest(n1, ts).Some?
    ensures Wraps(AndorRest(n1, ts).value.n, n1)
            && (AndorRest(n1, ts).value.n != n1 ==> !AndorRest(n1, ts).value.n.NPIPE?)
    decreases |ts|
  {
    hide FindKwd, Pipeline;
    var (tok, rest) := Read(NONE, ts);
    if tok == TAND || tok == TOR {
      var p := Pipeline(NLKWD, rest).value;
      AndorRestWraps(if tok == TAND then NAND(n1, p.n) else NOR(n1, p.n), p.rest);
    }
  }

  predicate CompoundStart(tok: Token) {
    tok == TLP || (tok.TKWD? && tok.k != NOT)
  }

  lemma ListStart(ts: Toks, tok: Token, ts1: Toks)
    requires Read(NLKWD, ts) == (tok, ts1) && CompoundStart(tok) && List(0, NULL, ts).Some?
    ensures var p := PipelineBody(NONE, [tok] + ts1);
            && p.Some? && AndorRest(p.value.n, p.value.rest).Some?
            && var q := AndorRest(p.value.n, p.value.rest).value;
               List(0, NULL, ts) == ListRest(2, NULL, q.n, q.rest)
  {
    hide FindKwd, PipelineBody, AndorRest, ListRest;
    ReadAny(tok, ts1);
    assert Pipeline(NONE, [tok] + ts1) == PipelineBody(NONE, [tok] + ts1);
    assert Andor([tok] + ts1).Some?;
  }

  lemma FirstCommand(tok: Token, ts1: Toks)
    requires CompoundStart(tok) && PipelineBody(NONE, [tok] + ts1).Some?
    ensures CommandFrom(tok, ts1).Some?
    ensures var n := PipelineBody(NONE, [tok] + ts1).value.n; n == CommandFrom(tok, ts1).value.n || n.NPIPE?
  {
    hide FindKwd, CommandFrom, PipeItems;
    ReadAny(tok, ts1);
  }

  /** A list that starts with a compound command. */
  lemma ListWraps(ts: Toks, tok: Token, ts1: Toks)
    requires Read(NLKWD, ts) == (tok, ts1) && CompoundStart(tok) && List(0, NULL, ts).Some?
    ensures CommandFrom(tok, ts1).Some?
    ensures CommandFrom(tok, ts1).value.n != NULL ==> Wraps(List(0, NULL, ts).value.n, CommandFrom(tok, ts1).value.n)
  {
    hide FindKwd, PipelineBody, AndorRest, ListRest, List, CommandFrom;
    ListStart(ts, tok, ts1);
    FirstCommand(tok, ts1);
    var p := PipelineBody(NONE, [tok] + ts1).value;
    AndorRestWraps(p.n, p.rest);
    var q := AndorRest(p.n, p.rest).value;
    if q.n != NULL {
      ListRestKeeps(2, NULL, q.n, q.rest);
    }
  }
}
