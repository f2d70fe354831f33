/** What the top of a node that the parser returns can look like, and how many tokens it takes to make one. */
module ShellMade {
  import opened CharClass
  import opened ShellTokens
  import opened ShellNodes
  import opened ShellGrammar
  import opened ShellPrinter
  import opened ShellRoundTrip

  predicate Fixed(rs: seq<RedirNode>) {
    forall i :: 0 <= i < |rs| ==> GoodRedir(OfRedir(rs[i]))
  }

  /** A simple command needs a token for each of its words and two for each redirection; k tokens were there. */
  predicate Made(n: Node, k: int) {
    match n
    case NCMD(vars, args, rs) =>
      && (forall i :: 0 <= i < |vars| ==> IsAssignment(vars[i].text))
      && (args != [] ==> !IsAssignment(args[0].text))
      && Fixed(rs) && |vars| + |args| + 2 * |rs| <= k
    case NPIPE(_, cmds) => |cmds| >= 2
    case NREDIR(_, rs) => rs != [] && Fixed(rs)
    case NBACKGND(_, rs) => Fixed(rs)
    case NSUBSHELL(_, rs) => Fixed(rs)
    case NFOR(_, _, x) => GoodName(x)
    case NCASE(_, cs) => forall i :: 0 <= i < |cs| ==> cs[i].pattern != []
    case NDEFUN(name, _) => GoodName(name) && name !in SPECIAL_BUILTINS
    case _ => true
  }

  lemma FixRedirGood(op: RedirOp, w: Word)
    ensures GoodRedir(OfRedir(FixRedir(op, w)))
  {}

  lemma {:induction false} RedirsFixed(f: Flags, ts: Toks)
    requires Redirs(f, ts).Some?
    ensures Fixed(Redirs(f, ts).value.rs)
    decreases |ts|
  {
    hide FindKwd, GoodRedir, FixRedir;
    var (tok, rest) := Read(f, ts);
    if tok.TREDIR? {
      var p := RedirTarget(tok.op, rest).value;
      FixRedirGood(tok.op, Read(NONE, rest).0.w);
      RedirsFixed(NONE, p.rest);
    }
  }

  lemma WordMade(vars: seq<Word>, args: seq<Word>, rs: seq<RedirNode>, w: Word, k: int)
    requires Made(NCMD(vars, args, rs), k)
    ensures args == [] && IsAssignment(w.text) ==> Made(NCMD(vars + [w], args, rs), k + 1)
    ensures args != [] || !IsAssignment(w.text) ==> Made(NCMD(vars, args + [w], rs), k + 1)
  {
    hide GoodRedir, IsAssignment;
  }

  lemma RedirMade(vars: seq<Word>, args: seq<Word>, rs: seq<RedirNode>, op: RedirOp, w: Word, k: int)
    requires Made(NCMD(vars, args, rs), k)
    ensures Made(NCMD(vars, args, rs + [FixRedir(op, w)]), k + 2)
  {
    hide GoodRedir, IsAssignment, FixRedir;
    FixRedirGood(op, w);
  }

  lemma DefunMade(name: string, body: Node, k: int)
    requires GoodName(name) && name !in SPECIAL_BUILTINS
    ensures Made(NDEFUN(name, body), k)
  {
    hide GoodName, SPECIAL_BUILTINS;
  }

  lemma {:induction false} SimpleMade(vars: seq<Word>, args: seq<Word>, rs: seq<RedirNode>, assignments: bool,
      ts: Toks, k: int)
    requires Made(NCMD(vars, args, rs), k) && assignments == (args == [])
    requires Simple(vars, args, rs, assignments, ts).Some?
    ensures var p := Simple(vars, args, rs, assignments, ts).value; Made(p.n, k + |ts| - |p.rest|)
    decreases |ts|
  {
    hide FindKwd, Made, FixRedir, IsAssignment, GoodName, SPECIAL_BUILTINS, ShellGrammar.Command;
    var (tok, rest) := Read(NONE, ts);
    var p := Simple(vars, args, rs, assignments, ts).value;
    if tok.TWORD? {
      WordMade(vars, args, rs, tok.w, k);
      if assignments && IsAssignment(tok.w.text) {
        SimpleMade(vars + [tok.w], args, rs, assignments, rest, k + 1);
      } else {
        SimpleMade(vars, args + [tok.w], rs, false, rest, k + 1);
      }
    } else if tok.TREDIR? {
      var r := RedirTarget(tok.op, rest).value;
      RedirMade(vars, args, rs, tok.op, Read(NONE, rest).0.w, k);
      SimpleMade(vars, args, rs + [r.r], assignments, r.rest, k + 2);
    } else if tok == TLP && |args| == 1 && vars == [] && rs == [] {
      DefunMade(args[0].text, p.n.dbody, k + |ts| - |p.rest|);
    } else {
      MadeOfMore(NCMD(vars, args, rs), k, k + |ts| - |p.rest|);
    }
  }

  // ---------- words and clauses ----------

  lemma {:induction false} PatternsMade(first: Token, ts: Toks)
    requires Patterns(first, ts).Some?
    ensures Patterns(first, ts).value.ws != []
  {
    hide FindKwd;
  }

  lemma {:induction false} ClausesMade(ts: Toks)
    requires Clauses(ts).Some?
    ensures forall i :: 0 <= i < |Clauses(ts).value.cs| ==> Clauses(ts).value.cs[i].pattern != []
    decreases |ts|
  {
    hide FindKwd, Patterns, List, IsKwd;
    var (tok, ts1) := Read(NLKWD, ts);
    if !IsKwd(tok, ESAC) {
      var (first, ts2) := if tok == TLP then Read(NONE, ts1) else (tok, ts1);
      PatternsMade(first, ts2);
      var p := Patterns(first, ts2).value;
      var body := List(2, NULL, p.rest).value;
      var (end, ts3) := Read(NLKWD, body.rest);
      if !IsKwd(end, ESAC) {
        ClausesMade(ts3);
      }
    }
  }

  // ---------- lists down to commands ----------

  lemma JoinMade(n1: Node, n2: Node, k1: int, k2: int, background: bool)
    requires Made(n1, k1) && Made(n2, k2) && (k1 >= 0 || n1 != NULL)
    ensures Made(Join(n1, if background then InBackground(n2) else n2), k1 + k2)
  {
    hide GoodRedir, IsAssignment, GoodName, SPECIAL_BUILTINS;
  }

  lemma MadeOfMore(n: Node, k: int, k': int)
    requires Made(n, k) && k <= k'
    ensures Made(n, k')
  {
    hide GoodRedir, IsAssignment, GoodName, SPECIAL_BUILTINS;
  }

  lemma {:induction false} ListMade(nlflag: nat, n1: Node, ts: Toks, k: int)
    requires nlflag <= 3 && Made(n1, k) && (k >= 0 || n1 != NULL) && List(nlflag, n1, ts).Some?
    ensures var p := List(nlflag, n1, ts).value; Made(p.n, k + |ts| - |p.rest|)
    decreases |ts|, 6
  {
    hide FindKwd, EndsList, Andor, ListRest, Made;
    var chknl := nlflag % 2 == 0;
    var (tok, rest) := Read(Flags(chknl, true), ts);
    var p := List(nlflag, n1, ts).value;
    if tok == TNL || tok == TEOF || (nlflag == 2 && EndsList(tok)) {
      MadeOfMore(n1, k, k + |ts| - |p.rest|);
      assert Made(NEOF, k + |ts| - |p.rest|) by { NullMade(k + |ts| - |p.rest|); }
    } else {
      var all := Pushback(tok, rest);
      AndorMade(all);
      var q := Andor(all).value;
      ListRestMade(if chknl then 2 else 3, n1, q.n, q.rest, k, |all| - |q.rest|);
      MadeOfMore(p.n, k + |all| - |p.rest|, k + |ts| - |p.rest|);
    }
  }

  lemma NullMade(k: int)
    ensures Made(NULL, k) && Made(NEOF, k)
  {}

  lemma {:induction false} ListRestMade(nlflag: nat, n1: Node, n2: Node, ts: Toks, k1: int, k2: int)
    requires (nlflag == 2 || nlflag == 3) && Made(n1, k1) && Made(n2, k2)
    requires (k1 >= 0 || n1 != NULL) && (k1 + k2 >= 0 || n1 != NULL || n2 != NULL)
    requires ListRest(nlflag, n1, n2, ts).Some?
    ensures var p := ListRest(nlflag, n1, n2, ts).value; Made(p.n, k1 + k2 + |ts| - |p.rest|)
    decreases |ts|, 7
  {
    hide FindKwd, List, Made;
    var (tok, rest) := Read(NONE, ts);
    var n := Join(n1, if tok == TBACKGND then InBackground(n2) else n2);
    JoinMade(n1, n2, k1, k2, tok == TBACKGND);
    var p := ListRest(nlflag, n1, n2, ts).value;
    if tok == TNL || tok == TBACKGND || tok == TSEMI {
      var next := if tok == TNL then Pushback(tok, rest) else rest;
      ListMade(nlflag, n, next, k1 + k2);
      MadeOfMore(p.n, k1 + k2 + |next| - |p.rest|, k1 + k2 + |ts| - |p.rest|);
    } else {
      MadeOfMore(n, k1 + k2, k1 + k2 + |ts| - |p.rest|);
    }
  }

  lemma {:induction false} AndorMade(ts: Toks)
    requires Andor(ts).Some?
    ensures var p := Andor(ts).value; Made(p.n, |ts| - |p.rest|)
    decreases |ts|, 5
  {
    hide FindKwd, Pipeline, AndorRest, Made;
    PipelineMade(NONE, ts);
    var p := Pipeline(NONE, ts).value;
    AndorRestMade(p.n, p.rest, |ts| - |p.rest|);
  }

  lemma {:induction false} AndorRestMade(n1: Node, ts: Toks, k: int)
    requires Made(n1, k) && AndorRest(n1, ts).Some?
    ensures var p := AndorRest(n1, ts).value; Made(p.n, k + |ts| - |p.rest|)
    decreases |ts|, 4
  {
    hide FindKwd, Pipeline, Made;
    var (tok, rest) := Read(NONE, ts);
    if tok == TAND || tok == TOR {
      var p := Pipeline(NLKWD, rest).value;
      var n := if tok == TAND then NAND(n1, p.n) else NOR(n1, p.n);
      var k' := k + |ts| - |p.rest|;
      assert Made(n, k') by { PairMade(n1, p.n, k'); }
      AndorRestMade(n, p.rest, k');
    } else {
      var p := AndorRest(n1, ts).value;
      MadeOfMore(n1, k, k + |ts| - |p.rest|);
    }
  }

  lemma PairMade(n1: Node, n2: Node, k: int)
    ensures Made(NAND(n1, n2), k) && Made(NOR(n1, n2), k) && Made(NNOT(n1), k)
  {}

  lemma {:induction false} PipelineMade(f: Flags, ts: Toks)
    requires Pipeline(f, ts).Some?
    ensures var p := Pipeline(f, ts).value; Made(p.n, |ts| - |p.rest|)
    decreases |ts|, 4
  {
    hide FindKwd, PipelineBody, Made;
    var (tok, rest) := Read(f, ts);
    var p := Pipeline(f, ts).value;
    if IsKwd(tok, NOT) {
      PairMade(PipelineBody(KWD, rest).value.n, NULL, |ts| - |p.rest|);
    } else {
      var all := Pushback(tok, rest);
      PipelineBodyMade(NONE, all);
      MadeOfMore(p.n, |all| - |p.rest|, |ts| - |p.rest|);
    }
  }

  lemma {:induction false} PipelineBodyMade(f: Flags, ts: Toks)
    requires PipelineBody(f, ts).Some?
    ensures var p := PipelineBody(f, ts).value; Made(p.n, |ts| - |p.rest|)
    decreases |ts|, 3
  {
    hide FindKwd, PipeItems, ShellGrammar.Command, GoodRedir, IsAssignment, GoodName, SPECIAL_BUILTINS;
    CommandMade(f, ts);
    var p := ShellGrammar.Command(f, ts).value;
    var (tok, rest) := Read(NONE, p.rest);
    if tok == TPIPE {
      ItemsMade(rest);
    }
  }

  lemma ItemsMade(ts: Toks)
    requires PipeItems(ts).Some?
    ensures PipeItems(ts).value.ns != []
  {
    hide FindKwd, ShellGrammar.Command;
  }

  lemma {:induction false} CommandMade(f: Flags, ts: Toks)
    requires ShellGrammar.Command(f, ts).Some?
    ensures var p := ShellGrammar.Command(f, ts).value; Made(p.n, |ts| - |p.rest|)
    decreases |ts|, 2
  {
    hide FindKwd, CommandFrom, Made;
    var (tok, rest) := Read(f, ts);
    var p := ShellGrammar.Command(f, ts).value;
    CommandFromMade(tok, rest);
    MadeOfMore(p.n, |rest| + 1 - |p.rest|, |ts| - |p.rest|);
  }

  lemma {:induction false} CommandFromMade(tok: Token, ts: Toks)
    requires tok != TEOF && CommandFrom(tok, ts).Some?
    ensures var p := CommandFrom(tok, ts).value; Made(p.n, |ts| + 1 - |p.rest|)
    ensures var p := CommandFrom(tok, ts).value;
            tok.TKWD? ==> Made(p.n, |ts| - |p.rest| - 1) && (p.n != NULL || |p.rest| < |ts|)
    decreases |ts| + 1, 1
  {
    hide FindKwd, Compound, Simple, Redirected, Made;
    var p := CommandFrom(tok, ts).value;
    if StartsSimple(tok) {
      assert Made(NCMD([], [], []), 0) by { NothingMade(); }
      SimpleMade([], [], [], true, [tok] + ts, 0);
    } else {
      CompoundMade(tok, ts);
      var q := Compound(tok, ts).value;
      RedirectedMade(q.n, q.rest, |ts| - |q.rest| - 1);
      MadeOfMore(p.n, |ts| - |p.rest| - 1, |ts| + 1 - |p.rest|);
    }
  }

  lemma NothingMade()
    ensures Made(NCMD([], [], []), 0)
  {}

  lemma RedirectedMade(n: Node, ts: Toks, k: int)
    requires Made(n, k) && Redirected(n, ts).Some?
    ensures var p := Redirected(n, ts).value; Made(p.n, k + |ts| - |p.rest|) && (p.n == NULL ==> n == NULL)
  {
    hide FindKwd, Redirs, GoodRedir, IsAssignment, GoodName, SPECIAL_BUILTINS;
    RedirsFixed(KWD, ts);
  }

  /** The closing token is none of those that made the node. */
  lemma {:induction false} CompoundMade(tok: Token, ts: Toks)
    requires Compound(tok, ts).Some?
    ensures var p := Compound(tok, ts).value; Made(p.n, |ts| - |p.rest| - 1) && (p.n != NULL || |p.rest| < |ts|)
    decreases |ts| + 1, 0
  {
    hide FindKwd, List, Made, WhilePart, IfPart, ForPart, CasePart;
    var p := Compound(tok, ts).value;
    if tok.TKWD? && tok.k == BEGIN {
      NullMade(0);
      ListMade(0, NULL, ts, 0);
      var q := List(0, NULL, ts).value;
      MadeOfMore(q.n, |ts| - |q.rest|, |ts| - |p.rest| - 1);
    } else {
      OtherMade(tok, ts);
    }
  }

  /** Each other construct has a node of its own. */
  lemma OtherMade(tok: Token, ts: Toks)
    requires Compound(tok, ts).Some? && !(tok.TKWD? && tok.k == BEGIN)
    ensures var p := Compound(tok, ts).value; Made(p.n, |ts| - |p.rest| - 1) && p.n != NULL
  {
    hide FindKwd, List, IfPart, ForWords, DoBody, Clauses, IsKwd, IsAssignment, GoodName, SPECIAL_BUILTINS;
    if tok.TKWD? && tok.k == CASE {
      var ts2 := Read(NLKWD, Read(NONE, ts).1).1;
      ClausesMade(ts2);
    } else if tok.TKWD? && tok.k == IF {
      IfPartMade(ts);
    }
  }

  lemma IfPartMade(ts: Toks)
    requires IfPart(ts).Some?
    ensures IfPart(ts).value.n.NIF?
  {
    hide FindKwd, List;
  }
}
