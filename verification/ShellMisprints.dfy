/**
 * What a printed tree parses to when redirections or a background sign follow it, and which trees that are put
 * together from printable ones come back: only the printable ones.
 */
module ShellMisprints {
  import opened Option
  import opened CharClass
  import opened ShellTokens
  import opened ShellNodes
  import opened ShellGrammar
  import opened ShellPrinter
  import opened ShellRoundTrip
  import opened ShellSteps
  import opened ShellParseBack
  import opened ShellChains
  import opened ShellAfter
  import opened ShellStarts
  import opened ShellMade

  /** The printed tree parses to node n. */
  ghost predicate ReparsesTo(a: Ast, n: Node, end: Toks)
    requires Closing(end)
  {
    List(0, NULL, Print(a) + end) == Gives(n, LeftBy(end))
  }

  // ---------- whole trees ----------

  /** One compound command by itself. */
  lemma WholeItem(first: Token, body: Toks, n: Node, end: Toks)
    requires first == TLP || first == Kwd(BEGIN)
    requires Compound(Promote(first), body) == Gives(n, end) && Closing(end)
    ensures List(0, NULL, [first] + body) == Gives(n, LeftBy(end))
  {
    hide FindKwd, List, ListRest, Compound, CommandFrom, Andor, Pipeline;
    var tok := Promote(first);
    assert tok == TLP || tok == Key(BEGIN);
    CloseList(NULL, n, end);
    NoRedirs(end);
    StepCompound(tok, body, n, end, [], end);
    DropFirst(first, body);
    var seen := [tok] + body;
    ReadBack(tok, body);
    StepCommand(NONE, seen, tok, body, n, end);
    StepItem(seen, n, end);
    StepList(0, NULL, [first] + body, tok, body, n, end);
  }

  lemma RedirReparses(b: Ast, rs: seq<Redirection>, end: Toks)
    requires Printable(b) && Closing(end)
    ensures ReparsesTo(Redir(b, rs), Join(Before(b), LastNode(b, rs)), end)
  {
    hide FindKwd, Printable, PrintRedirs, List, ListRest, LastNode, Before;
    RedirPrint(b, rs);
    hide Print;
    CloseList(Before(b), LastNode(b, rs), end);
    ListOfPrinted(b, rs, end);
  }

  lemma BackgroundReparses(b: Ast, rs: seq<Redirection>, end: Toks)
    requires Printable(b) && Closing(end)
    ensures ReparsesTo(Background(b, rs), Join(Before(b), InBackground(LastNode(b, rs))), end)
  {
    hide FindKwd, Print, Printable, PrintWith, List, ListRest, LastNode, Before, Compound;
    var a := Background(b, rs);
    var close := [TBACKGND, Kwd(END)] + end;
    var n := Join(Before(b), InBackground(LastNode(b, rs)));
    BackgroundTokens(a, end);
    ListOfPrinted(b, rs, close);
    StepListEnds(Before(b), LastNode(b, rs), TBACKGND, END, end);
    StepBegin(Word(Spelling(BEGIN), false), PrintWith(b, rs) + close, n, end);
    BackgroundStart(b, rs, end);
    WholeItem(Kwd(BEGIN), PrintWith(b, rs) + close, n, end);
  }

  lemma BackgroundStart(b: Ast, rs: seq<Redirection>, end: Toks)
    ensures Print(Background(b, rs)) + end == [Kwd(BEGIN)] + (PrintWith(b, rs) + ([TBACKGND, Kwd(END)] + end))
  {
    var p, close := PrintWith(b, rs), [TBACKGND, Kwd(END)];
    assert Print(Background(b, rs)) == [Kwd(BEGIN)] + (p + close);
    hide Print, PrintWith;
    Assoc([Kwd(BEGIN)], p + close, end);
    Assoc(p, close, end);
  }

  lemma SubshellStart(b: Ast, rs: seq<Redirection>, end: Toks)
    ensures Print(Subshell(b, rs)) + end == [TLP] + (PrintWith(b, rs) + ([TRP] + end))
  {
    var p := PrintWith(b, rs);
    assert Print(Subshell(b, rs)) == [TLP] + (p + [TRP]);
    hide Print, PrintWith;
    Assoc([TLP], p + [TRP], end);
    Assoc(p, [TRP], end);
  }

  lemma SubshellReparses(b: Ast, rs: seq<Redirection>, end: Toks)
    requires Printable(b) && Closing(end)
    ensures ReparsesTo(Subshell(b, rs), NSUBSHELL(Join(Before(b), LastNode(b, rs)), []), end)
  {
    hide FindKwd, Print, Printable, PrintWith, List, ListRest, LastNode, Before, Compound;
    var close := [TRP] + end;
    var n := Join(Before(b), LastNode(b, rs));
    ListOfPrinted(b, rs, close);
    StepListStops(Before(b), LastNode(b, rs), TRP, end);
    StepSubshell(PrintWith(b, rs) + close, n, end);
    SubshellStart(b, rs, end);
    WholeItem(TLP, PrintWith(b, rs) + close, NSUBSHELL(n, []), end);
  }

  // ---------- which trees come back ----------

  /** Parsing the printed tokens gives the tree, and leaves what closes the list. */
  ghost predicate ComesBack(a: Ast, end: Toks)
    requires Closing(end)
  {
    var r := List(0, NULL, Print(a) + end);
    r.Some? && OfNode(r.value.n) == a && r.value.rest == LeftBy(end)
  }

  /** The parts of the tree are printable; where the grammar has nothing there may be nothing. */
  predicate Parts(a: Ast) {
    match a
    case Skip | Command(_, _, _) => true
    case Pipe(_, ps) => AllPrintable(ps)
    case Redir(b, _) => Printable(b)
    case Background(b, _) => Printable(b)
    case Subshell(b, _) => Printable(b)
    case And(l, r) => Printable(l) && Printable(r)
    case Or(l, r) => Printable(l) && Printable(r)
    case Not(b) => Printable(b)
    case Semi(l, r) => Printable(l) && Printable(r)
    case If(c, t, e) => Printable(c) && Printable(t) && (e == Skip || Printable(e))
    case While(test, body) => Printable(test) && Printable(body)
    case For(_, body, _) => Printable(body)
    case Case(_, arms) => BodiesPrintable(arms)
    case Defun(_, body) => Printable(body)
  }

  predicate BodiesPrintable(arms: seq<Arm>) {
    forall i :: 0 <= i < |arms| ==> arms[i].body == Skip || Printable(arms[i].body)
  }

  lemma {:induction false} OfRedirsAt(rs: seq<RedirNode>)
    ensures |OfRedirs(rs)| == |rs| && forall i :: 0 <= i < |rs| ==> OfRedirs(rs)[i] == OfRedir(rs[i])
  {
    if rs != [] {
      OfRedirsAt(rs[1..]);
    }
  }

  lemma FixedGood(rs: seq<RedirNode>)
    requires Fixed(rs)
    ensures GoodRedirs(OfRedirs(rs))
  {
    hide GoodRedir, OfRedir;
    OfRedirsAt(rs);
  }

  /** What came back was made of as many tokens as were printed, and the separator after them. */
  lemma BackMade(a: Ast, end: Toks)
    requires Closing(end) && ComesBack(a, end)
    ensures Made(List(0, NULL, Print(a) + end).value.n, |Print(a)| + 1)
  {
    hide FindKwd, Print, List, Made, OfNode;
    NullMade(0);
    ListMade(0, NULL, Print(a) + end, 0);
    MadeOfMore(List(0, NULL, Print(a) + end).value.n, |Print(a)| + |end| - |LeftBy(end)|, |Print(a)| + 1);
  }

  lemma RedirBack(b: Ast, rs: seq<Redirection>, end: Toks)
    requires Printable(b) && Closing(end)
    ensures ComesBack(Redir(b, rs), end) <==> Printable(Redir(b, rs))
    ensures ComesBack(Redir(b, rs), end) <==> OfNode(Join(Before(b), LastNode(b, rs))) == Redir(b, rs)
  {
    hide FindKwd, Print, List, GoodRedir, IsAssignment;
    RedirReparses(b, rs, end);
    if Printable(Redir(b, rs)) {
      RoundTrip(Redir(b, rs), end);
    }
    if ComesBack(Redir(b, rs), end) {
      BackMade(Redir(b, rs), end);
      var n := Join(Before(b), LastNode(b, rs));
      FixedGood(n.redirect);
      RedirOnly(b, rs);
    }
  }

  lemma RedirOnly(b: Ast, rs: seq<Redirection>)
    requires Printable(b) && rs != [] && OfNode(Join(Before(b), LastNode(b, rs))) == Redir(b, rs)
    ensures TakesRedirs(b)
  {
    hide FindKwd, GoodRedirs, GoodCommand, ToRedirs, OfRedirs, ToAssigns, OfAssigns, PipeNodes, ToNodes, OfNodes;
    hide PrintablePipe, PrintableArms, ToClauses, OfClauses;
    if b.Redir? {
      NodeRoundTrip(b.a);
    }
  }

  lemma BackgroundBack(b: Ast, rs: seq<Redirection>, end: Toks)
    requires Printable(b) && Closing(end)
    ensures ComesBack(Background(b, rs), end) <==> Printable(Background(b, rs))
    ensures ComesBack(Background(b, rs), end)
            <==> OfNode(Join(Before(b), InBackground(LastNode(b, rs)))) == Background(b, rs)
  {
    hide FindKwd, Print, List, GoodRedir, IsAssignment;
    BackgroundReparses(b, rs, end);
    if Printable(Background(b, rs)) {
      RoundTrip(Background(b, rs), end);
    }
    if ComesBack(Background(b, rs), end) {
      BackMade(Background(b, rs), end);
      var n := Join(Before(b), InBackground(LastNode(b, rs)));
      FixedGood(n.redirect);
      BackgroundOnly(b, rs);
    }
  }

  lemma BackgroundOnly(b: Ast, rs: seq<Redirection>)
    requires Printable(b) && OfNode(Join(Before(b), InBackground(LastNode(b, rs)))) == Background(b, rs)
    ensures if rs == [] then !b.Pipe? && !b.Redir? && !b.Semi? else TakesRedirs(b)
  {
    hide FindKwd, GoodRedirs, GoodCommand, ToAssigns, OfAssigns, PipeNodes, ToNodes, OfNodes, ToClauses, OfClauses;
    hide PrintablePipe, PrintableArms;
    if rs == [] {
      PlainLast(b);
      hide LastNode;
    } else if b.Redir? {
      NodeRoundTrip(b.a);
    }
  }

  lemma SubshellBack(b: Ast, rs: seq<Redirection>, end: Toks)
    requires Printable(b) && Closing(end)
    ensures ComesBack(Subshell(b, rs), end) <==> Printable(Subshell(b, rs))
    ensures ComesBack(Subshell(b, rs), end)
            <==> OfNode(NSUBSHELL(Join(Before(b), LastNode(b, rs)), [])) == Subshell(b, rs)
  {
    hide FindKwd, Print, List, LastNode, Before;
    SubshellReparses(b, rs, end);
    if Printable(Subshell(b, rs)) {
      RoundTrip(Subshell(b, rs), end);
    }
  }

  // ---------- some of the shapes that do not ----------

  /** Redirections around a sequence end up on its second half alone. */
  lemma SequenceRedirected(l: Ast, r: Ast, rs: seq<Redirection>, end: Toks)
    requires Printable(l) && Printable(r) && Closing(end)
    ensures var n := NSEMI(ToNode(l), WithRedirs(ToNode(r), ToRedirs(rs)));
            ReparsesTo(Redir(Semi(l, r), rs), n, end) && OfNode(n) != Redir(Semi(l, r), rs)
  {
    hide FindKwd, Print, List, ToRedirs, WithRedirs, InBackground, ToNode, OfNodes, OfRedirs, OfAssigns, OfClauses;
    NodeNotNull(l);
    RedirReparses(Semi(l, r), rs, end);
  }

  /** A sequence in the background leaves its first half in the foreground. */
  lemma SequenceInBackground(l: Ast, r: Ast, rs: seq<Redirection>, end: Toks)
    requires Printable(l) && Printable(r) && Closing(end)
    ensures var n := NSEMI(ToNode(l), InBackground(WithRedirs(ToNode(r), ToRedirs(rs))));
            ReparsesTo(Background(Semi(l, r), rs), n, end) && OfNode(n) != Background(Semi(l, r), rs)
  {
    hide FindKwd, Print, List, ToRedirs, WithRedirs, InBackground, ToNode, OfNodes, OfRedirs, OfAssigns, OfClauses;
    NodeNotNull(l);
    BackgroundReparses(Semi(l, r), rs, end);
  }

  /** A pipeline in a background node turns into a backgrounded pipeline, whose last command has the redirections. */
  lemma PipeInBackground(ps: seq<Ast>, rs: seq<Redirection>, end: Toks)
    requires |ps| >= 2 && PrintablePipe(ps) && Closing(end)
    ensures var n := NPIPE(true, PipeNodes(ps, rs));
            ReparsesTo(Background(Pipe(false, ps), rs), n, end) && OfNode(n) != Background(Pipe(false, ps), rs)
  {
    hide FindKwd, Print, List, PrintablePipe;
    BackgroundReparses(Pipe(false, ps), rs, end);
  }

  /** Redirections of a subshell are printed inside its parentheses, so they move to what is last there. */
  lemma SubshellRedirected(b: Ast, rs: seq<Redirection>, end: Toks)
    requires Printable(b) && rs != [] && Closing(end)
    ensures var n := NSUBSHELL(Join(Before(b), LastNode(b, rs)), []);
            ReparsesTo(Subshell(b, rs), n, end) && OfNode(n) != Subshell(b, rs)
  {
    hide FindKwd, Print, List, Before, LastNode;
    SubshellReparses(b, rs, end);
  }

  // ---------- simple commands ----------

  lemma OfAssignGood(w: Word)
    requires IsAssignment(w.text)
    ensures GoodAssign(OfAssign(w))
  {
    NameLengthPrefix(w.text);
  }

  lemma {:induction false} OfAssignsGood(ws: seq<Word>)
    requires forall i :: 0 <= i < |ws| ==> IsAssignment(ws[i].text)
    ensures |OfAssigns(ws)| == |ws| && forall i :: 0 <= i < |ws| ==> GoodAssign(OfAssigns(ws)[i])
  {
    hide GoodAssign, IsAssignment;
    if ws != [] {
      OfAssignGood(ws[0]);
      OfAssignsGood(ws[1..]);
    }
  }

  lemma {:induction false} PrintLengths(assigns: seq<Assign>, args: seq<Word>, rs: seq<Redirection>)
    ensures |PrintAssigns(assigns)| == |assigns| && |PrintWords(args)| == |args| && |PrintRedirs(rs)| == 2 * |rs|
    decreases |assigns| + |args| + |rs|
  {
    if assigns != [] {
      PrintLengths(assigns[1..], args, rs);
    } else if args != [] {
      PrintLengths(assigns, args[1..], rs);
    } else if rs != [] {
      PrintLengths(assigns, args, rs[1..]);
    }
  }

  /** What starts with a keyword has two tokens less to make a simple command of. */
  lemma KeywordMade(ts: Toks, tok: Token, ts1: Toks)
    requires Read(NLKWD, ts) == (tok, ts1) && tok.TKWD? && List(0, NULL, ts).Some?
    ensures var p := List(0, NULL, ts).value; Made(p.n, |ts1| - |p.rest| - 1)
  {
    hide FindKwd, Andor, ListRest, Made;
    var seen := [tok] + ts1;
    KeywordItemMade(tok, ts1);
    var q := Andor(seen).value;
    NullMade(0);
    ListRestMade(2, NULL, q.n, q.rest, 0, |ts1| - |q.rest| - 1);
  }

  lemma KeywordItemMade(tok: Token, ts: Toks)
    requires tok.TKWD? && Andor([tok] + ts).Some?
    ensures var p := Andor([tok] + ts).value; Made(p.n, |ts| - |p.rest| - 1) && (p.n != NULL || |p.rest| < |ts|)
  {
    hide FindKwd, PipelineBody, AndorRest, Made;
    ReadAny(tok, ts);
    var p := Pipeline(NONE, [tok] + ts).value;
    if IsKwd(tok, NOT) {
      PairMade(PipelineBody(KWD, ts).value.n, NULL, |ts| - |p.rest| - 1);
    } else {
      KeywordPipelineMade(tok, ts);
    }
    AndorRestMade(p.n, p.rest, |ts| - |p.rest| - 1);
    AndorRestNull(p.n, p.rest);
  }

  lemma {:induction false} AndorRestNull(n: Node, ts: Toks)
    requires AndorRest(n, ts).Some?
    ensures AndorRest(n, ts).value.n == NULL ==> n == NULL
    decreases |ts|
  {
    hide FindKwd, Pipeline;
    var (tok, rest) := Read(NONE, ts);
    if tok == TAND || tok == TOR {
      var p := Pipeline(NLKWD, rest).value;
      AndorRestNull(if tok == TAND then NAND(n, p.n) else NOR(n, p.n), p.rest);
    }
  }

  lemma KeywordPipelineMade(tok: Token, ts: Toks)
    requires tok.TKWD? && PipelineBody(NONE, [tok] + ts).Some?
    ensures var p := PipelineBody(NONE, [tok] + ts).value;
            Made(p.n, |ts| - |p.rest| - 1) && (p.n != NULL || |p.rest| < |ts|)
  {
    hide FindKwd, PipeItems, CommandFrom, GoodRedir, IsAssignment, GoodName, SPECIAL_BUILTINS;
    ReadAny(tok, ts);
    CommandFromMade(tok, ts);
    var p := CommandFrom(tok, ts).value;
    var (next, rest) := Read(NONE, p.rest);
    if next == TPIPE {
      ItemsMade(rest);
    }
  }

  /** Nothing at all is no list, except at the end of the input. */
  lemma NothingPrinted(end: Toks)
    requires Closing(end)
    ensures List(0, NULL, end) == if end == [] || end == [TNL] then Gives(NULL, []) else None
  {
    hide FindKwd, Andor;
    if end != [] && end != [TNL] {
      var seen := if end[0] == TNL then end[1..] else end;
      var tok := Promote(seen[0]);
      NoItem(tok, seen[1..]);
      assert SkipNewlines(end) == seen && seen[0] != TEOF;
    }
  }

  lemma NoItem(tok: Token, ts: Toks)
    requires tok in {TSEMI, TRP, TENDCASE} || (tok.TKWD? && EndsList(tok))
    ensures Andor([tok] + ts) == None
  {
    hide FindKwd;
    ReadAny(tok, ts);
    assert Compound(tok, ts) == None;
    assert ShellGrammar.Command(NONE, [tok] + ts) == None;
    assert PipelineBody(NONE, [tok] + ts) == None;
  }

  lemma CommandBack(a: Ast, end: Toks)
    requires a.Command? && Closing(end)
    ensures ComesBack(a, end) <==> Printable(a)
  {
    hide FindKwd, Print, List, GoodRedir, IsAssignment, GoodAssign, Promote, GoodCommand;
    if Printable(a) {
      RoundTrip(a, end);
    }
    if ComesBack(a, end) {
      CommandOnly(a, end);
    }
  }

  lemma CommandOnly(a: Ast, end: Toks)
    requires Closing(end) && a.Command? && ComesBack(a, end)
    ensures GoodCommand(a.assigns, a.args, a.credirs)
  {
    hide FindKwd, List, GoodRedir, IsAssignment, GoodAssign, PrintAssigns, PrintWords, PrintRedirs;
    var Command(assigns, args, redirs) := a;
    PrintLengths(assigns, args, redirs);
    var all := Print(a) + end;
    var n := List(0, NULL, all).value.n;
    BackMade(a, end);
    OfAssignsGood(n.assign);
    OfRedirsAt(n.redirect);
    FixedGood(n.redirect);
    if |Print(a)| == 0 {
      assert all == end;
      NothingPrinted(end);
    }
    if assigns == [] && args != [] && IsKeyword(args[0]) {
      KeywordFirst(a, end);
      KeywordMade(all, Read(NLKWD, all).0, Read(NLKWD, all).1);
    }
  }

  lemma KeywordFirst(a: Ast, end: Toks)
    requires a.Command? && a.assigns == [] && a.args != [] && IsKeyword(a.args[0])
    ensures var r := Read(NLKWD, Print(a) + end); r.0.TKWD? && |r.1| == |Print(a)| + |end| - 1
  {
    hide FindKwd, PrintRedirs;
    assert Print(a)[0] == TWORD(a.args[0]);
  }

  // ---------- for, case and functions ----------

  lemma ForBack(a: Ast, end: Toks)
    requires a.For? && Printable(a.body) && Closing(end)
    ensures ComesBack(a, end) <==> Printable(a)
  {
    hide FindKwd, Print, List, GoodName;
    if Printable(a) {
      RoundTrip(a, end);
    }
    if ComesBack(a, end) {
      BackMade(a, end);
      if a.x == "" {
        NamelessFor(a, end);
      }
    }
  }

  /** Without a name the keyword `in` is taken for the variable. */
  lemma NamelessFor(a: Ast, end: Toks)
    requires a.For? && a.x == ""
    ensures List(0, NULL, Print(a) + end).Some? ==>
              var n := List(0, NULL, Print(a) + end).value.n; n.NFOR? ==> n.fvar == "in"
  {
    hide FindKwd, List, CommandFrom;
    var rest := PrintWords(a.fargs) + PrintDo(a.body);
    var ts1 := [Kwd(IN)] + (rest + end);
    var all := Print(a) + end;
    assert all == [Kwd(FOR)] + ts1 by {
      assert Print(a) == [Kwd(FOR)] + ([] + ([Kwd(IN)] + rest));
    }
    hide Print, PrintDo, PrintWords;
    ReadKwd(NLKWD, FOR, ts1);
    if List(0, NULL, all).Some? {
      ListWraps(all, Key(FOR), ts1);
      ForVariable(Kwd(IN), rest + end);
    }
  }

  lemma ForVariable(name: Token, ts: Toks)
    requires name.TWORD? && CommandFrom(Key(FOR), [name] + ts).Some?
    ensures var n := CommandFrom(Key(FOR), [name] + ts).value.n; n != NULL && (n.NFOR? ==> n.fvar == name.w.text)
  {
    hide FindKwd, ForWords, DoBody, Redirs, GoodName;
    ReadAny(name, ts);
    assert ForPart([name] + ts).Some?;
  }

  /** Clauses end at a pattern that reads as `esac`, and there is none without a pattern. */
  lemma {:induction false} FewerClauses(arms: seq<Arm>, ts: Toks)
    requires BodiesPrintable(arms) && !PrintableArms(arms)
    ensures var r := Clauses(PrintArms(arms) + ts); r.Some? ==> |r.value.cs| < |arms|
    decreases |arms|
  {
    hide FindKwd, Print, PrintArms, Printable, List, Patterns, Clauses, ToNode;
    var Arm(pats, body) := arms[0];
    var ts3 := PrintArms(arms[1..]) + ts;
    var ts2 := Print(body) + ([TENDCASE] + ts3);
    var all := PrintPats(pats) + ([TRP] + ts2);
    ArmTokens(arms, ts);
    if pats == [] {
      NoPattern(ts2);
      assert all == [TRP] + ts2;
    } else if pats[0] == Word("esac", false) {
      EsacFirst(pats, [TRP] + ts2);
    } else {
      var first := Promote(TWORD(pats[0]));
      FirstPattern(pats, [TRP] + ts2);
      PatsOf(first, pats, ts2);
      ArmBody(body, ts3);
      FewerClauses(arms[1..], ts);
      StepClauses(all, first, all[1..], pats, ts2, ToNode(body), ts3);
    }
  }

  lemma ArmTokens(arms: seq<Arm>, ts: Toks)
    requires arms != []
    ensures PrintArms(arms) + ts
            == PrintPats(arms[0].pats) + ([TRP] + (Print(arms[0].body) + ([TENDCASE] + (PrintArms(arms[1..]) + ts))))
  {
    var p, b, rest := PrintPats(arms[0].pats), Print(arms[0].body), PrintArms(arms[1..]);
    assert PrintArms(arms) == p + ([TRP] + (b + ([TENDCASE] + rest)));
    hide Print, PrintArms, PrintPats;
    Assoc(p, [TRP] + (b + ([TENDCASE] + rest)), ts);
    Assoc([TRP], b + ([TENDCASE] + rest), ts);
    Assoc(b, [TENDCASE] + rest, ts);
    Assoc([TENDCASE], rest, ts);
  }

  lemma NoPattern(ts: Toks)
    ensures Clauses([TRP] + ts) == None
  {
    hide FindKwd;
    assert Read(NLKWD, [TRP] + ts) == (TRP, ts) by { assert ([TRP] + ts)[1..] == ts; }
    assert Patterns(TRP, ts) == None;
  }

  lemma EsacFirst(pats: seq<Word>, ts: Toks)
    requires pats != [] && pats[0] == Word("esac", false)
    ensures var r := Clauses(PrintPats(pats) + ts); r.Some? && r.value.cs == []
  {
    hide List, Patterns;
    assert (PrintPats(pats) + ts)[0] == Kwd(ESAC);
  }

  lemma StepClauses(ts: Toks, first: Token, ts1: Toks, ws: seq<Word>, ts2: Toks, body: Node, ts3: Toks)
    requires Read(NLKWD, ts) == (first, ts1) && !IsKwd(first, ESAC) && WordOf(first).Some?
    requires Patterns(first, ts1) == Some(ParsedWords(ws, TRP, ts2))
    requires List(2, NULL, ts2) == Gives(body, [TENDCASE] + ts3)
    ensures Clauses(ts).Some? ==> Clauses(ts3).Some? && |Clauses(ts).value.cs| == 1 + |Clauses(ts3).value.cs|
  {
    hide FindKwd, List, Patterns;
    assert Read(NLKWD, [TENDCASE] + ts3) == (TENDCASE, ts3) by {
      assert ([TENDCASE] + ts3)[1..] == ts3;
    }
  }

  lemma {:induction false} OfClausesLength(cs: seq<Clause>)
    ensures |OfClauses(cs)| == |cs|
  {
    hide OfNode;
    if cs != [] {
      OfClausesLength(cs[1..]);
    }
  }

  lemma CaseBack(a: Ast, end: Toks)
    requires a.Case? && BodiesPrintable(a.arms) && Closing(end)
    ensures ComesBack(a, end) <==> Printable(a)
  {
    hide FindKwd, Print, List, PrintableArms;
    if Printable(a) {
      RoundTrip(a, end);
    } else if ComesBack(a, end) {
      FewerArms(a, end);
      OfClausesLength(List(0, NULL, Print(a) + end).value.n.cases);
    }
  }

  lemma FewerArms(a: Ast, end: Toks)
    requires a.Case? && BodiesPrintable(a.arms) && !PrintableArms(a.arms)
    ensures List(0, NULL, Print(a) + end).Some? ==>
              var n := List(0, NULL, Print(a) + end).value.n; n.NCASE? ==> |n.cases| < |a.arms|
  {
    var all, ts2 := Print(a) + end, PrintArms(a.arms) + end;
    var ts1 := [TWORD(a.expr), Kwd(IN)] + ts2;
    assert all == [Kwd(CASE)] + ts1 by {
      assert Print(a) == [Kwd(CASE), TWORD(a.expr), Kwd(IN)] + PrintArms(a.arms);
    }
    hide FindKwd, Print, PrintArms, List, CommandFrom, PrintableArms, Clauses;
    ReadKwd(NLKWD, CASE, ts1);
    FewerClauses(a.arms, end);
    if List(0, NULL, all).Some? {
      ListWraps(all, Key(CASE), ts1);
      CaseClauses(a.expr, ts2);
    }
  }

  lemma CaseClauses(expr: Word, ts: Toks)
    requires CommandFrom(Key(CASE), [TWORD(expr), Kwd(IN)] + ts).Some?
    ensures var n := CommandFrom(Key(CASE), [TWORD(expr), Kwd(IN)] + ts).value.n;
            n != NULL && (n.NCASE? ==> Clauses(ts).Some? && n.cases == Clauses(ts).value.cs)
  {
    hide FindKwd, Clauses, Redirs;
    var ts1 := [Kwd(IN)] + ts;
    assert [TWORD(expr), Kwd(IN)] + ts == [TWORD(expr)] + ts1;
    ReadAny(TWORD(expr), ts1);
    ReadKwd(NLKWD, IN, ts);
    assert CasePart([TWORD(expr)] + ts1).Some?;
  }

  lemma DefunBack(a: Ast, end: Toks)
    requires a.Defun? && Printable(a.body) && Closing(end)
    ensures ComesBack(a, end) <==> Printable(a)
  {
    hide FindKwd, Print, List, GoodName, SPECIAL_BUILTINS;
    if Printable(a) {
      RoundTrip(a, end);
    } else if ComesBack(a, end) {
      BackMade(a, end);
      NoSuchFunction(a, end);
    }
  }

  /** No list starts with parentheses around nothing, alone or after a keyword. */
  lemma NoSuchFunction(a: Ast, end: Toks)
    requires a.Defun? && GoodName(a.name) && (a.name == "" || FindKwd(a.name) != None)
    ensures List(0, NULL, Print(a) + end) == None
  {
    hide FindKwd, List, CommandFrom;
    var rest := [Kwd(BEGIN), TNL] + (Print(a.body) + [TNL, Kwd(END)]);
    var ts1 := [TRP] + (rest + end);
    var all := Print(a) + end;
    assert all == PrintName(a.name) + ([TLP] + ts1) by {
      assert Print(a) == PrintName(a.name) + ([TLP, TRP, Kwd(BEGIN), TNL] + (Print(a.body) + [TNL, Kwd(END)]));
    }
    hide Print;
    NoParens(rest + end);
    if a.name == "" {
      assert all == [TLP] + ts1;
      assert Read(NLKWD, all) == (TLP, ts1) by { assert all[1..] == ts1; }
      if List(0, NULL, all).Some? {
        ListWraps(all, TLP, ts1);
      }
    } else {
      var w := Word(a.name, false);
      var tok := TKWD(FindKwd(a.name).value, w);
      assert Read(NLKWD, all) == (tok, [TLP] + ts1) by { assert all[1..] == [TLP] + ts1; }
      NoKeyword(a.name, rest + end);
      if List(0, NULL, all).Some? {
        ListWraps(all, tok, [TLP] + ts1);
      }
    }
  }

  lemma NoParens(ts: Toks)
    ensures CommandFrom(TLP, [TRP] + ts) == None
    ensures List(0, NULL, [TLP, TRP] + ts) == None
  {
    hide FindKwd, PrintRedirs, ListRest;
    var ts1 := [TRP] + ts;
    NothingPrinted(ts1);
    assert SubshellPart(ts1) == None;
    assert CommandFrom(TLP, ts1) == None;
    var all := [TLP, TRP] + ts;
    assert all == [TLP] + ts1;
    assert Read(NLKWD, all) == (TLP, ts1) by { assert all[1..] == ts1; }
    if List(0, NULL, all).Some? {
      ListWraps(all, TLP, ts1);
    }
  }

  lemma NoKeyword(name: string, ts: Toks)
    requires GoodName(name) && FindKwd(name) != None
    ensures FindKwd(name) != Some(NOT)
    ensures CommandFrom(TKWD(FindKwd(name).value, Word(name, false)), [TLP] + ([TRP] + ts)) == None
  {
    var k := FindKwd(name).value;
    assert k != NOT && k != BEGIN;
    hide FindKwd, List, GoodName, Clauses, ForWords;
    var ts1 := [TLP] + ([TRP] + ts);
    assert ts1 == [TLP, TRP] + ts;
    NoParens(ts);
    ReadAny(TLP, [TRP] + ts);
    assert IfPart(ts1) == None;
    assert Compound(TKWD(k, Word(name, false)), ts1) == None;
  }

  // ---------- pipelines ----------

  /** A tree that is not one command starts with a command that is only a part of it, or is negated. */
  lemma FirstPart(a: Ast) returns (x: Ast)
    requires Printable(a) && !IsCommand(a)
    ensures var l := ChainOf(a, [])[0];
            if a.Not? then l.neg else !l.neg && Printable(x) && ChunkNode(l.c) == ToNode(x)
    ensures !a.Not? ==> match a
                        case Pipe(_, ps) => ps != [] && x == ps[0]
                        case Semi(l, _) => x == l
                        case And(l, _) => x == l
                        case Or(l, _) => x == l
                        case _ => false
  {
    hide FindKwd, NodeRedirected, ToNode;
    if a.Pipe? {
      x := a.ps[0];
      AllOfPipe(a.ps);
      OneLink(x, []);
      PlainCommand(x);
    } else if a.Not? {
      x := a.a;
    } else {
      x := a.l;
      PlainNode(x);
    }
  }

  lemma PipeMoreFirst(ls: seq<Link>)
    requires Chain(ls) && ls != [] && ls[0].sep == TPIPE && PipeMore(ls).Some?
    ensures !ls[0].neg && PipeMore(ls).value.ns != [] && PipeMore(ls).value.ns[0] == ChunkNode(ls[0].c)
    ensures PipeMore(ls[1..]).Some? && PipeMore(ls).value.ns[1..] == PipeMore(ls[1..]).value.ns
  {
    hide ChunkNode, Whole;
  }

  lemma ChainStart(ps: seq<Ast>)
    requires ps != [] && AllPrintable(ps)
    ensures PipeChain(ps, [])[0] == ChainOf(ps[0], [])[0]
  {
    hide FindKwd, ChainOf, Printable, Whole;
  }

  lemma CommandStart(ps: seq<Ast>)
    requires ps != [] && AllPrintable(ps) && IsCommand(ps[0])
    ensures var l := PipeChain(ps, [])[0];
            !l.neg && ChunkNode(l.c) == ToNode(ps[0]) && OfNode(ToNode(ps[0])) == ps[0]
    ensures |ps| > 1 ==> PipeChain(ps, [])[1..] == Apart(TPIPE, PipeChain(ps[1..], []))
  {
    hide FindKwd, ChainOf, NodeRedirected, ToNode, OfNode, Printable, IsCommand;
    OneLink(ps[0], []);
    PlainCommand(ps[0]);
    NodeRoundTrip(ps[0]);
  }

  /** The nodes after a pipe are not those of the trees, if one of the trees is not a command. */
  lemma {:induction false} PipeDiffers(ps: seq<Ast>)
    requires ps != [] && AllPrintable(ps) && exists i :: 0 <= i < |ps| && !IsCommand(ps[i])
    ensures var q := PipeMore(Apart(TPIPE, PipeChain(ps, []))); q.Some? ==> OfNodes(q.value.ns) != ps
    decreases |ps|
  {
    hide FindKwd, ChainOf, PipeChain, PipeMore, ChunkNode, ToNode, OfNode, Printable, IsCommand;
    var ls := Apart(TPIPE, PipeChain(ps, []));
    if PipeMore(ls).Some? {
      PipeMoreFirst(ls);
      ChainStart(ps);
      var ns := PipeMore(ls).value.ns;
      assert OfNodes(ns) == [OfNode(ns[0])] + OfNodes(ns[1..]);
      if IsCommand(ps[0]) {
        CommandStart(ps);
        assert ls[1..] == PipeChain(ps, [])[1..];
        var i :| 0 <= i < |ps| && !IsCommand(ps[i]);
        assert ps[1..][i - 1] == ps[i];
        PipeDiffers(ps[1..]);
        assert OfNodes(ns)[1..] == OfNodes(ns[1..]);
      } else {
        PartDiffers(ps[0], ns[0]);
        assert OfNodes(ns)[0] == OfNode(ns[0]);
      }
    }
  }

  lemma PartDiffers(a: Ast, n: Node)
    requires Printable(a) && !IsCommand(a) && !ChainOf(a, [])[0].neg && n == ChunkNode(ChainOf(a, [])[0].c)
    ensures OfNode(n) != a && OfNode(n) != Skip
  {
    hide FindKwd, ChainOf, ChunkNode, ToNode, OfNode;
    var x := FirstPart(a);
    NodeRoundTrip(x);
    if a.Pipe? {
      assert x in a.ps;
    }
  }

  lemma {:induction false} AndorItemWraps(n1: Node, ls: seq<Link>)
    requires Chain(ls) && AndorItem(n1, ls).Some?
    ensures var n := AndorItem(n1, ls).value.n; n == n1 || n.NAND? || n.NOR?
    decreases |ls|
  {
    hide Whole, PipeItem;
    if ls != [] && ls[0].sep in {TAND, TOR} {
      var p := PipeItem(ls).value;
      AndorItemWraps(if ls[0].sep == TAND then NAND(n1, p.n) else NOR(n1, p.n), p.left);
    }
  }

  lemma {:induction false} ListItemsBefore(n1: Node, ls: seq<Link>)
    requires ls != [] && Chain(ls) && n1 != NULL && ListItems(n1, ls).Some?
    ensures ListItems(n1, ls).value.before != NULL
    decreases |ls|
  {
    hide Whole, FirstItem;
    var q := FirstItem(ls).value;
    if q.left != [] {
      ListItemsBefore(Join(n1, q.n), q.left);
    }
  }

  /** The first pipeline of the chain is not the pipeline of the trees, whether the first tree is a command... */
  lemma CommandPipeDiffers(ps: seq<Ast>)
    requires |ps| >= 2 && AllPrintable(ps) && (exists i :: 0 <= i < |ps| && !IsCommand(ps[i])) && IsCommand(ps[0])
    ensures var i := PipeItem(PipeChain(ps, []));
            i.Some? ==> i.value.n != NULL && forall b :: OfNode(i.value.n) != Pipe(b, ps)
  {
    hide FindKwd, ChainOf, PipeChain, PipeMore, ChunkNode, ToNode, Printable, IsCommand, Whole;
    var ls := PipeChain(ps, []);
    if PipeItem(ls).Some? {
      var q := PipeMore(ls[1..]).value;
      CommandStart(ps);
      var i :| 0 <= i < |ps| && !IsCommand(ps[i]);
      assert ps[1..][i - 1] == ps[i];
      PipeDiffers(ps[1..]);
      PipeMoreFirst(ls[1..]);
      LaterDiffer(ChunkNode(ls[0].c), q.ns, ps);
    }
  }

  /** ... or not. */
  lemma OtherPipeDiffers(ps: seq<Ast>)
    requires |ps| >= 2 && AllPrintable(ps) && !IsCommand(ps[0])
    ensures var i := PipeItem(PipeChain(ps, []));
            i.Some? ==> i.value.n != NULL && forall b :: OfNode(i.value.n) != Pipe(b, ps)
  {
    hide FindKwd, ChainOf, PipeChain, PipeMore, ChunkNode, ToNode, Printable, IsCommand, Whole, OfNodes, OfRedirs;
    var ls := PipeChain(ps, []);
    ChainStart(ps);
    if PipeItem(ls).Some? && !ls[0].neg {
      var c0 := ChunkNode(ls[0].c);
      var q := PipeMore(ls[1..]).value;
      PartDiffers(ps[0], c0);
      SmallerPart(ps);
      FirstDiffers(c0, q.ns, ps);
    }
  }

  lemma FirstDiffers(n: Node, ns: seq<Node>, ps: seq<Ast>)
    requires ps != [] && OfNode(n) != ps[0]
    ensures OfNodes([n] + ns) != ps
  {
    hide OfNode;
    assert OfNodes([n] + ns)[0] == OfNode(n);
  }

  lemma LaterDiffer(n: Node, ns: seq<Node>, ps: seq<Ast>)
    requires ps != [] && OfNodes(ns) != ps[1..]
    ensures OfNodes([n] + ns) != ps
  {
    hide OfNode;
    assert ([n] + ns)[1..] == ns;
    assert ([OfNode(n)] + OfNodes(ns))[1..] == OfNodes(ns);
  }

  /** The first part of a tree in a pipeline is not the pipeline. */
  lemma SmallerPart(ps: seq<Ast>)
    requires ps != [] && Printable(ps[0]) && !IsCommand(ps[0]) && !ChainOf(ps[0], [])[0].neg
    ensures forall b :: OfNode(ChunkNode(ChainOf(ps[0], [])[0].c)) != Pipe(b, ps)
  {
    hide FindKwd, ChainOf, ChunkNode, ToNode, OfNode;
    var x := FirstPart(ps[0]);
    NodeRoundTrip(x);
    if ps[0].Pipe? {
      assert x in ps[0].ps;
    }
    assert x < ps[0];
  }

  lemma ChainDiffers(ps: seq<Ast>)
    requires |ps| >= 2 && AllPrintable(ps) && exists i :: 0 <= i < |ps| && !IsCommand(ps[i])
    requires ListItems(NULL, PipeChain(ps, [])).Some?
    ensures var Listed(before, last) := ListItems(NULL, PipeChain(ps, [])).value;
            forall b :: OfNode(Join(before, last)) != Pipe(b, ps)
                && OfNode(Join(before, InBackground(last))) != Pipe(b, ps)
  {
    hide FindKwd, PipeChain, PipeItem, AndorItem, Whole, Printable, IsCommand, OfNodes, OfRedirs, OfAssigns, OfClauses;
    var ls := PipeChain(ps, []);
    if IsCommand(ps[0]) {
      CommandPipeDiffers(ps);
    } else {
      OtherPipeDiffers(ps);
    }
    var p := PipeItem(ls).value;
    AndorItemWraps(p.n, p.left);
    var q := FirstItem(ls).value;
    if q.left != [] {
      ListItemsBefore(Join(NULL, q.n), q.left);
    }
  }

  lemma PipeBack(a: Ast, end: Toks)
    requires a.Pipe? && AllPrintable(a.ps) && Closing(end)
    ensures ComesBack(a, end) <==> Printable(a)
  {
    hide FindKwd, Print, List, PipeChain, ListItems;
    if Printable(a) {
      RoundTrip(a, end);
    } else if ComesBack(a, end) {
      BackMade(a, end);
      OfNodesLength(List(0, NULL, Print(a) + end).value.n.cmdlist);
      SomeNoCommand(a.ps);
      PipeParses(a, end);
      ChainDiffers(a.ps);
    }
  }

  lemma {:induction false} OfNodesLength(ns: seq<Node>)
    ensures |OfNodes(ns)| == |ns|
  {
    hide OfNode;
    if ns != [] {
      OfNodesLength(ns[1..]);
    }
  }

  lemma {:induction false} SomeNoCommand(ps: seq<Ast>)
    requires AllPrintable(ps) && !PrintablePipe(ps)
    ensures exists i :: 0 <= i < |ps| && !IsCommand(ps[i])
    decreases |ps|
  {
    hide Printable, IsCommand;
    if IsCommand(ps[0]) {
      SomeNoCommand(ps[1..]);
      var i :| 0 <= i < |ps[1..]| && !IsCommand(ps[1..][i]);
      assert ps[i + 1] == ps[1..][i];
    }
  }

  /** What comes back of a printed pipeline is what its chain gives. */
  lemma PipeParses(a: Ast, end: Toks)
    requires a.Pipe? && a.ps != [] && AllPrintable(a.ps) && Closing(end) && ComesBack(a, end)
    ensures var l := ListItems(NULL, PipeChain(a.ps, []));
            && l.Some?
            && a == OfNode(Join(l.value.before, if a.bg then InBackground(l.value.last) else l.value.last))
  {
    hide FindKwd, PrintPipe, List, ListRest, PipeChain, ChainToks, ListItems, Printable, OfNode, CommandFrom, Compound;
    var ls, ts := PipeChain(a.ps, []), PrintPipe(a.ps);
    NoPrint();
    if a.bg {
      var close := [TBACKGND, Kwd(END)] + end;
      assert Print(a) + end == [Kwd(BEGIN)] + (ts + close) by {
        Assoc([Kwd(BEGIN)], ts + [TBACKGND, Kwd(END)], end);
        Assoc(ts, [TBACKGND, Kwd(END)], end);
      }
      hide Print;
      PipePrinted(a.ps, [], close);
      assert [] + close == close && [] + ChainToks(ls, close) == ChainToks(ls, close);
      ListOfChain(0, NULL, false, ls, close);
      if ListItems(NULL, ls).Some? {
        var Listed(before, last) := ListItems(NULL, ls).value;
        StepListEnds(before, last, TBACKGND, END, end);
        StepBegin(Word(Spelling(BEGIN), false), ts + close, Join(before, InBackground(last)), end);
        WholeItem(Kwd(BEGIN), ts + close, Join(before, InBackground(last)), end);
      } else {
        NoGroup(ts + close);
      }
    } else {
      hide Print;
      PipePrinted(a.ps, [], end);
      assert [] + end == end && [] + ChainToks(ls, end) == ChainToks(ls, end);
      CloseList(NULL, NULL, end);
      ListOfChain(0, NULL, false, ls, end);
      assert Print(a) == ts;
      if ListItems(NULL, ls).Some? {
        CloseList(ListItems(NULL, ls).value.before, ListItems(NULL, ls).value.last, end);
      }
    }
  }

  lemma NoGroup(body: Toks)
    requires List(0, NULL, body) == None
    ensures List(0, NULL, [Kwd(BEGIN)] + body) == None
  {
    hide FindKwd, ListRest, Andor;
    assert Compound(Key(BEGIN), body) == None by { assert BracePart(body) == None; }
    assert CommandFrom(Key(BEGIN), body) == None;
    hide List;
    ReadKwd(NLKWD, BEGIN, body);
    if List(0, NULL, [Kwd(BEGIN)] + body).Some? {
      ListWraps([Kwd(BEGIN)] + body, Key(BEGIN), body);
    }
  }

  // ---------- all trees ----------

  /** Among the trees with printable parts, those that come back are the printable ones, and nothing at the end. */
  lemma PrintableIsExact(a: Ast, end: Toks)
    requires Parts(a) && Closing(end)
    ensures ComesBack(a, end) <==> Printable(a) || (a == Skip && (end == [] || end == [TNL]))
  {
    hide FindKwd, Print, List, OfNode;
    match a
    case Skip => SkipBack(end);
    case Command(_, _, _) => CommandBack(a, end);
    case Pipe(_, _) => PipeBack(a, end);
    case Redir(b, rs) => RedirBack(b, rs, end);
    case Background(b, rs) => BackgroundBack(b, rs, end);
    case Subshell(b, rs) => SubshellBack(b, rs, end);
    case For(_, _, _) => ForBack(a, end);
    case Case(_, _) => CaseBack(a, end);
    case Defun(_, _) => DefunBack(a, end);
    case _ => RoundTrip(a, end);
  }

  lemma SkipBack(end: Toks)
    requires Closing(end)
    ensures ComesBack(Skip, end) <==> end == [] || end == [TNL]
  {
    NothingPrinted(end);
    assert Print(Skip) + end == end;
  }
}
