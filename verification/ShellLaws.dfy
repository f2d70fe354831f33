/**
 * Laws of the grammar for what the printer never writes: a for loop without words, parentheses before patterns,
 * semicolons, redirections between words, and newlines where the grammar skips them. Each says that two token streams
 * parse alike.
 */
module ShellLaws {
  import opened Option
  import opened CharClass
  import opened ShellTokens
  import opened ShellNodes
  import opened ShellGrammar
  import opened ShellPrinter
  import opened ShellRoundTrip
  import opened ShellSteps
  import opened ShellParseBack

  /** Keywords that start a compound command. */
  predicate Opens(k: Keyword) {
    k in {IF, WHILE, UNTIL, FOR, CASE, BEGIN}
  }

  /** Lists whose first command parses alike after the same keyword parse alike. */
  lemma ListAlike(nlflag: nat, n1: Node, k: Keyword, ts: Toks, ts': Toks)
    requires (nlflag == 0 || nlflag == 2) && Opens(k)
    requires CommandFrom(Key(k), ts) == CommandFrom(Key(k), ts')
    ensures List(nlflag, n1, [Kwd(k)] + ts) == List(nlflag, n1, [Kwd(k)] + ts')
  {
    hide FindKwd, CommandFrom, List, ListRest;
    AndorAlike(k, ts, ts');
    ListStart(nlflag, n1, k, ts);
    ListStart(nlflag, n1, k, ts');
  }

  lemma ListStart(nlflag: nat, n1: Node, k: Keyword, ts: Toks)
    requires (nlflag == 0 || nlflag == 2) && Opens(k)
    ensures var p := Andor([Key(k)] + ts);
            List(nlflag, n1, [Kwd(k)] + ts) == if p.None? then None else ListRest(2, n1, p.value.n, p.value.rest)
  {
    hide FindKwd, Andor, ListRest;
    ReadKwd(NLKWD, k, ts);
  }

  lemma AndorAlike(k: Keyword, ts: Toks, ts': Toks)
    requires Opens(k) && CommandFrom(Key(k), ts) == CommandFrom(Key(k), ts')
    ensures Andor([Key(k)] + ts) == Andor([Key(k)] + ts')
  {
    hide FindKwd, CommandFrom, AndorRest, PipeItems;
    ReadAny(Key(k), ts);
    ReadAny(Key(k), ts');
    assert ShellGrammar.Command(NONE, [Key(k)] + ts) == ShellGrammar.Command(NONE, [Key(k)] + ts');
    assert PipelineBody(NONE, [Key(k)] + ts) == PipelineBody(NONE, [Key(k)] + ts');
    assert Pipeline(NONE, [Key(k)] + ts) == Pipeline(NONE, [Key(k)] + ts');
  }

  // ---------- for ----------

  function Newlines(n: nat): (ts: Toks)
    ensures |ts| == n && forall i :: 0 <= i < n ==> ts[i] == TNL
  {
    seq(n, i => TNL)
  }

  lemma {:induction false} Skips(n: nat, ts: Toks)
    ensures SkipNewlines(Newlines(n) + ts) == SkipNewlines(ts)
  {
    if n == 0 {
      assert Newlines(0) + ts == ts;
    } else {
      assert (Newlines(n) + ts)[1..] == Newlines(n - 1) + ts;
      Skips(n - 1, ts);
    }
  }

  lemma ReadSkips(kwd: bool, n: nat, ts: Toks)
    ensures Read(Flags(true, kwd), Newlines(n) + ts) == Read(Flags(true, kwd), ts)
  {
    hide SkipNewlines;
    Skips(n, ts);
  }

  /** What may stand between the name and `do` if there is no `in`: newlines, and a semicolon. */
  function Gap(m: nat, semi: bool, n: nat): Toks {
    Newlines(m) + ((if semi then [TSEMI] else []) + Newlines(n))
  }

  const ALL_ARGS := Word("\"$@\"", true)

  /** `for x do ...` loops over "$@", with or without newlines and a semicolon before `do`. */
  lemma ForAll(nlflag: nat, n1: Node, x: Word, m: nat, semi: bool, n: nat, ts: Toks)
    requires nlflag == 0 || nlflag == 2
    ensures List(nlflag, n1, [Kwd(FOR)] + ([TWORD(x)] + (Gap(m, semi, n) + ([Kwd(DO)] + ts))))
            == List(nlflag, n1, [Kwd(FOR)] + ([TWORD(x)] + ([Kwd(IN)] + ([TWORD(ALL_ARGS), TSEMI] + ([Kwd(DO)] + ts)))))
  {
    hide FindKwd, List, CommandFrom, Redirs;
    var body := [Kwd(DO)] + ts;
    var ts1, ts2 := Gap(m, semi, n) + body, [Kwd(IN)] + ([TWORD(ALL_ARGS), TSEMI] + body);
    ReadAny(TWORD(x), ts1);
    ReadAny(TWORD(x), ts2);
    DoAlike(m, semi, n, ts);
    assert ForPart([TWORD(x)] + ts1) == ForPart([TWORD(x)] + ts2);
    ForAlike([TWORD(x)] + ts1, [TWORD(x)] + ts2);
    ListAlike(nlflag, n1, FOR, [TWORD(x)] + ts1, [TWORD(x)] + ts2);
  }

  lemma ForAlike(ts: Toks, ts': Toks)
    requires ForPart(ts) == ForPart(ts')
    ensures CommandFrom(Key(FOR), ts) == CommandFrom(Key(FOR), ts')
  {
    hide FindKwd, ForPart, Redirs;
    assert Compound(Key(FOR), ts) == ForPart(ts) && Compound(Key(FOR), ts') == ForPart(ts');
  }

  /** The same words, and the same body after them. */
  lemma DoAlike(m: nat, semi: bool, n: nat, ts: Toks)
    ensures var body := [Kwd(DO)] + ts;
            var p, q := ForWords(Gap(m, semi, n) + body), ForWords([Kwd(IN)] + ([TWORD(ALL_ARGS), TSEMI] + body));
            && p.Some? && q.Some? && p.value.ws == q.value.ws == [ALL_ARGS]
            && DoBody(NLKWD, p.value.rest) == DoBody(NLKWD, q.value.rest)
  {
    hide FindKwd, List, DoBody, Words;
    var body := [Kwd(DO)] + ts;
    WordsGiven(body);
    if semi {
      NoWordsSemi(m, n, body);
      ReadSkips(true, n, body);
      DoFrom(Newlines(n) + body, body);
    } else {
      NoWords(m, n, ts);
      ReadKwd(NLKWD, DO, ts);
      SeenKey(DO, ts);
      DoFrom([Key(DO)] + ts, body);
    }
  }

  lemma DoFrom(ts: Toks, ts': Toks)
    requires Read(NLKWD, ts) == Read(NLKWD, ts')
    ensures DoBody(NLKWD, ts) == DoBody(NLKWD, ts')
  {
    hide FindKwd, List, Read;
  }

  /** A keyword that was pushed back is read again. */
  lemma SeenKey(k: Keyword, ts: Toks)
    ensures Read(NLKWD, [Key(k)] + ts) == (Key(k), ts)
  {
    hide FindKwd;
    assert ([Key(k)] + ts)[1..] == ts;
  }

  lemma NoWordsSemi(m: nat, n: nat, body: Toks)
    ensures ForWords(Gap(m, true, n) + body) == Some(ParsedWords([ALL_ARGS], TSEMI, Newlines(n) + body))
  {
    hide FindKwd, Words;
    var rest := Newlines(n) + body;
    Assoc(Newlines(m), [TSEMI] + Newlines(n), body);
    Assoc([TSEMI], Newlines(n), body);
    ReadSkips(true, m, [TSEMI] + rest);
    assert Read(NLKWD, [TSEMI] + rest) == (TSEMI, rest) by { DropFirst(TSEMI, rest); }
  }

  lemma NoWords(m: nat, n: nat, ts: Toks)
    ensures ForWords(Gap(m, false, n) + ([Kwd(DO)] + ts)) == Some(ParsedWords([ALL_ARGS], Key(DO), [Key(DO)] + ts))
  {
    hide FindKwd, Words;
    var body := [Kwd(DO)] + ts;
    NoneFirst(Newlines(n));
    Assoc(Newlines(m), Newlines(n), body);
    ReadSkips(true, m, Newlines(n) + body);
    ReadSkips(true, n, body);
    ReadKwd(NLKWD, DO, ts);
  }

  lemma NoneFirst<T>(s: seq<T>)
    ensures [] + s == s
  {}

  lemma WordsGiven(body: Toks)
    ensures ForWords([Kwd(IN)] + ([TWORD(ALL_ARGS), TSEMI] + body)) == Some(ParsedWords([ALL_ARGS], TSEMI, body))
  {
    hide FindKwd;
    var ts1, ts2 := [TWORD(ALL_ARGS), TSEMI] + body, [TSEMI] + body;
    ReadKwd(NLKWD, IN, ts1);
    assert ts1 == [TWORD(ALL_ARGS)] + ts2;
    ReadAny(TWORD(ALL_ARGS), ts2);
    ReadAny(TSEMI, body);
    assert Words(ts2) == ParsedWords([], TSEMI, body);
    assert Words(ts1) == ParsedWords([ALL_ARGS], TSEMI, body);
  }

  // ---------- case ----------

  /** A parenthesis before the patterns of an arm changes nothing, unless they start with `esac`. */
  lemma PatternParen(w: Word, ts: Toks)
    requires w != Word("esac", false)
    ensures Clauses([TLP, TWORD(w)] + ts) == Clauses([TWORD(w)] + ts)
  {
    var t := [TWORD(w)] + ts;
    assert [TLP, TWORD(w)] + ts == [TLP] + t;
    FirstToken(w, ts);
    hide FindKwd, List, Patterns, IsKwd;
    var first := Promote(TWORD(w));
    assert Read(NLKWD, [TLP] + t) == (TLP, t) by { DropFirst(TLP, t); }
    ReadAny(TWORD(w), ts);
    SamePatterns(first, TWORD(w), ts);
    NoEsac();
  }

  lemma NoEsac()
    ensures !IsKwd(TLP, ESAC)
  {}

  lemma FirstToken(w: Word, ts: Toks)
    requires w != Word("esac", false)
    ensures Read(NLKWD, [TWORD(w)] + ts) == (Promote(TWORD(w)), ts)
    ensures !IsKwd(Promote(TWORD(w)), ESAC) && Promote(TWORD(w)) != TLP
    ensures WordOf(Promote(TWORD(w))) == WordOf(TWORD(w))
  {
    hide FindKwd;
    OnlyEsac(w.text);
    DropFirst(TWORD(w), ts);
  }

  lemma SamePatterns(t: Token, t': Token, ts: Toks)
    requires WordOf(t) == WordOf(t')
    ensures Patterns(t, ts) == Patterns(t', ts)
  {
    hide FindKwd, WordOf;
  }

  /** So it does in the first arm of a case. */
  lemma CaseParen(nlflag: nat, n1: Node, e: Word, w: Word, ts: Toks)
    requires (nlflag == 0 || nlflag == 2) && w != Word("esac", false)
    ensures List(nlflag, n1, [Kwd(CASE)] + ([TWORD(e)] + ([Kwd(IN)] + ([TLP, TWORD(w)] + ts))))
            == List(nlflag, n1, [Kwd(CASE)] + ([TWORD(e)] + ([Kwd(IN)] + ([TWORD(w)] + ts))))
  {
    hide FindKwd, List, CommandFrom, Clauses;
    PatternParen(w, ts);
    CaseAlike(e, [TLP, TWORD(w)] + ts, [TWORD(w)] + ts);
    ListAlike(nlflag, n1, CASE, [TWORD(e)] + ([Kwd(IN)] + ([TLP, TWORD(w)] + ts)),
              [TWORD(e)] + ([Kwd(IN)] + ([TWORD(w)] + ts)));
  }

  lemma CaseAlike(e: Word, ts: Toks, ts': Toks)
    requires Clauses(ts) == Clauses(ts')
    ensures CommandFrom(Key(CASE), [TWORD(e)] + ([Kwd(IN)] + ts))
            == CommandFrom(Key(CASE), [TWORD(e)] + ([Kwd(IN)] + ts'))
  {
    hide FindKwd, Clauses, Redirs;
    ReadAny(TWORD(e), [Kwd(IN)] + ts);
    ReadAny(TWORD(e), [Kwd(IN)] + ts');
    ReadKwd(NLKWD, IN, ts);
    ReadKwd(NLKWD, IN, ts');
    assert CasePart([TWORD(e)] + ([Kwd(IN)] + ts)) == CasePart([TWORD(e)] + ([Kwd(IN)] + ts'));
  }

  /** With the parenthesis `esac` is a pattern like any other. */
  lemma EsacInParens(body: Ast, ts: Toks)
    requires Printable(body)
    ensures Clauses([TLP, Kwd(ESAC), TRP] + (Print(body) + ([TENDCASE, Kwd(ESAC)] + ts)))
            == Some(ParsedClauses([NCLIST([Word("esac", false)], ToNode(body))], ts))
  {
    hide FindKwd, Print, Printable, List, Patterns, IsKwd, ToNode;
    var ts3 := [Kwd(ESAC)] + ts;
    var ts2 := Print(body) + ([TENDCASE] + ts3);
    assert [TENDCASE, Kwd(ESAC)] + ts == [TENDCASE] + ts3;
    var all := [TLP, Kwd(ESAC), TRP] + ts2;
    assert all == [TLP] + ([Kwd(ESAC)] + ([TRP] + ts2));
    DropFirst(TLP, [Kwd(ESAC)] + ([TRP] + ts2));
    ReadAny(Kwd(ESAC), [TRP] + ts2);
    LastPattern(Kwd(ESAC), Word("esac", false), ts2);
    ArmBody(body, ts3);
    DropFirst(TENDCASE, ts3);
    NoEsac();
    EsacEnds(ts);
    var c := NCLIST([Word("esac", false)], ToNode(body));
    assert [c] + [] == [c];
    assert Clauses(all) == Some(ParsedClauses([c] + [], ts));
  }

  lemma EsacEnds(ts: Toks)
    ensures Clauses([Kwd(ESAC)] + ts) == Some(ParsedClauses([], ts)) && !IsKwd(TENDCASE, ESAC)
  {
    hide FindKwd, List, Patterns;
    ReadKwd(NLKWD, ESAC, ts);
  }

  // ---------- separators ----------

  /** A semicolon after a command is as good as a newline, inside of a list. */
  lemma Semicolon(a: Ast, nlflag: nat, ts: Toks)
    requires Printable(a) && (nlflag == 0 || nlflag == 2)
    ensures List(nlflag, NULL, Print(a) + ([TSEMI] + ts)) == List(nlflag, NULL, Print(a) + ([TNL] + ts))
  {
    hide FindKwd, Print, Printable, List, ListRest, ToNode;
    assert PrintWith(a, []) == Print(a);
    ListOf(a, [], nlflag, [TSEMI] + ts);
    ListOf(a, [], nlflag, [TNL] + ts);
    SemicolonRest(NULL, ToNode(a), ts);
  }

  lemma SemicolonRest(n1: Node, n2: Node, ts: Toks)
    ensures ListRest(2, n1, n2, [TSEMI] + ts) == ListRest(2, n1, n2, [TNL] + ts)
    ensures ListRest(2, n1, n2, [TSEMI] + ts) == List(2, Join(n1, n2), ts)
  {
    hide FindKwd, List;
    ReadAny(TSEMI, ts);
    ReadAny(TNL, ts);
    NewlineFirst(2, Join(n1, n2), ts);
  }

  /** Newlines before a command are skipped. */
  lemma NewlineFirst(nlflag: nat, n1: Node, ts: Toks)
    requires nlflag == 0 || nlflag == 2
    ensures List(nlflag, n1, [TNL] + ts) == List(nlflag, n1, ts)
  {
    hide FindKwd, Andor, ListRest;
    DropFirst(TNL, ts);
    assert SkipNewlines([TNL] + ts) == SkipNewlines(ts);
  }

  /** Two commands with a semicolon or `&` between them. */
  lemma TwoCommands(a: Ast, b: Ast, end: Toks)
    requires Printable(a) && Printable(b) && !a.Semi? && !b.Semi? && Closing(end)
    ensures List(0, NULL, Print(a) + ([TSEMI] + (Print(b) + end))) == Gives(NSEMI(ToNode(a), ToNode(b)), LeftBy(end))
    ensures List(0, NULL, Print(a) + ([TBACKGND] + (Print(b) + end)))
            == Gives(NSEMI(InBackground(ToNode(a)), ToNode(b)), LeftBy(end))
  {
    hide FindKwd, Print, Printable, List, ListRest, ToNode, InBackground;
    assert PrintWith(a, []) == Print(a) && PrintWith(b, []) == Print(b);
    var rest := Print(b) + end;
    ListOf(a, [], 0, [TSEMI] + rest);
    ListOf(a, [], 0, [TBACKGND] + rest);
    SemicolonRest(NULL, ToNode(a), rest);
    AmpersandRest(NULL, ToNode(a), rest);
    NodeNotNull(a);
    BackgroundNotNull(ToNode(a));
    SecondCommand(ToNode(a), b, end);
    SecondCommand(InBackground(ToNode(a)), b, end);
  }

  lemma BackgroundNotNull(n: Node)
    ensures InBackground(n) != NULL
  {}

  lemma AmpersandRest(n1: Node, n2: Node, ts: Toks)
    ensures ListRest(2, n1, n2, [TBACKGND] + ts) == List(2, Join(n1, InBackground(n2)), ts)
  {
    hide FindKwd, List, InBackground;
    ReadAny(TBACKGND, ts);
  }

  lemma SecondCommand(n1: Node, b: Ast, end: Toks)
    requires Printable(b) && !b.Semi? && Closing(end) && n1 != NULL
    ensures List(2, n1, Print(b) + end) == Gives(NSEMI(n1, ToNode(b)), LeftBy(end))
  {
    hide FindKwd, Print, Printable, List, ListRest, ToNode, Andor;
    CloseList(n1, ToNode(b), end);
    assert PrintWith(b, []) == Print(b);
    ReadHead(NLKWD, b, [], end);
    AndorOf(b, [], end);
    StepList(2, n1, Print(b) + end, Head(b), Tail(b, [], end), ToNode(b), end);
  }

  /** Newlines are skipped after `&&`, `||` and `|`. */
  lemma NewlineAfter(n: Node, op: Token, ts: Toks)
    requires op == TAND || op == TOR
    ensures AndorRest(n, [op] + ([TNL] + ts)) == AndorRest(n, [op] + ts)
    ensures PipeItems([TNL] + ts) == PipeItems(ts)
  {
    hide FindKwd, PipelineBody, CommandFrom;
    ReadAny(op, [TNL] + ts);
    ReadAny(op, ts);
    DropFirst(TNL, ts);
    assert SkipNewlines([TNL] + ts) == SkipNewlines(ts);
    assert Pipeline(NLKWD, [TNL] + ts) == Pipeline(NLKWD, ts);
    assert ShellGrammar.Command(NLKWD, [TNL] + ts) == ShellGrammar.Command(NLKWD, ts);
  }

  // ---------- simple commands ----------

  /** A redirection may stand before a word as well as after it, be that an assignment or an argument. */
  lemma RedirectionFirst(vars: seq<Word>, args: seq<Word>, rs: seq<RedirNode>, assignments: bool, op: RedirOp, f: Word,
                         w: Word, ts: Toks)
    ensures Simple(vars, args, rs, assignments, [TREDIR(op), TWORD(f)] + ([TWORD(w)] + ts))
            == Simple(vars, args, rs, assignments, [TWORD(w)] + ([TREDIR(op), TWORD(f)] + ts))
  {
    hide FindKwd, IsAssignment, GoodName, SPECIAL_BUILTINS, FixRedir, ShellGrammar.Command;
    SimpleWord(vars, args, rs, assignments, w, [TREDIR(op), TWORD(f)] + ts);
    SimpleRedir(vars, args, rs, assignments, op, f, [TWORD(w)] + ts);
    SimpleWord(vars, args, rs + [FixRedir(op, f)], assignments, w, ts);
    SimpleRedir(vars + [w], args, rs, assignments, op, f, ts);
    SimpleRedir(vars, args + [w], rs, false, op, f, ts);
    hide Simple;
  }

  lemma SimpleWord(vars: seq<Word>, args: seq<Word>, rs: seq<RedirNode>, assignments: bool, w: Word, ts: Toks)
    ensures Simple(vars, args, rs, assignments, [TWORD(w)] + ts)
            == if assignments && IsAssignment(w.text) then Simple(vars + [w], args, rs, assignments, ts)
               else Simple(vars, args + [w], rs, false, ts)
  {
    hide FindKwd, IsAssignment, GoodName, SPECIAL_BUILTINS, ShellGrammar.Command;
    ReadAny(TWORD(w), ts);
  }

  lemma SimpleRedir(vars: seq<Word>, args: seq<Word>, rs: seq<RedirNode>, assignments: bool, op: RedirOp, f: Word,
                    ts: Toks)
    ensures Simple(vars, args, rs, assignments, [TREDIR(op), TWORD(f)] + ts)
            == Simple(vars, args, rs + [FixRedir(op, f)], assignments, ts)
  {
    hide FindKwd, IsAssignment, GoodName, SPECIAL_BUILTINS, FixRedir, ShellGrammar.Command;
    assert [TREDIR(op), TWORD(f)] + ts == [TREDIR(op)] + ([TWORD(f)] + ts);
    ReadAny(TREDIR(op), [TWORD(f)] + ts);
    ReadAny(TWORD(f), ts);
  }

  /** A digit or a minus as the target of a duplication is resolved at once; any other word is left for later. */
  lemma Targets(t: DupType, fd: int, ft: FileType, d: nat, q: bool, w: Word)
    requires d < 10
    ensures FixRedir(DupOp(t, fd), Word(["0123456789"[d]], q)) == NDUPFD(t, fd, d)
    ensures FixRedir(DupOp(t, fd), Word("-", q)) == NDUPFD(t, fd, -1)
    ensures |w.text| > 1 ==> FixRedir(DupOp(t, fd), w) == NDUPNAME(t, fd, w)
    ensures FixRedir(FileOp(ft, fd), w) == NFILE(ft, fd, w)
  {}

  // ---------- compound commands ----------

  /** Redirections after a subshell are the subshell's. */
  lemma SubshellThenRedirections(b: Ast, rs: seq<Redirection>, end: Toks)
    requires Printable(b) && GoodRedirs(rs) && Closing(end)
    ensures var r := List(0, NULL, Parens(Print(b)) + (PrintRedirs(rs) + end));
            r.Some? && r.value.rest == LeftBy(end) && OfNode(r.value.n) == Subshell(b, rs)
  {
    hide FindKwd, Print, Printable, List, ListRest, ToNode, OfNode, PrintRedirs, Compound, Redirs, Andor, Pipeline,
         CommandFrom, ToRedirs, OfRedirs, GoodRedirs;
    var rest, n := PrintRedirs(rs) + end, NSUBSHELL(ToNode(b), []);
    var body := Print(b) + ([TRP] + rest);
    assert Parens(Print(b)) + rest == [TLP] + body by {
      Assoc([TLP], Print(b) + [TRP], rest);
      Assoc(Print(b), [TRP], rest);
    }
    Bare(b);
    ListClosed(b, [], 0, TRP, rest);
    StepSubshell(body, ToNode(b), rest);
    CloseList(NULL, WithRedirs(n, ToRedirs(rs)), end);
    RedirsOf(KWD, rs, end);
    StepCompound(TLP, body, n, rest, ToRedirs(rs), end);
    assert Read(NLKWD, [TLP] + body) == (TLP, body) by { DropFirst(TLP, body); }
    ReadBack(TLP, body);
    StepCommand(NONE, [TLP] + body, TLP, body, WithRedirs(n, ToRedirs(rs)), end);
    StepItem([TLP] + body, WithRedirs(n, ToRedirs(rs)), end);
    StepList(0, NULL, [TLP] + body, TLP, body, WithRedirs(n, ToRedirs(rs)), end);
    NodeRoundTrip(b);
    RedirsRoundTrip(rs);
    SubshellNode(ToNode(b), ToRedirs(rs));
  }

  lemma SubshellNode(n: Node, rs: seq<RedirNode>)
    ensures OfNode(WithRedirs(NSUBSHELL(n, []), rs)) == Subshell(OfNode(n), OfRedirs(rs))
  {
    hide OfRedirs;
    if rs == [] {
      NoRedirNodes();
    }
  }

  lemma NoRedirNodes()
    ensures OfRedirs([]) == []
  {}

  lemma Bare(b: Ast)
    requires Printable(b)
    ensures Attaches(b, []) && PrintWith(b, []) == Print(b) && NodeWith(b, []) == ToNode(b)
  {
    hide Print, Printable, ToNode;
  }

  /** The body of a function is any command, on the same line or after newlines. */
  lemma FunctionBody(name: string, b: Ast, n: nat, end: Toks)
    requires Printable(b) && IsCommand(b) && Closing(end)
    requires GoodName(name) && FindKwd(name) == None && name !in SPECIAL_BUILTINS
    ensures List(0, NULL, [TWORD(Word(name, false))] + ([TLP, TRP] + (Newlines(n) + (Print(b) + end))))
            == Gives(NDEFUN(name, ToNode(b)), LeftBy(end))
  {
    var w := TWORD(Word(name, false));
    assert Promote(w) == w;
    hide FindKwd, Promote, Print, Printable, List, ListRest, ToNode, CommandFrom, GoodName, SPECIAL_BUILTINS, Andor;
    var node := NDEFUN(name, ToNode(b));
    var ts := [TLP, TRP] + (Newlines(n) + (Print(b) + end));
    CloseList(NULL, node, end);
    FunctionAfter(name, b, n, end);
    DropFirst(w, ts);
    ReadBack(w, ts);
    StepCommand(NONE, [w] + ts, w, ts, node, end);
    StepItem([w] + ts, node, end);
    StepList(0, NULL, [w] + ts, w, ts, node, end);
  }

  lemma FunctionAfter(name: string, b: Ast, n: nat, end: Toks)
    requires Printable(b) && IsCommand(b) && Follow(end)
    requires GoodName(name) && name !in SPECIAL_BUILTINS
    ensures CommandFrom(TWORD(Word(name, false)), [TLP, TRP] + (Newlines(n) + (Print(b) + end)))
            == Gives(NDEFUN(name, ToNode(b)), end)
  {
    hide FindKwd, EndOfName, Compound, GoodName, SPECIAL_BUILTINS, CommandFrom, Print, Printable, ToNode, IsCommand;
    var w := Word(name, false);
    var body := Newlines(n) + (Print(b) + end);
    var ts1 := [TRP] + body;
    var ts := [TLP, TRP] + body;
    assert ts == [TLP] + ts1;
    GoodNameIsNoAssignment(name);
    BodyCommand(b, n, end);
    ReadAny(TWORD(w), ts);
    ReadAny(TLP, ts1);
    ReadAny(TRP, body);
    assert Simple([], [w], [], false, ts) == Gives(NDEFUN(name, ToNode(b)), end);
    assert [] + [w] == [w];
    assert Simple([], [], [], true, [TWORD(w)] + ts) == Gives(NDEFUN(name, ToNode(b)), end);
    StepSimple(TWORD(w), ts);
  }

  lemma BodyCommand(b: Ast, n: nat, end: Toks)
    requires Printable(b) && IsCommand(b) && Follow(end)
    ensures ShellGrammar.Command(NLKWD, Newlines(n) + (Print(b) + end)) == Gives(ToNode(b), end)
  {
    hide FindKwd, CommandFrom, Print, Printable, ToNode, IsCommand, Read, Attaches, NodeWith, PrintWith, Tail, Head;
    Bare(b);
    ReadSkips(true, n, Print(b) + end);
    ReadHead(NLKWD, b, [], end);
    CommandOf(b, [], end);
  }

  // ---------- lines ----------

  /** At the top a command ends with its line, and what is on the next line is left for later. */
  lemma Lines(a: Ast, ts: Toks)
    requires Printable(a) && !a.Semi?
    ensures List(1, NULL, Print(a) + ([TNL] + ts)) == Gives(ToNode(a), ts)
    ensures List(1, NULL, Print(a) + ([TSEMI] + ([TNL] + ts))) == Gives(ToNode(a), ts)
    ensures List(1, NULL, Print(a) + ([TRP] + ts)) == None
    ensures List(1, NULL, Print(a)) == Gives(ToNode(a), [])
    ensures List(1, NULL, [TNL] + ts) == Gives(NULL, ts) && List(1, NULL, []) == Gives(NEOF, [])
  {
    hide FindKwd, Print, Printable, List, ListRest, ToNode;
    FirstOfLine(a, [TNL] + ts);
    FirstOfLine(a, [TSEMI] + ([TNL] + ts));
    FirstOfLine(a, [TRP] + ts);
    FirstOfLine(a, []);
    assert Print(a) + [] == Print(a);
    LineEnds(ToNode(a), ts);
    NodeNotNull(a);
  }

  lemma FirstOfLine(a: Ast, end: Toks)
    requires Printable(a) && !a.Semi? && FollowItem(end)
    ensures List(1, NULL, Print(a) + end) == ListRest(3, NULL, ToNode(a), end)
  {
    hide FindKwd, Print, Printable, ListRest, ToNode, Andor;
    Bare(a);
    StartOf(a);
    ReadHead(KWD, a, [], end);
    AndorOf(a, [], end);
  }

  lemma LineEnds(n: Node, ts: Toks)
    ensures ListRest(3, NULL, n, [TNL] + ts) == Gives(n, ts)
    ensures ListRest(3, NULL, n, [TSEMI] + ([TNL] + ts)) == Gives(n, ts)
    ensures ListRest(3, NULL, n, [TRP] + ts) == None && ListRest(3, NULL, n, []) == Gives(n, [])
    ensures List(1, NULL, [TNL] + ts) == Gives(NULL, ts) && List(1, NULL, []) == Gives(NEOF, [])
  {
    hide FindKwd, Andor;
    ReadAny(TNL, ts);
    ReadAny(TRP, ts);
    ReadAny(TSEMI, [TNL] + ts);
    assert Read(KWD, [TNL] + ts) == (TNL, ts) by { DropFirst(TNL, ts); }
    assert List(3, n, [TNL] + ts) == Gives(n, ts);
  }

  // ---------- words that are keywords ----------

  /** How the keywords are spelled. */
  lemma Keywords()
    ensures Spelling(IF) == "if" && Spelling(THEN) == "then" && Spelling(ELIF) == "elif"
    ensures Spelling(ELSE) == "else" && Spelling(FI) == "fi"
    ensures Spelling(WHILE) == "while" && Spelling(UNTIL) == "until" && Spelling(FOR) == "for"
    ensures Spelling(IN) == "in" && Spelling(DO) == "do" && Spelling(DONE) == "done"
    ensures Spelling(CASE) == "case" && Spelling(ESAC) == "esac"
    ensures Spelling(BEGIN) == "{" && Spelling(END) == "}" && Spelling(NOT) == "!"
  {
    hide FindKwd;
  }
}
