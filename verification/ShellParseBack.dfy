/** The parser on printed tokens, construct by construct, up to the round trip of whole trees. */
module ShellParseBack {
  import opened Option
  import opened CharClass
  import opened ShellTokens
  import opened ShellNodes
  import opened ShellGrammar
  import opened ShellPrinter
  import opened ShellRoundTrip
  import opened ShellSteps

  lemma Assoc<T>(a: seq<T>, b: seq<T>, c: seq<T>)
    ensures (a + b) + c == a + (b + c)
  {}

  lemma DropFirst<T>(t: T, a: seq<T>)
    ensures ([t] + a)[1..] == a && ([t] + a)[0] == t
  {}

  // ---------- words, redirections and simple commands ----------

  lemma {:induction false} WordsOf(ws: seq<Word>, ts: Toks)
    ensures Words(PrintWords(ws) + ([TSEMI] + ts)) == ParsedWords(ws, TSEMI, ts)
  {
    var all := PrintWords(ws) + ([TSEMI] + ts);
    if ws == [] {
      assert all == [TSEMI] + ts;
      ReadAny(TSEMI, ts);
    } else {
      assert all == [TWORD(ws[0])] + (PrintWords(ws[1..]) + ([TSEMI] + ts));
      ReadAny(TWORD(ws[0]), PrintWords(ws[1..]) + ([TSEMI] + ts));
      WordsOf(ws[1..], ts);
    }
  }

  lemma {:induction false} RedirsOf(f: Flags, rs: seq<Redirection>, ts: Toks)
    requires Follow(ts) && !f.nl
    ensures Redirs(f, PrintRedirs(rs) + ts) == Some(ParsedRedirs(ToRedirs(rs), ts))
    decreases |rs|
  {
    var all := PrintRedirs(rs) + ts;
    if rs == [] {
      assert all == ts;
      ReadFollow(f, ts);
    } else {
      var op, w := TREDIR(OpOf(rs[0])), TWORD(rs[0].target);
      var rest := PrintRedirs(rs[1..]) + ts;
      assert all == [op] + ([w] + rest);
      assert Read(f, all) == (op, [w] + rest) by { assert all[1..] == [w] + rest; }
      ReadAny(w, rest);
      RedirsOf(NONE, rs[1..], ts);
    }
  }

  lemma {:induction false} SimpleAssigns(vs: seq<Assign>, vars: seq<Word>, ts: Toks)
    requires forall i :: 0 <= i < |vs| ==> GoodAssign(vs[i])
    ensures Simple(vars, [], [], true, PrintAssigns(vs) + ts) == Simple(vars + ToAssigns(vs), [], [], true, ts)
  {
    var all := PrintAssigns(vs) + ts;
    if vs == [] {
      assert all == ts && vars + ToAssigns(vs) == vars;
    } else {
      var w, rest := AssignWord(vs[0]), PrintAssigns(vs[1..]) + ts;
      assert all == [TWORD(w)] + rest;
      ReadAny(TWORD(w), rest);
      AssignRoundTrip(vs[0]);
      SimpleAssigns(vs[1..], vars + [w], ts);
      assert vars + [w] + ToAssigns(vs[1..]) == vars + ToAssigns(vs);
    }
  }

  lemma MoveOne<T>(s: seq<T>, t: seq<T>)
    requires t != []
    ensures s + [t[0]] + t[1..] == s + t
  {}

  lemma SimpleArg(w: Word, vars: seq<Word>, args: seq<Word>, assignments: bool, ts: Toks)
    requires assignments ==> !IsAssignment(w.text)
    ensures Simple(vars, args, [], assignments, [TWORD(w)] + ts) == Simple(vars, args + [w], [], false, ts)
  {
    hide FindKwd, IsAssignment, GoodName, SPECIAL_BUILTINS, ShellGrammar.Command;
    ReadAny(TWORD(w), ts);
  }

  lemma {:induction false} SimpleArgs(ws: seq<Word>, vars: seq<Word>, args: seq<Word>, assignments: bool, ts: Toks)
    requires ws != [] && assignments ==> !IsAssignment(ws[0].text)
    ensures Simple(vars, args, [], assignments, PrintWords(ws) + ts)
            == Simple(vars, args + ws, [], assignments && ws == [], ts)
  {
    hide FindKwd, IsAssignment, Simple;
    if ws == [] {
      assert PrintWords(ws) + ts == ts && args + ws == args;
    } else {
      var w, rest := ws[0], PrintWords(ws[1..]);
      assert PrintWords(ws) == [TWORD(w)] + rest;
      hide PrintWords;
      Assoc([TWORD(w)], rest, ts);
      SimpleArg(w, vars, args, assignments, rest + ts);
      SimpleArgs(ws[1..], vars, args + [w], false, ts);
      MoveOne(args, ws);
    }
  }

  lemma {:induction false} SimpleRedirs(rs: seq<Redirection>, vars: seq<Word>, args: seq<Word>, done: seq<RedirNode>,
                                        assignments: bool, ts: Toks)
    requires Follow(ts)
    ensures Simple(vars, args, done, assignments, PrintRedirs(rs) + ts)
            == Some(Parsed(NCMD(vars, args, done + ToRedirs(rs)), ts))
  {
    var all := PrintRedirs(rs) + ts;
    if rs == [] {
      assert all == ts && done + ToRedirs(rs) == done;
      ReadFollow(NONE, ts);
    } else {
      var op, w := TREDIR(OpOf(rs[0])), TWORD(rs[0].target);
      var rest := PrintRedirs(rs[1..]) + ts;
      assert all == [op] + ([w] + rest);
      ReadAny(op, [w] + rest);
      ReadAny(w, rest);
      var r := FixRedir(OpOf(rs[0]), rs[0].target);
      SimpleRedirs(rs[1..], vars, args, done + [r], assignments, ts);
      assert done + [r] + ToRedirs(rs[1..]) == done + ToRedirs(rs);
    }
  }

  lemma SimpleOf(assigns: seq<Assign>, args: seq<Word>, redirs: seq<Redirection>, ts: Toks)
    requires GoodCommand(assigns, args, redirs) && Follow(ts)
    ensures Simple([], [], [], true, Print(Command(assigns, args, redirs)) + ts)
            == Some(Parsed(ToNode(Command(assigns, args, redirs)), ts))
  {
    var ts1 := PrintRedirs(redirs) + ts;
    var ts2 := PrintWords(args) + ts1;
    assert Print(Command(assigns, args, redirs)) + ts == PrintAssigns(assigns) + ts2;
    SimpleAssigns(assigns, [], ts2);
    assert [] + ToAssigns(assigns) == ToAssigns(assigns);
    SimpleArgs(args, ToAssigns(assigns), [], true, ts1);
    assert [] + args == args;
    SimpleRedirs(redirs, ToAssigns(assigns), args, [], args == [], ts);
    assert [] + ToRedirs(redirs) == ToRedirs(redirs);
  }

  lemma KeywordsAreNoAssignments(s: string)
    requires IsAssignment(s)
    ensures FindKwd(s) == None
  {
    var n := EndOfName(s);
    assert s[n] == '=';
    assert forall i :: 0 <= i < |s| ==> s[i] == s[i];
  }

  // ---------- how printed trees start ----------

  lemma KeywordStart(a: Ast)
    requires a != Skip && !a.Command? && !a.Redir? && (a.Pipe? ==> a.bg)
    requires a.Defun? ==> FindKwd(a.name) == None
    ensures Print(a) != [] && CanStart(Head(a)) && Print(a)[0] != TNL && Print(a)[0] != TEOF
    ensures IsCommand(a) ==> !IsKwd(Head(a), NOT)
  {
    hide FindKwd;
  }

  lemma {:induction false} StartOf(a: Ast)
    requires Printable(a)
    ensures Print(a) != [] && CanStart(Head(a)) && Print(a)[0] != TNL && Print(a)[0] != TEOF
    ensures IsCommand(a) ==> !IsKwd(Head(a), NOT)
    decreases a
  {
    if a.Command? {
      SimpleStart(a);
    } else if a.Redir? {
      StartOf(a.a);
      RedirTokens(a.a, a.redirs, []);
      hide Head;
    } else if a.Pipe? && !a.bg {
      StartOf(a.ps[0]);
    } else {
      KeywordStart(a);
    }
  }

  /** The first token of a printed tree, once recognised. */
  function Head(a: Ast): Token {
    if Print(a) == [] then TEOF else Promote(Print(a)[0])
  }

  /** A tree with redirections after it, where the grammar attaches them to the whole tree. */
  predicate Attaches(a: Ast, rs: seq<Redirection>) {
    Printable(a) && GoodRedirs(rs) && (rs != [] ==> TakesRedirs(a))
  }

  function PrintWith(a: Ast, rs: seq<Redirection>): Toks {
    Print(a) + PrintRedirs(rs)
  }

  /** Its tokens after the first, and whatever follows it. */
  function Tail(a: Ast, rs: seq<Redirection>, ts: Toks): Toks {
    if Print(a) == [] then ts else Print(a)[1..] + (PrintRedirs(rs) + ts)
  }

  function NodeWith(a: Ast, rs: seq<Redirection>): Node {
    WithRedirs(ToNode(a), ToRedirs(rs))
  }

  lemma ReadHead(f: Flags, a: Ast, rs: seq<Redirection>, ts: Toks)
    requires Printable(a) && f.kwd
    ensures Read(f, PrintWith(a, rs) + ts) == (Head(a), Tail(a, rs, ts))
    ensures CanStart(Head(a)) && (IsCommand(a) ==> !IsKwd(Head(a), NOT))
  {
    StartOf(a);
    hide Promote, CanStart, IsCommand, IsKwd, Printable, Print, PrintRedirs;
    var p := Print(a);
    assert p == [p[0]] + p[1..];
    Assoc(p, PrintRedirs(rs), ts);
    Assoc([p[0]], p[1..], PrintRedirs(rs) + ts);
    DropFirst(p[0], Tail(a, rs, ts));
  }

  lemma ReadBack(t: Token, ts: Toks)
    requires CanStart(t)
    ensures Read(NONE, [t] + ts) == (t, ts)
  {
    ReadAny(t, ts);
  }

  // ---------- lists that end ----------

  /** a ; keyword */
  lemma {:induction false} ListUntil(a: Ast, k: Keyword, ts: Toks)
    requires Printable(a) && EndsList(Key(k))
    ensures List(0, NULL, Print(a) + ([TSEMI, Kwd(k)] + ts)) == Gives(ToNode(a), [Key(k)] + ts)
    decreases a, 20
  {
    hide FindKwd, Print, Printable, List, ListRest, ToNode;
    var end := [TSEMI, Kwd(k)] + ts;
    assert PrintWith(a, []) == Print(a);
    ListOf(a, [], 0, end);
    StepListEnds(NULL, ToNode(a), TSEMI, k, ts);
  }

  lemma {:induction false} ListUntilNewline(a: Ast, k: Keyword, ts: Toks)
    requires Printable(a) && EndsList(Key(k))
    ensures List(0, NULL, [TNL] + (Print(a) + ([TNL, Kwd(k)] + ts))) == Gives(ToNode(a), [Key(k)] + ts)
    decreases a, 20
  {
    hide FindKwd, Print, Printable, Andor, ListRest, ToNode;
    var end := [TNL, Kwd(k)] + ts;
    assert PrintWith(a, []) == Print(a);
    ListOf(a, [], 0, end);
    StepListEnds(NULL, ToNode(a), TNL, k, ts);
    ReadHead(NLKWD, a, [], end);
    var all := Print(a) + end;
    assert ([TNL] + all)[1..] == all;
    assert Read(NLKWD, [TNL] + all) == Read(NLKWD, all);
  }

  /** a followed at once by a closing token */
  lemma {:induction false} ListClosed(a: Ast, rs: seq<Redirection>, nlflag: nat, t: Token, ts: Toks)
    requires Attaches(a, rs) && (t == TRP || t == TENDCASE) && (nlflag == 0 || nlflag == 2)
    ensures List(nlflag, NULL, PrintWith(a, rs) + ([t] + ts)) == Gives(NodeWith(a, rs), [t] + ts)
    decreases a, 20
  {
    hide FindKwd, Print, Printable, List, ListRest, ToNode;
    ListOf(a, rs, nlflag, [t] + ts);
    StepListStops(NULL, NodeWith(a, rs), t, ts);
  }

  /** A list that starts with a tree goes on after it. */
  lemma {:induction false} ListOf(a: Ast, rs: seq<Redirection>, nlflag: nat, ts: Toks)
    requires Attaches(a, rs) && FollowItem(ts) && (nlflag == 0 || nlflag == 2)
    requires a.Semi? ==> ts == [] || ts[0] != TBACKGND
    ensures List(nlflag, NULL, PrintWith(a, rs) + ts) == ListRest(2, NULL, NodeWith(a, rs), ts)
    decreases a, 19
  {
    hide FindKwd, Print, Printable, List, ListRest, ToNode, Andor;
    ReadHead(NLKWD, a, rs, ts);
    if a.Semi? {
      SemiOf(a, nlflag, ts);
      assert NodeWith(a, []) == ToNode(a);
    } else {
      AndorOf(a, rs, ts);
      StepList(nlflag, NULL, PrintWith(a, rs) + ts, Head(a), Tail(a, rs, ts), NodeWith(a, rs), ts);
    }
  }

  // ---------- brace groups ----------

  function BraceTail(a: Ast, ts: Toks): Toks {
    Print(a) + ([TSEMI, Kwd(END)] + ts)
  }

  lemma {:induction false} BracesOf(a: Ast, ts: Toks)
    requires Printable(a) && Follow(ts)
    ensures CommandFrom(Key(BEGIN), BraceTail(a, ts)) == Gives(ToNode(a), ts)
    decreases a, 21
  {
    hide FindKwd, Print, Printable, List, ToNode, Compound, CommandFrom;
    ListUntil(a, END, ts);
    StepBegin(Word(Spelling(BEGIN), false), BraceTail(a, ts), ToNode(a), ts);
    NoRedirs(ts);
    StepCompound(Key(BEGIN), BraceTail(a, ts), ToNode(a), ts, [], ts);
  }

  lemma NoRedirs(ts: Toks)
    requires Follow(ts)
    ensures Redirs(KWD, ts) == Some(ParsedRedirs([], ts))
  {
    RedirsOf(KWD, [], ts);
    assert PrintRedirs([]) + ts == ts;
  }

  lemma ReadBraces(f: Flags, a: Ast, ts: Toks)
    requires f.kwd
    ensures Read(f, Braces(Print(a)) + ts) == (Key(BEGIN), BraceTail(a, ts))
  {
    hide FindKwd, Print;
    assert Braces(Print(a)) + ts == [Kwd(BEGIN)] + BraceTail(a, ts);
    ReadKwd(f, BEGIN, BraceTail(a, ts));
  }

  lemma {:induction false} BracesPipeline(f: Flags, all: Toks, a: Ast, ts: Toks)
    requires Printable(a) && FollowPipeline(ts)
    requires Read(f, all) == (Key(BEGIN), BraceTail(a, ts))
    ensures Pipeline(f, all) == Gives(ToNode(a), ts)
    decreases a, 22
  {
    hide FindKwd, Print, Printable, ToNode, CommandFrom, Pipeline;
    BracesOf(a, ts);
    StepCommand(f, all, Key(BEGIN), BraceTail(a, ts), ToNode(a), ts);
  }

  lemma {:induction false} BracesItem(a: Ast, ts: Toks)
    requires Printable(a) && FollowItem(ts)
    ensures Andor([Key(BEGIN)] + BraceTail(a, ts)) == Gives(ToNode(a), ts)
    decreases a, 23
  {
    hide FindKwd, Print, Printable, ToNode, Pipeline, Andor;
    ReadBack(Key(BEGIN), BraceTail(a, ts));
    BracesPipeline(NONE, [Key(BEGIN)] + BraceTail(a, ts), a, ts);
    StepItem([Key(BEGIN)] + BraceTail(a, ts), ToNode(a), ts);
  }

  /** A brace group as the next item of a list, after a newline or not. */
  lemma {:induction false} BracesNext(a: Ast, nlflag: nat, n1: Node, after: bool, ts: Toks)
    requires Printable(a) && FollowItem(ts) && (nlflag == 0 || nlflag == 2)
    ensures List(nlflag, n1, (if after then [TNL] else []) + (Braces(Print(a)) + ts)) == ListRest(2, n1, ToNode(a), ts)
    decreases a, 24
  {
    hide FindKwd, Print, Printable, ToNode, Andor, Braces, List, ListRest;
    var item := Braces(Print(a)) + ts;
    ReadBraces(NLKWD, a, ts);
    BracesItem(a, ts);
    assert [] + item == item && ([TNL] + item)[1..] == item;
    StepList(nlflag, n1, (if after then [TNL] else []) + item, Key(BEGIN), BraceTail(a, ts), ToNode(a), ts);
  }

  lemma SemiNode(a: Ast)
    requires Printable(a) && a.Semi?
    ensures Printable(a.l) && Printable(a.r) && ToNode(a) == NSEMI(ToNode(a.l), ToNode(a.r)) && ToNode(a.l) != NULL
  {
    NodeNotNull(a.l);
  }

  lemma {:induction false} SemiOf(a: Ast, nlflag: nat, ts: Toks)
    requires Printable(a) && a.Semi? && FollowItem(ts) && (nlflag == 0 || nlflag == 2)
    requires ts == [] || ts[0] != TBACKGND
    ensures List(nlflag, NULL, PrintWith(a, []) + ts) == ListRest(2, NULL, ToNode(a), ts)
    decreases a, 18
  {
    hide FindKwd, Print, Printable, ToNode, Andor, List, ListRest;
    var n1, n2 := ToNode(a.l), ToNode(a.r);
    SemiNode(a);
    var ts2 := Braces(Print(a.r)) + ts;
    PairTokens(a, TNL, ts);
    BracesNext(a.l, nlflag, NULL, false, [TNL] + ts2);
    assert [] + (Braces(Print(a.l)) + ([TNL] + ts2)) == Braces(Print(a.l)) + ([TNL] + ts2);
    StepNewline(n1, ts2);
    BracesNext(a.r, 2, n1, true, ts);
    StepJoin(n1, n2, ts);
  }

  /** Two brace groups and what joins them. */
  lemma PairTokens(a: Ast, op: Token, ts: Toks)
    requires match a case Semi(_, _) => op == TNL case And(_, _) => op == TAND case Or(_, _) => op
            == TOR case _ => false
    ensures PrintWith(a, []) + ts == Braces(Print(a.l)) + ([op] + (Braces(Print(a.r)) + ts))
  {
    var l, r := Braces(Print(a.l)), Braces(Print(a.r));
    assert Print(a) == l + ([op] + r);
    hide Print, Braces;
    assert PrintWith(a, []) == Print(a);
    Assoc(l, [op] + r, ts);
    Assoc([op], r, ts);
  }

  lemma StepNewline(n1: Node, ts: Toks)
    requires ts != [] && ts[0] != TNL && ts[0] != TEOF
    ensures Read(NLKWD, [TNL] + ts) == Read(NLKWD, ts)
    ensures ListRest(2, NULL, n1, [TNL] + ts) == List(2, n1, [TNL] + ts)
  {
    hide Promote, List;
    DropFirst(TNL, ts);
    ReadAny(TNL, ts);
  }

  lemma StepJoin(n1: Node, n2: Node, ts: Toks)
    requires n1 != NULL && (ts == [] || ts[0] != TBACKGND)
    ensures ListRest(2, n1, n2, ts) == ListRest(2, NULL, NSEMI(n1, n2), ts)
  {
    hide List;
  }

  lemma NodeNotNull(a: Ast)
    requires Printable(a)
    ensures ToNode(a) != NULL
  {}

  // ---------- and-or lists and pipelines ----------

  lemma {:induction false} AndorOf(a: Ast, rs: seq<Redirection>, ts: Toks)
    requires Attaches(a, rs) && FollowItem(ts) && !a.Semi?
    ensures Andor([Head(a)] + Tail(a, rs, ts)) == Gives(NodeWith(a, rs), ts)
    decreases a, 17
  {
    if a.And? || a.Or? {
      var op := if a.And? then TAND else TOR;
      var ts2 := Braces(Print(a.r)) + ts;
      var ts1 := [op] + ts2;
      assert rs == [] && NodeWith(a, rs) == ToNode(a);
      PairTokens(a, op, ts);
      var n1, n2 := ToNode(a.l), ToNode(a.r);
      assert ToNode(a) == if op == TAND then NAND(n1, n2) else NOR(n1, n2);
      ReadHead(KWD, a, rs, ts);
      hide FindKwd, Print, Pipeline, Andor, ToNode;
      ReadBraces(KWD, a.l, ts1);
      var all := [Key(BEGIN)] + BraceTail(a.l, ts1);
      ReadBack(Key(BEGIN), BraceTail(a.l, ts1));
      BracesPipeline(NONE, all, a.l, ts1);
      ReadBraces(NLKWD, a.r, ts);
      BracesPipeline(NLKWD, ts2, a.r, ts);
      StepAndor(all, n1, op, ts2, n2, ts);
    } else {
      PipelineOf(a, rs, ts);
      StepItem([Head(a)] + Tail(a, rs, ts), NodeWith(a, rs), ts);
    }
  }

  lemma {:induction false} PipelineOf(a: Ast, rs: seq<Redirection>, ts: Toks)
    requires Attaches(a, rs) && FollowPipeline(ts)
    requires !a.Semi? && !a.And? && !a.Or?
    ensures Pipeline(NONE, [Head(a)] + Tail(a, rs, ts)) == Gives(NodeWith(a, rs), ts)
    decreases a, 16
  {
    hide FindKwd, Pipeline, CommandFrom, PrintPipe, ToNodes;
    var all := [Head(a)] + Tail(a, rs, ts);
    ReadHead(KWD, a, rs, ts);
    ReadBack(Head(a), Tail(a, rs, ts));
    if a.Not? {
      NotOf(a, all, ts);
    } else if a.Pipe? && !a.bg {
      assert PrintWith(a, rs) + ts == PrintPipe(a.ps) + ts;
      assert NodeWith(a, rs) == NPIPE(false, ToNodes(a.ps));
      PipeOf(NONE, all, a.ps, ts);
    } else {
      assert IsCommand(a);
      hide Print, ToNode, Printable;
      CommandOf(a, rs, ts);
      StepCommand(NONE, all, Head(a), Tail(a, rs, ts), NodeWith(a, rs), ts);
    }
  }

  lemma {:induction false} NotOf(a: Ast, all: Toks, ts: Toks)
    requires Printable(a) && a.Not? && FollowPipeline(ts)
    requires Read(NONE, all) == (Head(a), Tail(a, [], ts))
    ensures Pipeline(NONE, all) == Gives(ToNode(a), ts)
    decreases a, 15
  {
    var body := Braces(Print(a.a)) + ts;
    assert Head(a) == Key(NOT) && Tail(a, [], ts) == body by {
      assert Print(a) == [Kwd(NOT)] + Braces(Print(a.a));
    }
    assert ToNode(a) == NNOT(ToNode(a.a));
    hide FindKwd, Print, Pipeline, CommandFrom, ToNode;
    ReadBraces(KWD, a.a, ts);
    BracesOf(a.a, ts);
    StepNot(NONE, all, Word(Spelling(NOT), false), body, Key(BEGIN), BraceTail(a.a, ts), ToNode(a.a), ts);
  }

  /** Two or more commands joined by pipes, however the first token was read. */
  lemma {:induction false} PipeOf(f: Flags, all: Toks, ps: seq<Ast>, ts: Toks)
    requires |ps| >= 2 && PrintablePipe(ps) && FollowPipeline(ts)
    requires Read(f, all) == Read(KWD, PrintPipe(ps) + ts)
    ensures Pipeline(f, all) == Gives(NPIPE(false, ToNodes(ps)), ts)
    decreases ps, 24
  {
    var p, tail := ps[0], PrintPipe(ps[1..]) + ts;
    PipeTokens(ps, ts);
    assert PrintablePipe(ps[1..]) && Printable(p) && IsCommand(p);
    assert ToNodes(ps) == [ToNode(p)] + ToNodes(ps[1..]);
    hide FindKwd, Print, PrintPipe, Pipeline, PipeItems, CommandFrom, ToNode, ToNodes, Printable;
    ReadHead(KWD, p, [], [TPIPE] + tail);
    CommandOf(p, [], [TPIPE] + tail);
    PipeItemsOf(ps[1..], ts);
    StepPipe(f, all, Head(p), Tail(p, [], [TPIPE] + tail), ToNode(p), tail, ToNodes(ps[1..]), ts);
  }

  lemma NoNodes(ps: seq<Ast>)
    requires ps == []
    ensures ToNodes(ps) == []
  {}

  lemma PipeTokens(ps: seq<Ast>, ts: Toks)
    requires ps != []
    ensures PrintPipe(ps) + ts
            == PrintWith(ps[0], []) + if |ps| == 1 then ts else [TPIPE] + (PrintPipe(ps[1..]) + ts)
  {
    hide Print;
    var p := Print(ps[0]);
    assert PrintWith(ps[0], []) == p;
    if |ps| > 1 {
      assert PrintPipe(ps) == p + ([TPIPE] + PrintPipe(ps[1..]));
      Assoc(p, [TPIPE] + PrintPipe(ps[1..]), ts);
      Assoc([TPIPE], PrintPipe(ps[1..]), ts);
    }
  }

  lemma {:induction false} PipeItemsOf(ps: seq<Ast>, ts: Toks)
    requires ps != [] && PrintablePipe(ps) && FollowPipeline(ts)
    ensures PipeItems(PrintPipe(ps) + ts) == Some(ParsedNodes(ToNodes(ps), ts))
    decreases ps, 24
  {
    hide FindKwd, PipeItems, CommandFrom, Print;
    var p := ps[0];
    assert PrintablePipe(ps[1..]) && Printable(p) && IsCommand(p);
    assert ToNodes(ps) == [ToNode(p)] + ToNodes(ps[1..]);
    PipeTokens(ps, ts);
    hide PrintPipe, ToNode, ToNodes, Printable;
    if |ps| == 1 {
      PipeLastOf(p, ts);
      NoNodes(ps[1..]);
      assert [ToNode(p)] + [] == [ToNode(p)];
    } else {
      var tail := PrintPipe(ps[1..]) + ts;
      ReadHead(NLKWD, p, [], [TPIPE] + tail);
      CommandOf(p, [], [TPIPE] + tail);
      PipeItemsOf(ps[1..], ts);
      StepPipeItem(PrintPipe(ps) + ts, Head(p), Tail(p, [], [TPIPE] + tail), ToNode(p), tail, ToNodes(ps[1..]), ts);
    }
  }

  lemma {:induction false} PipeLastOf(p: Ast, ts: Toks)
    requires Printable(p) && IsCommand(p) && FollowPipeline(ts)
    ensures PipeItems(PrintWith(p, []) + ts) == Some(ParsedNodes([ToNode(p)], ts))
    decreases p, 16
  {
    hide FindKwd, Print, PipeItems, CommandFrom, ToNode, Printable;
    ReadHead(NLKWD, p, [], ts);
    CommandOf(p, [], ts);
    StepPipeLast(PrintWith(p, []) + ts, Head(p), Tail(p, [], ts), ToNode(p), ts);
  }

  // ---------- commands ----------

  /** One command, its first token already recognised. */
  lemma {:induction false} CommandOf(a: Ast, rs: seq<Redirection>, ts: Toks)
    requires Attaches(a, rs) && IsCommand(a) && Follow(ts)
    ensures Head(a) != TEOF
    ensures CommandFrom(Head(a), Tail(a, rs, ts)) == Gives(NodeWith(a, rs), ts)
    decreases a, 15
  {
    hide FindKwd, CommandFrom, Compound;
    StartOf(a);
    if a.Command? {
      SimpleCommandOf(a, ts);
    } else if a.Redir? {
      RedirOf(a, ts);
    } else if a.Defun? {
      DefunOf(a, ts);
    } else {
      assert TakesRedirs(a) || a.Subshell?;
      hide Print, PrintRedirs, Printable, ToNode, ToRedirs;
      var ts1 := PrintRedirs(rs) + ts;
      CompoundOf(a, ts1);
      RedirsOf(KWD, rs, ts);
      StepCompound(Head(a), Tail(a, rs, ts), ToNode(a), ts1, ToRedirs(rs), ts);
    }
  }

  lemma {:induction false} RedirOf(a: Ast, ts: Toks)
    requires Printable(a) && a.Redir? && Follow(ts)
    ensures Head(a) != TEOF
    ensures CommandFrom(Head(a), Tail(a, [], ts)) == Gives(ToNode(a), ts)
    decreases a, 14
  {
    hide FindKwd, CommandFrom, PrintRedirs, ToRedirs;
    var Redir(b, rs) := a;
    StartOf(b);
    RedirNode(b, rs);
    RedirTokens(b, rs, ts);
    hide Print, Printable, ToNode;
    CommandOf(b, rs, ts);
  }

  lemma RedirTokens(b: Ast, rs: seq<Redirection>, ts: Toks)
    requires Print(b) != []
    ensures Head(Redir(b, rs)) == Head(b) && Tail(Redir(b, rs), [], ts) == Tail(b, rs, ts)
  {
    var p, r := Print(b), PrintRedirs(rs);
    RedirPrint(b, rs);
    NoPrint();
    hide Promote, Print, PrintRedirs;
    assert (p + r)[0] == p[0];
    assert (p + r)[1..] == p[1..] + r;
    Assoc(p[1..], r, ts);
    assert [] + ts == ts;
  }

  lemma RedirPrint(b: Ast, rs: seq<Redirection>)
    ensures Print(Redir(b, rs)) == Print(b) + PrintRedirs(rs)
  {}

  lemma RedirNode(b: Ast, rs: seq<Redirection>)
    requires Printable(Redir(b, rs))
    ensures ToNode(Redir(b, rs)) == NodeWith(b, rs)
  {}

  lemma SimpleCommandOf(a: Ast, ts: Toks)
    requires Printable(a) && a.Command? && Follow(ts)
    ensures Head(a) != TEOF
    ensures CommandFrom(Head(a), Tail(a, [], ts)) == Gives(ToNode(a), ts)
  {
    StartOf(a);
    SimpleStart(a);
    hide FindKwd, Print, PrintRedirs, Printable, Simple, ToNode;
    assert [Head(a)] + Tail(a, [], ts) == Print(a) + ts by { assert PrintRedirs([]) + ts == ts by { NoPrint(); } }
    SimpleOf(a.assigns, a.args, a.credirs, ts);
  }

  lemma NoPrint()
    ensures PrintRedirs([]) == []
  {}

  lemma SimpleStart(a: Ast)
    requires Printable(a) && a.Command?
    ensures Print(a) != [] && Head(a) == Print(a)[0] && StartsSimple(Head(a))
  {
    if a.assigns != [] {
      AssignRoundTrip(a.assigns[0]);
      KeywordsAreNoAssignments(AssignWord(a.assigns[0]).text);
    }
  }

  // ---------- functions ----------

  lemma {:induction false} DefunOf(a: Ast, ts: Toks)
    requires Printable(a) && a.Defun? && Follow(ts)
    ensures Head(a) != TEOF
    ensures CommandFrom(Head(a), Tail(a, [], ts)) == Gives(ToNode(a), ts)
    decreases a, 14
  {
    var Defun(name, body) := a;
    var w := TWORD(Word(name, false));
    var inner := [TNL] + (Print(body) + ([TNL, Kwd(END)] + ts));
    var rest := [TLP, TRP] + ([Kwd(BEGIN)] + inner);
    DefunTokens(a, ts);
    assert ToNode(a) == NDEFUN(name, ToNode(body));
    hide FindKwd, Print, List, Compound, CommandFrom, ToNode, GoodName, SPECIAL_BUILTINS;
    ListUntilNewline(body, END, ts);
    StepBegin(Word(Spelling(BEGIN), false), inner, ToNode(body), ts);
    NoRedirs(ts);
    StepCompound(Key(BEGIN), inner, ToNode(body), ts, [], ts);
    StepDefun(name, rest, inner, ToNode(body), ts);
  }

  lemma DefunPrint(a: Ast)
    requires Printable(a) && a.Defun?
    ensures Print(a) == [TWORD(Word(a.name, false))]
                        + ([TLP, TRP, Kwd(BEGIN), TNL] + (Print(a.body) + [TNL, Kwd(END)]))
    ensures Promote(TWORD(Word(a.name, false))) == TWORD(Word(a.name, false))
  {
    hide FindKwd;
  }

  lemma DefunSeq(w: Token, p: Toks, ts: Toks)
    ensures var all := [w] + ([TLP, TRP, Kwd(BEGIN), TNL] + (p + [TNL, Kwd(END)]));
            all[0] == w && all[1..] + ts == [TLP, TRP] + ([Kwd(BEGIN)] + ([TNL] + (p + ([TNL, Kwd(END)] + ts))))
  {
    var q, end := [TLP, TRP, Kwd(BEGIN), TNL], [TNL, Kwd(END)];
    DropFirst(w, q + (p + end));
    Assoc(q, p + end, ts);
    Assoc(p, end, ts);
    Split4(TLP, TRP, Kwd(BEGIN), TNL, p + (end + ts));
  }

  lemma Split4(t1: Token, t2: Token, t3: Token, t4: Token, ts: Toks)
    ensures [t1, t2, t3, t4] + ts == [t1, t2] + ([t3] + ([t4] + ts))
  {}

  lemma DefunTokens(a: Ast, ts: Toks)
    requires Printable(a) && a.Defun?
    ensures Head(a) == TWORD(Word(a.name, false))
    ensures Tail(a, [], ts)
            == [TLP, TRP] + ([Kwd(BEGIN)] + ([TNL] + (Print(a.body) + ([TNL, Kwd(END)] + ts))))
  {
    DefunPrint(a);
    NoPrint();
    hide FindKwd, Print, Printable, Promote;
    DefunSeq(TWORD(Word(a.name, false)), Print(a.body), ts);
    assert [] + ts == ts;
  }

  lemma StepSimple(tok: Token, ts: Toks)
    requires StartsSimple(tok)
    ensures CommandFrom(tok, ts) == Simple([], [], [], true, [tok] + ts)
  {
    hide Simple;
  }

  lemma StepDefun(name: string, ts: Toks, inner: Toks, body: Node, rest: Toks)
    requires ts == [TLP, TRP] + ([Kwd(BEGIN)] + inner)
    requires GoodName(name) && name !in SPECIAL_BUILTINS
    requires CommandFrom(Key(BEGIN), inner) == Gives(body, rest)
    ensures CommandFrom(TWORD(Word(name, false)), ts) == Gives(NDEFUN(name, body), rest)
  {
    hide FindKwd, EndOfName, Compound, GoodName, SPECIAL_BUILTINS, CommandFrom;
    var w := Word(name, false);
    var ts1 := [TRP] + ([Kwd(BEGIN)] + inner);
    assert ts == [TLP] + ts1;
    assert !IsAssignment(name) by { GoodNameIsNoAssignment(name); }
    ReadAny(TWORD(w), ts);
    ReadAny(TLP, ts1);
    ReadAny(TRP, [Kwd(BEGIN)] + inner);
    ReadKwd(NLKWD, BEGIN, inner);
    assert ShellGrammar.Command(NLKWD, [Kwd(BEGIN)] + inner) == Gives(body, rest);
    assert Simple([], [w], [], false, ts) == Gives(NDEFUN(name, body), rest);
    assert [] + [w] == [w];
    assert Simple([], [], [], true, [TWORD(w)] + ts) == Gives(NDEFUN(name, body), rest);
    StepSimple(TWORD(w), ts);
  }

  lemma GoodNameIsNoAssignment(name: string)
    requires GoodName(name)
    ensures !IsAssignment(name)
  {}

  // ---------- compound commands ----------

  /** A compound command up to its closing token, whatever follows. */
  lemma {:induction false} CompoundOf(a: Ast, ts: Toks)
    requires Printable(a) && (TakesRedirs(a) || a.Subshell?)
    ensures Head(a) == TLP || Head(a).TKWD?
    ensures Print(a) != []
    ensures Compound(Head(a), Print(a)[1..] + ts) == Gives(ToNode(a), ts)
    decreases a, 14
  {
    StartOf(a);
    match a
    case Subshell(_, _) => SubshellOf(a, ts);
    case Background(_, _) => BackgroundOf(a, ts);
    case Pipe(_, _) => BackgroundPipeOf(a, ts);
    case If(_, _, _) => IfCommandOf(a, ts);
    case While(_, _) => WhileOf(a, ts);
    case For(_, _, _) => ForOf(a, ts);
    case Case(_, _) => CaseOf(a, ts);
  }

  lemma {:induction false} SubshellOf(a: Ast, ts: Toks)
    requires Printable(a) && a.Subshell? && Print(a) != []
    ensures Head(a) == TLP
    ensures Compound(Head(a), Print(a)[1..] + ts) == Gives(ToNode(a), ts)
    decreases a, 13
  {
    var body := PrintWith(a.a, []) + ([TRP] + ts);
    assert Print(a)[1..] + ts == body && Head(a) == TLP;
    assert ToNode(a) == NSUBSHELL(ToNode(a.a), []);
    hide FindKwd, Print, Printable, List, Compound, ToNode;
    ListClosed(a.a, [], 0, TRP, ts);
    StepSubshell(body, ToNode(a.a), ts);
  }

  lemma {:induction false} BackgroundOf(a: Ast, ts: Toks)
    requires Printable(a) && a.Background? && Print(a) != []
    ensures Head(a) == Key(BEGIN)
    ensures Compound(Head(a), Print(a)[1..] + ts) == Gives(ToNode(a), ts)
    decreases a, 13
  {
    var Background(b, rs) := a;
    var end := [TBACKGND, Kwd(END)] + ts;
    var body := PrintWith(b, rs) + end;
    BackgroundTokens(a, ts);
    BackgroundNode(b, rs);
    hide FindKwd, Print, List, ListRest, Compound, ToNode, PrintWith, NodeWith, InBackground;
    ListOf(b, rs, 0, end);
    StepListEnds(NULL, NodeWith(b, rs), TBACKGND, END, ts);
    StepBegin(Word(Spelling(BEGIN), false), body, ToNode(a), ts);
  }

  lemma BackgroundTokens(a: Ast, ts: Toks)
    requires a.Background?
    ensures Head(a) == Key(BEGIN) && Print(a) != []
    ensures Print(a)[1..] + ts == PrintWith(a.a, a.redirs) + ([TBACKGND, Kwd(END)] + ts)
  {
    var p, end := PrintWith(a.a, a.redirs), [TBACKGND, Kwd(END)];
    assert Print(a) == [Kwd(BEGIN)] + (p + end);
    hide Print, FindKwd, PrintWith;
    DropFirst(Kwd(BEGIN), p + end);
    Assoc(p, end, ts);
  }

  lemma BackgroundNode(b: Ast, rs: seq<Redirection>)
    requires Printable(Background(b, rs))
    ensures ToNode(Background(b, rs)) == InBackground(NodeWith(b, rs))
  {}

  lemma {:induction false} BackgroundPipeOf(a: Ast, ts: Toks)
    requires Printable(a) && a.Pipe? && a.bg && Print(a) != []
    ensures Head(a) == Key(BEGIN)
    ensures Compound(Head(a), Print(a)[1..] + ts) == Gives(ToNode(a), ts)
    decreases a, 13
  {
    hide FindKwd, PrintPipe, List, ListRest, Compound, ToNodes, Pipeline, Andor;
    var ps := a.ps;
    var end := [TBACKGND, Kwd(END)] + ts;
    var body := PrintPipe(ps) + end;
    assert Print(a) == [Kwd(BEGIN)] + (PrintPipe(ps) + [TBACKGND, Kwd(END)]);
    assert Print(a)[1..] + ts == body;
    assert Head(a) == Key(BEGIN);
    var n := NPIPE(false, ToNodes(ps));
    assert ToNode(a) == InBackground(n);
    var p, tail := ps[0], [TPIPE] + (PrintPipe(ps[1..]) + end);
    PipeTokens(ps, end);
    hide Print, Printable, ToNode;
    ReadHead(KWD, p, [], tail);
    ReadHead(NLKWD, p, [], tail);
    var all := [Head(p)] + Tail(p, [], tail);
    ReadBack(Head(p), Tail(p, [], tail));
    PipeOf(NONE, all, ps, end);
    StepItem(all, n, end);
    StepList(0, NULL, body, Head(p), Tail(p, [], tail), n, end);
    StepListEnds(NULL, n, TBACKGND, END, ts);
    StepBegin(Word(Spelling(BEGIN), false), body, ToNode(a), ts);
  }

  lemma {:induction false} WhileOf(a: Ast, ts: Toks)
    requires Printable(a) && a.While? && Print(a) != []
    ensures Head(a).TKWD?
    ensures Compound(Head(a), Print(a)[1..] + ts) == Gives(ToNode(a), ts)
    decreases a, 13
  {
    hide FindKwd, Print, List, Compound;
    var test := if a.test.Not? then a.test.a else a.test;
    assert Printable(test);
    var k := if a.test.Not? then UNTIL else WHILE;
    var n, b := ToNode(test), ToNode(a.body);
    assert ToNode(a) == if k == WHILE then NWHILE(n, b) else NUNTIL(n, b);
    var ts1 := Print(a.body) + ([TSEMI, Kwd(DONE)] + ts);
    var body := Print(test) + ([TSEMI, Kwd(DO)] + ts1);
    WhileTokens(a, ts);
    hide Printable, ToNode;
    ListUntil(test, DO, ts1);
    ListUntil(a.body, DONE, ts);
    StepWhile(k, Word(Spelling(k), false), body, n, ts1, b, ts);
  }

  lemma DoTokens(body: Ast, ts: Toks)
    ensures PrintDo(body) + ts == [TSEMI, Kwd(DO)] + (Print(body) + ([TSEMI, Kwd(DONE)] + ts))
  {
    hide Print, FindKwd;
    Assoc([TSEMI, Kwd(DO)], Print(body) + [TSEMI, Kwd(DONE)], ts);
    Assoc(Print(body), [TSEMI, Kwd(DONE)], ts);
  }

  lemma WhileTokens(a: Ast, ts: Toks)
    requires a.While?
    ensures var test := if a.test.Not? then a.test.a else a.test;
            && Head(a) == Key(if a.test.Not? then UNTIL else WHILE) && Print(a) != []
            && Print(a)[1..] + ts
               == Print(test) + ([TSEMI, Kwd(DO)] + (Print(a.body) + ([TSEMI, Kwd(DONE)] + ts)))
  {
    var test := if a.test.Not? then a.test.a else a.test;
    var k := if a.test.Not? then UNTIL else WHILE;
    assert Print(a) == [Kwd(k)] + (Print(test) + PrintDo(a.body));
    hide FindKwd, Print, PrintDo;
    DropFirst(Kwd(k), Print(test) + PrintDo(a.body));
    Assoc(Print(test), PrintDo(a.body), ts);
    DoTokens(a.body, ts);
  }

  lemma ForTokens(a: Ast, ts: Toks)
    requires a.For? && a.x != ""
    ensures Head(a) == Key(FOR) && Print(a) != []
    ensures Print(a)[1..] + ts
            == [TWORD(Word(a.x, false)), Kwd(IN)]
               + (PrintWords(a.fargs) + ([TSEMI] + ([Kwd(DO)] + (Print(a.body) + ([TSEMI, Kwd(DONE)] + ts)))))
  {
    var args, do_ := PrintWords(a.fargs), PrintDo(a.body);
    var head := [TWORD(Word(a.x, false)), Kwd(IN)];
    assert Print(a) == [Kwd(FOR)] + ([TWORD(Word(a.x, false))] + ([Kwd(IN)] + (args + do_)));
    assert Print(a) == [Kwd(FOR)] + (head + (args + do_));
    hide FindKwd, Print, PrintDo, PrintWords;
    DropFirst(Kwd(FOR), head + (args + do_));
    Assoc(head, args + do_, ts);
    Assoc(args, do_, ts);
    DoTokens(a.body, ts);
    var rest := Print(a.body) + ([TSEMI, Kwd(DONE)] + ts);
    assert [TSEMI, Kwd(DO)] + rest == [TSEMI] + ([Kwd(DO)] + rest);
  }

  lemma {:induction false} ForOf(a: Ast, ts: Toks)
    requires Printable(a) && a.For? && Print(a) != []
    ensures Head(a) == Key(FOR)
    ensures Compound(Head(a), Print(a)[1..] + ts) == Gives(ToNode(a), ts)
    decreases a, 13
  {
    var For(args, body, x) := a;
    var w := Word(x, false);
    var ts2 := Print(body) + ([TSEMI, Kwd(DONE)] + ts);
    var ts1 := PrintWords(args) + ([TSEMI] + ([Kwd(DO)] + ts2));
    assert ToNode(a) == NFOR(args, ToNode(body), x);
    ForTokens(a, ts);
    hide FindKwd, Print, Printable, List, Compound, ToNode, Words, GoodName, PrintWords;
    WordsOf(args, [Kwd(DO)] + ts2);
    ListUntil(body, DONE, ts);
    StepFor(Word(Spelling(FOR), false), w, args, [TWORD(w), Kwd(IN)] + ts1, ts1, ts2, ToNode(body), ts);
  }

  lemma {:induction false} IfCommandOf(a: Ast, ts: Toks)
    requires Printable(a) && a.If? && Print(a) != []
    ensures Head(a) == Key(IF)
    ensures Compound(Head(a), Print(a)[1..] + ts) == Gives(ToNode(a), ts)
    decreases a, 13
  {
    assert Print(a) == [Kwd(IF)] + PrintIf(a);
    assert Print(a)[1..] + ts == PrintIf(a) + ts;
    assert Head(a) == Key(IF);
    hide FindKwd, Print, Printable, IfPart, Compound, ToNode;
    IfPartOf(a, ts);
    StepIf(Word(Spelling(IF), false), PrintIf(a) + ts, ToNode(a), ts);
  }

  /** What follows `fi`, `elif` or `else`. */
  function AfterElse(e: Ast, ts: Toks): Toks {
    if e == Skip then ts else if e.If? then PrintIf(e) + ts else Print(e) + ([TSEMI, Kwd(FI)] + ts)
  }

  lemma IfPrint(a: Ast)
    requires a.If?
    ensures PrintIf(a) == Print(a.c) + ([TSEMI, Kwd(THEN)] + (Print(a.t) + ([TSEMI] + PrintElse(a.e))))
  {
    hide Print, PrintElse;
  }

  lemma IfSeq(c: Toks, t: Toks, e: Toks, ts: Toks, k: Token, after: Toks)
    requires e + ts == [k] + after
    ensures (c + ([TSEMI, Kwd(THEN)] + (t + ([TSEMI] + e)))) + ts
            == c + ([TSEMI, Kwd(THEN)] + (t + ([TSEMI, k] + after)))
  {
    var then_ := [TSEMI, Kwd(THEN)];
    Assoc(c, then_ + (t + ([TSEMI] + e)), ts);
    Assoc(then_, t + ([TSEMI] + e), ts);
    Assoc(t, [TSEMI] + e, ts);
    Assoc([TSEMI], e, ts);
    Split2(TSEMI, k, after);
  }

  lemma Split2(t1: Token, t2: Token, ts: Toks)
    ensures [t1, t2] + ts == [t1] + ([t2] + ts)
  {}

  lemma IfTokens(a: Ast, ts: Toks)
    requires a.If?
    ensures var k := if a.e == Skip then FI else if a.e.If? then ELIF else ELSE;
            PrintIf(a) + ts
            == Print(a.c) + ([TSEMI, Kwd(THEN)] + (Print(a.t) + ([TSEMI, Kwd(k)] + AfterElse(a.e, ts))))
  {
    var k := if a.e == Skip then FI else if a.e.If? then ELIF else ELSE;
    IfPrint(a);
    ElseTokens(a.e, ts);
    hide FindKwd, Print, PrintIf, PrintElse, AfterElse, Kwd;
    IfSeq(Print(a.c), Print(a.t), PrintElse(a.e), ts, Kwd(k), AfterElse(a.e, ts));
  }

  lemma ElseTokens(e: Ast, ts: Toks)
    ensures var k := if e == Skip then FI else if e.If? then ELIF else ELSE;
            PrintElse(e) + ts == [Kwd(k)] + AfterElse(e, ts)
  {
    var k := if e == Skip then FI else if e.If? then ELIF else ELSE;
    if e == Skip {
    } else if e.If? {
      Assoc([Kwd(k)], PrintIf(e), ts);
    } else {
      assert PrintElse(e) == [Kwd(k)] + (Print(e) + [TSEMI, Kwd(FI)]);
      hide Print, FindKwd;
      Assoc([Kwd(k)], Print(e) + [TSEMI, Kwd(FI)], ts);
      Assoc(Print(e), [TSEMI, Kwd(FI)], ts);
    }
  }

  /** A chain of elif is a chain of if nodes. */
  lemma {:induction false} IfPartOf(a: Ast, ts: Toks)
    requires Printable(a) && a.If?
    ensures IfPart(PrintIf(a) + ts) == Gives(ToNode(a), [Key(FI)] + ts)
    decreases a, 12
  {
    hide FindKwd, Print, PrintIf, List, IfPart;
    var If(c, t, e) := a;
    var k := if e == Skip then FI else if e.If? then ELIF else ELSE;
    var ts2 := AfterElse(e, ts);
    var ts1 := Print(t) + ([TSEMI, Kwd(k)] + ts2);
    var all := Print(c) + ([TSEMI, Kwd(THEN)] + ts1);
    IfTokens(a, ts);
    assert ToNode(a) == NIF(ToNode(c), ToNode(t), ToNode(e)) && ToNode(Skip) == NULL;
    hide ToNode;
    ListUntil(c, THEN, ts1);
    ListUntil(t, k, ts2);
    StepIfPart(all, ToNode(c), ts1, ToNode(t), k, ts2);
    if e.If? {
      IfPartOf(e, ts);
    } else if e != Skip {
      ListUntil(e, FI, ts);
    }
  }

  lemma {:induction false} CaseOf(a: Ast, ts: Toks)
    requires Printable(a) && a.Case? && Print(a) != []
    ensures Head(a) == Key(CASE)
    ensures Compound(Head(a), Print(a)[1..] + ts) == Gives(ToNode(a), ts)
    decreases a, 13
  {
    var Case(expr, arms) := a;
    var ts1 := PrintArms(arms) + ts;
    assert Print(a) == [Kwd(CASE), TWORD(expr), Kwd(IN)] + PrintArms(arms);
    assert Print(a)[1..] + ts == [TWORD(expr), Kwd(IN)] + ts1;
    assert Head(a) == Key(CASE);
    assert ToNode(a) == NCASE(expr, ToClauses(arms));
    hide FindKwd, Print, PrintArms, Printable, Clauses, Compound, ToNode, ToClauses;
    ArmsOf(arms, ts);
    StepCase(Word(Spelling(CASE), false), expr, [TWORD(expr), Kwd(IN)] + ts1, ts1, ToClauses(arms), ts);
  }

  lemma {:induction false} ArmsOf(arms: seq<Arm>, ts: Toks)
    requires PrintableArms(arms)
    ensures Clauses(PrintArms(arms) + ts) == Some(ParsedClauses(ToClauses(arms), ts))
    decreases arms, 24
  {
    if arms == [] {
      assert PrintArms(arms) + ts == [Kwd(ESAC)] + ts;
      ReadKwd(NLKWD, ESAC, ts);
    } else {
      var Arm(pats, body) := arms[0];
      var ts3 := PrintArms(arms[1..]) + ts;
      var ts2 := Print(body) + ([TENDCASE] + ts3);
      var all := PrintPats(pats) + ([TRP] + ts2);
      assert PrintArms(arms) + ts == all;
      assert ToClauses(arms) == [NCLIST(pats, ToNode(body))] + ToClauses(arms[1..]);
      assert body != Skip ==> Printable(body);
      var first := Promote(TWORD(pats[0]));
      var ts1 := all[1..];
      assert Read(NLKWD, all) == (first, ts1) && !IsKwd(first, ESAC) && WordOf(first) == Some(pats[0]) by {
        FirstPattern(pats, [TRP] + ts2);
      }
      hide FindKwd, Print, PrintArms, Printable, Clauses, ToNode, ToClauses, List;
      PatsOf(first, pats, ts2);
      ArmBody(body, ts3);
      ArmsOf(arms[1..], ts);
      StepClause(all, first, ts1, pats, ts2, ToNode(body), ts3, ToClauses(arms[1..]), ts);
    }
  }

  lemma FirstPattern(pats: seq<Word>, ts: Toks)
    requires GoodPats(pats)
    ensures var all, first := PrintPats(pats) + ts, Promote(TWORD(pats[0]));
            && all != [] && Read(NLKWD, all) == (first, all[1..])
            && !IsKwd(first, ESAC) && WordOf(first) == Some(pats[0])
  {
    hide FindKwd;
    OnlyEsac(pats[0].text);
  }

  lemma OnlyEsac(text: string)
    ensures FindKwd(text) == Some(ESAC) ==> text == "esac"
  {}

  lemma {:induction false} ArmBody(body: Ast, ts: Toks)
    requires body == Skip || Printable(body)
    ensures List(2, NULL, Print(body) + ([TENDCASE] + ts)) == Gives(ToNode(body), [TENDCASE] + ts)
    decreases body, 25
  {
    if body == Skip {
      assert Print(body) + ([TENDCASE] + ts) == [TENDCASE] + ts;
      assert Read(NLKWD, [TENDCASE] + ts) == (TENDCASE, ts) by { assert ([TENDCASE] + ts)[1..] == ts; }
    } else {
      ListClosed(body, [], 2, TENDCASE, ts);
      assert PrintWith(body, []) == Print(body);
    }
  }

  lemma LastPattern(first: Token, w: Word, ts: Toks)
    requires WordOf(first) == Some(w)
    ensures Patterns(first, [TRP] + ts) == Some(ParsedWords([w], TRP, ts))
  {
    hide FindKwd;
    ReadAny(TRP, ts);
  }

  lemma NextPattern(first: Token, w: Word, w': Word, ws: seq<Word>, ts: Toks, rest: Toks)
    requires WordOf(first) == Some(w) && Patterns(TWORD(w'), ts) == Some(ParsedWords(ws, TRP, rest))
    ensures Patterns(first, [TPIPE] + ([TWORD(w')] + ts)) == Some(ParsedWords([w] + ws, TRP, rest))
  {
    hide FindKwd;
    ReadAny(TPIPE, [TWORD(w')] + ts);
    ReadAny(TWORD(w'), ts);
  }

  lemma TwoFirst<T>(x: T, y: T, s: seq<T>, t: seq<T>)
    requires s != []
    ensures ([x, y] + s + t)[1..] == [y] + (s + t) && s + t == [s[0]] + (s + t)[1..]
  {}

  lemma PatsTokens(pats: seq<Word>, ts: Toks)
    requires |pats| > 1
    ensures (PrintPats(pats) + ts)[1..] == [TPIPE] + (PrintPats(pats[1..]) + ts)
    ensures PrintPats(pats[1..]) + ts == [TWORD(pats[1])] + (PrintPats(pats[1..]) + ts)[1..]
  {
    var next := PrintPats(pats[1..]);
    assert next != [] && next[0] == TWORD(pats[1]);
    TwoFirst(TWORD(pats[0]), TPIPE, next, ts);
  }

  lemma {:induction false} PatsOf(first: Token, pats: seq<Word>, ts: Toks)
    requires pats != [] && WordOf(first) == Some(pats[0])
    ensures Patterns(first, (PrintPats(pats) + ([TRP] + ts))[1..]) == Some(ParsedWords(pats, TRP, ts))
    decreases |pats|
  {
    hide FindKwd, Patterns, WordOf;
    if |pats| == 1 {
      assert (PrintPats(pats) + ([TRP] + ts))[1..] == [TRP] + ts && pats == [pats[0]];
      LastPattern(first, pats[0], ts);
    } else {
      hide PrintPats;
      PatsTokens(pats, [TRP] + ts);
      assert WordOf(TWORD(pats[1])) == Some(pats[1]) by { WordRead(pats[1]); }
      PatsOf(TWORD(pats[1]), pats[1..], ts);
      NextPattern(first, pats[0], pats[1], pats[1..], (PrintPats(pats[1..]) + ([TRP] + ts))[1..], ts);
      assert pats == [pats[0]] + pats[1..];
    }
  }

  lemma WordRead(w: Word)
    ensures WordOf(TWORD(w)) == Some(w)
  {}

  // ---------- whole trees ----------

  predicate Closes(ts: Toks) {
    ts == [] || ts[0] == TRP || ts[0] == TENDCASE
  }

  predicate ClosesAsKeyword(t: Token) {
    t.TWORD? && IsKeyword(t.w) && EndsList(Promote(t))
  }

  /**
   * What may close a list: the end of the input or a closing token, or a separator and then one of these or a keyword
   * that ends lists.
   */
  predicate Closing(end: Toks) {
    Closes(end) || ((end[0] == TSEMI || end[0] == TNL) && (Closes(end[1..]) || ClosesAsKeyword(end[1])))
  }

  /** What is left then: the separator was read, and a keyword recognised. */
  function LeftBy(end: Toks): (left: Toks)
    requires Closing(end)
    ensures |left| <= |end| <= |left| + 1
  {
    if Closes(end) then end
    else if Closes(end[1..]) then end[1..]
    else [Promote(end[1])] + end[2..]
  }

  lemma StepListEof(n1: Node, n2: Node)
    ensures ListRest(2, n1, n2, []) == Gives(Join(n1, n2), [])
  {}

  lemma ListStops(n: Node, end: Toks)
    requires Closes(end) || ClosesAsKeyword(end[0])
    ensures var left := if Closes(end) then end else [Promote(end[0])] + end[1..];
            List(2, n, end) == Gives(n, left) && List(2, n, [TNL] + end) == Gives(n, left)
  {
    hide FindKwd;
    assert ([TNL] + end)[1..] == end;
    if end != [] {
      assert end == [end[0]] + end[1..];
    }
  }

  lemma StepListAfter(n1: Node, n2: Node, sep: Token, end: Toks)
    requires sep == TSEMI || sep == TNL
    requires Closes(end) || ClosesAsKeyword(end[0])
    ensures var left := if Closes(end) then end else [Promote(end[0])] + end[1..];
            ListRest(2, n1, n2, [sep] + end) == Gives(Join(n1, n2), left)
  {
    hide FindKwd, List, Promote, ClosesAsKeyword;
    ReadAny(sep, end);
    ListStops(Join(n1, n2), end);
  }

  lemma CloseList(n1: Node, n2: Node, end: Toks)
    requires Closing(end)
    ensures ListRest(2, n1, n2, end) == Gives(Join(n1, n2), LeftBy(end)) && FollowItem(end)
  {
    hide FindKwd, ListRest, Promote, ClosesAsKeyword;
    if end == [] {
      StepListEof(n1, n2);
    } else {
      assert end == [end[0]] + end[1..];
      if Closes(end) {
        StepListStops(n1, n2, end[0], end[1..]);
      } else {
        StepListAfter(n1, n2, end[0], end[1..]);
      }
    }
  }

  /** Parsing the printed tokens as a list gives back the tree, and leaves what follows the list unread. */
  lemma RoundTrip(a: Ast, end: Toks)
    requires Printable(a) && Closing(end)
    ensures var r := List(0, NULL, Print(a) + end);
            r.Some? && OfNode(r.value.n) == a && r.value.rest == LeftBy(end)
  {
    hide FindKwd, Print, Printable, List, ListRest, ToNode, OfNode;
    NodeRoundTrip(a);
    assert PrintWith(a, []) == Print(a);
    CloseList(NULL, ToNode(a), end);
    ListOf(a, [], 0, end);
  }
}
