/**
 * Commands joined by separators, as the printer writes every tree: what the parser makes of any such chain.
 * Redirections after a command are taken by that command, or by its brace group if it is printed in one.
 */
module ShellChains {
  import opened Option
  import opened CharClass
  import opened ShellTokens
  import opened ShellNodes
  import opened ShellGrammar
  import opened ShellPrinter
  import opened ShellRoundTrip
  import opened ShellSteps
  import opened ShellParseBack

  /** One command of a chain, in braces or not, with redirections after it. */
  datatype Chunk = Chunk(braces: bool, a: Ast, rs: seq<Redirection>)

  predicate Whole(c: Chunk) {
    Printable(c.a) && (!c.braces ==> IsCommand(c.a))
  }

  function ChunkToks(c: Chunk): Toks {
    (if c.braces then Braces(Print(c.a)) else Print(c.a)) + PrintRedirs(c.rs)
  }

  /** The node of a command that redirections follow. */
  function NodeRedirected(a: Ast, rs: seq<Redirection>): Node {
    match a
    case Command(assigns, args, redirs) => NCMD(ToAssigns(assigns), args, ToRedirs(redirs + rs))
    case Redir(b, redirs) => WithRedirs(ToNode(b), ToRedirs(redirs + rs))
    case Defun(name, body) => NDEFUN(name, WithRedirs(ToNode(body), ToRedirs(rs)))
    case _ => WithRedirs(ToNode(a), ToRedirs(rs))
  }

  function ChunkNode(c: Chunk): Node {
    if c.braces then WithRedirs(ToNode(c.a), ToRedirs(c.rs)) else NodeRedirected(c.a, c.rs)
  }

  function ChunkHead(c: Chunk): Token {
    if c.braces then Key(BEGIN) else Head(c.a)
  }

  function ChunkTail(c: Chunk, ts: Toks): Toks {
    if c.braces then BraceTail(c.a, PrintRedirs(c.rs) + ts) else Tail(c.a, c.rs, ts)
  }

  /** A chunk is read as one command, whatever separator follows. */
  lemma ChunkOf(f: Flags, c: Chunk, ts: Toks)
    requires Whole(c) && Follow(ts) && f.kwd
    ensures Read(f, ChunkToks(c) + ts) == (ChunkHead(c), ChunkTail(c, ts))
    ensures CanStart(ChunkHead(c)) && !IsKwd(ChunkHead(c), NOT)
    ensures CommandFrom(ChunkHead(c), ChunkTail(c, ts)) == Gives(ChunkNode(c), ts)
  {
    hide FindKwd, Print, PrintRedirs, Printable, ToNode, ToRedirs, CommandFrom, NodeRedirected, Promote;
    if c.braces {
      GroupOf(c.a, c.rs, ts);
      ReadBraces(f, c.a, PrintRedirs(c.rs) + ts);
      Assoc(Braces(Print(c.a)), PrintRedirs(c.rs), ts);
    } else {
      ReadHead(f, c.a, c.rs, ts);
      CommandWith(c.a, c.rs, ts);
    }
  }

  /** A brace group takes redirections, whatever is in it. */
  lemma GroupOf(a: Ast, rs: seq<Redirection>, ts: Toks)
    requires Printable(a) && Follow(ts)
    ensures CommandFrom(Key(BEGIN), BraceTail(a, PrintRedirs(rs) + ts))
            == Gives(WithRedirs(ToNode(a), ToRedirs(rs)), ts)
  {
    hide FindKwd, Print, Printable, PrintRedirs, ToRedirs, List, ToNode, Compound, CommandFrom;
    var ts1 := PrintRedirs(rs) + ts;
    ListUntil(a, END, ts1);
    StepBegin(Word(Spelling(BEGIN), false), BraceTail(a, ts1), ToNode(a), ts1);
    RedirsOf(KWD, rs, ts);
    StepCompound(Key(BEGIN), BraceTail(a, ts1), ToNode(a), ts1, ToRedirs(rs), ts);
  }

  lemma CommandWith(a: Ast, rs: seq<Redirection>, ts: Toks)
    requires Printable(a) && IsCommand(a) && Follow(ts)
    ensures Head(a) != TEOF
    ensures CommandFrom(Head(a), Tail(a, rs, ts)) == Gives(NodeRedirected(a, rs), ts)
  {
    hide FindKwd, CommandFrom, Compound, Print, PrintRedirs, ToRedirs;
    StartOf(a);
    if a.Command? {
      SimpleWith(a, rs, ts);
    } else if a.Redir? {
      StartOf(a.a);
      MoreRedirs(a.a, a.redirs, rs, ts);
      CompoundWith(a.a, a.redirs + rs, ts);
    } else if a.Defun? {
      DefunWith(a, rs, ts);
    } else {
      CompoundWith(a, rs, ts);
    }
  }

  lemma CompoundWith(a: Ast, rs: seq<Redirection>, ts: Toks)
    requires Printable(a) && (TakesRedirs(a) || a.Subshell?) && Follow(ts)
    ensures CommandFrom(Head(a), Tail(a, rs, ts)) == Gives(WithRedirs(ToNode(a), ToRedirs(rs)), ts)
  {
    hide FindKwd, CommandFrom, Compound, Print, PrintRedirs, Printable, ToNode, ToRedirs;
    var ts1 := PrintRedirs(rs) + ts;
    CompoundOf(a, ts1);
    RedirsOf(KWD, rs, ts);
    StepCompound(Head(a), Tail(a, rs, ts), ToNode(a), ts1, ToRedirs(rs), ts);
  }

  lemma {:induction false} PrintRedirsAppend(rs: seq<Redirection>, more: seq<Redirection>)
    ensures PrintRedirs(rs + more) == PrintRedirs(rs) + PrintRedirs(more)
    ensures ToRedirs(rs + more) == ToRedirs(rs) + ToRedirs(more)
  {
    if rs == [] {
      assert rs + more == more;
    } else {
      assert (rs + more)[1..] == rs[1..] + more;
      PrintRedirsAppend(rs[1..], more);
    }
  }

  lemma MoreRedirs(b: Ast, redirs: seq<Redirection>, rs: seq<Redirection>, ts: Toks)
    requires Print(b) != []
    ensures Head(Redir(b, redirs)) == Head(b) && Tail(Redir(b, redirs), rs, ts) == Tail(b, redirs + rs, ts)
  {
    var p, r, q := Print(b), PrintRedirs(redirs), PrintRedirs(rs);
    RedirPrint(b, redirs);
    PrintRedirsAppend(redirs, rs);
    hide Promote, Print, PrintRedirs;
    assert (p + r)[0] == p[0];
    assert (p + r)[1..] == p[1..] + r;
    Assoc(p[1..], r, q + ts);
    Assoc(r, q, ts);
  }

  lemma SimpleTokens(a: Ast, rs: seq<Redirection>, ts: Toks)
    requires a.Command?
    ensures Print(a) + (PrintRedirs(rs) + ts)
            == PrintAssigns(a.assigns) + (PrintWords(a.args) + (PrintRedirs(a.credirs + rs) + ts))
  {
    var v, w, r, q := PrintAssigns(a.assigns), PrintWords(a.args), PrintRedirs(a.credirs), PrintRedirs(rs);
    assert Print(a) == v + (w + r);
    PrintRedirsAppend(a.credirs, rs);
    hide Print, PrintAssigns, PrintWords, PrintRedirs;
    Assoc(v, w + r, q + ts);
    Assoc(w, r, q + ts);
    Assoc(r, q, ts);
  }

  lemma SimpleParses(assigns: seq<Assign>, args: seq<Word>, rs: seq<Redirection>, ts: Toks)
    requires Follow(ts) && (forall i :: 0 <= i < |assigns| ==> GoodAssign(assigns[i]))
    requires args != [] ==> !IsAssignment(args[0].text)
    ensures Simple([], [], [], true, PrintAssigns(assigns) + (PrintWords(args) + (PrintRedirs(rs) + ts)))
            == Gives(NCMD(ToAssigns(assigns), args, ToRedirs(rs)), ts)
  {
    hide FindKwd, PrintRedirs, Simple, ToRedirs, ToAssigns, PrintAssigns, PrintWords, IsAssignment, GoodAssign;
    var ts1 := PrintRedirs(rs) + ts;
    SimpleAssigns(assigns, [], PrintWords(args) + ts1);
    assert [] + ToAssigns(assigns) == ToAssigns(assigns);
    SimpleArgs(args, ToAssigns(assigns), [], true, ts1);
    assert [] + args == args;
    SimpleRedirs(rs, ToAssigns(assigns), args, [], args == [], ts);
    assert [] + ToRedirs(rs) == ToRedirs(rs);
  }

  lemma SimpleWith(a: Ast, rs: seq<Redirection>, ts: Toks)
    requires Printable(a) && a.Command? && Follow(ts)
    ensures CommandFrom(Head(a), Tail(a, rs, ts)) == Gives(NodeRedirected(a, rs), ts)
  {
    hide FindKwd, PrintRedirs, Simple, ToRedirs, ToAssigns, PrintAssigns, PrintWords, IsAssignment, GoodAssign,
        GoodRedirs, Print;
    StartOf(a);
    SimpleStart(a);
    assert [Head(a)] + Tail(a, rs, ts) == Print(a) + (PrintRedirs(rs) + ts);
    SimpleTokens(a, rs, ts);
    SimpleParses(a.assigns, a.args, a.credirs + rs, ts);
  }

  lemma DefunWith(a: Ast, rs: seq<Redirection>, ts: Toks)
    requires Printable(a) && a.Defun? && Follow(ts)
    ensures CommandFrom(Head(a), Tail(a, rs, ts)) == Gives(NodeRedirected(a, rs), ts)
  {
    var Defun(name, body) := a;
    var end := PrintRedirs(rs) + ts;
    var inner := [TNL] + (Print(body) + ([TNL, Kwd(END)] + end));
    var rest := [TLP, TRP] + ([Kwd(BEGIN)] + inner);
    DefunTokens(a, end);
    NoPrint();
    assert [] + end == end && Tail(a, [], end) == Tail(a, rs, ts);
    hide FindKwd, Print, PrintRedirs, ToRedirs, List, Compound, CommandFrom, ToNode, GoodName, SPECIAL_BUILTINS;
    ListUntilNewline(body, END, end);
    StepBegin(Word(Spelling(BEGIN), false), inner, ToNode(body), end);
    RedirsOf(KWD, rs, ts);
    var n := WithRedirs(ToNode(body), ToRedirs(rs));
    StepCompound(Key(BEGIN), inner, ToNode(body), end, ToRedirs(rs), ts);
    StepDefun(name, rest, inner, n, ts);
  }

  // ---------- chains ----------

  /** A chunk, what is before it, and whether it is negated; the separator of the first link does not matter. */
  datatype Link = Link(sep: Token, neg: bool, c: Chunk)

  predicate Chain(ls: seq<Link>) {
    forall i :: 0 <= i < |ls| ==> Whole(ls[i].c) && ls[i].sep in {TNL, TAND, TOR, TPIPE}
  }

  function LinkToks(l: Link): Toks {
    (if l.neg then [Kwd(NOT)] else []) + ChunkToks(l.c)
  }

  /** The later links of a chain, each with its separator, and what is after them. */
  function MoreToks(ls: seq<Link>, end: Toks): Toks
    decreases |ls|, 1
  {
    if ls == [] then end else [ls[0].sep] + ChainToks(ls, end)
  }

  function ChainToks(ls: seq<Link>, end: Toks): Toks
    requires ls != []
    decreases |ls|, 0
  {
    LinkToks(ls[0]) + MoreToks(ls[1..], end)
  }

  // ---------- the nodes of a chain ----------

  datatype Piped = Piped(ns: seq<Node>, left: seq<Link>)
  datatype Item = Item(n: Node, left: seq<Link>)
  datatype Listed = Listed(before: Node, last: Node)

  predicate AfterPipe(ls: seq<Link>) {
    ls == [] || ls[0].sep != TPIPE
  }

  /** The later commands of a pipeline; none of them can be negated. */
  function PipeMore(ls: seq<Link>): (r: Option<Piped>)
    requires Chain(ls)
    ensures r.Some? ==> |r.value.left| <= |ls| && Chain(r.value.left) && AfterPipe(r.value.left)
    decreases |ls|
  {
    if AfterPipe(ls) then Some(Piped([], ls))
    else if ls[0].neg then None
    else
      var q :- PipeMore(ls[1..]);
      Some(Piped([ChunkNode(ls[0].c)] + q.ns, q.left))
  }

  function PipeNode(c: Chunk, q: Piped): Node {
    if q.ns == [] then ChunkNode(c) else NPIPE(false, [ChunkNode(c)] + q.ns)
  }

  function PipeItem(ls: seq<Link>): (r: Option<Item>)
    requires ls != [] && Chain(ls)
    ensures r.Some? ==> |r.value.left| < |ls| && Chain(r.value.left) && AfterPipe(r.value.left)
  {
    var q :- PipeMore(ls[1..]);
    var n := PipeNode(ls[0].c, q);
    Some(Item(if ls[0].neg then NNOT(n) else n, q.left))
  }

  /** And-or lists group to the left. */
  function AndorItem(n1: Node, ls: seq<Link>): (r: Option<Item>)
    requires Chain(ls)
    ensures r.Some? ==> |r.value.left| <= |ls| && Chain(r.value.left)
    ensures r.Some? ==> r.value.left == [] || r.value.left[0].sep !in {TAND, TOR}
    ensures r.Some? && AfterPipe(ls) ==> AfterPipe(r.value.left)
    decreases |ls|
  {
    if ls == [] || ls[0].sep !in {TAND, TOR} then Some(Item(n1, ls))
    else
      var p :- PipeItem(ls);
      AndorItem(if ls[0].sep == TAND then NAND(n1, p.n) else NOR(n1, p.n), p.left)
  }

  function FirstItem(ls: seq<Link>): (r: Option<Item>)
    requires ls != [] && Chain(ls)
    ensures r.Some? ==> |r.value.left| < |ls| && Chain(r.value.left)
    ensures r.Some? ==> r.value.left == [] || r.value.left[0].sep !in {TAND, TOR, TPIPE}
  {
    var p :- PipeItem(ls);
    AndorItem(p.n, p.left)
  }

  /** A newline ends an item; the last one may still be put in the background. */
  function ListItems(n1: Node, ls: seq<Link>): Option<Listed>
    requires ls != [] && Chain(ls)
    decreases |ls|
  {
    var q :- FirstItem(ls);
    if q.left == [] then Some(Listed(n1, q.n)) else ListItems(Join(n1, q.n), q.left)
  }

  // ---------- the parser on a chain ----------

  function ChainHead(ls: seq<Link>): Token
    requires ls != []
  {
    if ls[0].neg then Key(NOT) else ChunkHead(ls[0].c)
  }

  function ChainTail(ls: seq<Link>, end: Toks): Toks
    requires ls != []
  {
    var more := MoreToks(ls[1..], end);
    if ls[0].neg then ChunkToks(ls[0].c) + more else ChunkTail(ls[0].c, more)
  }

  lemma MoreFollows(ls: seq<Link>, end: Toks)
    requires Chain(ls) && FollowItem(end)
    ensures Follow(MoreToks(ls, end))
    ensures AfterPipe(ls) ==> FollowPipeline(MoreToks(ls, end))
    ensures AfterPipe(ls) && (ls == [] || ls[0].sep !in {TAND, TOR}) ==> FollowItem(MoreToks(ls, end))
  {
    hide ChainToks;
  }

  lemma ReadChain(f: Flags, ls: seq<Link>, end: Toks)
    requires ls != [] && Chain(ls) && FollowItem(end) && f.kwd
    ensures Read(f, ChainToks(ls, end)) == (ChainHead(ls), ChainTail(ls, end))
    ensures CanStart(ChainHead(ls)) && (IsKwd(ChainHead(ls), NOT) <==> ls[0].neg)
  {
    hide FindKwd, ChunkToks, ChunkHead, ChunkTail, ChunkNode, Whole, CommandFrom, MoreToks;
    var c, more := ls[0].c, MoreToks(ls[1..], end);
    MoreFollows(ls[1..], end);
    ChunkOf(f, c, more);
    if ls[0].neg {
      Assoc([Kwd(NOT)], ChunkToks(c), more);
      ReadKwd(f, NOT, ChunkToks(c) + more);
    } else {
      assert [] + ChunkToks(c) == ChunkToks(c);
    }
  }

  function ItemsGiven(c: Chunk, q: Option<Piped>, end: Toks): Option<ParsedNodes> {
    if q.None? then None else Some(ParsedNodes([ChunkNode(c)] + q.value.ns, MoreToks(q.value.left, end)))
  }

  /** The commands after a pipe. */
  lemma {:induction false} PipeItemsOfChain(ls: seq<Link>, end: Toks)
    requires ls != [] && Chain(ls) && FollowItem(end)
    ensures PipeItems(ChainToks(ls, end)) == if ls[0].neg then None else ItemsGiven(ls[0].c, PipeMore(ls[1..]), end)
    decreases |ls|
  {
    hide FindKwd, ChunkToks, ChunkHead, ChunkTail, ChunkNode, Whole, CommandFrom, PipeItems, ChainToks;
    var c, more := ls[0].c, MoreToks(ls[1..], end);
    ReadChain(NLKWD, ls, end);
    MoreFollows(ls[1..], end);
    if ls[0].neg {
      NoNegatedItem(ChainToks(ls, end), ChainTail(ls, end));
    } else {
      ChunkOf(NLKWD, c, more);
      if AfterPipe(ls[1..]) {
        StepPipeLast(ChainToks(ls, end), ChunkHead(c), ChunkTail(c, more), ChunkNode(c), more);
        assert [ChunkNode(c)] + [] == [ChunkNode(c)];
      } else {
        PipeItemsOfChain(ls[1..], end);
        StepItems(ChainToks(ls, end), ChunkHead(c), ChunkTail(c, more), ChunkNode(c), ChainToks(ls[1..], end));
        if !ls[1].neg && PipeMore(ls[2..]).Some? {
          assert ls[1..][1..] == ls[2..];
        }
      }
    }
  }

  lemma NoNegatedItem(ts: Toks, ts1: Toks)
    requires Read(NLKWD, ts) == (Key(NOT), ts1)
    ensures PipeItems(ts) == None
  {
    hide FindKwd;
    assert Compound(Key(NOT), ts1) == None;
    assert ShellGrammar.Command(NLKWD, ts) == None;
  }

  lemma StepItems(ts: Toks, tok: Token, ts1: Toks, n: Node, ts2: Toks)
    requires Read(NLKWD, ts) == (tok, ts1) && tok != TEOF
    requires CommandFrom(tok, ts1) == Gives(n, [TPIPE] + ts2)
    ensures PipeItems(ts) == if PipeItems(ts2).None? then None
                             else Some(ParsedNodes([n] + PipeItems(ts2).value.ns, PipeItems(ts2).value.rest))
  {
    hide FindKwd;
    ReadAny(TPIPE, ts2);
    assert ShellGrammar.Command(NLKWD, ts) == Gives(n, [TPIPE] + ts2);
  }

  function Given(i: Option<Item>, end: Toks): Option<Parsed> {
    if i.None? then None else Gives(i.value.n, MoreToks(i.value.left, end))
  }

  function BodyGiven(c: Chunk, q: Option<Piped>, end: Toks): Option<Parsed> {
    if q.None? then None else Gives(PipeNode(c, q.value), MoreToks(q.value.left, end))
  }

  /** A pipeline after its negation. */
  lemma BodyOfChain(f: Flags, all: Toks, ls: seq<Link>, end: Toks)
    requires ls != [] && Chain(ls) && FollowItem(end)
    requires var more := MoreToks(ls[1..], end); Read(f, all) == (ChunkHead(ls[0].c), ChunkTail(ls[0].c, more))
    ensures PipelineBody(f, all) == BodyGiven(ls[0].c, PipeMore(ls[1..]), end)
  {
    hide FindKwd, ChunkToks, ChunkHead, ChunkTail, ChunkNode, Whole, CommandFrom, PipeItems, ChainToks;
    var c, more := ls[0].c, MoreToks(ls[1..], end);
    MoreFollows(ls[1..], end);
    ChunkOf(KWD, c, more);
    assert ShellGrammar.Command(f, all) == Gives(ChunkNode(c), more);
    if AfterPipe(ls[1..]) {
      ReadFollow(NONE, more);
    } else {
      ReadAny(TPIPE, ChainToks(ls[1..], end));
      PipeItemsOfChain(ls[1..], end);
      assert ls[1..][1..] == ls[2..];
    }
  }

  lemma PipelineOfChain(f: Flags, all: Toks, ls: seq<Link>, end: Toks)
    requires ls != [] && Chain(ls) && FollowItem(end)
    requires Read(f, all) == (ChainHead(ls), ChainTail(ls, end))
    ensures Pipeline(f, all) == Given(PipeItem(ls), end)
  {
    hide FindKwd, ChunkToks, ChunkHead, ChunkTail, ChunkNode, Whole, CommandFrom, PipeItems, ChainToks, PipelineBody;
    ReadChain(KWD, ls, end);
    var c, more := ls[0].c, MoreToks(ls[1..], end);
    MoreFollows(ls[1..], end);
    ChunkOf(KWD, c, more);
    if ls[0].neg {
      BodyOfChain(KWD, ChainTail(ls, end), ls, end);
    } else {
      ReadBack(ChainHead(ls), ChainTail(ls, end));
      BodyOfChain(NONE, [ChainHead(ls)] + ChainTail(ls, end), ls, end);
    }
  }

  lemma {:induction false} AndorRestOfChain(n1: Node, ls: seq<Link>, end: Toks)
    requires Chain(ls) && FollowItem(end) && AfterPipe(ls)
    ensures AndorRest(n1, MoreToks(ls, end)) == Given(AndorItem(n1, ls), end)
    decreases |ls|
  {
    hide FindKwd, ChunkToks, ChunkHead, ChunkTail, ChunkNode, Whole, Pipeline, ChainToks, PipeItem;
    MoreFollows(ls, end);
    if ls == [] || ls[0].sep !in {TAND, TOR} {
      ReadFollow(NONE, MoreToks(ls, end));
    } else {
      var rest := ChainToks(ls, end);
      ReadAny(ls[0].sep, rest);
      ReadChain(NLKWD, ls, end);
      PipelineOfChain(NLKWD, rest, ls, end);
      if PipeItem(ls).Some? {
        var p := PipeItem(ls).value;
        AndorRestOfChain(if ls[0].sep == TAND then NAND(n1, p.n) else NOR(n1, p.n), p.left, end);
      }
    }
  }

  /** What a list is, given its items. */
  function ListGiven(p: Option<Listed>, end: Toks): Option<Parsed> {
    if p.None? then None else ListRest(2, p.value.before, p.value.last, end)
  }

  lemma AndorOfChain(ls: seq<Link>, end: Toks)
    requires ls != [] && Chain(ls) && FollowItem(end)
    ensures Andor([ChainHead(ls)] + ChainTail(ls, end)) == Given(FirstItem(ls), end)
  {
    hide FindKwd, Whole, ChainHead, ChainTail, Pipeline, ChainToks, PipeItem, AndorRest, AndorItem;
    ReadChain(NLKWD, ls, end);
    var seen := [ChainHead(ls)] + ChainTail(ls, end);
    ReadBack(ChainHead(ls), ChainTail(ls, end));
    PipelineOfChain(NONE, seen, ls, end);
    if PipeItem(ls).Some? {
      var p := PipeItem(ls).value;
      AndorRestOfChain(p.n, p.left, end);
    }
  }

  lemma StepFirst(nlflag: nat, n1: Node, ts: Toks, tok: Token, ts1: Toks)
    requires (nlflag == 0 || nlflag == 2) && Read(NLKWD, ts) == (tok, ts1) && CanStart(tok)
    ensures var p := Andor([tok] + ts1);
            List(nlflag, n1, ts) == if p.None? then None else ListRest(2, n1, p.value.n, p.value.rest)
  {
    hide FindKwd, Andor, ListRest;
    assert !EndsList(tok);
  }

  lemma {:induction false} ListOfChain(nlflag: nat, n1: Node, after: bool, ls: seq<Link>, end: Toks)
    requires ls != [] && Chain(ls) && FollowItem(end) && (nlflag == 0 || nlflag == 2)
    ensures List(nlflag, n1, (if after then [TNL] else []) + ChainToks(ls, end)) == ListGiven(ListItems(n1, ls), end)
    decreases |ls|
  {
    hide FindKwd, ChainHead, ChainTail, Whole, ChainToks, FirstItem, List, ListRest, Andor, Join;
    var all := ChainToks(ls, end);
    var ts := (if after then [TNL] else []) + all;
    ReadChain(NLKWD, ls, end);
    assert [] + all == all && ([TNL] + all)[1..] == all;
    StepFirst(nlflag, n1, ts, ChainHead(ls), ChainTail(ls, end));
    AndorOfChain(ls, end);
    if FirstItem(ls).Some? {
      var q := FirstItem(ls).value;
      if q.left != [] {
        assert q.left[0].sep == TNL;
        StepLine(n1, q.n, ChainToks(q.left, end));
        ListOfChain(2, Join(n1, q.n), true, q.left, end);
      }
    }
  }

  lemma StepLine(n1: Node, n2: Node, ts: Toks)
    ensures ListRest(2, n1, n2, [TNL] + ts) == List(2, Join(n1, n2), [TNL] + ts)
  {
    hide FindKwd, List;
    ReadAny(TNL, ts);
  }

  // ---------- the chain of a printed tree ----------

  predicate AllPrintable(ps: seq<Ast>) {
    forall i :: 0 <= i < |ps| ==> Printable(ps[i])
  }

  function Apart(sep: Token, ls: seq<Link>): seq<Link>
    requires ls != []
  {
    [ls[0].(sep := sep)] + ls[1..]
  }

  /** A tree with redirections after it, which go to its last command. */
  function ChainOf(a: Ast, rs: seq<Redirection>): (ls: seq<Link>)
    requires Printable(a)
    ensures ls != [] && Chain(ls)
    decreases a, 0
  {
    match a
    case Semi(l, r) => [Link(TNL, false, Chunk(true, l, [])), Link(TNL, false, Chunk(true, r, rs))]
    case And(l, r) => [Link(TNL, false, Chunk(true, l, [])), Link(TAND, false, Chunk(true, r, rs))]
    case Or(l, r) => [Link(TNL, false, Chunk(true, l, [])), Link(TOR, false, Chunk(true, r, rs))]
    case Not(b) => [Link(TNL, true, Chunk(true, b, rs))]
    case Pipe(bg, ps) =>
      if bg then [Link(TNL, false, Chunk(false, a, rs))]
      else
        AllOfPipe(ps);
        PipeChain(ps, rs)
    case _ => [Link(TNL, false, Chunk(false, a, rs))]
  }

  lemma {:induction false} AllOfPipe(ps: seq<Ast>)
    requires PrintablePipe(ps)
    ensures AllPrintable(ps) && forall i :: 0 <= i < |ps| ==> IsCommand(ps[i])
    decreases |ps|
  {
    if ps != [] {
      AllOfPipe(ps[1..]);
      assert forall i :: 0 < i < |ps| ==> ps[i] == ps[1..][i - 1];
    }
  }

  function PipeChain(ps: seq<Ast>, rs: seq<Redirection>): (ls: seq<Link>)
    requires ps != [] && AllPrintable(ps)
    ensures ls != [] && Chain(ls)
    decreases ps, 0
  {
    if |ps| == 1 then ChainOf(ps[0], rs)
    else ChainOf(ps[0], []) + Apart(TPIPE, PipeChain(ps[1..], rs))
  }

  lemma {:induction false} MoreAppend(xs: seq<Link>, ys: seq<Link>, end: Toks)
    ensures MoreToks(xs + ys, end) == MoreToks(xs, MoreToks(ys, end))
    decreases |xs|
  {
    hide LinkToks;
    if xs == [] {
      assert xs + ys == ys;
    } else {
      assert (xs + ys)[1..] == xs[1..] + ys;
      MoreAppend(xs[1..], ys, end);
    }
  }

  lemma ChainAppend(xs: seq<Link>, ys: seq<Link>, sep: Token, end: Toks)
    requires xs != [] && ys != []
    ensures ChainToks(xs + Apart(sep, ys), end) == ChainToks(xs, [sep] + ChainToks(ys, end))
  {
    hide LinkToks;
    var more := Apart(sep, ys);
    assert (xs + more)[1..] == xs[1..] + more;
    MoreAppend(xs[1..], more, end);
    assert more[1..] == ys[1..];
    assert LinkToks(more[0]) == LinkToks(ys[0]) by { SameLink(ys[0], sep); }
  }

  lemma SameLink(l: Link, sep: Token)
    ensures LinkToks(l.(sep := sep)) == LinkToks(l)
  {
    hide ChunkToks;
  }

  lemma {:induction false} ChainPrinted(a: Ast, rs: seq<Redirection>, end: Toks)
    requires Printable(a)
    ensures ChainToks(ChainOf(a, rs), end) == PrintWith(a, rs) + end
    decreases a, 0
  {
    hide FindKwd, PrintRedirs, PrintPipe, MoreToks, ChainToks;
    if a.Semi? || a.And? || a.Or? {
      PairChain(a, rs, end);
    } else if a.Pipe? && !a.bg {
      AllOfPipe(a.ps);
      PipePrinted(a.ps, rs, end);
    } else {
      OneChain(a, rs, end);
    }
  }

  lemma OneChain(a: Ast, rs: seq<Redirection>, end: Toks)
    requires Printable(a) && !a.Semi? && !a.And? && !a.Or? && (a.Pipe? ==> a.bg)
    ensures ChainToks(ChainOf(a, rs), end) == PrintWith(a, rs) + end
  {
    hide FindKwd, PrintRedirs, Printable;
    var ls := ChainOf(a, rs);
    assert ls[1..] == [];
    if a.Not? {
      assert Print(a) == [Kwd(NOT)] + Braces(Print(a.a));
      hide Print, Braces;
      Assoc([Kwd(NOT)], Braces(Print(a.a)), PrintRedirs(rs));
      assert LinkToks(ls[0]) == PrintWith(a, rs);
    } else {
      hide Print;
      assert LinkToks(ls[0]) == [] + PrintWith(a, rs) == PrintWith(a, rs);
    }
  }

  lemma PairChain(a: Ast, rs: seq<Redirection>, end: Toks)
    requires Printable(a) && (a.Semi? || a.And? || a.Or?)
    ensures ChainToks(ChainOf(a, rs), end) == PrintWith(a, rs) + end
  {
    hide FindKwd, Printable;
    var sep := if a.Semi? then TNL else if a.And? then TAND else TOR;
    var l, r, q := Braces(Print(a.l)), Braces(Print(a.r)), PrintRedirs(rs);
    assert Print(a) == l + ([sep] + r);
    var ls := ChainOf(a, rs);
    assert ls[1..] == [ls[1]] && ls[1].sep == sep;
    hide Print, Braces, PrintRedirs;
    assert ChainToks([ls[1]], end) == LinkToks(ls[1]) + end by { assert [ls[1]][1..] == []; }
    assert ChainToks(ls, end) == LinkToks(ls[0]) + ([sep] + (LinkToks(ls[1]) + end));
    assert LinkToks(ls[0]) == l by { NoPrint(); assert [] + (l + []) == l; }
    assert LinkToks(ls[1]) == r + q by { assert [] + (r + q) == r + q; }
    PairSeq(l, sep, r, q, end);
  }

  lemma PairSeq(l: Toks, sep: Token, r: Toks, q: Toks, end: Toks)
    ensures l + ([sep] + ((r + q) + end)) == ((l + ([sep] + r)) + q) + end
  {
    Assoc(l + ([sep] + r), q, end);
    Assoc(l, [sep] + r, q + end);
    Assoc([sep], r, q + end);
    Assoc(r, q, end);
  }

  lemma {:induction false} PipePrinted(ps: seq<Ast>, rs: seq<Redirection>, end: Toks)
    requires ps != [] && AllPrintable(ps)
    ensures ChainToks(PipeChain(ps, rs), end) == PrintPipe(ps) + (PrintRedirs(rs) + end)
    decreases ps, 0
  {
    hide FindKwd, Print, PrintRedirs, MoreToks, ChainToks, ChainOf, Printable;
    var p, q := Print(ps[0]), PrintRedirs(rs);
    if |ps| == 1 {
      ChainPrinted(ps[0], rs, end);
      Assoc(p, q, end);
    } else {
      var more := PipeChain(ps[1..], rs);
      var rest := PrintPipe(ps[1..]) + (q + end);
      PipePrinted(ps[1..], rs, end);
      ChainAppend(ChainOf(ps[0], []), more, TPIPE, end);
      ChainPrinted(ps[0], [], [TPIPE] + rest);
      NoPrint();
      assert p + [] == p;
      Assoc(p, [TPIPE] + PrintPipe(ps[1..]), q + end);
      Assoc([TPIPE], PrintPipe(ps[1..]), q + end);
    }
  }
}
