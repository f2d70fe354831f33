/** What the parser makes of a printed tree and redirections after it. */
module ShellAfter {
  import opened Option
  import opened ShellTokens
  import opened ShellNodes
  import opened ShellGrammar
  import opened ShellPrinter
  import opened ShellRoundTrip
  import opened ShellSteps
  import opened ShellParseBack
  import opened ShellChains

  // ---------- redirections after a printed tree ----------

  /** The redirections go to the last command of a pipeline. */
  function PipeNodes(ps: seq<Ast>, rs: seq<Redirection>): (ns: seq<Node>)
    requires ps != []
    ensures |ns| == |ps|
  {
    if |ps| == 1 then [NodeRedirected(ps[0], rs)] else [ToNode(ps[0])] + PipeNodes(ps[1..], rs)
  }

  /** The first half of a sequence. */
  function Before(a: Ast): Node {
    if a.Semi? then ToNode(a.l) else NULL
  }

  /** The last item, to whose last command or group the redirections go. */
  function LastNode(a: Ast, rs: seq<Redirection>): Node
    requires Printable(a)
  {
    match a
    case Semi(_, r) => WithRedirs(ToNode(r), ToRedirs(rs))
    case And(l, r) => NAND(ToNode(l), WithRedirs(ToNode(r), ToRedirs(rs)))
    case Or(l, r) => NOR(ToNode(l), WithRedirs(ToNode(r), ToRedirs(rs)))
    case Not(b) => NNOT(WithRedirs(ToNode(b), ToRedirs(rs)))
    case Pipe(bg, ps) => if bg then NodeRedirected(a, rs) else NPIPE(false, PipeNodes(ps, rs))
    case _ => NodeRedirected(a, rs)
  }

  lemma PlainNode(a: Ast)
    ensures WithRedirs(ToNode(a), ToRedirs([])) == ToNode(a)
  {}

  lemma PlainCommand(a: Ast)
    requires Printable(a) && IsCommand(a)
    ensures NodeRedirected(a, []) == ToNode(a)
  {
    hide FindKwd, GoodCommand, GoodRedirs;
    if a.Command? {
      assert a.credirs + [] == a.credirs;
    } else if a.Redir? {
      assert a.redirs + [] == a.redirs;
    }
  }

  lemma {:induction false} PlainPipe(ps: seq<Ast>)
    requires ps != [] && PrintablePipe(ps)
    ensures PipeNodes(ps, []) == ToNodes(ps)
    decreases |ps|
  {
    hide FindKwd, Printable, NodeRedirected, ToNode;
    PlainCommand(ps[0]);
    if |ps| == 1 {
      assert ToNodes(ps[1..]) == [];
    } else {
      PlainPipe(ps[1..]);
    }
  }

  lemma PlainLast(a: Ast)
    requires Printable(a)
    ensures LastNode(a, []) == if a.Semi? then ToNode(a.r) else ToNode(a)
  {
    hide FindKwd, NodeRedirected, PipeNodes, ToNodes, PrintablePipe;
    if a.Semi? || a.And? || a.Or? {
      PlainNode(a.r);
    } else if a.Not? {
      PlainNode(a.a);
    } else if a.Pipe? && !a.bg {
      PlainPipe(a.ps);
    } else {
      PlainCommand(a);
    }
  }

  lemma NothingMore()
    ensures PipeMore([]) == Some(Piped([], []))
    ensures forall n :: AndorItem(n, []) == Some(Item(n, []))
  {}

  lemma {:induction false} PipeMoreOf(ps: seq<Ast>, rs: seq<Redirection>)
    requires ps != [] && AllPrintable(ps) && forall i :: 0 <= i < |ps| ==> IsCommand(ps[i])
    ensures PipeMore(Apart(TPIPE, PipeChain(ps, rs))) == Some(Piped(PipeNodes(ps, rs), []))
    decreases |ps|
  {
    hide FindKwd, Printable, NodeRedirected, ToNode, ChunkToks;
    var ls := Apart(TPIPE, PipeChain(ps, rs));
    if |ps| == 1 {
      OneLink(ps[0], rs);
      NothingMore();
      assert ls[1..] == [] && ls[0].c == Chunk(false, ps[0], rs);
      assert [NodeRedirected(ps[0], rs)] + [] == [NodeRedirected(ps[0], rs)];
    } else {
      OneLink(ps[0], []);
      PlainCommand(ps[0]);
      assert ls[1..] == Apart(TPIPE, PipeChain(ps[1..], rs));
      PipeMoreOf(ps[1..], rs);
    }
  }

  lemma OneLink(a: Ast, rs: seq<Redirection>)
    requires Printable(a) && IsCommand(a)
    ensures ChainOf(a, rs) == [Link(TNL, false, Chunk(false, a, rs))]
  {
    hide FindKwd;
  }

  lemma ItemsOf(a: Ast, rs: seq<Redirection>)
    requires Printable(a)
    ensures ListItems(NULL, ChainOf(a, rs)) == Some(Listed(Before(a), LastNode(a, rs)))
  {
    hide FindKwd, NodeRedirected, PrintablePipe, ToNode, ToRedirs, WithRedirs;
    var ls := ChainOf(a, rs);
    NothingMore();
    if a.Semi? || a.And? || a.Or? {
      PairItems(a, rs);
    } else if a.Pipe? && !a.bg {
      PipeItemsWith(a.ps, rs);
    } else {
      assert ls[1..] == [];
      assert FirstItem(ls) == Some(Item(LastNode(a, rs), []));
    }
  }

  lemma PairItems(a: Ast, rs: seq<Redirection>)
    requires Printable(a) && (a.Semi? || a.And? || a.Or?)
    ensures ListItems(NULL, ChainOf(a, rs)) == Some(Listed(Before(a), LastNode(a, rs)))
  {
    hide FindKwd, NodeRedirected, PrintablePipe, ToNode, ToRedirs, WithRedirs, Printable;
    var ls := ChainOf(a, rs);
    NothingMore();
    PlainNode(a.l);
    var second := [ls[1]];
    assert ls[1..] == second && second[1..] == [];
    assert PipeItem(ls) == Some(Item(ToNode(a.l), second));
    var n2 := WithRedirs(ToNode(a.r), ToRedirs(rs));
    assert PipeItem(second) == Some(Item(n2, []));
    if a.Semi? {
      assert FirstItem(ls) == Some(Item(ToNode(a.l), second));
      assert FirstItem(second) == Some(Item(n2, []));
      assert ListItems(ToNode(a.l), second) == Some(Listed(ToNode(a.l), n2));
    } else {
      assert AndorItem(ToNode(a.l), second) == Some(Item(LastNode(a, rs), []));
      assert FirstItem(ls) == Some(Item(LastNode(a, rs), []));
    }
  }

  lemma PipeItemsWith(ps: seq<Ast>, rs: seq<Redirection>)
    requires |ps| >= 2 && PrintablePipe(ps)
    ensures Printable(Pipe(false, ps))
    ensures ListItems(NULL, ChainOf(Pipe(false, ps), rs)) == Some(Listed(NULL, NPIPE(false, PipeNodes(ps, rs))))
  {
    hide FindKwd, NodeRedirected, ToNode, ToRedirs, WithRedirs;
    AllOfPipe(ps);
    var ls := PipeChain(ps, rs);
    OneLink(ps[0], []);
    PlainCommand(ps[0]);
    assert ls[1..] == Apart(TPIPE, PipeChain(ps[1..], rs));
    PipeMoreOf(ps[1..], rs);
    NothingMore();
    assert PipeItem(ls) == Some(Item(NPIPE(false, PipeNodes(ps, rs)), []));
  }

  /** A printed tree, redirections after it, and what ends an item: what the parser makes of it. */
  lemma ListOfPrinted(a: Ast, rs: seq<Redirection>, end: Toks)
    requires Printable(a) && FollowItem(end)
    ensures List(0, NULL, PrintWith(a, rs) + end) == ListRest(2, Before(a), LastNode(a, rs), end)
  {
    hide FindKwd, Print, Printable, PrintRedirs, List, ListRest, ChainOf, ChainToks, ListItems, Before, LastNode;
    var ls := ChainOf(a, rs);
    ListOfChain(0, NULL, false, ls, end);
    ChainPrinted(a, rs, end);
    assert [] + ChainToks(ls, end) == ChainToks(ls, end);
    ItemsOf(a, rs);
  }
}
