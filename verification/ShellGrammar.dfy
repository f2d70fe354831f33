/**
 * The recursive-descent grammar of src/parser.c as functions from a token stream to a node and the
 * unread tokens; a syntax error is None.
 */
module ShellGrammar {
  import opened Option
  import opened CharClass
  import opened ShellTokens
  import opened ShellNodes

  datatype Parsed = Parsed(n: Node, rest: Toks)
  datatype ParsedRedir = ParsedRedir(r: RedirNode, rest: Toks)
  datatype ParsedRedirs = ParsedRedirs(rs: seq<RedirNode>, rest: Toks)
  datatype ParsedWords = ParsedWords(ws: seq<Word>, end: Token, rest: Toks)
  datatype ParsedNodes = ParsedNodes(ns: seq<Node>, rest: Toks)
  datatype ParsedClauses = ParsedClauses(cs: seq<Clause>, rest: Toks)

  // ---------- lists ----------

  /** What a trailing `&` does to a node. */
  function InBackground(n: Node): Node {
    match n
    case NPIPE(_, cmds) => NPIPE(true, cmds)
    case NREDIR(body, redirect) => NBACKGND(body, redirect)
    case _ => NBACKGND(n, [])
  }

  function Join(n1: Node, n2: Node): Node {
    if n1 == NULL then n2 else NSEMI(n1, n2)
  }

  /**
   * nlflag is 1 for a top-level line, which a newline ends; 2 once the list may end before an item;
   * n1 is the list so far.
   */
  function List(nlflag: nat, n1: Node, ts: Toks): (r: Option<Parsed>)
    requires nlflag <= 3
    ensures r.Some? ==> |r.value.rest| <= |ts|
    decreases |ts|, 6
  {
    var chknl := nlflag % 2 == 0;
    var (tok, rest) := Read(Flags(chknl, true), ts);
    if tok == TNL then Some(Parsed(n1, rest))
    else if tok == TEOF then Some(Parsed(if n1 == NULL && !chknl then NEOF else n1, rest))
    else if nlflag == 2 && EndsList(tok) then Some(Parsed(n1, Pushback(tok, rest)))
    else
      var p :- Andor(Pushback(tok, rest));
      ListRest(if chknl then 2 else 3, n1, p.n, p.rest)
  }

  /** After item n2: take its separator and go on, or stop before a token that is none. */
  function ListRest(nlflag: nat, n1: Node, n2: Node, ts: Toks): (r: Option<Parsed>)
    requires nlflag == 2 || nlflag == 3
    ensures r.Some? ==> |r.value.rest| <= |ts|
    decreases |ts|, 7
  {
    var (tok, rest) := Read(NONE, ts);
    var n := Join(n1, if tok == TBACKGND then InBackground(n2) else n2);
    match tok
    case TEOF => Some(Parsed(n, rest))
    case TNL => List(nlflag, n, Pushback(tok, rest))
    case TBACKGND => List(nlflag, n, rest)
    case TSEMI => List(nlflag, n, rest)
    case _ => if nlflag == 3 then None else Some(Parsed(n, Pushback(tok, rest)))
  }

  // ---------- and-or lists and pipelines ----------

  function Andor(ts: Toks): (r: Option<Parsed>)
    ensures r.Some? ==> |r.value.rest| <= |ts|
    ensures r.Some? && Read(NONE, ts).0 != TNL ==> |r.value.rest| < |ts|
    decreases |ts|, 5
  {
    var p :- Pipeline(NONE, ts);
    AndorRest(p.n, p.rest)
  }

  function AndorRest(n1: Node, ts: Toks): (r: Option<Parsed>)
    ensures r.Some? ==> |r.value.rest| <= |ts|
    decreases |ts|, 4
  {
    var (tok, rest) := Read(NONE, ts);
    match tok
    case TAND =>
      var p :- Pipeline(NLKWD, rest);
      AndorRest(NAND(n1, p.n), p.rest)
    case TOR =>
      var p :- Pipeline(NLKWD, rest);
      AndorRest(NOR(n1, p.n), p.rest)
    case _ => Some(Parsed(n1, Pushback(tok, rest)))
  }

  function Pipeline(f: Flags, ts: Toks): (r: Option<Parsed>)
    ensures r.Some? ==> |r.value.rest| <= |ts|
    ensures r.Some? && Read(f, ts).0 != TNL ==> |r.value.rest| < |ts|
    decreases |ts|, 4
  {
    var (tok, rest) := Read(f, ts);
    if IsKwd(tok, NOT) then
      var p :- PipelineBody(KWD, rest);
      Some(Parsed(NNOT(p.n), p.rest))
    else
      PipelineBody(NONE, Pushback(tok, rest))
  }

  function PipelineBody(f: Flags, ts: Toks): (r: Option<Parsed>)
    ensures r.Some? ==> |r.value.rest| <= |ts|
    ensures r.Some? && Read(f, ts).0 != TNL ==> |r.value.rest| < |ts|
    decreases |ts|, 3
  {
    var p :- Command(f, ts);
    var (tok, rest) := Read(NONE, p.rest);
    if tok == TPIPE then
      var q :- PipeItems(rest);
      Some(Parsed(NPIPE(false, [p.n] + q.ns), q.rest))
    else
      Some(Parsed(p.n, Pushback(tok, rest)))
  }

  function PipeItems(ts: Toks): (r: Option<ParsedNodes>)
    ensures r.Some? ==> |r.value.rest| <= |ts|
    decreases |ts|, 3
  {
    var p :- Command(NLKWD, ts);
    var (tok, rest) := Read(NONE, p.rest);
    if tok == TPIPE then
      var q :- PipeItems(rest);
      Some(ParsedNodes([p.n] + q.ns, q.rest))
    else
      Some(ParsedNodes([p.n], Pushback(tok, rest)))
  }

  // ---------- commands ----------

  function Command(f: Flags, ts: Toks): (r: Option<Parsed>)
    ensures r.Some? ==> |r.value.rest| <= |ts|
    ensures r.Some? && Read(f, ts).0 != TNL ==> |r.value.rest| < |ts|
    decreases |ts|, 2
  {
    var (tok, rest) := Read(f, ts);
    if tok == TEOF then None else CommandFrom(tok, rest)
  }

  predicate StartsSimple(tok: Token) {
    tok.TWORD? || tok.TREDIR? || tok == TNL
  }

  /** A command whose first token has been read. */
  function CommandFrom(tok: Token, ts: Toks): (r: Option<Parsed>)
    requires tok != TEOF
    ensures r.Some? ==> |r.value.rest| <= |ts| + (if tok == TNL then 1 else 0)
    decreases |ts| + 1, 1
  {
    if StartsSimple(tok) then Simple([], [], [], true, [tok] + ts)
    else
      var p :- Compound(tok, ts);
      Redirected(p.n, p.rest)
  }

  /** A compound command, up to its closing token. */
  function Compound(tok: Token, ts: Toks): (r: Option<Parsed>)
    ensures r.Some? ==> |r.value.rest| <= |ts|
    decreases |ts| + 1, 0
  {
    if tok == TLP then SubshellPart(ts)
    else if tok.TKWD? then
      match tok.k
      case IF => IfCommand(ts)
      case WHILE => WhilePart(WHILE, ts)
      case UNTIL => WhilePart(UNTIL, ts)
      case FOR => ForPart(ts)
      case CASE => CasePart(ts)
      case BEGIN => BracePart(ts)
      case _ => None
    else None
  }

  function SubshellPart(ts: Toks): (r: Option<Parsed>)
    ensures r.Some? ==> |r.value.rest| <= |ts|
    decreases |ts|, 8
  {
    var p :- List(0, NULL, ts);
    var (close, rest) := Read(NONE, p.rest);
    if close == TRP then Some(Parsed(NSUBSHELL(p.n, []), rest)) else None
  }

  function BracePart(ts: Toks): (r: Option<Parsed>)
    ensures r.Some? ==> |r.value.rest| <= |ts|
    decreases |ts|, 8
  {
    var p :- List(0, NULL, ts);
    Closed(END, p)
  }

  function Closed(k: Keyword, p: Parsed): (r: Option<Parsed>)
    ensures r.Some? ==> |r.value.rest| <= |p.rest|
  {
    var (tok, rest) := Read(NONE, p.rest);
    if IsKwd(tok, k) then Some(Parsed(p.n, rest)) else None
  }

  function WhilePart(k: Keyword, ts: Toks): (r: Option<Parsed>)
    ensures r.Some? ==> |r.value.rest| <= |ts|
    decreases |ts|, 8
  {
    var p :- List(0, NULL, ts);
    var b :- DoBody(NONE, p.rest);
    Some(Parsed(if k == WHILE then NWHILE(p.n, b.n) else NUNTIL(p.n, b.n), b.rest))
  }

  function IfCommand(ts: Toks): (r: Option<Parsed>)
    ensures r.Some? ==> |r.value.rest| <= |ts|
    decreases |ts|, 8
  {
    var p :- IfPart(ts);
    Closed(FI, p)
  }

  /** After `if` or `elif`, up to the token that should be `fi`. */
  function IfPart(ts: Toks): (r: Option<Parsed>)
    ensures r.Some? ==> |r.value.rest| <= |ts|
    decreases |ts|, 7
  {
    var test :- List(0, NULL, ts);
    var (then_, ts1) := Read(NONE, test.rest);
    if !IsKwd(then_, THEN) then None else
    var part :- List(0, NULL, ts1);
    var (tok, ts2) := Read(NONE, part.rest);
    if IsKwd(tok, ELIF) then
      var e :- IfPart(ts2);
      Some(Parsed(NIF(test.n, part.n, e.n), e.rest))
    else if IsKwd(tok, ELSE) then
      var e :- List(0, NULL, ts2);
      Some(Parsed(NIF(test.n, part.n, e.n), e.rest))
    else
      Some(Parsed(NIF(test.n, part.n, NULL), Pushback(tok, ts2)))
  }

  /** do list done */
  function DoBody(f: Flags, ts: Toks): (r: Option<Parsed>)
    ensures r.Some? ==> |r.value.rest| <= |ts|
    decreases |ts|, 7
  {
    var (do_, ts1) := Read(f, ts);
    if !IsKwd(do_, DO) then None else
    var b :- List(0, NULL, ts1);
    var (done, ts2) := Read(NONE, b.rest);
    if IsKwd(done, DONE) then Some(Parsed(b.n, ts2)) else None
  }

  const DOLLAR_AT := Word("\"$@\"", true)

  /** Words up to the first token that is not one. */
  function Words(ts: Toks): (r: ParsedWords)
    ensures |r.rest| <= |ts|
    ensures r.end != TEOF ==> |r.rest| < |ts|
    decreases |ts|
  {
    var (tok, rest) := Read(NONE, ts);
    if tok.TWORD? then
      var p := Words(rest);
      ParsedWords([tok.w] + p.ws, p.end, p.rest)
    else
      ParsedWords([], tok, rest)
  }

  /** After the variable of `for`: its words, given or "$@", up to before `do`. */
  function ForWords(ts: Toks): (r: Option<ParsedWords>)
    ensures r.Some? ==> |r.value.rest| <= |ts|
  {
    var (tok, ts1) := Read(NLKWD, ts);
    if IsKwd(tok, IN) then
      var p := Words(ts1);
      if p.end == TNL || p.end == TSEMI then Some(p) else None
    else
      Some(ParsedWords([DOLLAR_AT], tok, if tok == TSEMI then ts1 else Pushback(tok, ts1)))
  }

  function ForPart(ts: Toks): (r: Option<Parsed>)
    ensures r.Some? ==> |r.value.rest| <= |ts|
    decreases |ts|, 8
  {
    var (name, ts1) := Read(NONE, ts);
    if !name.TWORD? || name.w.quoted || !GoodName(name.w.text) then None else
    var p :- ForWords(ts1);
    var b :- DoBody(NLKWD, p.rest);
    Some(Parsed(NFOR(p.ws, b.n, name.w.text), b.rest))
  }

  function CasePart(ts: Toks): (r: Option<Parsed>)
    ensures r.Some? ==> |r.value.rest| <= |ts|
    decreases |ts|, 9
  {
    var (expr, ts1) := Read(NONE, ts);
    if !expr.TWORD? then None else
    var (in_, ts2) := Read(NLKWD, ts1);
    if !IsKwd(in_, IN) then None else
    var p :- Clauses(ts2);
    Some(Parsed(NCASE(expr.w, p.cs), p.rest))
  }

  /** Clauses up to and including `esac`. */
  function Clauses(ts: Toks): (r: Option<ParsedClauses>)
    ensures r.Some? ==> |r.value.rest| <= |ts|
    decreases |ts|, 8
  {
    var (tok, ts1) := Read(NLKWD, ts);
    if IsKwd(tok, ESAC) then Some(ParsedClauses([], ts1)) else
    var (first, ts2) := if tok == TLP then Read(NONE, ts1) else (tok, ts1);
    var p :- Patterns(first, ts2);
    var body :- List(2, NULL, p.rest);
    var c := NCLIST(p.ws, body.n);
    var (end, ts3) := Read(NLKWD, body.rest);
    if IsKwd(end, ESAC) then Some(ParsedClauses([c], ts3))
    else if end != TENDCASE then None
    else
      var q :- Clauses(ts3);
      Some(ParsedClauses([c] + q.cs, q.rest))
  }

  /** The text of a word, even of one recognised as a keyword. */
  function WordOf(t: Token): Option<Word> {
    match t
    case TWORD(w) => Some(w)
    case TKWD(_, w) => Some(w)
    case _ => None
  }

  /** Patterns separated by `|`, up to and including the closing parenthesis. */
  function Patterns(first: Token, ts: Toks): (r: Option<ParsedWords>)
    ensures r.Some? ==> |r.value.rest| < |ts|
    decreases |ts|
  {
    var w :- WordOf(first);
    var (tok, ts1) := Read(NONE, ts);
    if tok == TPIPE then
      var (next, ts2) := Read(NONE, ts1);
      var p :- Patterns(next, ts2);
      Some(p.(ws := [w] + p.ws))
    else if tok == TRP then
      Some(ParsedWords([w], tok, ts1))
    else
      None
  }

  // ---------- redirections ----------

  /** A duplication target is a digit, `-` or a word to be expanded later. */
  function FixRedir(op: RedirOp, w: Word): RedirNode {
    match op
    case FileOp(t, fd) => NFILE(t, fd, w)
    case DupOp(t, fd) =>
      if |w.text| == 1 && IsDigit(w.text[0]) then NDUPFD(t, fd, (w.text[0] - '0') as int)
      else if w.text == "-" then NDUPFD(t, fd, -1)
      else NDUPNAME(t, fd, w)
  }

  function RedirTarget(op: RedirOp, ts: Toks): (r: Option<ParsedRedir>)
    ensures r.Some? ==> |r.value.rest| < |ts|
  {
    var (tok, rest) := Read(NONE, ts);
    if tok.TWORD? then Some(ParsedRedir(FixRedir(op, tok.w), rest)) else None
  }

  function Redirs(f: Flags, ts: Toks): (r: Option<ParsedRedirs>)
    ensures r.Some? ==> |r.value.rest| <= |ts|
    decreases |ts|
  {
    var (tok, rest) := Read(f, ts);
    if tok.TREDIR? then
      var p :- RedirTarget(tok.op, rest);
      var q :- Redirs(NONE, p.rest);
      Some(ParsedRedirs([p.r] + q.rs, q.rest))
    else
      Some(ParsedRedirs([], Pushback(tok, rest)))
  }

  /** Redirections after a compound command. */
  function Redirected(n: Node, ts: Toks): (r: Option<Parsed>)
    ensures r.Some? ==> |r.value.rest| <= |ts|
  {
    var p :- Redirs(KWD, ts);
    Some(Parsed(WithRedirs(n, p.rs), p.rest))
  }

  function WithRedirs(n: Node, rs: seq<RedirNode>): Node {
    if rs == [] then n
    else match n
      case NSUBSHELL(body, _) => NSUBSHELL(body, rs)
      case _ => NREDIR(n, rs)
  }

  // ---------- simple commands and functions ----------

  function Simple(vars: seq<Word>, args: seq<Word>, rs: seq<RedirNode>, assignments: bool, ts: Toks)
    : (r: Option<Parsed>)
    ensures r.Some? ==> |r.value.rest| <= |ts|
    ensures r.Some? && ts != [] && (ts[0].TWORD? || ts[0].TREDIR?) ==> |r.value.rest| < |ts|
    decreases |ts|, 0
  {
    var (tok, rest) := Read(NONE, ts);
    if tok.TWORD? then
      if assignments && IsAssignment(tok.w.text) then Simple(vars + [tok.w], args, rs, assignments, rest)
      else Simple(vars, args + [tok.w], rs, false, rest)
    else if tok.TREDIR? then
      var p :- RedirTarget(tok.op, rest);
      Simple(vars, args, rs + [p.r], assignments, p.rest)
    else if tok == TLP && |args| == 1 && vars == [] && rs == [] then
      var (close, ts1) := Read(NONE, rest);
      if close != TRP || !GoodName(args[0].text) || args[0].text in SPECIAL_BUILTINS then None else
      var body :- Command(NLKWD, ts1);
      Some(Parsed(NDEFUN(args[0].text, body.n), body.rest))
    else
      Some(Parsed(NCMD(vars, args, rs), Pushback(tok, rest)))
  }
}
