/** Printing a syntax tree and parsing the tokens gives the tree back, for the shapes that print faithfully. */
module ShellRoundTrip {
  import opened Option
  import opened CharClass
  import opened ShellTokens
  import opened ShellNodes
  import opened ShellGrammar
  import opened ShellPrinter

  // ---------- the trees that print faithfully ----------

  predicate GoodAssign(v: Assign) {
    v.name != "" && GoodName(v.name)
  }

  /** A quoted target is never taken for a descriptor number. */
  predicate GoodRedir(r: Redirection) {
    r.Dup? && r.target.quoted ==> !(|r.target.text| == 1 && IsDigit(r.target.text[0])) && r.target.text != "-"
  }

  predicate GoodRedirs(rs: seq<Redirection>) {
    forall i :: 0 <= i < |rs| ==> GoodRedir(rs[i])
  }

  /** Not empty; the first argument is not read as an assignment, nor as a keyword if it comes first. */
  predicate GoodCommand(assigns: seq<Assign>, args: seq<Word>, redirs: seq<Redirection>) {
    && (assigns != [] || args != [] || redirs != [])
    && (forall i :: 0 <= i < |assigns| ==> GoodAssign(assigns[i]))
    && (args != [] ==> !IsAssignment(args[0].text))
    && (args != [] && assigns == [] ==> !IsKeyword(args[0]))
    && GoodRedirs(redirs)
  }

  /** Printed as one command of the grammar, so usable as an item of a pipeline. */
  predicate IsCommand(a: Ast) {
    match a
    case Skip | And(_, _) | Or(_, _) | Not(_) | Semi(_, _) => false
    case Pipe(bg, _) => bg
    case _ => true
  }

  /** Printed as a compound command that takes redirections of its own. */
  predicate TakesRedirs(a: Ast) {
    match a
    case If(_, _, _) | While(_, _) | For(_, _, _) | Case(_, _) | Background(_, _) => true
    case Pipe(bg, _) => bg
    case _ => false
  }

  predicate GoodPats(pats: seq<Word>) {
    pats != [] && pats[0] != Word("esac", false)
  }

  predicate Printable(a: Ast)
    decreases a, 0
  {
    match a
    case Skip => false
    case Command(assigns, args, redirs) => GoodCommand(assigns, args, redirs)
    case Pipe(_, ps) => |ps| >= 2 && PrintablePipe(ps)
    case Redir(b, redirs) => redirs != [] && GoodRedirs(redirs) && Printable(b) && TakesRedirs(b)
    case Background(b, redirs) =>
      Printable(b) && GoodRedirs(redirs) &&
      if redirs == [] then !b.Pipe? && !b.Redir? && !b.Semi? else TakesRedirs(b)
    case Subshell(b, redirs) => redirs == [] && Printable(b)
    case And(l, r) => Printable(l) && Printable(r)
    case Or(l, r) => Printable(l) && Printable(r)
    case Not(b) => Printable(b)
    case Semi(l, r) => Printable(l) && Printable(r)
    case If(c, t, e) => Printable(c) && Printable(t) && (e == Skip || Printable(e))
    case While(test, body) => Printable(test) && Printable(body)
    case For(_, body, x) => x != "" && GoodName(x) && Printable(body)
    case Case(_, arms) => PrintableArms(arms)
    case Defun(name, body) =>
      && name != "" && GoodName(name) && FindKwd(name) == None && name !in SPECIAL_BUILTINS
      && Printable(body)
  }

  predicate PrintablePipe(ps: seq<Ast>)
    decreases ps, 0
  {
    ps == [] || (Printable(ps[0]) && IsCommand(ps[0]) && PrintablePipe(ps[1..]))
  }

  predicate PrintableArms(arms: seq<Arm>)
    decreases arms, 0
  {
    arms == [] ||
    (GoodPats(arms[0].pats) && (arms[0].body == Skip || Printable(arms[0].body)) && PrintableArms(arms[1..]))
  }

  // ---------- the node of a tree ----------

  function ToRedirs(rs: seq<Redirection>): seq<RedirNode> {
    if rs == [] then [] else [FixRedir(OpOf(rs[0]), rs[0].target)] + ToRedirs(rs[1..])
  }

  function ToAssigns(vs: seq<Assign>): seq<Word> {
    if vs == [] then [] else [AssignWord(vs[0])] + ToAssigns(vs[1..])
  }

  function ToNode(a: Ast): Node
    decreases a, 0
  {
    match a
    case Skip => NULL
    case Command(assigns, args, redirs) => NCMD(ToAssigns(assigns), args, ToRedirs(redirs))
    case Pipe(bg, ps) => NPIPE(bg, ToNodes(ps))
    case Redir(b, redirs) => NREDIR(ToNode(b), ToRedirs(redirs))
    case Background(b, redirs) => NBACKGND(ToNode(b), ToRedirs(redirs))
    case Subshell(b, redirs) => NSUBSHELL(ToNode(b), ToRedirs(redirs))
    case And(l, r) => NAND(ToNode(l), ToNode(r))
    case Or(l, r) => NOR(ToNode(l), ToNode(r))
    case Not(b) => NNOT(ToNode(b))
    case Semi(l, r) => NSEMI(ToNode(l), ToNode(r))
    case If(c, t, e) => NIF(ToNode(c), ToNode(t), ToNode(e))
    case While(test, body) =>
      match test {
        case Not(t) => NUNTIL(ToNode(t), ToNode(body))
        case _ => NWHILE(ToNode(test), ToNode(body))
      }
    case For(args, body, x) => NFOR(args, ToNode(body), x)
    case Case(expr, arms) => NCASE(expr, ToClauses(arms))
    case Defun(name, body) => NDEFUN(name, ToNode(body))
  }

  function ToNodes(ps: seq<Ast>): seq<Node>
    decreases ps, 0
  {
    if ps == [] then [] else [ToNode(ps[0])] + ToNodes(ps[1..])
  }

  function ToClauses(arms: seq<Arm>): seq<Clause>
    decreases arms, 0
  {
    if arms == [] then [] else [NCLIST(arms[0].pats, ToNode(arms[0].body))] + ToClauses(arms[1..])
  }

  lemma AssignRoundTrip(v: Assign)
    requires GoodAssign(v)
    ensures IsAssignment(AssignWord(v).text) && OfAssign(AssignWord(v)) == v
  {
    var s := "=" + v.value.text;
    NameLengthAppend(v.name, s);
    var w := AssignWord(v);
    assert w.text[..|v.name|] == v.name;
    assert w.text[|v.name| + 1..] == v.value.text;
  }

  lemma {:induction false} AssignsRoundTrip(vs: seq<Assign>)
    requires forall i :: 0 <= i < |vs| ==> GoodAssign(vs[i])
    ensures OfAssigns(ToAssigns(vs)) == vs
  {
    if vs != [] {
      AssignRoundTrip(vs[0]);
      AssignsRoundTrip(vs[1..]);
    }
  }

  lemma RedirRoundTrip(r: Redirection)
    requires GoodRedir(r)
    ensures OfRedir(FixRedir(OpOf(r), r.target)) == r
  {
    var text := r.target.text;
    if r.Dup? && |text| == 1 && IsDigit(text[0]) {
      assert text == [text[0]];
      var d := (text[0] - '0') as int;
      assert DigitWord(d).text == [text[0]];
    }
  }

  lemma {:induction false} RedirsRoundTrip(rs: seq<Redirection>)
    requires GoodRedirs(rs)
    ensures OfRedirs(ToRedirs(rs)) == rs
  {
    if rs != [] {
      RedirRoundTrip(rs[0]);
      RedirsRoundTrip(rs[1..]);
    }
  }

  lemma {:induction false} NodeRoundTrip(a: Ast)
    requires a == Skip || Printable(a)
    ensures OfNode(ToNode(a)) == a
    decreases a, 1
  {
    if a.Pipe? || a.Redir? || a.Background? || a.Subshell? {
      WrappedRoundTrip(a);
    } else if a.For? || a.Case? || a.Defun? {
      CompoundRoundTrip(a);
    } else if a.If? {
      IfRoundTrip(a);
    } else if a.While? {
      WhileRoundTrip(a);
    } else if a.And? || a.Or? || a.Semi? {
      PairRoundTrip(a);
    } else if a.Command? {
      AssignsRoundTrip(a.assigns);
      RedirsRoundTrip(a.credirs);
    } else if a.Not? {
      NodeRoundTrip(a.a);
    }
  }

  lemma {:induction false} PairRoundTrip(a: Ast)
    requires Printable(a) && (a.And? || a.Or? || a.Semi?)
    ensures OfNode(ToNode(a)) == a
    decreases a, 0
  {
    hide GoodCommand, GoodRedirs, GoodPats, TakesRedirs, FindKwd, ToAssigns, ToRedirs, OfAssigns, OfRedirs, ToNodes,
        OfNodes, ToClauses, OfClauses, PrintablePipe, PrintableArms;
    NodeRoundTrip(a.l);
    NodeRoundTrip(a.r);
  }

  lemma {:induction false} WhileRoundTrip(a: Ast)
    requires Printable(a) && a.While?
    ensures OfNode(ToNode(a)) == a
    decreases a, 0
  {
    hide GoodCommand, GoodRedirs, GoodPats, TakesRedirs, FindKwd, ToAssigns, ToRedirs, OfAssigns, OfRedirs, ToNodes,
        OfNodes, ToClauses, OfClauses, PrintablePipe, PrintableArms;
    NodeRoundTrip(a.body);
    if a.test.Not? {
      assert Printable(a.test);
      NodeRoundTrip(a.test.a);
    } else {
      NodeRoundTrip(a.test);
    }
  }

  lemma {:induction false} WrappedRoundTrip(a: Ast)
    requires Printable(a) && (a.Pipe? || a.Redir? || a.Background? || a.Subshell?)
    ensures OfNode(ToNode(a)) == a
    decreases a, 0
  {
    match a
    case Pipe(_, ps) =>
      NodesRoundTrip(ps);
    case Redir(b, redirs) =>
      NodeRoundTrip(b);
      RedirsRoundTrip(redirs);
    case Background(b, redirs) =>
      NodeRoundTrip(b);
      RedirsRoundTrip(redirs);
    case Subshell(b, _) =>
      NodeRoundTrip(b);
  }

  lemma {:induction false} IfRoundTrip(a: Ast)
    requires Printable(a) && a.If?
    ensures OfNode(ToNode(a)) == a
    decreases a, 0
  {
    NodeRoundTrip(a.c);
    NodeRoundTrip(a.t);
    NodeRoundTrip(a.e);
  }

  lemma {:induction false} CompoundRoundTrip(a: Ast)
    requires Printable(a) && (a.For? || a.Case? || a.Defun?)
    ensures OfNode(ToNode(a)) == a
    decreases a, 0
  {
    hide GoodCommand, GoodRedirs, GoodPats, TakesRedirs, FindKwd, ToAssigns, ToRedirs, OfAssigns, OfRedirs, ToNodes,
        OfNodes, ToClauses, OfClauses, PrintablePipe, PrintableArms;
    match a
    case For(_, body, _) =>
      NodeRoundTrip(body);
    case Case(_, arms) =>
      ClausesRoundTrip(arms);
    case Defun(_, body) =>
      NodeRoundTrip(body);
  }

  lemma {:induction false} NodesRoundTrip(ps: seq<Ast>)
    requires PrintablePipe(ps)
    ensures OfNodes(ToNodes(ps)) == ps
    decreases ps, 0
  {
    if ps != [] {
      NodeRoundTrip(ps[0]);
      NodesRoundTrip(ps[1..]);
    }
  }

  lemma {:induction false} ClausesRoundTrip(arms: seq<Arm>)
    requires PrintableArms(arms)
    ensures OfClauses(ToClauses(arms)) == arms
    decreases arms, 0
  {
    if arms != [] {
      NodeRoundTrip(arms[0].body);
      ClausesRoundTrip(arms[1..]);
    }
  }
}
