/**
 * The parser of src/parser.c as it runs: one token of pushback and the keyword-checking flags in global
 * variables, loops that collect items. Each method is proved against the function of ShellGrammar for
 * the same rule. A syntax error is None.
 */
module ShellParser {
  import opened Option
  import opened CharClass
  import opened ShellTokens
  import opened ShellNodes
  import opened ShellGrammar

  /** The else-branches of an if, innermost last. */
  function Chain(arms: seq<(Node, Node)>, e: Node): Node {
    if arms == [] then e else NIF(arms[0].0, arms[0].1, Chain(arms[1..], e))
  }

  lemma {:induction false} ChainSnoc(arms: seq<(Node, Node)>, test: Node, part: Node, e: Node)
    ensures Chain(arms + [(test, part)], e) == Chain(arms, NIF(test, part, e))
  {
    if arms == [] {
      assert arms + [(test, part)] == [(test, part)];
    } else {
      ChainSnoc(arms[1..], test, part, e);
      assert (arms + [(test, part)])[1..] == arms[1..] + [(test, part)];
    }
  }

  lemma SkipOne(ts: Toks)
    ensures Read(Flags(true, false), [TNL] + ts) == Read(Flags(true, false), ts)
  {
    assert ([TNL] + ts)[1..] == ts;
  }

  lemma ReadPushed(t: Token, ts: Toks)
    requires t != TEOF
    ensures Read(NONE, Pushback(t, ts)) == (t, ts)
  {
  }

  lemma ReadAgain(f: Flags, ts: Toks)
    ensures Read(f, ts) == Read(f, Pushback(Read(NONE, ts).0, Read(NONE, ts).1))
  {
    var (t, rest) := Read(NONE, ts);
    if t != TEOF {
      assert ts == [t] + rest;
    }
  }

  ghost predicate Matches(r: Option<Node>, p: Option<Parsed>) {
    r.Some? == p.Some? && (r.Some? ==> r.value == p.value.n)
  }

  ghost function Items(p: Option<ParsedNodes>, before: seq<Node>): Option<ParsedNodes> {
    if p.None? then None else Some(ParsedNodes(before + p.value.ns, p.value.rest))
  }

  lemma ItemsSnoc(before: seq<Node>, n: Node, p: Option<ParsedNodes>)
    ensures p.Some? ==> Items(p, before + [n]) == Some(ParsedNodes(before + ([n] + p.value.ns), p.value.rest))
  {
    if p.Some? {
      assert before + [n] + p.value.ns == before + ([n] + p.value.ns);
    }
  }

  // What a loop has collected so far, in front of what a rule still gives.

  ghost function Nested(arms: seq<(Node, Node)>, p: Option<Parsed>): Option<Parsed> {
    if p.None? then None else Some(Parsed(Chain(arms, p.value.n), p.value.rest))
  }

  lemma NestedSnoc(arms: seq<(Node, Node)>, test: Node, part: Node, p: Option<Parsed>)
    ensures p.Some? ==>
              Nested(arms + [(test, part)], p)
              == Some(Parsed(Chain(arms, NIF(test, part, p.value.n)), p.value.rest))
  {
    if p.Some? {
      ChainSnoc(arms, test, part, p.value.n);
    }
  }

  ghost function AfterWords(args: seq<Word>, t: Token, ts: Toks): ParsedWords {
    if t.TWORD? then
      var p := Words(ts);
      ParsedWords(args + ([t.w] + p.ws), p.end, p.rest)
    else
      ParsedWords(args, t, ts)
  }

  lemma AfterWordsStep(args: seq<Word>, w: Word, ts: Toks)
    ensures AfterWords(args, TWORD(w), ts) == AfterWords(args + [w], Read(NONE, ts).0, Read(NONE, ts).1)
  {
    hide FindKwd;
    var p := Words(ts);
    assert args + ([w] + p.ws) == args + [w] + p.ws;
  }

  datatype ParsedClause = ParsedClause(c: Clause, rest: Toks)

  ghost function ClauseFrom(first: Token, ts: Toks): (r: Option<ParsedClause>)
    ensures r.Some? ==> |r.value.rest| < |ts|
  {
    var p :- Patterns(first, ts);
    var body :- List(2, NULL, p.rest);
    Some(ParsedClause(NCLIST(p.ws, body.n), body.rest))
  }

  ghost function AllClauses(cs: seq<Clause>, p: Option<ParsedClauses>): Option<ParsedClauses> {
    if p.None? then None else Some(ParsedClauses(cs + p.value.cs, p.value.rest))
  }

  lemma ClausesNone(p: Option<ParsedClauses>)
    ensures AllClauses([], p) == p
  {
    if p.Some? {
      assert [] + p.value.cs == p.value.cs;
    }
  }

  lemma ClausesSnoc(cs: seq<Clause>, c: Clause, p: Option<ParsedClauses>)
    ensures p.Some? ==> AllClauses(cs + [c], p) == Some(ParsedClauses(cs + ([c] + p.value.cs), p.value.rest))
  {
    if p.Some? {
      assert cs + [c] + p.value.cs == cs + ([c] + p.value.cs);
    }
  }

  ghost function AllWords(ws: seq<Word>, p: Option<ParsedWords>): Option<ParsedWords> {
    if p.None? then None else Some(ParsedWords(ws + p.value.ws, p.value.end, p.value.rest))
  }

  lemma WordsSnoc(ws: seq<Word>, w: Word, p: Option<ParsedWords>)
    ensures p.Some? ==>
              AllWords(ws + [w], p) == Some(ParsedWords(ws + ([w] + p.value.ws), p.value.end, p.value.rest))
  {
    if p.Some? {
      assert ws + [w] + p.value.ws == ws + ([w] + p.value.ws);
    }
  }

  ghost function AllRedirs(rs: seq<RedirNode>, p: Option<ParsedRedirs>): Option<ParsedRedirs> {
    if p.None? then None else Some(ParsedRedirs(rs + p.value.rs, p.value.rest))
  }

  lemma RedirsSnoc(rs: seq<RedirNode>, r: RedirNode, p: Option<ParsedRedirs>)
    ensures p.Some? ==> AllRedirs(rs + [r], p) == Some(ParsedRedirs(rs + ([r] + p.value.rs), p.value.rest))
  {
    if p.Some? {
      assert rs + [r] + p.value.rs == rs + ([r] + p.value.rs);
    }
  }

  class Parser {
    var input: Toks
    var tokpushback: bool
    var lasttoken: Token
    var checkkwd: Flags

    constructor (ts: Toks)
      ensures Valid() && Stream() == ts && checkkwd == NONE
    {
      input, tokpushback, lasttoken, checkkwd := ts, false, TNL, NONE;
    }

    ghost predicate Valid()
      reads this
    {
      tokpushback && lasttoken == TEOF ==> input == []
    }

    /** What the next calls of readtoken will see. */
    ghost function Stream(): Toks
      reads this
    {
      if tokpushback then Pushback(lasttoken, input) else input
    }

    /** What every grammar method does: it fails, or returns the node and stops where the rule does. */
    ghost predicate Did(r: Option<Node>, p: Option<Parsed>)
      reads this
    {
      Matches(r, p) && (r.Some? ==> Valid() && Stream() == p.value.rest && checkkwd == NONE)
    }

    method XxReadToken() returns (t: Token)
      requires Valid()
      modifies this`input, this`tokpushback, this`lasttoken
      ensures Valid() && !tokpushback && lasttoken == t
      ensures (t, input) == Read(NONE, old(Stream()))
    {
      if tokpushback {
        tokpushback := false;
        return lasttoken;
      }
      if input == [] || input[0] == TEOF {
        input, t := [], TEOF;
      } else {
        t, input := input[0], input[1..];
      }
      lasttoken := t;
    }

    method ReadToken() returns (t: Token)
      requires Valid()
      modifies this
      ensures Valid() && checkkwd == NONE && !tokpushback && lasttoken == t && (t == TEOF ==> input == [])
      ensures (t, input) == Read(old(checkkwd), old(Stream()))
    {
      hide FindKwd;
      var kwd := checkkwd;
      ghost var ts := Stream();
      t := XxReadToken();
      ReadAgain(Flags(true, false), ts);
      if kwd.nl {
        while t == TNL
          invariant Valid() && !tokpushback && lasttoken == t
          invariant Read(Flags(true, false), ts) == Read(Flags(true, false), Pushback(t, input))
          invariant t == TEOF ==> input == []
          decreases if t == TEOF then 0 else |input| + 1
        {
          checkkwd := NONE;
          SkipOne(input);
          ghost var before := input;
          t := XxReadToken();
          ReadAgain(Flags(true, false), before);
        }
      }
      checkkwd := NONE;
      if kwd.kwd && t.TWORD? && IsKeyword(t.w) {
        t := TKWD(FindKwd(t.w.text).value, t.w);
        lasttoken := t;
      }
    }

    /** The next token, read as the flags say. */
    method ReadWith(flags: Flags) returns (t: Token)
      requires Valid()
      modifies this
      ensures Valid() && checkkwd == NONE && !tokpushback && lasttoken == t && (t == TEOF ==> input == [])
      ensures (t, input) == Read(flags, old(Stream()))
    {
      checkkwd := flags;
      t := ReadToken();
    }

    /** Undo the last readtoken. */
    method PushBack()
      requires Valid() && !tokpushback && (lasttoken == TEOF ==> input == [])
      modifies this`tokpushback
      ensures Valid() && Stream() == Pushback(lasttoken, input)
    {
      tokpushback := true;
    }

    method List(nlflag0: nat) returns (r: Option<Node>)
      requires Valid() && nlflag0 <= 2
      modifies this
      ensures Did(r, ShellGrammar.List(nlflag0, NULL, old(Stream())))
      decreases |Stream()|, 10
    {
      hide Read, FindKwd, EndsList, InBackground, Join, ShellGrammar.Andor;
      ghost var ts0 := Stream();
      var nlflag := nlflag0;
      var chknl := nlflag % 2 == 0;
      var n1 := NULL;
      while true
        invariant Valid() && nlflag <= 3 && chknl == (nlflag % 2 == 0)
        invariant ShellGrammar.List(nlflag0, NULL, ts0) == ShellGrammar.List(nlflag, n1, Stream())
        invariant |Stream()| < |ts0| || (nlflag == nlflag0 && Stream() == ts0)
        decreases |Stream()|
      {
        var tok := ReadWith(Flags(chknl, true));
        if tok == TNL {
          return Some(n1);
        }
        if tok == TEOF {
          if n1 == NULL && !chknl {
            n1 := NEOF;
          }
          PushBack();
          return Some(n1);
        }
        PushBack();
        ReadPushed(tok, input);
        if nlflag == 2 && EndsList(tok) {
          return Some(n1);
        }
        nlflag := if chknl then 2 else 3;
        var n2 :- Andor();
        tok := ReadToken();
        if tok == TBACKGND {
          n2 := InBackground(n2);
        }
        n1 := Join(n1, n2);
        if tok == TEOF {
          PushBack();
          return Some(n1);
        } else if tok == TNL {
          PushBack();
        } else if tok == TBACKGND || tok == TSEMI {
        } else {
          if !chknl {
            return None;
          }
          PushBack();
          return Some(n1);
        }
      }
    }

    method Andor() returns (r: Option<Node>)
      requires Valid() && checkkwd == NONE
      modifies this
      ensures Did(r, ShellGrammar.Andor(old(Stream())))
      decreases |Stream()|, 9
    {
      hide FindKwd, ShellGrammar.Pipeline;
      ghost var ts0 := Stream();
      var n1 :- Pipeline();
      while true
        invariant Valid() && checkkwd == NONE
        invariant ShellGrammar.Andor(ts0) == AndorRest(n1, Stream())
        invariant |Stream()| <= |ts0|
        decreases |Stream()|
      {
        var t := ReadToken();
        if t != TAND && t != TOR {
          PushBack();
          return Some(n1);
        }
        checkkwd := NLKWD;
        var n2 :- Pipeline();
        n1 := if t == TAND then NAND(n1, n2) else NOR(n1, n2);
      }
    }

    method Pipeline() returns (r: Option<Node>)
      requires Valid()
      modifies this
      ensures Did(r, ShellGrammar.Pipeline(old(checkkwd), old(Stream())))
      decreases |Stream()|, 8
    {
      hide FindKwd, ShellGrammar.Command, PipeItems;
      var negate := false;
      var t := ReadToken();
      if IsKwd(t, NOT) {
        negate := true;
        checkkwd := KWD;
      } else {
        PushBack();
      }
      ghost var f1, ts1 := checkkwd, Stream();
      var n1 :- Command();
      t := ReadToken();
      if t == TPIPE {
        var items :- PipeRest(n1);
        n1 := NPIPE(false, items);
      } else {
        PushBack();
      }
      assert PipelineBody(f1, ts1) == Some(Parsed(n1, Stream()));
      return Some(if negate then NNOT(n1) else n1);
    }

    /** The loop over the rest of a pipeline, after its first command and the first `|`. */
    method PipeRest(n1: Node) returns (r: Option<seq<Node>>)
      requires Valid() && checkkwd == NONE
      modifies this
      ensures var p := Items(PipeItems(old(Stream())), [n1]);
              r.Some? == p.Some? &&
              (r.Some? ==> r.value == p.value.ns && Valid() && Stream() == p.value.rest && checkkwd == NONE)
      decreases |Stream()|, 8
    {
      hide FindKwd, ShellGrammar.Command;
      var items := [n1];
      ghost var ts0 := Stream();
      while true
        invariant Valid() && checkkwd == NONE && |Stream()| <= |ts0|
        invariant Items(PipeItems(ts0), [n1]) == Items(PipeItems(Stream()), items)
        decreases |Stream()|
      {
        checkkwd := NLKWD;
        ghost var before, ts3 := items, Stream();
        var n :- Command();
        items := items + [n];
        var t := ReadToken();
        ItemsSnoc(before, n, if t == TPIPE then PipeItems(input) else Some(ParsedNodes([], Pushback(t, input))));
        if t != TPIPE {
          PushBack();
          assert items + [] == items;
          return Some(items);
        }
      }
    }

    method Command() returns (r: Option<Node>)
      requires Valid()
      modifies this
      ensures Did(r, ShellGrammar.Command(old(checkkwd), old(Stream())))
      decreases |Stream()|, 7
    {
      hide FindKwd, ShellGrammar.Compound, Simple, Redirs;
      var t := ReadToken();
      if t == TEOF {
        return None;
      }
      ghost var ts := Stream();
      if StartsSimple(t) {
        PushBack();
        r := Simplecmd();
        return;
      }
      var n1 :- Compound(t);
      checkkwd := KWD;
      var redir :- Redirections();
      return Some(WithRedirs(n1, redir));
    }

    /** The switch over the first token of a compound command, up to its closing token. */
    method Compound(t: Token) returns (r: Option<Node>)
      requires Valid() && checkkwd == NONE
      modifies this
      ensures Did(r, ShellGrammar.Compound(t, old(Stream())))
      decreases |Stream()| + 1, 0
    {
      hide FindKwd, ShellGrammar.List, IfCommand, WhilePart, ForPart, CasePart;
      if t == TLP {
        var n :- List(0);
        var close := ReadToken();
        if close != TRP {
          return None;
        }
        return Some(NSUBSHELL(n, []));
      } else if IsKwd(t, BEGIN) {
        var n :- List(0);
        var close := ReadToken();
        if !IsKwd(close, END) {
          return None;
        }
        return Some(n);
      } else if IsKwd(t, IF) {
        r := If();
      } else if IsKwd(t, WHILE) {
        r := While(WHILE);
      } else if IsKwd(t, UNTIL) {
        r := While(UNTIL);
      } else if IsKwd(t, FOR) {
        r := For();
      } else if IsKwd(t, CASE) {
        r := Case();
      } else {
        return None;
      }
    }

    method If() returns (r: Option<Node>)
      requires Valid() && checkkwd == NONE
      modifies this
      ensures Did(r, IfCommand(old(Stream())))
      decreases |Stream()|, 14
    {
      hide FindKwd, IfPart;
      var n :- IfChain();
      var close := ReadToken();
      if !IsKwd(close, FI) {
        return None;
      }
      return Some(n);
    }

    /** The loop over `elif`. */
    method IfChain() returns (r: Option<Node>)
      requires Valid() && checkkwd == NONE
      modifies this
      ensures Did(r, IfPart(old(Stream())))
      decreases |Stream()|, 13
    {
      hide FindKwd, ShellGrammar.List;
      ghost var ts0 := Stream();
      var arms: seq<(Node, Node)> := [];
      while true
        invariant Valid() && checkkwd == NONE && |Stream()| <= |ts0|
        invariant IfPart(ts0) == Nested(arms, IfPart(Stream()))
        decreases |Stream()|
      {
        ghost var ts, before := Stream(), arms;
        var test :- List(0);
        var t := ReadToken();
        if !IsKwd(t, THEN) {
          return None;
        }
        var part :- List(0);
        arms := arms + [(test, part)];
        t := ReadToken();
        if IsKwd(t, ELSE) {
          var e :- List(0);
          ChainSnoc(before, test, part, e);
          return Some(Chain(arms, e));
        } else if !IsKwd(t, ELIF) {
          PushBack();
          ChainSnoc(before, test, part, NULL);
          return Some(Chain(arms, NULL));
        }
        NestedSnoc(before, test, part, IfPart(Stream()));
      }
    }

    method DoBody() returns (r: Option<Node>)
      requires Valid()
      modifies this
      ensures Did(r, ShellGrammar.DoBody(old(checkkwd), old(Stream())))
      decreases |Stream()|, 12
    {
      hide FindKwd, ShellGrammar.List;
      var t := ReadToken();
      if !IsKwd(t, DO) {
        return None;
      }
      var b :- List(0);
      t := ReadToken();
      if !IsKwd(t, DONE) {
        return None;
      }
      return Some(b);
    }

    method While(k: Keyword) returns (r: Option<Node>)
      requires Valid() && checkkwd == NONE
      modifies this
      ensures Did(r, WhilePart(k, old(Stream())))
      decreases |Stream()|, 13
    {
      hide FindKwd, ShellGrammar.List, ShellGrammar.DoBody;
      var test :- List(0);
      var b :- DoBody();
      return Some(if k == WHILE then NWHILE(test, b) else NUNTIL(test, b));
    }

    method For() returns (r: Option<Node>)
      requires Valid() && checkkwd == NONE
      modifies this
      ensures Did(r, ForPart(old(Stream())))
      decreases |Stream()|, 14
    {
      hide FindKwd, GoodName, ForWords, ShellGrammar.DoBody;
      var name := ReadToken();
      if !name.TWORD? || name.w.quoted || !GoodName(name.w.text) {
        return None;
      }
      var args :- ForArgs();
      checkkwd := NLKWD;
      var b :- DoBody();
      return Some(NFOR(args, b, name.w.text));
    }

    /** The words of a for loop. */
    method ForArgs() returns (r: Option<seq<Word>>)
      requires Valid()
      modifies this
      ensures var p := ForWords(old(Stream()));
              r.Some? == p.Some? && (r.Some? ==> r.value == p.value.ws && Valid() && Stream() == p.value.rest)
    {
      hide FindKwd;
      var t := ReadWith(NLKWD);
      if !IsKwd(t, IN) {
        if t != TSEMI {
          PushBack();
        }
        return Some([DOLLAR_AT]);
      }
      var args := [];
      ghost var ts := Stream();
      t := ReadToken();
      while t.TWORD?
        invariant Valid() && checkkwd == NONE && !tokpushback && lasttoken == t
        invariant t == TEOF ==> input == []
        invariant Words(ts) == AfterWords(args, t, input)
        decreases if t == TEOF then 0 else |input| + 1
      {
        ghost var w, rest := t.w, input;
        args := args + [t.w];
        t := ReadToken();
        AfterWordsStep(args[..|args| - 1], w, rest);
      }
      if t != TNL && t != TSEMI {
        return None;
      }
      return Some(args);
    }

    method Case() returns (r: Option<Node>)
      requires Valid() && checkkwd == NONE
      modifies this
      ensures Did(r, CasePart(old(Stream())))
      decreases |Stream()|, 15
    {
      hide FindKwd, Clauses;
      var expr := ReadToken();
      if !expr.TWORD? {
        return None;
      }
      var t := ReadWith(NLKWD);
      if !IsKwd(t, IN) {
        return None;
      }
      var clauses :- CaseClauses();
      return Some(NCASE(expr.w, clauses));
    }

    /** The patterns of a clause and its body. */
    method CaseClause(first: Token) returns (r: Option<Clause>)
      requires Valid() && checkkwd == NONE
      modifies this
      ensures var p := ClauseFrom(first, old(Stream()));
              r.Some? == p.Some? &&
              (r.Some? ==> r.value == p.value.c && Valid() && Stream() == p.value.rest && checkkwd == NONE)
      decreases |Stream()|, 13
    {
      hide FindKwd, ShellGrammar.List, Patterns;
      var pattern :- Pattern(first);
      var body :- List(2);
      return Some(NCLIST(pattern, body));
    }

    /** The loop over clauses, up to and including `esac`. */
    method CaseClauses() returns (r: Option<seq<Clause>>)
      requires Valid() && checkkwd == NONE
      modifies this
      ensures var p := Clauses(old(Stream()));
              r.Some? == p.Some? &&
              (r.Some? ==> r.value == p.value.cs && Valid() && Stream() == p.value.rest && checkkwd == NONE)
      decreases |Stream()|, 14
    {
      hide Read, IsKwd, FindKwd, ShellGrammar.List, Patterns;
      var clauses: seq<Clause> := [];
      ghost var ts0 := Stream();
      ClausesNone(Clauses(ts0));
      while true
        invariant Valid() && |Stream()| <= |ts0|
        invariant Clauses(ts0) == AllClauses(clauses, Clauses(Stream()))
        decreases |Stream()|
      {
        ghost var before := clauses;
        var t := ReadWith(NLKWD);
        if IsKwd(t, ESAC) {
          assert clauses + [] == clauses;
          return Some(clauses);
        }
        if t == TLP {
          t := ReadToken();
        }
        var c :- CaseClause(t);
        clauses := clauses + [c];
        t := ReadWith(NLKWD);
        if IsKwd(t, ESAC) {
          return Some(clauses);
        } else if t != TENDCASE {
          return None;
        }
        ClausesSnoc(before, c, Clauses(Stream()));
      }
    }

    /** Patterns of one clause, from the first token on. */
    method Pattern(first: Token) returns (r: Option<seq<Word>>)
      requires Valid() && checkkwd == NONE
      modifies this
      ensures var p := Patterns(first, old(Stream()));
              r.Some? == p.Some? &&
              (r.Some? ==> r.value == p.value.ws && Valid() && Stream() == p.value.rest && checkkwd == NONE)
    {
      hide FindKwd;
      var t := first;
      var pattern: seq<Word> := [];
      ghost var ts0 := Stream();
      while true
        invariant Valid() && checkkwd == NONE
        invariant AllWords([], Patterns(first, ts0)) == AllWords(pattern, Patterns(t, Stream()))
        decreases |Stream()|
      {
        ghost var before := pattern;
        var w :- WordOf(t);
        pattern := pattern + [w];
        t := ReadToken();
        if t == TPIPE {
          t := ReadToken();
          WordsSnoc(before, w, Patterns(t, Stream()));
        } else if t == TRP {
          return Some(pattern);
        } else {
          return None;
        }
      }
    }

    /** The file or descriptor after a redirection operator. */
    method ParseFname(op: RedirOp) returns (r: Option<RedirNode>)
      requires Valid() && checkkwd == NONE
      modifies this
      ensures var p := RedirTarget(op, old(Stream()));
              r.Some? == p.Some? &&
              (r.Some? ==> r.value == p.value.r && Valid() && Stream() == p.value.rest && checkkwd == NONE)
    {
      hide FindKwd;
      var t := ReadToken();
      if !t.TWORD? {
        return None;
      }
      return Some(FixRedir(op, t.w));
    }

    /** The loop over redirections after a compound command. */
    method Redirections() returns (r: Option<seq<RedirNode>>)
      requires Valid()
      modifies this
      ensures var p := Redirs(old(checkkwd), old(Stream()));
              r.Some? == p.Some? &&
              (r.Some? ==> r.value == p.value.rs && Valid() && Stream() == p.value.rest && checkkwd == NONE)
    {
      hide FindKwd, FixRedir;
      var redir: seq<RedirNode> := [];
      ghost var ts0, f0 := Stream(), checkkwd;
      while true
        invariant Valid()
        invariant AllRedirs([], Redirs(f0, ts0)) == AllRedirs(redir, Redirs(checkkwd, Stream()))
        decreases |Stream()|
      {
        ghost var before := redir;
        var t := ReadToken();
        if !t.TREDIR? {
          PushBack();
          assert redir + [] == redir;
          return Some(redir);
        }
        var n :- ParseFname(t.op);
        redir := redir + [n];
        RedirsSnoc(before, n, Redirs(NONE, Stream()));
      }
    }

    method Simplecmd() returns (r: Option<Node>)
      requires Valid()
      modifies this
      ensures Did(r, Simple([], [], [], true, old(Stream())))
      decreases |Stream()|, 0
    {
      hide FindKwd, FixRedir, IsAssignment, ShellGrammar.Command;
      var vars: seq<Word>, args: seq<Word>, redir: seq<RedirNode> := [], [], [];
      var assignments := true;
      ghost var ts0 := Stream();
      while true
        invariant Valid() && |Stream()| <= |ts0|
        invariant Simple([], [], [], true, ts0) == Simple(vars, args, redir, assignments, Stream())
        decreases |Stream()|
      {
        var t := ReadWith(NONE);
        if t.TWORD? {
          if assignments && IsAssignment(t.w.text) {
            vars := vars + [t.w];
          } else {
            args := args + [t.w];
            assignments := false;
          }
        } else if t.TREDIR? {
          var n :- ParseFname(t.op);
          redir := redir + [n];
        } else if t == TLP && |args| == 1 && vars == [] && redir == [] {
          var close := ReadToken();
          if close != TRP {
            return None;
          }
          var name := args[0].text;
          if !GoodName(name) || name in SPECIAL_BUILTINS {
            return None;
          }
          checkkwd := NLKWD;
          var body :- Command();
          return Some(NDEFUN(name, body));
        } else {
          PushBack();
          return Some(NCMD(vars, args, redir));
        }
      }
    }
  }
}
