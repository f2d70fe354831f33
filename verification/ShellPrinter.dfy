/**
 * Shell syntax trees and their printer (libdash/printer.py) down to tokens, and the trees that parsed
 * nodes stand for (of_node in ocaml/ast.ml and libdash/ast.py). Line numbers are dropped; the empty
 * command that stands for a null node is its own constructor.
 */
module ShellPrinter {
  import opened CharClass
  import opened ShellTokens
  import opened ShellNodes

  datatype Assign = Assign(name: string, value: Word)

  datatype Redirection =
    | File(ftype: FileType, ffd: int, target: Word)
    | Dup(dtype: DupType, dfd: int, target: Word)

  datatype Arm = Arm(pats: seq<Word>, body: Ast)

  datatype Ast =
    | Skip
    | Command(assigns: seq<Assign>, args: seq<Word>, credirs: seq<Redirection>)
    | Pipe(bg: bool, ps: seq<Ast>)
    | Redir(a: Ast, redirs: seq<Redirection>)
    | Background(a: Ast, redirs: seq<Redirection>)
    | Subshell(a: Ast, redirs: seq<Redirection>)
    | And(l: Ast, r: Ast)
    | Or(l: Ast, r: Ast)
    | Not(a: Ast)
    | Semi(l: Ast, r: Ast)
    | If(c: Ast, t: Ast, e: Ast)
    | While(test: Ast, body: Ast)
    | For(fargs: seq<Word>, body: Ast, x: string)
    | Case(expr: Word, arms: seq<Arm>)
    | Defun(name: string, body: Ast)

  // ---------- the printer ----------

  function Braces(ts: Toks): Toks { [Kwd(BEGIN)] + (ts + [TSEMI, Kwd(END)]) }
  function Backgrounded(ts: Toks): Toks { [Kwd(BEGIN)] + (ts + [TBACKGND, Kwd(END)]) }
  function Parens(ts: Toks): Toks { [TLP] + (ts + [TRP]) }

  /** A name without characters leaves no word in the text. */
  function PrintName(name: string): Toks {
    if name == "" then [] else [TWORD(Word(name, false))]
  }

  function PrintWords(ws: seq<Word>): Toks {
    if ws == [] then [] else [TWORD(ws[0])] + PrintWords(ws[1..])
  }

  function PrintAssigns(vs: seq<Assign>): Toks {
    if vs == [] then [] else [TWORD(AssignWord(vs[0]))] + PrintAssigns(vs[1..])
  }

  function AssignWord(v: Assign): Word {
    Word(v.name + ("=" + v.value.text), v.value.quoted)
  }

  function PrintRedirs(rs: seq<Redirection>): Toks {
    if rs == [] then [] else [TREDIR(OpOf(rs[0])), TWORD(rs[0].target)] + PrintRedirs(rs[1..])
  }

  function OpOf(r: Redirection): RedirOp {
    match r
    case File(t, fd, _) => FileOp(t, fd)
    case Dup(t, fd, _) => DupOp(t, fd)
  }

  function PrintPats(ws: seq<Word>): Toks {
    if ws == [] then []
    else if |ws| == 1 then [TWORD(ws[0])]
    else [TWORD(ws[0]), TPIPE] + PrintPats(ws[1..])
  }

  function Print(a: Ast): Toks
    decreases a, 1
  {
    match a
    case Skip => []
    case Command(assigns, args, redirs) => PrintAssigns(assigns) + (PrintWords(args) + PrintRedirs(redirs))
    case Pipe(bg, ps) => if bg then Backgrounded(PrintPipe(ps)) else PrintPipe(ps)
    case Redir(b, redirs) => Print(b) + PrintRedirs(redirs)
    case Background(b, redirs) => Backgrounded(Print(b) + PrintRedirs(redirs))
    case Subshell(b, redirs) => Parens(Print(b) + PrintRedirs(redirs))
    case And(l, r) => Braces(Print(l)) + ([TAND] + Braces(Print(r)))
    case Or(l, r) => Braces(Print(l)) + ([TOR] + Braces(Print(r)))
    case Not(b) => [Kwd(NOT)] + Braces(Print(b))
    case Semi(l, r) => Braces(Print(l)) + ([TNL] + Braces(Print(r)))
    case If(_, _, _) => [Kwd(IF)] + PrintIf(a)
    case While(test, body) =>
      match test {
        case Not(t) => [Kwd(UNTIL)] + (Print(t) + PrintDo(body))
        case _ => [Kwd(WHILE)] + (Print(test) + PrintDo(body))
      }
    case For(args, body, x) => [Kwd(FOR)] + (PrintName(x) + ([Kwd(IN)] + (PrintWords(args) + PrintDo(body))))
    case Case(expr, arms) => [Kwd(CASE), TWORD(expr), Kwd(IN)] + PrintArms(arms)
    case Defun(name, body) =>
      PrintName(name) + ([TLP, TRP, Kwd(BEGIN), TNL] + (Print(body) + [TNL, Kwd(END)]))
  }

  /** ; do body ; done */
  function PrintDo(body: Ast): Toks
    decreases body, 2
  {
    [TSEMI, Kwd(DO)] + (Print(body) + [TSEMI, Kwd(DONE)])
  }

  /** What follows `if` or `elif`, up to and including `fi`. */
  function PrintIf(a: Ast): Toks
    requires a.If?
    decreases a, 0
  {
    Print(a.c) + ([TSEMI, Kwd(THEN)] + (Print(a.t) + ([TSEMI] + PrintElse(a.e))))
  }

  function PrintElse(e: Ast): Toks
    decreases e, 2
  {
    match e
    case Skip => [Kwd(FI)]
    case If(_, _, _) => [Kwd(ELIF)] + PrintIf(e)
    case _ => [Kwd(ELSE)] + (Print(e) + [TSEMI, Kwd(FI)])
  }

  function PrintPipe(ps: seq<Ast>): Toks
    decreases ps, 0
  {
    if ps == [] then []
    else if |ps| == 1 then Print(ps[0])
    else Print(ps[0]) + ([TPIPE] + PrintPipe(ps[1..]))
  }

  /** The arms and the closing `esac`. */
  function PrintArms(arms: seq<Arm>): Toks
    decreases arms, 0
  {
    if arms == [] then [Kwd(ESAC)]
    else PrintPats(arms[0].pats) + ([TRP] + (Print(arms[0].body) + ([TENDCASE] + PrintArms(arms[1..]))))
  }

  // ---------- the trees that nodes stand for ----------

  function DigitWord(n: int): Word {
    Word(if n == -1 then "-" else if 0 <= n < 10 then ['0' + n as char] else "", false)
  }

  function OfRedir(r: RedirNode): Redirection {
    match r
    case NFILE(t, fd, w) => File(t, fd, w)
    case NDUPFD(t, fd, n) => Dup(t, fd, DigitWord(n))
    case NDUPNAME(t, fd, w) => Dup(t, fd, w)
  }

  function OfRedirs(rs: seq<RedirNode>): seq<Redirection> {
    if rs == [] then [] else [OfRedir(rs[0])] + OfRedirs(rs[1..])
  }

  /** An assignment word is split at its first `=`. */
  function OfAssign(w: Word): Assign
    requires IsAssignment(w.text)
  {
    var n := EndOfName(w.text);
    Assign(w.text[..n], Word(w.text[n + 1..], w.quoted))
  }

  function OfAssigns(ws: seq<Word>): seq<Assign> {
    if ws == [] then []
    else if IsAssignment(ws[0].text) then [OfAssign(ws[0])] + OfAssigns(ws[1..])
    else OfAssigns(ws[1..])
  }

  function OfNode(n: Node): Ast
    decreases n, 0
  {
    match n
    case NULL => Skip
    case NEOF => Skip
    case NCMD(vars, args, rs) => Command(OfAssigns(vars), args, OfRedirs(rs))
    case NPIPE(bg, cmds) => Pipe(bg, OfNodes(cmds))
    case NREDIR(b, rs) => Redir(OfNode(b), OfRedirs(rs))
    case NBACKGND(b, rs) => Background(OfNode(b), OfRedirs(rs))
    case NSUBSHELL(b, rs) => Subshell(OfNode(b), OfRedirs(rs))
    case NAND(l, r) => And(OfNode(l), OfNode(r))
    case NOR(l, r) => Or(OfNode(l), OfNode(r))
    case NSEMI(l, r) => Semi(OfNode(l), OfNode(r))
    case NIF(c, t, e) => If(OfNode(c), OfNode(t), OfNode(e))
    case NWHILE(t, b) => While(OfNode(t), OfNode(b))
    case NUNTIL(t, b) => While(Not(OfNode(t)), OfNode(b))
    case NFOR(args, b, x) => For(args, OfNode(b), x)
    case NCASE(w, cs) => Case(w, OfClauses(cs))
    case NDEFUN(name, b) => Defun(name, OfNode(b))
    case NNOT(b) => Not(OfNode(b))
  }

  function OfNodes(ns: seq<Node>): seq<Ast>
    decreases ns, 0
  {
    if ns == [] then [] else [OfNode(ns[0])] + OfNodes(ns[1..])
  }

  function OfClauses(cs: seq<Clause>): seq<Arm>
    decreases cs, 0
  {
    if cs == [] then [] else [Arm(cs[0].pattern, OfNode(cs[0].body))] + OfClauses(cs[1..])
  }
}
