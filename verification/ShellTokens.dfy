/** Tokens of the shell grammar and how the parser reads them (src/parser.c, src/mktokens). */
module ShellTokens {
  import opened Option

  /** A word as lexed: its text, and whether any part of it was quoted. */
  datatype Word = Word(text: string, quoted: bool)

  datatype Keyword =
    | NOT | CASE | DO | DONE | ELIF | ELSE | ESAC | FI | FOR | IF | IN | THEN | UNTIL | WHILE | BEGIN | END

  datatype FileType = To | Clobber | From | FromTo | Append
  datatype DupType = ToFD | FromFD

  datatype RedirOp = FileOp(ftype: FileType, ffd: int) | DupOp(dtype: DupType, dfd: int)

  /** TKWD is a word that the parser has recognised as a keyword; the lexer never produces it. */
  datatype Token =
    | TEOF | TNL | TSEMI | TBACKGND | TAND | TOR | TPIPE | TLP | TRP | TENDCASE
    | TREDIR(op: RedirOp) | TWORD(w: Word) | TKWD(k: Keyword, kw: Word)

  type Toks = seq<Token>

  function FindKwd(text: string): Option<Keyword> {
    if text == "!" then Some(NOT)
    else if text == "case" then Some(CASE)
    else if text == "do" then Some(DO)
    else if text == "done" then Some(DONE)
    else if text == "elif" then Some(ELIF)
    else if text == "else" then Some(ELSE)
    else if text == "esac" then Some(ESAC)
    else if text == "fi" then Some(FI)
    else if text == "for" then Some(FOR)
    else if text == "if" then Some(IF)
    else if text == "in" then Some(IN)
    else if text == "then" then Some(THEN)
    else if text == "until" then Some(UNTIL)
    else if text == "while" then Some(WHILE)
    else if text == "{" then Some(BEGIN)
    else if text == "}" then Some(END)
    else None
  }

  function Spelling(k: Keyword): (s: string)
    ensures FindKwd(s) == Some(k)
  {
    match k
    case NOT => "!"
    case CASE => "case"
    case DO => "do"
    case DONE => "done"
    case ELIF => "elif"
    case ELSE => "else"
    case ESAC => "esac"
    case FI => "fi"
    case FOR => "for"
    case IF => "if"
    case IN => "in"
    case THEN => "then"
    case UNTIL => "until"
    case WHILE => "while"
    case BEGIN => "{"
    case END => "}"
  }

  /** A keyword as printed, and once recognised. */
  function Kwd(k: Keyword): Token { TWORD(Word(Spelling(k), false)) }
  function Key(k: Keyword): Token { TKWD(k, Word(Spelling(k), false)) }

  predicate IsKeyword(w: Word) {
    !w.quoted && FindKwd(w.text).Some?
  }

  /** A word becomes a keyword only where the parser looks for one. */
  function Promote(t: Token): Token {
    if t.TWORD? && IsKeyword(t.w) then TKWD(FindKwd(t.w.text).value, t.w) else t
  }

  /** The checkkwd flags that matter without aliases and here-documents. */
  datatype Flags = Flags(nl: bool, kwd: bool)
  const NONE := Flags(false, false)
  const KWD := Flags(false, true)
  const NLKWD := Flags(true, true)

  function SkipNewlines(ts: Toks): (r: Toks)
    ensures |r| <= |ts|
  {
    if ts != [] && ts[0] == TNL then SkipNewlines(ts[1..]) else ts
  }

  /** The end of the stream reads as TEOF, again and again. */
  function Read(f: Flags, ts: Toks): (r: (Token, Toks))
    ensures r.0 != TEOF ==> |r.1| < |ts|
    ensures |r.1| <= |ts|
  {
    var ts' := if f.nl then SkipNewlines(ts) else ts;
    if ts' == [] || ts'[0] == TEOF then (TEOF, [])
    else (if f.kwd then Promote(ts'[0]) else ts'[0], ts'[1..])
  }

  /** Pushing the last token back puts it in front of the stream, in the form it was recognised in. */
  function Pushback(t: Token, ts: Toks): Toks {
    if t == TEOF then ts else [t] + ts
  }

  /** Tokens that end a list. */
  predicate EndsList(t: Token) {
    match t
    case TEOF | TRP | TENDCASE => true
    case TKWD(k, _) => k in {DO, DONE, ELIF, ELSE, ESAC, FI, THEN, END}
    case _ => false
  }

  predicate IsKwd(t: Token, k: Keyword) {
    t.TKWD? && t.k == k
  }

  const SPECIAL_BUILTINS: set<string> :=
    {"break", "continue", ".", "eval", "exec", "exit", "export", "readonly", "local", "return", "set", "shift",
     "times", "trap", ":", "unset"}
}
