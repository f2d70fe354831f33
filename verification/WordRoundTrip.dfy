/** Decoding the text of a word gives its tree back. */
module WordRoundTrip {
  import opened Option
  import opened WordTree

  /** What a word is made of before it is encoded: a tree whose multibyte characters are kept together. */
  datatype Piece =
    | Char(c: Byte)
    | Esc(c: Byte)
    | Multi(escaped: bool, bytes: Text)
    | Tilde(user: Option<Text>)
    | Arith(word: Word)
    | Var(vt: VarType, nul: bool, name: Text, word: Word)
    | Quoted(word: Word)
    | Backq(cmd: Command)

  datatype Word = End | Then(piece: Piece, rest: Word)

  // ---------- tree, text and commands of a word ----------

  function Tree(w: Word): Arg {
    match w
    case End => Nil
    case Then(piece, rest) => Add(piece, Tree(rest))
  }

  function Add(p: Piece, tail: Arg): Arg {
    match p
    case Char(c) => Cons(C(c), tail)
    case Esc(c) => Cons(E(c), tail)
    case Multi(escaped, bytes) => Chars(escaped, bytes, tail)
    case Tilde(user) => Cons(T(user), tail)
    case Arith(word) => Cons(A(Tree(word)), tail)
    case Var(vt, nul, name, word) => Cons(V(vt, nul, name, Tree(word)), tail)
    case Quoted(word) => Cons(Q(Tree(word)), tail)
    case Backq(cmd) => Cons(B(cmd), tail)
  }

  function TypeCode(vt: VarType): int {
    match vt
    case Normal => 1
    case Minus => 2
    case Plus => 3
    case Question => 4
    case Assign => 5
    case TrimR => 6
    case TrimRMax => 7
    case TrimL => 8
    case TrimLMax => 9
    case Length => 10
  }

  const VSNUL := 16
  const VSBIT := 32

  function TypeByte(vt: VarType, nul: bool): Byte {
    VSBIT + (if nul then VSNUL else 0) + TypeCode(vt)
  }

  function TextOf(w: Word): Text {
    match w
    case End => []
    case Then(piece, rest) => PieceText(piece) + TextOf(rest)
  }

  function PieceText(p: Piece): Text {
    match p
    case Char(c) => [c]
    case Esc(c) => [CTLESC, c]
    case Multi(escaped, bytes) =>
      [CTLMBCHAR] + (if escaped then [CTLESC] else []) + [|bytes|] + bytes + [|bytes|, CTLMBCHAR]
    case Tilde(user) => [TILDE] + if user.Some? then user.value else []
    case Arith(word) => [CTLARI] + (TextOf(word) + [CTLENDARI])
    case Var(vt, nul, name, word) =>
      [CTLVAR, TypeByte(vt, nul)] + (name + ([EQUALS] + if vt == Normal then [] else TextOf(word) + [CTLENDVAR]))
    case Quoted(word) => [CTLQUOTEMARK] + (TextOf(word) + [CTLQUOTEMARK])
    case Backq(_) => [CTLBACKQ]
  }

  function Commands(w: Word): seq<Command> {
    match w
    case End => []
    case Then(piece, rest) => PieceCommands(piece) + Commands(rest)
  }

  function PieceCommands(p: Piece): seq<Command> {
    match p
    case Arith(word) => Commands(word)
    case Var(_, _, _, word) => Commands(word)
    case Quoted(word) => Commands(word)
    case Backq(cmd) => [cmd]
    case _ => []
  }

  // ---------- which words can be encoded ----------

  /** Where a tilde is an ordinary character. */
  predicate TildeOff(stack: seq<Within>) {
    InQuo in stack || InAri in stack
  }

  /** What ends a tilde prefix with a name. */
  predicate EndsName(w: Word) {
    w == End || w.piece in [Char(SLASH), Char(COLON)]
  }

  /** What a tilde without a name can come before. */
  predicate EndsTilde(w: Word) {
    EndsName(w) || w.piece.Esc? || w.piece.Arith? || w.piece.Var? || w.piece.Quoted? || w.piece.Backq?
  }

  predicate IsUser(u: Text) {
    u != [] && forall i :: 0 <= i < |u| ==> !IsControl(u[i]) && u[i] != COLON && u[i] != SLASH
  }

  predicate Encodable(w: Word, stack: seq<Within>)
    decreases w
  {
    match w
    case End => true
    case Then(p, rest) =>
      Encodable(rest, stack) &&
      match p
      case Char(c) => !IsControl(c) && (c == TILDE ==> TildeOff(stack))
      case Esc(c) => true
      case Multi(_, bytes) => 1 <= |bytes| <= 4
      case Tilde(None) => !TildeOff(stack) && EndsTilde(rest)
      case Tilde(Some(u)) => !TildeOff(stack) && IsUser(u) && EndsName(rest)
      case Arith(word) => Encodable(word, [InAri] + stack)
      case Var(vt, nul, name, word) =>
        && EQUALS !in name && Encodable(word, [InVar] + stack)
        && (vt in {Normal, Length} ==> !nul && word == End)
      case Quoted(word) => (stack == [] || stack[0] != InQuo) && Encodable(word, [InQuo] + stack)
      case Backq(_) => true
  }

  // ---------- how one piece is decoded ----------

  lemma DecodeChar(c: Byte, s: Text, cmds: seq<Command>, stack: seq<Within>)
    requires !IsControl(c) && (c == TILDE ==> TildeOff(stack))
    ensures ParseArg([c] + s, cmds, stack) == Before(C(c), ParseArg(s, cmds, stack))
  {
    assert ([c] + s)[1..] == s;
  }

  lemma DecodeEsc(c: Byte, s: Text, cmds: seq<Command>, stack: seq<Within>)
    ensures ParseArg([CTLESC, c] + s, cmds, stack) == Before(E(c), ParseArg(s, cmds, stack))
  {
    assert ([CTLESC, c] + s)[2..] == s;
  }

  lemma DecodeBackq(cmd: Command, s: Text, cmds: seq<Command>, stack: seq<Within>)
    ensures ParseArg([CTLBACKQ] + s, [cmd] + cmds, stack) == Before(B(cmd), ParseArg(s, cmds, stack))
  {
    assert ([CTLBACKQ] + s)[1..] == s && ([cmd] + cmds)[1..] == cmds;
  }

  lemma MultiBack(escaped: bool, bytes: Text, s: Text)
    requires 1 <= |bytes| <= 4
    ensures (PieceText(Multi(escaped, bytes)) + s)[0] == CTLMBCHAR
    ensures ParseMulti((PieceText(Multi(escaped, bytes)) + s)[1..]) == Some((escaped, bytes, s))
  {
    var t := PieceText(Multi(escaped, bytes)) + s;
    var body := bytes + [|bytes|, CTLMBCHAR] + s;
    var after := [|bytes|] + body;
    assert t[1..] == (if escaped then [CTLESC] + after else after);
    assert after[1..] == body && ([CTLESC] + after)[1..] == after;
    assert body[..|bytes|] == bytes && body[|bytes| + 2..] == s;
  }

  lemma DecodeMulti(escaped: bool, bytes: Text, s: Text, cmds: seq<Command>, stack: seq<Within>)
    requires 1 <= |bytes| <= 4
    ensures ParseArg(PieceText(Multi(escaped, bytes)) + s, cmds, stack)
            == BeforeAll(escaped, bytes, ParseArg(s, cmds, stack))
  {
    MultiBack(escaped, bytes, s);
    hide ParseMulti, PieceText;
  }

  function BeforeAll(escaped: bool, bytes: Text, r: Option<Parsed>): Option<Parsed> {
    var p :- r;
    Some(p.(arg := Chars(escaped, bytes, p.arg)))
  }

  const ENDS_TILDE: Text := [CTLENDVAR, CTLENDARI, COLON, SLASH]
  const LOSES_TILDE: Text := [CTLESC, CTLVAR, CTLBACKQ, CTLARI, CTLQUOTEMARK]

  /** The characters of a name are read one by one. */
  lemma {:induction false} NameRead(acc: Text, u: Text, s: Text)
    requires forall i :: 0 <= i < |u| ==> !IsControl(u[i]) && u[i] != COLON && u[i] != SLASH
    ensures ParseTilde(acc, u + s) == ParseTilde(acc + u, s)
    decreases |u|
  {
    if u == [] {
      assert u + s == s && acc + u == acc;
    } else {
      assert (u + s)[1..] == u[1..] + s;
      assert acc + [u[0]] + u[1..] == acc + u;
      NameRead(acc + [u[0]], u[1..], s);
    }
  }

  /** The text after a tilde ends the name, or is a control code where there is no name. */
  lemma DecodeTilde(user: Option<Text>, s: Text, cmds: seq<Command>, stack: seq<Within>)
    requires !TildeOff(stack) && (user.Some? ==> IsUser(user.value))
    requires s == [] || s[0] in ENDS_TILDE || (user.None? && s[0] in LOSES_TILDE)
    ensures ParseArg(PieceText(Tilde(user)) + s, cmds, stack) == Before(T(user), ParseArg(s, cmds, stack))
  {
    var u := if user.Some? then user.value else [];
    var t := PieceText(Tilde(user)) + s;
    assert t[1..] == u + s;
    if user.Some? {
      NameRead([], u, s);
      assert [] + u == u;
    } else {
      assert u + s == s;
    }
  }

  lemma DecodeArith(t: Text, p: Parsed, cmds: seq<Command>, stack: seq<Within>)
    requires ParseArg(t, cmds, [InAri] + stack) == Some(p)
    ensures ParseArg([CTLARI] + t, cmds, stack) == Before(A(p.arg), ParseArg(p.text, p.cmds, stack))
  {
    assert ([CTLARI] + t)[1..] == t;
  }

  lemma DecodeQuoted(t: Text, p: Parsed, cmds: seq<Command>, stack: seq<Within>)
    requires stack == [] || stack[0] != InQuo
    requires ParseArg(t, cmds, [InQuo] + stack) == Some(p)
    ensures ParseArg([CTLQUOTEMARK] + t, cmds, stack) == Before(Q(p.arg), ParseArg(p.text, p.cmds, stack))
  {
    assert ([CTLQUOTEMARK] + t)[1..] == t;
  }

  lemma {:induction false} NameBack(name: Text, s: Text)
    requires EQUALS !in name
    ensures NameOf(name + ([EQUALS] + s)) == name
  {
    if name == [] {
      assert name + ([EQUALS] + s) == [EQUALS] + s;
    } else {
      assert (name + ([EQUALS] + s))[1..] == name[1..] + ([EQUALS] + s);
      NameBack(name[1..], s);
    }
  }

  lemma TypeCodeBack(vt: VarType, nul: bool)
    ensures var t := TypeByte(vt, nul);
            && t % 16 == TypeCode(vt) && (t / 16 % 2 == 1 <==> nul)
            && (vt != Normal ==> CodeType(t % 16) == Some(vt))
  {
  }

  /** What the decoder has after a type byte and a name. */
  lemma VarHead(vt: VarType, nul: bool, name: Text, s: Text)
    requires EQUALS !in name
    ensures var t := [CTLVAR, TypeByte(vt, nul)] + (name + ([EQUALS] + s));
            && t[1] == TypeByte(vt, nul) && NameOf(t[2..]) == name && t[2 + |name|..] == [EQUALS] + s
            && t[2 + |name|..][1..] == s
  {
    var t := [CTLVAR, TypeByte(vt, nul)] + (name + ([EQUALS] + s));
    assert t[2..] == name + ([EQUALS] + s);
    assert t[2 + |name|..] == t[2..][|name|..] == [EQUALS] + s;
    NameBack(name, s);
  }

  lemma DecodeNormal(name: Text, s: Text, cmds: seq<Command>, stack: seq<Within>)
    requires EQUALS !in name
    ensures ParseArg([CTLVAR, TypeByte(Normal, false)] + (name + ([EQUALS] + s)), cmds, stack) ==
              Before(V(Normal, false, name, Nil), ParseArg(s, cmds, stack))
  {
    VarHead(Normal, false, name, s);
    TypeCodeBack(Normal, false);
  }

  lemma DecodeLength(name: Text, s: Text, cmds: seq<Command>, stack: seq<Within>)
    requires EQUALS !in name
    ensures ParseArg([CTLVAR, TypeByte(Length, false)] + (name + ([EQUALS] + ([CTLENDVAR] + s))), cmds, stack) ==
              Before(V(Length, false, name, Nil), ParseArg(s, cmds, stack))
  {
    VarHead(Length, false, name, [CTLENDVAR] + s);
    TypeCodeBack(Length, false);
    assert ([EQUALS] + ([CTLENDVAR] + s))[2..] == s;
  }

  lemma DecodeVar(vt: VarType, nul: bool, name: Text, t: Text, p: Parsed, cmds: seq<Command>, stack: seq<Within>)
    requires EQUALS !in name && vt != Normal && vt != Length
    requires ParseArg(t, cmds, [InVar] + stack) == Some(p)
    ensures ParseArg([CTLVAR, TypeByte(vt, nul)] + (name + ([EQUALS] + t)), cmds, stack) ==
              Before(V(vt, nul, name, p.arg), ParseArg(p.text, p.cmds, stack))
  {
    VarHead(vt, nul, name, t);
    TypeCodeBack(vt, nul);
    var code := TypeByte(vt, nul) % 16;
    assert code != 1 && code != 10 && CodeType(code) == Some(vt);
    hide CodeType, TypeByte;
  }

  // ---------- whole words ----------

  /** What ends the text on the top level of the stack. */
  function Closing(stack: seq<Within>): Text {
    if stack == [] then []
    else match stack[0]
         case InVar => [CTLENDVAR]
         case InAri => [CTLENDARI]
         case InQuo => [CTLQUOTEMARK]
  }

  /** The text of a word, its end, and more. */
  function Full(w: Word, stack: seq<Within>, more: Text): Text {
    TextOf(w) + (Closing(stack) + more)
  }

  lemma FullThen(p: Piece, rest: Word, stack: seq<Within>, more: Text)
    ensures Full(Then(p, rest), stack, more) == PieceText(p) + Full(rest, stack, more)
  {
  }

  lemma FullNested(open: Byte, word: Word, within: Within, stack: seq<Within>, s: Text)
    ensures [open] + (TextOf(word) + Closing([within] + stack)) + s == [open] + Full(word, [within] + stack, s)
  {
  }

  lemma FullVar(vt: VarType, nul: bool, name: Text, word: Word, stack: seq<Within>, s: Text)
    ensures PieceText(Var(vt, nul, name, word)) + s ==
              [CTLVAR, TypeByte(vt, nul)] +
                (name + ([EQUALS] + if vt == Normal then s else Full(word, [InVar] + stack, s)))
  {
    hide TypeByte;
    assert Closing([InVar] + stack) == [CTLENDVAR];
    assert TextOf(word) + [CTLENDVAR] + s == TextOf(word) + ([CTLENDVAR] + s);
  }

  /** What comes after a tilde ends its name. */
  lemma AfterTilde(user: Option<Text>, rest: Word, stack: seq<Within>, more: Text)
    requires !TildeOff(stack) && (stack == [] ==> more == [])
    requires if user.Some? then EndsName(rest) else EndsTilde(rest)
    ensures var s := Full(rest, stack, more);
            s == [] || s[0] in ENDS_TILDE
            || (user.None? && s[0] in [CTLESC, CTLVAR, CTLBACKQ, CTLARI, CTLQUOTEMARK])
  {
    if rest == End {
      assert stack != [] ==> stack[0] in stack;
    } else {
      FullThen(rest.piece, rest.rest, stack, more);
    }
  }

  lemma DecodeEnd(stack: seq<Within>, more: Text, cmds: seq<Command>)
    requires stack == [] ==> more == []
    ensures ParseArg(Full(End, stack, more), Commands(End) + cmds, stack) ==
              Some(Parsed(Nil, more, cmds, if stack == [] then [] else stack[1..]))
  {
    hide Full, Closing, TextOf, Commands, ParseArg;
    CloseLevel(stack, more, cmds);
    NothingFull(stack, more);
    assert Commands(End) + cmds == cmds by { NoCommands(); }
  }

  lemma NoCommands()
    ensures Commands(End) == []
  {}

  lemma NothingFull(stack: seq<Within>, more: Text)
    ensures Full(End, stack, more) == Closing(stack) + more
  {
    hide Closing;
    assert [] + (Closing(stack) + more) == Closing(stack) + more;
  }

  lemma CloseLevel(stack: seq<Within>, more: Text, cmds: seq<Command>)
    requires stack == [] ==> more == []
    ensures ParseArg(Closing(stack) + more, cmds, stack) ==
              Some(Parsed(Nil, more, cmds, if stack == [] then [] else stack[1..]))
  {
    hide ParseVar, ParseMulti, ParseTilde, Before, Chars;
    if stack != [] {
      assert (Closing(stack) + more)[1..] == more;
    }
  }

  /**
   * The text of a word is decoded to its tree. What follows the text and the commands after its own are left, and
   * the stack is one level lower.
   */
  lemma {:induction false} Decoded(w: Word, stack: seq<Within>, more: Text, cmds: seq<Command>)
    requires Encodable(w, stack) && (stack == [] ==> more == [])
    ensures ParseArg(Full(w, stack, more), Commands(w) + cmds, stack) ==
              Some(Parsed(Tree(w), more, cmds, if stack == [] then [] else stack[1..]))
    decreases w
  {
    hide ParseArg, Full, PieceText, PieceCommands, TildeOff, TextOf, TypeByte;
    if w == End {
      DecodeEnd(stack, more, cmds);
    } else {
      var p, rest := w.piece, w.rest;
      Decoded(rest, stack, more, cmds);
      FullThen(p, rest, stack, more);
      assert Commands(w) + cmds == PieceCommands(p) + (Commands(rest) + cmds);
      PieceDecoded(p, rest, Commands(rest) + cmds,
          Parsed(Tree(rest), more, cmds, if stack == [] then [] else stack[1..]),
                   stack, more);
    }
  }

  /** One piece is decoded to its part of the tree, whatever the rest is decoded to. */
  lemma {:induction false} PieceDecoded(p: Piece, rest: Word, cmds: seq<Command>, q: Parsed, stack: seq<Within>,
      more: Text)
    requires Encodable(Then(p, rest), stack) && (stack == [] ==> more == [])
    requires ParseArg(Full(rest, stack, more), cmds, stack) == Some(q)
    ensures ParseArg(PieceText(p) + Full(rest, stack, more), PieceCommands(p) + cmds, stack) ==
              Some(q.(arg := Add(p, q.arg)))
    decreases p, 2
  {
    hide ParseArg, Full, TildeOff, TextOf, TypeByte;
    var s := Full(rest, stack, more);
    assert [] + cmds == cmds;
    if p.Char? {
      DecodeChar(p.c, s, cmds, stack);
    } else if p.Esc? {
      DecodeEsc(p.c, s, cmds, stack);
    } else if p.Multi? {
      DecodeMulti(p.escaped, p.bytes, s, cmds, stack);
      assert p == Multi(p.escaped, p.bytes);
    } else if p.Tilde? {
      AfterTilde(p.user, rest, stack, more);
      DecodeTilde(p.user, s, cmds, stack);
      assert p == Tilde(p.user);
    } else if p.Backq? {
      DecodeBackq(p.cmd, s, cmds, stack);
    } else {
      NestedDecoded(p, rest, cmds, q, stack, more);
    }
  }

  lemma {:induction false} NestedDecoded(p: Piece, rest: Word, cmds: seq<Command>, q: Parsed, stack: seq<Within>,
      more: Text)
    requires p.Arith? || p.Var? || p.Quoted?
    requires Encodable(Then(p, rest), stack) && (stack == [] ==> more == [])
    requires ParseArg(Full(rest, stack, more), cmds, stack) == Some(q)
    ensures ParseArg(PieceText(p) + Full(rest, stack, more), PieceCommands(p) + cmds, stack) ==
              Some(q.(arg := Add(p, q.arg)))
    decreases p, 1
  {
    var s := Full(rest, stack, more);
    hide ParseArg, Full, TildeOff, TextOf, TypeByte;
    if p.Arith? {
      FullNested(CTLARI, p.word, InAri, stack, s);
      Decoded(p.word, [InAri] + stack, s, cmds);
      DecodeArith(Full(p.word, [InAri] + stack, s), Parsed(Tree(p.word), s, cmds, stack), Commands(p.word) + cmds,
          stack);
    } else if p.Quoted? {
      FullNested(CTLQUOTEMARK, p.word, InQuo, stack, s);
      Decoded(p.word, [InQuo] + stack, s, cmds);
      DecodeQuoted(Full(p.word, [InQuo] + stack, s), Parsed(Tree(p.word), s, cmds, stack), Commands(p.word) + cmds,
          stack);
    } else {
      VarDecoded(p, s, cmds, q, stack);
    }
  }

  lemma {:induction false} VarDecoded(p: Piece, s: Text, cmds: seq<Command>, q: Parsed, stack: seq<Within>)
    requires p.Var? && EQUALS !in p.name && Encodable(p.word, [InVar] + stack)
    requires p.vt in {Normal, Length} ==> !p.nul && p.word == End
    requires ParseArg(s, cmds, stack) == Some(q)
    ensures ParseArg(PieceText(p) + s, PieceCommands(p) + cmds, stack) == Some(q.(arg := Add(p, q.arg)))
    decreases p, 0
  {
    hide ParseArg, Full, TypeByte, Encodable, PieceText;
    FullVar(p.vt, p.nul, p.name, p.word, stack, s);
    if p.vt == Normal {
      DecodeNormal(p.name, s, cmds, stack);
      assert PieceCommands(p) + cmds == cmds;
    } else if p.vt == Length {
      assert Full(End, [InVar] + stack, s) == [CTLENDVAR] + s by { FullEnd(stack, s); }
      DecodeLength(p.name, s, cmds, stack);
      assert PieceCommands(p) + cmds == cmds;
    } else {
      Decoded(p.word, [InVar] + stack, s, cmds);
      DecodeVar(p.vt, p.nul, p.name, Full(p.word, [InVar] + stack, s), Parsed(Tree(p.word), s, cmds, stack),
                Commands(p.word) + cmds, stack);
    }
  }

  lemma FullEnd(stack: seq<Within>, s: Text)
    ensures Full(End, [InVar] + stack, s) == [CTLENDVAR] + s
  {
  }

  /** Encoding and decoding a word gives its tree. */
  lemma WordRoundTrip(w: Word)
    requires Encodable(w, [])
    ensures ToArg(TextOf(w), Commands(w)) == Some(Tree(w))
  {
    Decoded(w, [], [], []);
    assert Full(w, [], []) == TextOf(w) && Commands(w) + [] == Commands(w);
  }

  // ---------- when a tilde is read back ----------

  /** A user name is read back if and only if an end of the prefix follows it. */
  lemma TildeNameExact(u: Text, s: Text)
    requires IsUser(u)
    ensures ParseTilde([], u + s) == (Some(u), s) <==> s == [] || s[0] in ENDS_TILDE
  {
    NameRead([], u, s);
    assert [] + u == u;
  }

  /** A tilde without a name is read back if and only if no ordinary character follows, nor a multibyte one. */
  lemma BareTildeExact(s: Text)
    ensures ParseTilde([], s) == (None, s) <==> s == [] || s[0] in ENDS_TILDE + LOSES_TILDE
  {}

  /** A name that runs into one of five control codes is lost, whatever the name is: only a bare tilde is read. */
  lemma TildeNameLost(u: Text, s: Text, cmds: seq<Command>, stack: seq<Within>)
    requires IsUser(u) && !TildeOff(stack)
    requires s != [] && s[0] in LOSES_TILDE
    ensures ParseArg(PieceText(Tilde(Some(u))) + s, cmds, stack) == Before(T(None), ParseArg(s, cmds, stack))
  {
    NameRead([], u, s);
    assert (PieceText(Tilde(Some(u))) + s)[1..] == u + s;
  }

  /** A multibyte character becomes a part of the name, with the codes and lengths around it. */
  lemma TildeNameSwallows(u: Text, bytes: Text, s: Text)
    requires IsUser(u)
    requires forall i :: 0 <= i < |bytes| ==> !IsControl(bytes[i]) && bytes[i] != COLON && bytes[i] != SLASH
    requires 1 <= |bytes| <= 4
    ensures ParseTilde([], u + (PieceText(Multi(false, bytes)) + s))
            == ParseTilde(u + PieceText(Multi(false, bytes)), s)
  {
    var n := [|bytes|];
    var inner := n + bytes + n;
    assert PieceText(Multi(false, bytes)) == [CTLMBCHAR] + (inner + [CTLMBCHAR]);
    hide ParseTilde, PieceText;
    NameRead([], u, [CTLMBCHAR] + (inner + [CTLMBCHAR]) + s);
    assert [] + u == u;
    assert [CTLMBCHAR] + (inner + [CTLMBCHAR]) + s == [CTLMBCHAR] + (inner + ([CTLMBCHAR] + s));
    CodeRead(u, inner + ([CTLMBCHAR] + s));
    NameRead(u + [CTLMBCHAR], inner, [CTLMBCHAR] + s);
    CodeRead(u + [CTLMBCHAR] + inner, s);
    assert u + [CTLMBCHAR] + inner + [CTLMBCHAR] == u + ([CTLMBCHAR] + (inner + [CTLMBCHAR]));
  }

  lemma CodeRead(acc: Text, s: Text)
    ensures ParseTilde(acc, [CTLMBCHAR] + s) == ParseTilde(acc + [CTLMBCHAR], s)
  {
    assert ([CTLMBCHAR] + s)[1..] == s;
  }

  /** If it is escaped the name is lost, and the start of the character with it. */
  lemma TildeNameLostInMulti(u: Text, bytes: Text, s: Text)
    requires IsUser(u)
    ensures ParseTilde([], u + (PieceText(Multi(true, bytes)) + s)) == (None, (PieceText(Multi(true, bytes)) + s)[1..])
  {
    var group := PieceText(Multi(true, bytes)) + s;
    NameRead([], u, group);
    assert group[0] == CTLMBCHAR && group[1] == CTLESC;
    assert ParseTilde([] + u, group) == ParseTilde([] + u + [CTLMBCHAR], group[1..]);
  }

  /** An instance: the user u and the character with bytes 195 and 169. */
  lemma TildeSwallowed()
    ensures var w := Then(Tilde(Some([117])), Then(Multi(false, [195, 169]), End));
            ToArg(TextOf(w), [])
                == Some(Cons(T(Some([117, CTLMBCHAR, 2, 195, 169, 2, CTLMBCHAR])), Nil)) != Some(Tree(w))
  {
    var group := PieceText(Multi(false, [195, 169]));
    assert group == [CTLMBCHAR, 2, 195, 169, 2, CTLMBCHAR];
    var w := Then(Tilde(Some([117])), Then(Multi(false, [195, 169]), End));
    var text := TextOf(w);
    assert text == [TILDE] + ([117] + (group + []));
    TildeNameSwallows([117], [195, 169], []);
    assert text[1..] == [117] + (group + []);
    assert ParseTilde([117] + group, []) == (Some([117] + group), []);
    assert ParseArg([], [], []) == Some(Parsed(Nil, [], [], []));
    assert [117] + group == [117, CTLMBCHAR, 2, 195, 169, 2, CTLMBCHAR];
  }

  // ---------- trees ----------

  /** A tree as a word, with no multibyte character kept together. */
  function WordOf(a: Arg): Word {
    match a
    case Nil => End
    case Cons(c, tail) => Then(PieceOf(c), WordOf(tail))
  }

  function PieceOf(c: ArgChar): Piece {
    match c
    case C(c) => Char(c)
    case E(c) => Esc(c)
    case T(user) => Tilde(user)
    case A(arg) => Arith(WordOf(arg))
    case V(vt, nul, name, arg) => Var(vt, nul, name, WordOf(arg))
    case Q(arg) => Quoted(WordOf(arg))
    case B(cmd) => Backq(cmd)
  }

  lemma {:induction false} TreeOfWord(a: Arg)
    ensures Tree(WordOf(a)) == a
  {
    if a.Cons? {
      TreeOfWord(a.tail);
      if a.head.A? || a.head.V? || a.head.Q? {
        TreeOfWord(a.head.arg);
      }
    }
  }

  /** Every tree that can be encoded comes back. */
  lemma TreeRoundTrip(a: Arg)
    requires Encodable(WordOf(a), [])
    ensures ToArg(TextOf(WordOf(a)), Commands(WordOf(a))) == Some(a)
  {
    TreeOfWord(a);
    WordRoundTrip(WordOf(a));
  }
}
