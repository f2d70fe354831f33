/** Laws of words: what the control codes stand for, by their numbers (src/parser.h). */
module WordLaws {
  import opened Option
  import opened WordRoundTrip
  import opened WordTree

  /** The operators of an expansion in the order of their codes, which start at 1; the first is for no operator. */
  const OPERATORS: seq<string> := ["", "-", "+", "?", "=", "%", "%%", "#", "##"]
  const TYPES: seq<VarType> := [Normal, Minus, Plus, Question, Assign, TrimR, TrimRMax, TrimL, TrimLMax]

  /** How the tree of an expansion is printed: the operator between the name and the word. */
  function Shown(vt: VarType): string {
    match vt
    case Normal => ""
    case Minus => "-"
    case Plus => "+"
    case Question => "?"
    case Assign => "="
    case TrimR => "%"
    case TrimRMax => "%%"
    case TrimL => "#"
    case TrimLMax => "##"
    case Length => "#"
  }

  function Alone(c: ArgChar): Arg {
    Cons(c, Nil)
  }

  lemma OnePiece(p: Piece)
    requires Encodable(Then(p, End), [])
    ensures ToArg(PieceText(p), PieceCommands(p)) == Some(Add(p, Nil))
  {
    WordRoundTrip.WordRoundTrip(Then(p, End));
    assert PieceText(p) + [] == PieceText(p) && PieceCommands(p) + [] == PieceCommands(p);
    hide ToArg, PieceText, PieceCommands, Add;
  }

  /** An operator and its word: ${name-word}, ${name:-word} and so on, by the operator's place. */
  lemma Expansion(i: nat, colon: bool, name: Text, word: Word)
    requires 1 <= i < |OPERATORS| && EQUALS !in name && Encodable(word, [InVar])
    ensures |TYPES| == |OPERATORS| && Shown(TYPES[i]) == OPERATORS[i]
    ensures ToArg([130, 33 + i + if colon then 16 else 0] + (name + ([61] + (TextOf(word) + [131]))), Commands(word))
            == Some(Alone(V(TYPES[i], colon, name, Tree(word))))
  {
    hide ToArg;
    assert [InVar] + [] == [InVar];
    OnePiece(Var(TYPES[i], colon, name, word));
    assert TypeByte(TYPES[i], colon) == 33 + i + if colon then 16 else 0;
    assert [EQUALS] == [61];
  }

  /** The value of a variable, and its length. */
  lemma Variable(name: Text)
    requires EQUALS !in name
    ensures ToArg([130, 33] + (name + [61]), []) == Some(Alone(V(Normal, false, name, Nil)))
    ensures ToArg([130, 42] + (name + [61, 131]), []) == Some(Alone(V(Length, false, name, Nil)))
  {
    hide ToArg;
    OnePiece(Var(Normal, false, name, End));
    OnePiece(Var(Length, false, name, End));
    assert [EQUALS] + [] == [61] && [EQUALS] + ([] + [CTLENDVAR]) == [61, 131];
  }

  /** Quotes, arithmetic and command substitution. */
  lemma Nested(word: Word, cmd: Command)
    ensures Encodable(word, [InQuo]) ==>
              ToArg([136] + (TextOf(word) + [136]), Commands(word)) == Some(Alone(Q(Tree(word))))
    ensures Encodable(word, [InAri]) ==>
              ToArg([134] + (TextOf(word) + [135]), Commands(word)) == Some(Alone(A(Tree(word))))
    ensures ToArg([132], [cmd]) == Some(Alone(B(cmd)))
  {
    hide ToArg;
    assert [InQuo] + [] == [InQuo] && [InAri] + [] == [InAri];
    if Encodable(word, [InQuo]) {
      OnePiece(Quoted(word));
    }
    if Encodable(word, [InAri]) {
      OnePiece(Arith(word));
    }
    OnePiece(Backq(cmd));
  }

  /** A byte that is no code, and any byte after the escape. */
  lemma Bytes(c: Byte)
    ensures !(129 <= c <= 136) && c != 126 ==> ToArg([c], []) == Some(Alone(C(c)))
    ensures ToArg([129, c], []) == Some(Alone(E(c)))
  {
    hide ToArg;
    if !(129 <= c <= 136) && c != 126 {
      OnePiece(Char(c));
    }
    OnePiece(Esc(c));
  }

  /** A tilde, alone or with the name of a user, which ends before a slash. */
  lemma HomeDirectory(user: Text)
    requires user != [] && forall i :: 0 <= i < |user| ==> !(129 <= user[i] <= 136) && user[i] != 58 && user[i] != 47
    ensures ToArg([126], []) == Some(Alone(T(None)))
    ensures ToArg([126] + user + [47], []) == Some(Cons(T(Some(user)), Alone(C(47))))
  {
    hide ToArg;
    OnePiece(Tilde(None));
    assert [126] + [] == [126];
    var slash := Then(Char(47), End);
    AndMore(Char(47), End);
    AndMore(Tilde(Some(user)), slash);
    assert [47] + [] == [47] && Commands(End) + Commands(End) == [];
    WordRoundTrip.WordRoundTrip(Then(Tilde(Some(user)), slash));
  }

  lemma AndMore(p: Piece, w: Word)
    ensures TextOf(Then(p, w)) == PieceText(p) + TextOf(w) && Commands(Then(p, w)) == PieceCommands(p) + Commands(w)
    ensures Tree(Then(p, w)) == Add(p, Tree(w))
    ensures TextOf(End) == [] && Commands(End) == [] && Tree(End) == Nil && Encodable(End, [])
  {
  }

  /** A multibyte character is between its length and code on both sides; escaped, each byte is. */
  lemma Multibyte(bytes: Text)
    requires 1 <= |bytes| <= 4
    ensures ToArg([133, |bytes|] + bytes + [|bytes|, 133], []) == Some(Chars(false, bytes, Nil))
    ensures ToArg([133, 129, |bytes|] + bytes + [|bytes|, 133], []) == Some(Chars(true, bytes, Nil))
  {
    hide ToArg, Chars;
    OnePiece(Multi(false, bytes));
    OnePiece(Multi(true, bytes));
    InFront(133, 129, |bytes|);
  }

  lemma InFront<T>(x: T, y: T, z: T)
    ensures [x] + [] + [z] == [x, z] && [x] + [y] + [z] == [x, y, z]
  {
  }

  /** Commands are taken in the order of their substitutions, and none may be left or missing. */
  lemma CommandsInOrder(first: Command, second: Command, c: Byte)
    requires !(129 <= c <= 136) && c != 126
    ensures ToArg([132, c, 132], [first, second]) == Some(Cons(B(first), Cons(C(c), Alone(B(second)))))
    ensures ToArg([132], []) == None && ToArg([], [first]) == None
  {
    var last := Then(Backq(second), End);
    var middle := Then(Char(c), last);
    AndMore(Backq(second), End);
    AndMore(Char(c), last);
    AndMore(Backq(first), middle);
    assert Encodable(last, []) && Encodable(middle, []);
    WordRoundTrip.WordRoundTrip(Then(Backq(first), middle));
    assert [132] + ([c] + ([132] + [])) == [132, c, 132] && [first] + ([] + ([second] + [])) == [first, second];
  }

  /** A closing code that closes nothing, and an opening one that is not closed, are errors. */
  lemma Unbalanced(s: Text, cmds: seq<Command>)
    ensures ToArg([131] + s, cmds) == ToArg([135] + s, cmds) == None
    ensures ToArg([136], cmds) == ToArg([134], cmds) == None
  {
    assert [136][1..] == [] && [134][1..] == [];
    assert ParseArg([], cmds, [InQuo]) == None && ParseArg([], cmds, [InAri]) == None;
  }

  lemma HeadOf(b: Byte, name: Text, t: Text)
    requires EQUALS !in name
    ensures var s := [130, b] + (name + ([61] + t));
            && |s| >= 2 && s[0] == CTLVAR && s[1] == b && s[2..] == name + ([61] + t)
            && NameOf(s[2..]) == name && s[2 + |name|..] == [61] + t && ([61] + t)[1..] == t
  {
    NameBack(name, t);
    assert [EQUALS] + t == [61] + t;
  }

  lemma OtherStep(b: Byte, name: Text, t: Text, p: Parsed, cmds: seq<Command>)
    requires EQUALS !in name && (b % 16 == 0 || b % 16 > 10) && ParseArg(t, cmds, [InVar]) == Some(p)
    ensures ParseArg([130, b] + (name + ([61] + t)), cmds, [])
            == if b % 16 == 0 then Before(V(Normal, b / 16 % 2 == 1, name, p.arg), ParseArg(p.text, p.cmds, p.stack))
               else None
  {
    HeadOf(b, name, t);
    assert [InVar] + [] == [InVar];
    hide NameOf;
    assert CodeType(b % 16) == if b % 16 == 0 then Some(Normal) else None;
  }

  /** The type byte 0 is that of no operator too, with a word; those that no operator has are errors. */
  lemma OtherTypes(b: Byte, name: Text, word: Word)
    requires EQUALS !in name && Encodable(word, [InVar]) && (b % 16 == 0 || b % 16 > 10)
    ensures ToArg([130, b] + (name + ([61] + (TextOf(word) + [131]))), Commands(word))
            == if b % 16 == 0 then Some(Alone(V(Normal, b / 16 % 2 == 1, name, Tree(word)))) else None
  {
    var t := TextOf(word) + [131];
    Decoded(word, [InVar], [], []);
    assert [InVar] + [] == [InVar] && Commands(word) + [] == Commands(word);
    assert Full(word, [InVar], []) == t;
    assert ParseArg(t, Commands(word), [InVar]) == Some(Parsed(Tree(word), [], [], []));
    OtherStep(b, name, t, Parsed(Tree(word), [], [], []), Commands(word));
    assert ParseArg([], [], []) == Some(Parsed(Nil, [], [], []));
  }

  /** A code that nothing follows is read as two bytes; a multibyte character is of up to four bytes. */
  lemma Malformed(s: Text, cmds: seq<Command>, n: Byte)
    requires n != 129 && !(1 <= n <= 4)
    ensures ToArg([130], []) == Some(Cons(C(194), Alone(C(130))))
    ensures ToArg([133, n] + s, cmds) == None
  {
    assert ParseArg([], [], []) == Some(Parsed(Nil, [], [], []));
    assert ([133, n] + s)[1..] == [n] + s;
    assert ParseMulti([n] + s) == None;
  }
}
