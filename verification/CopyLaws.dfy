/** What copying with escapes is for: quoted text stands for itself in a pattern. */
module CopyLaws {
  import opened Option
  import opened CopyOut
  import opened Unescape
  import C = CBytes
  import G = GlobPattern
  import L = GlobLaws

  // ---------- characters ----------

  /** The text is read as characters of what length the locale says; a NUL is dropped unless it is to be kept. */
  lemma ReadAsChars(mbrlen: Mbrlen, keepnul: bool, s: seq<Byte>)
    requires LengthsOk(mbrlen) && s != []
    ensures Chars(mbrlen, keepnul, [0] + s) == (if keepnul then [[0]] else []) + Chars(mbrlen, keepnul, s)
    ensures s[0] != 0 && (s[0] < 128 || mbrlen(s) < 2) ==>
              Chars(mbrlen, keepnul, s) == [[s[0]]] + Chars(mbrlen, keepnul, s[1..])
    ensures s[0] >= 128 && mbrlen(s) >= 2 ==>
              Chars(mbrlen, keepnul, s) == [s[..mbrlen(s)]] + Chars(mbrlen, keepnul, s[mbrlen(s)..])
  {
    assert ([0] + s)[1..] == s && ([0] + s)[..1] == [0] && s[..1] == [s[0]];
  }

  /** A multibyte character that is escaped can be read from both ends. */
  lemma BothEnds(syntax: Syntax, ch: seq<Byte>)
    requires 2 <= |ch| <= MB_LEN_MAX && syntax != IsType
    ensures var w := WrittenFor(syntax, ch);
            && |w| == |ch| + 4 && w[2..|w| - 2] == ch && w[0] == w[|w| - 1] == CTLMBCHAR
            && LengthOf(w[1]) == LengthOf(w[|w| - 2]) == |ch|
  {
    LengthBack(|ch|);
    hide LengthByte, LengthOf;
  }

  /** Without flags that ask for escapes nothing is escaped. */
  lemma {:induction false} NotEscaped(flags: set<Flag>, cs: seq<seq<Byte>>)
    requires AreChars(cs) && EXP_FULL !in flags && EXP_CASE !in flags && EXP_MBCHAR !in flags
    ensures Written(SyntaxOf(flags), cs) == Flat(cs)
    decreases |cs|
  {
    if cs != [] {
      NotEscaped(flags, cs[1..]);
    }
  }

  /** Escapes are taken out of what is put in front, whatever follows. */
  lemma {:induction false} WrittenThen(syntax: Syntax, cs: seq<seq<Byte>>, t: seq<Byte>)
    requires syntax != IsType && AreChars(cs) && AllChars(cs) && Unescaped(t).Some?
    ensures Unescaped(Written(syntax, cs) + t) == Some(Flat(cs) + Unescaped(t).value)
    decreases |cs|
  {
    hide WrittenFor, IsChar, Unescaped;
    if cs == [] {
      Nothing(t);
      Nothing(Unescaped(t).value);
    } else {
      WrittenThen(syntax, cs[1..], t);
      CharBack(syntax, cs[0], Written(syntax, cs[1..]) + t);
      Assoc(WrittenFor(syntax, cs[0]), Written(syntax, cs[1..]), t);
      Assoc(cs[0], Flat(cs[1..]), Unescaped(t).value);
    }
  }

  lemma Nothing<T>(t: seq<T>)
    ensures [] + t == t && t + [] == t
  {
  }

  /** Quote marks around it are taken out with the escapes. */
  lemma QuoteMarksGone(syntax: Syntax, cs: seq<seq<Byte>>)
    requires syntax != IsType && AreChars(cs) && AllChars(cs)
    ensures Unescaped([CTLQUOTEMARK] + (Written(syntax, cs) + [CTLQUOTEMARK])) == Some(Flat(cs))
  {
    hide Written, Flat, AllChars;
    var w := Written(syntax, cs) + [CTLQUOTEMARK];
    assert Unescaped([]) == Some([]) && [CTLQUOTEMARK][1..] == [];
    assert Unescaped([CTLQUOTEMARK]) == Some([]);
    WrittenThen(syntax, cs, [CTLQUOTEMARK]);
    Nothing(Flat(cs));
    assert ([CTLQUOTEMARK] + w)[1..] == w;
  }

  /** Of the bytes of ASCII these are escaped in quotes; outside of quotes only control codes are. */
  lemma SpecialInQuotes(c: Byte)
    requires c < 128
    ensures var chars := "^!*?[=~:/-]\\";
            |SPECIAL| == |chars| && forall i :: 0 <= i < |chars| ==> SPECIAL[i] as int == chars[i] as int
    ensures (IsCtl(Sqsyntax, c) <==> c in SPECIAL) && !IsCtl(Basesyntax, c) && !IsCtl(IsType, c)
  {
  }

  /** Above them only the control codes are, from the escape to the quote mark. */
  lemma ControlCodes(syntax: Syntax, c: Byte)
    requires c >= 128
    ensures IsCtl(syntax, c) <==> syntax != IsType && CTLESC <= c <= CTLQUOTEMARK
  {
  }

  // ---------- quoted text in a pattern ----------

  /** Bytes as they are compared: as signed characters. */
  function Signed(c: Byte): C.Byte {
    if c < 128 then c as int else c as int - 256
  }

  function Text(s: seq<Byte>): (t: seq<C.Byte>)
    ensures |t| == |s| && forall i :: 0 <= i < |s| ==> t[i] == Signed(s[i])
  {
    seq(|s|, i requires 0 <= i < |s| => Signed(s[i]))
  }

  /** Every character is one byte, and none is NUL. */
  ghost predicate Single(mbrlen: Mbrlen, s: seq<Byte>) {
    forall i :: 0 <= i < |s| ==> s[i] != 0 && (s[i] < 128 || mbrlen(s[i..]) < 2)
  }

  /** Copied as quoted text that is to be part of a pattern. */
  function Quoted(mbrlen: Mbrlen, flags: set<Flag>, s: seq<Byte>): seq<Byte> {
    Written(SyntaxOf(flags), Chars(mbrlen, EXP_KEEPNUL in flags, s))
  }

  /** Flags of quoted text. */
  predicate Quotes(flags: set<Flag>) {
    EXP_QUOTED in flags && (EXP_FULL in flags || EXP_CASE in flags || EXP_MBCHAR in flags)
  }

  lemma QuotedStep(mbrlen: Mbrlen, flags: set<Flag>, s: seq<Byte>)
    requires Quotes(flags) && s != [] && Single(mbrlen, s)
    ensures Single(mbrlen, s[1..])
    ensures Quoted(mbrlen, flags, s)
            == (if IsCtl(Sqsyntax, s[0]) then [CTLESC, s[0]] else [s[0]]) + Quoted(mbrlen, flags, s[1..])
  {
    assert s[0..] == s && s[..1] == [s[0]];
    assert forall i :: 0 <= i < |s| - 1 ==> s[1..][i..] == s[i + 1..];
    var cs := Chars(mbrlen, EXP_KEEPNUL in flags, s[1..]);
    assert Chars(mbrlen, EXP_KEEPNUL in flags, s) == [[s[0]]] + cs;
    assert ([[s[0]]] + cs)[1..] == cs;
  }

  lemma TextBoth(s: seq<Byte>, t: seq<Byte>)
    ensures Text(s + t) == Text(s) + Text(t)
  {
  }

  lemma TextOne(s: seq<Byte>)
    requires s != []
    ensures Text(s) == [Signed(s[0])] + Text(s[1..])
  {
  }

  /** Of the bytes that are not escaped in quotes, none means anything in a pattern, or between brackets. */
  lemma NotSpecial(c: Byte)
    ensures Signed(CTLESC) == G.CTLESC
    ensures !IsCtl(Sqsyntax, c) ==> Signed(c) !in {G.STAR, G.QUESTION, G.LBRACKET, G.CTLESC}
    ensures !IsCtl(Sqsyntax, c) && c != 0 ==> L.Ordinary(Signed(c))
    ensures c != 0 ==> Signed(c) != C.NUL
  {
    assert SPECIAL == [94, 33, 42, 63, 91, 61, 126, 58, 47, 45, 93, 92];
  }

  /** Quoted text matches itself and nothing else. */
  lemma {:induction false} QuotedIsItself(mbrlen: Mbrlen, flags: set<Flag>, s: seq<Byte>, t: seq<C.Byte>)
    requires Quotes(flags) && Single(mbrlen, s)
    ensures G.Language(Text(Quoted(mbrlen, flags, s)), t) <==> t == Text(s)
    decreases |s|
  {
    hide Quoted, G.Language, Text, IsCtl, Single, Signed;
    if s == [] {
      QuotedNone(mbrlen, flags);
      L.Empty(t);
    } else {
      var p := Quoted(mbrlen, flags, s[1..]);
      var q := if IsCtl(Sqsyntax, s[0]) then [CTLESC, s[0]] else [s[0]];
      QuotedStep(mbrlen, flags, s);
      NotSpecial(s[0]);
      TextBoth(q, p);
      TextOfPiece(s[0]);
      TextOne(s);
      L.Itself(Signed(s[0]), Text(p), t);
      if t != [] {
        QuotedIsItself(mbrlen, flags, s[1..], t[1..]);
        assert t == [t[0]] + t[1..];
      }
    }
  }

  lemma QuotedNone(mbrlen: Mbrlen, flags: set<Flag>)
    ensures Quoted(mbrlen, flags, []) == [] && Text([]) == []
  {
  }

  lemma TextOfPiece(c: Byte)
    ensures Text([CTLESC, c]) == [G.CTLESC, Signed(c)] && Text([c]) == [Signed(c)]
  {
  }

  lemma FirstOfQuoted(mbrlen: Mbrlen, flags: set<Flag>, s: seq<Byte>)
    requires Quotes(flags) && Single(mbrlen, s) && s != []
    ensures var t := Text(Quoted(mbrlen, flags, s));
            t != [] && t[0] !in {C.NUL, G.MINUS, G.RBRACKET, G.BANG, G.CARET}
  {
    hide Quoted, IsCtl, Single, Signed, Text;
    QuotedStep(mbrlen, flags, s);
    NotNul(mbrlen, s);
    NotSpecial(s[0]);
    TextOne(Quoted(mbrlen, flags, s));
  }

  lemma PieceItem(c: Byte, rest: seq<C.Byte>)
    requires c != 0 && rest != [] && rest[0] != G.MINUS
    ensures var q := Text(if IsCtl(Sqsyntax, c) then [CTLESC, c] else [c]);
            G.BracketItem(q + rest, 0) == (G.Item(Signed(c), Signed(c)), |q|)
  {
    hide IsCtl, Signed, Text;
    TextOfPiece(c);
    NotSpecial(c);
    if IsCtl(Sqsyntax, c) {
      assert C.At([G.CTLESC, Signed(c)] + rest, 1) == Signed(c);
      assert C.At([G.CTLESC, Signed(c)] + rest, 2) == rest[0];
    } else {
      assert C.At([Signed(c)] + rest, 1) == rest[0];
    }
  }

  lemma AfterItem(q: seq<C.Byte>, rest: seq<C.Byte>, item: G.Item)
    requires q != [] && q[0] != C.NUL && rest != [] && G.BracketItem(q + rest, 0) == (item, |q|)
    ensures G.Bracket(q + rest, 0) ==
              if rest[0] == G.RBRACKET then Some(([item], |q| + 1))
              else if G.Bracket(rest, 0).None? then None
              else Some(([item] + G.Bracket(rest, 0).value.0, |q| + G.Bracket(rest, 0).value.1))
  {
    hide G.BracketItem, G.Escaped, G.Bracket;
    L.AtAfter(q, rest, 0);
    L.BracketAfter(q, rest, 0);
    FirstItem(q + rest);
    assert C.At(q + rest, 0) == q[0] && C.At(rest, 0) == rest[0];
  }

  lemma FirstItem(p: seq<C.Byte>)
    requires C.At(p, 0) != C.NUL
    ensures var (item, i) := G.BracketItem(p, 0);
            G.Bracket(p, 0) ==
              if C.At(p, i) == G.RBRACKET then Some(([item], i + 1))
              else if G.Bracket(p, i).None? then None
              else Some(([item] + G.Bracket(p, i).value.0, G.Bracket(p, i).value.1))
  {
    hide G.BracketItem, G.Escaped;
  }

  lemma {:induction false} QuotedItems(mbrlen: Mbrlen, flags: set<Flag>, s: seq<Byte>, p: seq<C.Byte>)
    requires Quotes(flags) && Single(mbrlen, s) && s != []
    ensures var t := Text(Quoted(mbrlen, flags, s));
            G.Bracket(t + [G.RBRACKET] + p, 0) == Some((L.Singles(Text(s)), |t| + 1))
    decreases |s|
  {
    hide Quoted, IsCtl, Single, Signed, Text, G.Bracket, L.Singles;
    var c := s[0];
    var q := if IsCtl(Sqsyntax, c) then [CTLESC, c] else [c];
    var t := Text(Quoted(mbrlen, flags, s[1..]));
    var rest := t + [G.RBRACKET] + p;
    QuotedStep(mbrlen, flags, s);
    TextBoth(q, Quoted(mbrlen, flags, s[1..]));
    L.Joined(Text(q), t, [G.RBRACKET], p);
    TextOne(s);
    SinglesOf(Signed(c), Text(s[1..]));
    TextOfPiece(c);
    NotSpecial(c);
    NotNul(mbrlen, s);
    if |s| > 1 {
      FirstOfQuoted(mbrlen, flags, s[1..]);
      QuotedItems(mbrlen, flags, s[1..], p);
    } else {
      QuotedNone(mbrlen, flags);
      assert s[1..] == [] && rest == [G.RBRACKET] + p;
    }
    PieceItem(c, rest);
    AfterItem(Text(q), rest, G.Item(Signed(c), Signed(c)));
  }

  lemma NotNul(mbrlen: Mbrlen, s: seq<Byte>)
    requires Single(mbrlen, s) && s != []
    ensures s[0] != 0
  {
  }

  lemma SinglesOf(c: C.Byte, t: seq<C.Byte>)
    ensures L.Singles([c] + t) == [G.Item(c, c)] + L.Singles(t)
    ensures L.Singles([]) == [] && [G.Item(c, c)] + [] == [G.Item(c, c)]
  {
    assert ([c] + t)[1..] == t;
    L.SinglesStep([c] + t);
  }

  /**
   * Between brackets, quoted text stands for its bytes: a minus is no range, and the closing bracket does not close.
   */
  lemma QuotedBetween(mbrlen: Mbrlen, flags: set<Flag>, s: seq<Byte>, p: seq<C.Byte>, t: seq<C.Byte>)
    requires Quotes(flags) && Single(mbrlen, s) && s != []
    ensures G.Language([G.LBRACKET] + [] + Text(Quoted(mbrlen, flags, s)) + [G.RBRACKET] + p, t)
            <==> L.Then(p, t) && t[0] in Text(s)
  {
    hide Quoted, IsCtl, Single, Signed, Text, G.Bracket, L.Singles, G.Language, G.InItems;
    FirstOfQuoted(mbrlen, flags, s);
    QuotedItems(mbrlen, flags, s, p);
    L.BracketElement([], Text(Quoted(mbrlen, flags, s)), p, L.Singles(Text(s)), t);
    if t != [] {
      L.InSingles(t[0], Text(s));
    }
  }
}
