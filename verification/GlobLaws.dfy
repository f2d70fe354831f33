/** Laws of patterns: which strings a pattern matches, by what its first bytes are (section 2.13 of POSIX.1-2017). */
module GlobLaws {
  import opened Option
  import opened CBytes
  import opened GlobPattern

  // ---------- a pattern after some bytes reads as it does alone ----------

  lemma AtAfter(q: seq<Byte>, p: seq<Byte>, i: nat)
    ensures At(q + p, |q| + i) == At(p, i)
  {}

  lemma ByteAfter(q: seq<Byte>, p: seq<Byte>, i: nat)
    ensures BracketByte(q + p, |q| + i) == (BracketByte(p, i).0, |q| + BracketByte(p, i).1)
  {
    AtAfter(q, p, i);
    AtAfter(q, p, i + 1);
  }

  lemma ItemAfter(q: seq<Byte>, p: seq<Byte>, i: nat)
    ensures BracketItem(q + p, |q| + i) == (BracketItem(p, i).0, |q| + BracketItem(p, i).1)
  {
    ByteAfter(q, p, i);
    var i1 := BracketByte(p, i).1;
    AtAfter(q, p, i1);
    AtAfter(q, p, i1 + 1);
    ByteAfter(q, p, i1 + 1);
    hide BracketByte, At;
  }

  lemma {:induction false} BracketAfter(q: seq<Byte>, p: seq<Byte>, i: nat)
    ensures Bracket(q + p, |q| + i)
            == if Bracket(p, i).None? then None else Some((Bracket(p, i).value.0, |q| + Bracket(p, i).value.1))
    decreases |p| - i
  {
    AtAfter(q, p, i);
    if At(p, i) != NUL {
      ItemAfter(q, p, i);
      var i1 := BracketItem(p, i).1;
      AtAfter(q, p, i1);
      hide BracketItem, Escaped;
      if At(p, i1) != RBRACKET {
        BracketAfter(q, p, i1);
      }
    }
  }

  lemma ElementAfter(q: seq<Byte>, p: seq<Byte>, i: nat)
    requires i < |p|
    ensures Element(q + p, |q| + i) == (Element(p, i).0, |q| + Element(p, i).1)
  {
    hide Bracket, Escaped;
    var all := q + p;
    assert all[|q| + i] == p[i];
    AtAfter(q, p, i + 1);
    if p[i] == LBRACKET {
      var j := if Inverts(At(p, i + 1)) then i + 2 else i + 1;
      BracketAfter(q, p, j);
      var a, b := Bracket(p, j), Bracket(all, |q| + j);
      assert a.None? <==> b.None?;
      assert b.Some? ==> b.value == (a.value.0, |q| + a.value.1);
    }
  }

  lemma {:induction false} ElementsAfter(q: seq<Byte>, p: seq<Byte>, i: nat)
    ensures Elements(q + p, |q| + i) == Elements(p, i)
    decreases |p| - i
  {
    if i < |p| {
      ElementAfter(q, p, i);
      hide Element;
      ElementsAfter(q, p, Element(p, i).1);
    }
  }

  /** The language of a pattern whose first element is known. */
  lemma FirstElement(q: seq<Byte>, p: seq<Byte>, e: Elem, s: seq<Byte>)
    requires q != [] && Element(q + p, 0) == (e, |q|)
    ensures Language(q + p, s) <==> Accepts([e] + Elements(p, 0), s)
  {
    hide Element, Accepts;
    ElementsAfter(q, p, 0);
  }

  // ---------- what the bytes of a pattern match ----------

  /** The bytes that mean something, by their characters. */
  lemma SpecialBytes()
    ensures STAR == '*' as int && QUESTION == '?' as int && LBRACKET == '[' as int && RBRACKET == ']' as int
    ensures MINUS == '-' as int && BANG == '!' as int && CARET == '^' as int && COLON == ':' as int
    ensures NUL == '\0' as int
  {
  }

  /** The rest of the string is left to the rest of the pattern. */
  ghost predicate Then(p: seq<Byte>, s: seq<Byte>) {
    s != [] && Language(p, s[1..])
  }

  lemma OneByte(q: seq<Byte>, p: seq<Byte>, e: Elem, s: seq<Byte>)
    requires q != [] && Element(q + p, 0) == (e, |q|) && !e.Star?
    ensures Language(q + p, s) <==> Then(p, s) && Fits(e, [s[0]])
  {
    hide Element, Accepts, Fits, Elements;
    FirstElement(q, p, e, s);
    AcceptsByte(e, Elements(p, 0), s);
  }

  /** The empty pattern matches the empty string alone. */
  lemma Empty(s: seq<Byte>)
    ensures Language([], s) <==> s == []
  {}

  /** A byte that is not special stands for itself, and so does any byte that is escaped. */
  lemma Itself(c: Byte, p: seq<Byte>, s: seq<Byte>)
    ensures c !in {STAR, QUESTION, LBRACKET, CTLESC} ==> (Language([c] + p, s) <==> Then(p, s) && s[0] == c)
    ensures Language([CTLESC, c] + p, s) <==> Then(p, s) && s[0] == c
  {
    hide Bracket, Escaped, Language;
    if c !in {STAR, QUESTION, LBRACKET, CTLESC} {
      OneByte([c], p, Lit(c), s);
    }
    OneByte([CTLESC, c], p, Lit(c), s);
  }

  /** A question mark stands for any byte. */
  lemma AnyByte(p: seq<Byte>, s: seq<Byte>)
    ensures Language([QUESTION] + p, s) <==> Then(p, s)
  {
    hide Bracket, Escaped, Language;
    OneByte([QUESTION], p, Any, s);
  }

  /** A star stands for any bytes, however many. */
  lemma AnyBytes(p: seq<Byte>, s: seq<Byte>)
    ensures Language([STAR] + p, s) <==> exists k :: 0 <= k <= |s| && Language(p, s[k..])
  {
    hide Accepts, Elements, Bracket, Escaped;
    FirstElement([STAR], p, Star, s);
    AcceptsStar(Elements(p, 0), s);
    if k :| 0 <= k <= |s| && Accepts(Elements(p, 0), s[k..]) {
      assert Language(p, s[k..]);
    }
    if k :| 0 <= k <= |s| && Language(p, s[k..]) {
      assert Accepts(Elements(p, 0), s[k..]);
    }
  }

  // ---------- bracket expressions ----------

  /** Bytes that stand for themselves between brackets, wherever they are. */
  predicate Ordinary(c: Byte) {
    c !in {NUL, RBRACKET, MINUS, CTLESC, BANG, CARET}
  }

  function Singles(bs: seq<Byte>): (items: seq<Item>)
    ensures |items| == |bs| && forall i :: 0 <= i < |bs| ==> items[i] == Item(bs[i], bs[i])
  {
    seq(|bs|, i requires 0 <= i < |bs| => Item(bs[i], bs[i]))
  }

  lemma Parts<T>(bs: seq<T>, c: T, p: seq<T>)
    requires bs != []
    ensures bs + [c] + p == [bs[0]] + (bs[1..] + [c] + p)
    ensures (bs[1..] + [c] + p)[0] == if |bs| > 1 then bs[1] else c
  {}

  lemma Joined<T>(a: seq<T>, b: seq<T>, c: seq<T>, d: seq<T>)
    ensures a + b + c + d == a + (b + c + d)
  {}

  lemma SingleItem(p: seq<Byte>, c: Byte, next: Byte)
    requires Ordinary(c) && At(p, 0) == c && At(p, 1) == next && next != MINUS
    ensures BracketItem(p, 0) == (Item(c, c), 1)
  {}

  lemma SinglesStep(bs: seq<Byte>)
    requires bs != []
    ensures Singles(bs) == [Item(bs[0], bs[0])] + Singles(bs[1..])
  {}

  lemma {:induction false} BracketOf(bs: seq<Byte>, p: seq<Byte>)
    requires bs != [] && forall c :: c in bs ==> Ordinary(c)
    ensures Bracket(bs + [RBRACKET] + p, 0) == Some((Singles(bs), |bs| + 1))
    decreases |bs|
  {
    hide Escaped, BracketItem, Singles;
    var rest := bs[1..] + [RBRACKET] + p;
    Parts(bs, RBRACKET, p);
    SinglesStep(bs);
    assert Ordinary(bs[0]) && (|bs| > 1 ==> bs[1] in bs && Ordinary(bs[1]));
    SingleItem([bs[0]] + rest, bs[0], rest[0]);
    if |bs| == 1 {
      assert Singles(bs[1..]) == [] && At([bs[0]] + rest, 1) == RBRACKET;
      assert [Item(bs[0], bs[0])] + [] == [Item(bs[0], bs[0])];
    } else {
      BracketOf(bs[1..], p);
      BracketAfter([bs[0]], rest, 0);
    }
  }

  /** The sign that inverts a bracket expression, or none. */
  predicate Sign(sign: seq<Byte>) {
    sign == [] || sign == [BANG] || sign == [CARET]
  }

  lemma BracketElement(sign: seq<Byte>, body: seq<Byte>, p: seq<Byte>, items: seq<Item>, s: seq<Byte>)
    requires Sign(sign) && body != [] && !Inverts(body[0])
    requires Bracket(body + [RBRACKET] + p, 0) == Some((items, |body| + 1))
    ensures Language([LBRACKET] + sign + body + [RBRACKET] + p, s)
            <==> Then(p, s) && (InItems(s[0], items) <==> sign == [])
  {
    hide Bracket, Escaped, Language, InItems;
    var q := [LBRACKET] + sign + body + [RBRACKET];
    var rest := body + [RBRACKET] + p;
    assert q + p == ([LBRACKET] + sign) + rest;
    BracketAfter([LBRACKET] + sign, rest, 0);
    assert At(q + p, 1) == if sign == [] then body[0] else sign[0];
    OneByte(q, p, Set(sign != [], items), s);
  }

  /** A bracket expression matches one of its bytes; with `!` or `^` in front, any other byte. */
  lemma OneOf(sign: seq<Byte>, bs: seq<Byte>, p: seq<Byte>, s: seq<Byte>)
    requires Sign(sign) && bs != [] && forall c :: c in bs ==> Ordinary(c)
    ensures Language([LBRACKET] + sign + bs + [RBRACKET] + p, s) <==> Then(p, s) && (s[0] in bs <==> sign == [])
  {
    hide Bracket, Language;
    BracketOf(bs, p);
    assert bs[0] in bs && Ordinary(bs[0]);
    BracketElement(sign, bs, p, Singles(bs), s);
    if s != [] {
      InSingles(s[0], bs);
    }
  }

  lemma InSingles(c: Byte, bs: seq<Byte>)
    ensures InItems(c, Singles(bs)) <==> c in bs
  {
    if InItems(c, Singles(bs)) {
      var it :| it in Singles(bs) && it.lo <= c <= it.hi;
    }
    if c in bs {
      var i :| 0 <= i < |bs| && bs[i] == c;
      assert Singles(bs)[i] in Singles(bs);
    }
  }

  /** A range matches the bytes from one to another; inverted, the bytes outside of it. */
  lemma Range(sign: seq<Byte>, lo: Byte, hi: Byte, p: seq<Byte>, s: seq<Byte>)
    requires Sign(sign) && Ordinary(lo) && Ordinary(hi)
    ensures Language([LBRACKET] + sign + [lo, MINUS, hi] + [RBRACKET] + p, s)
            <==> Then(p, s) && (lo <= s[0] <= hi <==> sign == [])
  {
    hide Language, Escaped;
    var body := [lo, MINUS, hi];
    var rest := body + [RBRACKET] + p;
    assert At(rest, 0) == lo && At(rest, 1) == MINUS && At(rest, 2) == hi && At(rest, 3) == RBRACKET;
    assert BracketItem(rest, 0) == (Item(lo, hi), 3);
    assert Bracket(rest, 0) == Some(([Item(lo, hi)], 4));
    BracketElement(sign, body, p, [Item(lo, hi)], s);
    if s != [] {
      OneItem(s[0], Item(lo, hi));
    }
  }

  lemma OneItem(c: Byte, it: Item)
    ensures InItems(c, [it]) <==> it.lo <= c <= it.hi
  {
    assert it in [it];
  }

  /** A closing bracket that comes first is one of the bytes. */
  lemma ClosingFirst(p: seq<Byte>, s: seq<Byte>)
    ensures Language([LBRACKET] + [] + [RBRACKET] + [RBRACKET] + p, s) <==> Then(p, s) && s[0] == RBRACKET
  {
    hide Language, Escaped;
    var rest := [RBRACKET] + [RBRACKET] + p;
    assert At(rest, 0) == RBRACKET && At(rest, 1) == RBRACKET;
    assert BracketItem(rest, 0) == (Item(RBRACKET, RBRACKET), 1);
    assert Bracket(rest, 0) == Some(([Item(RBRACKET, RBRACKET)], 2));
    BracketElement([], [RBRACKET], p, [Item(RBRACKET, RBRACKET)], s);
    if s != [] {
      OneItem(s[0], Item(RBRACKET, RBRACKET));
    }
  }

  lemma {:induction false} NeverClosed(p: seq<Byte>, i: nat)
    requires RBRACKET !in p
    ensures Bracket(p, i) == None
    decreases |p| - i
  {
    hide BracketItem, Escaped;
    if At(p, i) != NUL {
      var i1 := BracketItem(p, i).1;
      assert At(p, i1) != RBRACKET;
      NeverClosed(p, i1);
    }
  }

  /** An opening bracket that is never closed stands for itself. */
  lemma NotClosed(p: seq<Byte>, s: seq<Byte>)
    requires RBRACKET !in p
    ensures Language([LBRACKET] + p, s) <==> Then(p, s) && s[0] == LBRACKET
  {
    hide Bracket, Escaped, Language;
    NeverClosed([LBRACKET] + p, 1);
    NeverClosed([LBRACKET] + p, 2);
    OneByte([LBRACKET], p, Lit(LBRACKET), s);
  }
}
