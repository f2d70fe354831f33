/**
 * Shell patterns: how the text of a pattern reads as a list of elements, and which strings the elements
 * accept (section 2.13 of the POSIX.1-2017 Shell Command Language).
 */
module GlobPattern {
  import opened Option
  import opened CBytes

  const BANG: Byte := 33
  const STAR: Byte := 42
  const MINUS: Byte := 45
  const COLON: Byte := 58
  const QUESTION: Byte := 63
  const LBRACKET: Byte := 91
  const RBRACKET: Byte := 93
  const CARET: Byte := 94
  const CTLESC: Byte := -127    // as a signed char, which is how bytes are compared; the next byte stands for itself
  const CTLMBCHAR: Byte := -123 // starts a multibyte character

  // ---------- what a pattern means ----------

  datatype Item = Item(lo: Byte, hi: Byte)

  datatype Elem =
    | Lit(c: Byte)
    | Any
    | Star
    | Set(invert: bool, items: seq<Item>)

  predicate InItems(c: Byte, items: seq<Item>) {
    exists it :: it in items && it.lo <= c <= it.hi
  }

  /** A piece of the string that one element accepts. */
  predicate Fits(e: Elem, t: seq<Byte>) {
    match e
    case Lit(c) => t == [c]
    case Any => |t| == 1
    case Star => true
    case Set(invert, items) => |t| == 1 && InItems(t[0], items) != invert
  }

  /** The string can be cut into pieces, one for each element. */
  ghost predicate Accepts(es: seq<Elem>, s: seq<Byte>)
    decreases |es|
  {
    if es == [] then s == []
    else exists k :: 0 <= k <= |s| && Fits(es[0], s[..k]) && Accepts(es[1..], s[k..])
  }

  /** Every other element takes one byte. */
  lemma AcceptsByte(e: Elem, es: seq<Elem>, s: seq<Byte>)
    requires !e.Star?
    ensures Accepts([e] + es, s) <==> s != [] && Fits(e, [s[0]]) && Accepts(es, s[1..])
  {
    assert ([e] + es)[1..] == es;
    if Accepts([e] + es, s) {
      var k :| 0 <= k <= |s| && Fits(e, s[..k]) && Accepts(es, s[k..]);
      assert k == 1 && s[..1] == [s[0]];
    }
    if s != [] && Fits(e, [s[0]]) && Accepts(es, s[1..]) {
      assert s[..1] == [s[0]];
    }
  }

  /** A star takes any piece. */
  lemma AcceptsStar(es: seq<Elem>, s: seq<Byte>)
    ensures Accepts([Star] + es, s) <==> exists k :: 0 <= k <= |s| && Accepts(es, s[k..])
  {
    assert ([Star] + es)[1..] == es;
    forall k | 0 <= k <= |s| && Accepts(es, s[k..])
      ensures Accepts([Star] + es, s)
    {
      assert Fits(([Star] + es)[0], s[..k]) && Accepts(([Star] + es)[1..], s[k..]);
    }
  }

  /** Two stars are as good as one. */
  lemma AcceptsStars(es: seq<Elem>, s: seq<Byte>)
    ensures Accepts([Star] + ([Star] + es), s) <==> Accepts([Star] + es, s)
  {
    AcceptsStar([Star] + es, s);
    AcceptsStar(es, s);
    forall k | 0 <= k <= |s|
      ensures Accepts([Star] + es, s[k..]) <==> exists j :: 0 <= j <= |s[k..]| && Accepts(es, s[k..][j..])
    {
      AcceptsStar(es, s[k..]);
    }
    if k :| 0 <= k <= |s| && Accepts([Star] + es, s[k..]) {
      var j :| 0 <= j <= |s[k..]| && Accepts(es, s[k..][j..]);
      assert s[k..][j..] == s[k + j..];
    }
    if Accepts([Star] + es, s) {
      assert s[0..] == s;
    }
  }

  // ---------- how a pattern reads ----------

  /** No escape is the last byte. */
  ghost predicate Escaped(p: seq<Byte>, i: nat)
    decreases |p| - i
  {
    i < |p| ==> if p[i] == CTLESC then i + 1 < |p| && Escaped(p, i + 2) else Escaped(p, i + 1)
  }

  /** There is no character class in the pattern. */
  predicate NoClass(p: seq<Byte>) {
    forall i, j :: 0 <= i && i + 2 <= j && j + 1 < |p| && p[i] == LBRACKET && p[j] == COLON ==>
      p[i + 1] != COLON || p[j + 1] != RBRACKET
  }

  /** One byte of a bracket expression, and where the next starts. */
  function BracketByte(p: seq<Byte>, i: nat): (r: (Byte, nat))
    ensures i < |p| ==> r.1 > i
    ensures i < |p| && Escaped(p, i) ==> r.1 <= |p| && Escaped(p, r.1)
  {
    if At(p, i) == CTLESC then (At(p, i + 1), i + 2) else (At(p, i), i + 1)
  }

  /** One byte or range. A minus is a range only between two bytes, the second not the closing bracket. */
  function BracketItem(p: seq<Byte>, i: nat): (r: (Item, nat))
    ensures i < |p| ==> r.1 > i
    ensures i < |p| && Escaped(p, i) ==> r.1 <= |p| && Escaped(p, r.1)
  {
    var (lo, i1) := BracketByte(p, i);
    if At(p, i1) == MINUS && At(p, i1 + 1) != NUL && At(p, i1 + 1) != RBRACKET then
      var (hi, i2) := BracketByte(p, i1 + 1);
      (Item(lo, hi), i2)
    else (Item(lo, lo), i1)
  }

  /** The items up to the closing bracket, which cannot be the first; None if there is no closing bracket. */
  function Bracket(p: seq<Byte>, i: nat): (r: Option<(seq<Item>, nat)>)
    ensures r.Some? ==> i < r.value.1 <= |p| && (Escaped(p, i) ==> Escaped(p, r.value.1))
    decreases |p| - i
  {
    if At(p, i) == NUL then None
    else
      var (item, i1) := BracketItem(p, i);
      if At(p, i1) == RBRACKET then Some(([item], i1 + 1))
      else
        var (items, i2) :- Bracket(p, i1);
        Some(([item] + items, i2))
  }

  predicate Inverts(c: Byte) {
    c == BANG || c == CARET
  }

  /** One element, and where the next starts; a bracket that is never closed stands for itself. */
  function Element(p: seq<Byte>, i: nat): (r: (Elem, nat))
    requires i < |p|
    ensures i < r.1 && (Escaped(p, i) ==> r.1 <= |p| && Escaped(p, r.1))
  {
    if p[i] == CTLESC then (Lit(At(p, i + 1)), i + 2)
    else if p[i] == QUESTION then (Any, i + 1)
    else if p[i] == STAR then (Star, i + 1)
    else if p[i] == LBRACKET then
      var invert := Inverts(At(p, i + 1));
      assert Escaped(p, i) ==> Escaped(p, i + 1) && (invert ==> Escaped(p, i + 2));
      match Bracket(p, if invert then i + 2 else i + 1)
      case None => (Lit(LBRACKET), i + 1)
      case Some((items, i1)) => (Set(invert, items), i1)
    else (Lit(p[i]), i + 1)
  }

  /** What the pattern from position i on reads as. */
  function Elements(p: seq<Byte>, i: nat): seq<Elem>
    decreases |p| - i
  {
    if i >= |p| then []
    else
      var (e, i1) := Element(p, i);
      [e] + Elements(p, i1)
  }

  /** The strings a pattern matches. */
  ghost predicate Language(p: seq<Byte>, s: seq<Byte>) {
    Accepts(Elements(p, 0), s)
  }
}
