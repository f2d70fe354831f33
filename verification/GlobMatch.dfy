/** The pattern matcher (pmatch in src/expand.c), which after a star skips to the next byte that can match. */
module GlobMatch {
  import opened Option
  import opened CBytes
  import opened GlobPattern

  /** A text that pmatch can be given: no NUL inside and no control bytes. */
  predicate Plain(s: seq<Byte>) {
    forall k :: 0 <= k < |s| ==> s[k] != NUL && s[k] != CTLESC && s[k] != CTLMBCHAR
  }

  /** A pattern: no NUL inside, no multibyte characters, no character classes. */
  predicate Pattern(p: seq<Byte>) {
    && (forall k :: 0 <= k < |p| ==> p[k] != NUL && p[k] != CTLMBCHAR)
    && NoClass(p)
  }

  /** The first position from q on of any of three bytes, as strpbrk(3) finds it. */
  method StrPBrk(s: seq<Byte>, q: nat, c: Byte) returns (r: Option<nat>)
    requires q <= |s|
    ensures r.Some? ==> q <= r.value < |s| && s[r.value] in [c, CTLESC, CTLMBCHAR]
    ensures forall k :: q <= k < (if r.Some? then r.value else |s|) ==> s[k] !in [c, CTLESC, CTLMBCHAR]
  {
    var i := q;
    while i < |s| && s[i] !in [c, CTLESC, CTLMBCHAR]
      invariant q <= i <= |s|
      invariant forall k :: q <= k < i ==> s[k] !in [c, CTLESC, CTLMBCHAR]
    {
      i := i + 1;
    }
    return if i < |s| then Some(i) else None;
  }

  /** Where a character class that starts before position p ends. */
  method CcMatch(pattern: seq<Byte>, p: nat) returns (r: Option<nat>)
    ensures r.Some? ==> p + 3 <= r.value <= |pattern| && pattern[p] == COLON
    ensures r.Some? ==> pattern[r.value - 2] == COLON && pattern[r.value - 1] == RBRACKET
  {
    if At(pattern, p) != COLON {
      return None;
    }
    var i := p + 1;
    while i + 1 < |pattern|
      invariant p < i
    {
      if pattern[i] == COLON && pattern[i + 1] == RBRACKET {
        return Some(i + 2);
      }
      i := i + 1;
    }
    return None;
  }

  /**
   * A bracket expression after its opening bracket: whether it accepts chr, and where the pattern goes on;
   * None if it is never closed.
   */
  method BracketMatch(pattern: seq<Byte>, start: nat, chr: Byte) returns (r: Option<(bool, nat)>)
    requires Pattern(pattern) && 0 < start <= |pattern| && Escaped(pattern, start)
    ensures var invert := Inverts(At(pattern, start));
            var b := Bracket(pattern, if invert then start + 1 else start);
            r == if b.Some? then Some((InItems(chr, b.value.0) != invert, b.value.1)) else None
  {
    hide Bracket, InItems, NoClass, Escaped;
    EscapedAt(pattern, start);
    var p: nat := start;
    var invert := false;
    if Inverts(At(pattern, p)) {
      invert := true;
      p := p + 1;
    }
    ghost var first, done: seq<Item> := p, [];
    PrependNone(Bracket(pattern, first));
    NoItems(chr);
    var found := false;
    var c := At(pattern, p);
    p := p + 1;
    while true
      invariant first < p <= |pattern| + 1 && c == At(pattern, p - 1) && Escaped(pattern, p - 1)
      invariant Bracket(pattern, first) == Prepend(done, Bracket(pattern, p - 1))
      invariant found <==> InItems(chr, done)
      decreases |pattern| + 1 - p
    {
      if c == NUL {
        BracketOpen(pattern, p - 1);
        return None;
      }
      ghost var k: nat, item := p - 1, BracketItem(pattern, p - 1).0;
      if c == LBRACKET {
        var end := CcMatch(pattern, p);
        ClassNone(pattern, p, end);
      } else if c == CTLESC {
        c := At(pattern, p);
        p := p + 1;
      }
      if At(pattern, p) == MINUS && At(pattern, p + 1) != NUL && At(pattern, p + 1) != RBRACKET {
        p := p + 1;
        if At(pattern, p) == CTLESC {
          p := p + 1;
        }
        if chr >= c && chr <= At(pattern, p) {
          found := true;
        }
        p := p + 1;
      } else if c == chr {
        found := true;
      }
      BracketAdds(pattern, k, done, chr);
      done := done + [item];
      c := At(pattern, p);
      p := p + 1;
      if c == RBRACKET {
        break;
      }
    }
    return Some((found != invert, p));
  }

  lemma EscapedAt(p: seq<Byte>, i: nat)
    requires Escaped(p, i) && i <= |p|
    ensures i < |p| && p[i] != CTLESC ==> Escaped(p, i + 1)
  {
  }

  lemma ClassNone(p: seq<Byte>, i: nat, end: Option<nat>)
    requires NoClass(p) && 0 < i <= |p| && p[i - 1] == LBRACKET
    requires end.Some? ==> i + 3 <= end.value <= |p| && p[i] == COLON
    requires end.Some? ==> p[end.value - 2] == COLON && p[end.value - 1] == RBRACKET
    ensures end.None?
  {
  }

  lemma PrependNone(b: Option<(seq<Item>, nat)>)
    ensures Prepend([], b) == b
  {
    if b.Some? {
      assert [] + b.value.0 == b.value.0;
    }
  }

  lemma NoItems(c: Byte)
    ensures !InItems(c, [])
  {
  }

  lemma BracketOpen(p: seq<Byte>, i: nat)
    ensures At(p, i) == NUL ==> Bracket(p, i) == None
  {
  }

  function Prepend(done: seq<Item>, b: Option<(seq<Item>, nat)>): Option<(seq<Item>, nat)> {
    var (items, i) :- b;
    Some((done + items, i))
  }

  /** One more item of a bracket expression. */
  lemma BracketAdds(p: seq<Byte>, i: nat, done: seq<Item>, chr: Byte)
    requires At(p, i) != NUL
    ensures var (item, i1) := BracketItem(p, i);
            && Prepend(done, Bracket(p, i)) ==
                 (if At(p, i1) == RBRACKET then Some((done + [item], i1 + 1))
                     else Prepend(done + [item], Bracket(p, i1)))
            && (InItems(chr, done + [item]) <==> InItems(chr, done) || item.lo <= chr <= item.hi)
  {
    var (item, i1) := BracketItem(p, i);
    var b := Bracket(p, i1);
    if b.Some? {
      assert (done + [item]) + b.value.0 == done + ([item] + b.value.0);
    }
    assert item in done + [item];
  }

  /** How an element that is a single byte reads. */
  ghost predicate ReadsAt(p: seq<Byte>, i: nat) {
    var c := At(p, i);
    && (c == NUL ==> Elements(p, i) == [])
    && (c == STAR ==> i < |p| && Elements(p, i) == [Star] + Elements(p, i + 1))
    && (c !in [NUL, STAR, QUESTION, LBRACKET, CTLESC] ==> Elements(p, i) == [Lit(c)] + Elements(p, i + 1))
    && (c in [STAR, LBRACKET] && Escaped(p, i) ==> Escaped(p, i + 1))
    && (i < |p| ==> Elements(p, i) == [Element(p, i).0] + Elements(p, Element(p, i).1))
    && (c == NUL ==> i >= |p|)
  }

  lemma ElementsAt(p: seq<Byte>, i: nat)
    requires Pattern(p)
    ensures ReadsAt(p, i)
  {
  }

  /** What follows a star is tried where its first byte, if that is known, occurs. */
  method StarMatch(pattern: seq<Byte>, i: nat, text: seq<Byte>, j: nat) returns (matched: bool)
    requires Pattern(pattern) && Plain(text) && i <= |pattern| && j <= |text| && Escaped(pattern, i)
    ensures matched <==> Accepts([Star] + Elements(pattern, i), text[j..])
    decreases |pattern| - i, 1
  {
    hide Accepts, Elements, Bracket, Escaped;
    var p: nat, q: nat := i, j;
    var c := At(pattern, p);
    ElementsAt(pattern, p);
    while c == STAR
      invariant i <= p <= |pattern| && c == At(pattern, p) && Escaped(pattern, p) && ReadsAt(pattern, p)
      invariant Accepts([Star] + Elements(pattern, i), text[j..]) <==> Accepts([Star] + Elements(pattern, p), text[j..])
      decreases |pattern| - p
    {
      AcceptsStars(Elements(pattern, p + 1), text[j..]);
      p := p + 1;
      c := At(pattern, p);
      ElementsAt(pattern, p);
    }
    ghost var es := Elements(pattern, p);
    AcceptsTails(es, text, j);
    if c == NUL {
      AcceptsNone([]);
      assert text[|text|..] == [];
      return true;
    }
    if c == QUESTION || c == LBRACKET {
      c := CTLESC;
    }
    while true
      invariant j <= q <= |text|
      invariant forall k :: j <= k < q ==> !Accepts(es, text[k..])
      decreases |text| - q
    {
      if c != CTLESC {
        LitOnly(c, Elements(pattern, p + 1), text);
        var next := StrPBrk(text, q, c);
        if next.None? {
          return false;
        }
        q := next.value;
      }
      var tail := PMatch(pattern, p, text, q);
      if tail {
        return true;
      }
      if q == |text| {
        break;
      }
      q := q + 1;
    }
    return false;
  }

  lemma AcceptsNone(s: seq<Byte>)
    ensures Accepts([], s) <==> s == []
  {
  }

  /** A star followed by es accepts the text from j on just when es accepts it from some later position on. */
  lemma AcceptsTails(es: seq<Elem>, s: seq<Byte>, j: nat)
    requires j <= |s|
    ensures Accepts([Star] + es, s[j..]) <==> exists k :: j <= k <= |s| && Accepts(es, s[k..])
  {
    AcceptsStar(es, s[j..]);
    hide Accepts;
    if k :| 0 <= k <= |s[j..]| && Accepts(es, s[j..][k..]) {
      assert s[j..][k..] == s[j + k..];
    }
    if k :| j <= k <= |s| && Accepts(es, s[k..]) {
      assert s[j..][k - j..] == s[k..];
    }
  }

  /** A tail accepted after a literal byte starts with that byte. */
  lemma LitOnly(c: Byte, es: seq<Elem>, s: seq<Byte>)
    ensures forall k :: 0 <= k <= |s| && Accepts([Lit(c)] + es, s[k..]) ==> k < |s| && s[k] == c
  {
    forall k | 0 <= k <= |s| && Accepts([Lit(c)] + es, s[k..])
      ensures k < |s| && s[k] == c
    {
      AcceptsByte(Lit(c), es, s[k..]);
    }
  }

  /** Whether the pattern from i on matches the text from j on. */
  method PMatch(pattern: seq<Byte>, i: nat, text: seq<Byte>, j: nat) returns (matched: bool)
    requires Pattern(pattern) && Plain(text) && i <= |pattern| && j <= |text| && Escaped(pattern, i)
    ensures matched <==> Accepts(Elements(pattern, i), text[j..])
    decreases |pattern| - i, 0
  {
    hide Accepts, Elements, Bracket, Escaped;
    var p: nat, q: nat := i, j;
    while true
      invariant i <= p <= |pattern| && j <= q <= |text| && Escaped(pattern, p)
      invariant Accepts(Elements(pattern, i), text[j..]) <==> Accepts(Elements(pattern, p), text[q..])
      decreases |pattern| - p
    {
      ElementsAt(pattern, p);
      var c := At(pattern, p);
      ghost var p0 := p;
      p := p + 1;
      if c == NUL {
        break;
      }
      ghost var e, p1 := Element(pattern, p0).0, Element(pattern, p0).1;
      ghost var es := Elements(pattern, p1);
      if c == CTLESC {
        c := At(pattern, p);
        p := p + 1;
      } else if c == QUESTION {
        AcceptsByte(e, es, text[q..]);
        if q == |text| {
          return false;
        }
        q := q + 1;
        continue;
      } else if c == STAR {
        matched := StarMatch(pattern, p, text, q);
        return;
      } else if c == LBRACKET {
        AcceptsByte(e, es, text[q..]);
        if q == |text| {
          return false;
        }
        var r := BracketMatch(pattern, p, text[q]);
        if r.Some? {
          if !r.value.0 {
            return false;
          }
          p, q := r.value.1, q + 1;
          continue;
        }
        c := LBRACKET;
      }
      AcceptsByte(e, es, text[q..]);
      if At(text, q) != c {
        return false;
      }
      q := q + 1;
    }
    AcceptsNone(text[q..]);
    matched := At(text, q) == NUL;
  }
}
