/** Taking the escapes out of a word again, in place (_rmescapes in src/expand.c without flags). */
module Unescape {
  import opened Option
  import opened CopyOut

  const CTLQUOTEMARK: Byte := 136
  const BACKSLASH: Byte := 92

  /** The text without escapes and quote marks; None if it ends inside an escape or has a NUL of its own. */
  function Unescaped(t: seq<Byte>): (r: Option<seq<Byte>>)
    ensures r.Some? ==> |r.value| <= |t|
    decreases |t|
  {
    if t == [] then Some([])
    else if t[0] == 0 then None
    else if t[0] == CTLQUOTEMARK then Unescaped(t[1..])
    else if t[0] == CTLESC then
      if |t| < 2 then None
      else
        var r :- Unescaped(t[2..]);
        Some([t[1]] + r)
    else if t[0] == CTLMBCHAR then
      var (start, n) := Group(t);
      if |t| < start + n + 2 then None
      else
        var r :- Unescaped(t[start + n + 2..]);
        Some(t[start..start + n] + r)
    else
      var r :- Unescaped(t[1..]);
      Some([t[0]] + r)
  }

  function At(t: seq<Byte>, i: nat): Byte {
    if i < |t| then t[i] else 0
  }

  /** Where the bytes of a multibyte group start, and how many there are (mbnext). */
  function Group(t: seq<Byte>): (r: (nat, nat))
    ensures 2 <= r.0 <= 3
  {
    var at := if At(t, 1) == CTLESC then 2 else 1;
    (at + 1, LengthOf(At(t, at)))
  }

  function LengthOf(b: Byte): nat {
    b as nat
  }

  // ---------- what is written comes back ----------

  function Flat(cs: seq<seq<Byte>>): seq<Byte> {
    if cs == [] then [] else cs[0] + Flat(cs[1..])
  }

  /** A character as it is read from a string: one byte, or several of which the first is above 127. */
  predicate IsChar(ch: seq<Byte>) {
    1 <= |ch| <= MB_LEN_MAX && (|ch| > 1 ==> ch[0] >= 128) && ch != [0]
  }

  lemma LengthBack(n: nat)
    requires 1 <= n <= MB_LEN_MAX
    ensures LengthOf(LengthByte(n)) == n && LengthByte(n) != CTLESC
  {}

  lemma ByteBack(syntax: Syntax, c: Byte, t: seq<Byte>)
    requires c != 0 && syntax != IsType && Unescaped(t).Some?
    ensures Unescaped(WrittenFor(syntax, [c]) + t) == Some([c] + Unescaped(t).value)
  {
    FirstTwo(CTLESC, c, t);
    if IsCtl(syntax, c) {
      assert WrittenFor(syntax, [c]) == [CTLESC, c];
    }
    hide LengthByte, LengthOf, Group;
  }

  lemma FirstTwo<T>(a: T, b: T, t: seq<T>)
    ensures ([a, b] + t)[2..] == t && ([b] + t)[1..] == t
  {}

  lemma GroupParts<T>(w: seq<T>, x: T, n: T, ch: seq<T>, t: seq<T>)
    requires w == [x, n] + ch + [n, x] + t
    ensures |w| == |ch| + 4 + |t| && w[0] == x && w[1] == n
    ensures w[2..2 + |ch|] == ch && w[|ch| + 4..] == t
  {}

  lemma GroupStep(w: seq<Byte>, k: nat)
    requires |w| >= k + 4 && w[0] == CTLMBCHAR && w[1] != CTLESC && LengthOf(w[1]) == k
    requires Unescaped(w[k + 4..]).Some?
    ensures Unescaped(w) == Some(w[2..2 + k] + Unescaped(w[k + 4..]).value)
  {
    hide LengthOf;
    assert Group(w) == (2, k);
    hide Group;
    assert k + 4 == 2 + k + 2;
  }

  lemma GroupBack(w: seq<Byte>, x: Byte, n: Byte, ch: seq<Byte>, t: seq<Byte>)
    requires w == [x, n] + ch + [n, x] + t && x == CTLMBCHAR
    requires n != CTLESC && LengthOf(n) == |ch| && Unescaped(t).Some?
    ensures Unescaped(w) == Some(ch + Unescaped(t).value)
  {
    hide Unescaped, LengthOf;
    GroupParts(w, x, n, ch, t);
    GroupStep(w, |ch|);
  }

  lemma CharBack(syntax: Syntax, ch: seq<Byte>, t: seq<Byte>)
    requires IsChar(ch) && syntax != IsType && Unescaped(t).Some?
    ensures Unescaped(WrittenFor(syntax, ch) + t) == Some(ch + Unescaped(t).value)
  {
    hide Unescaped, LengthByte, LengthOf;
    if |ch| == 1 {
      assert ch == [ch[0]];
      ByteBack(syntax, ch[0], t);
    } else {
      LengthBack(|ch|);
      GroupBack(WrittenFor(syntax, ch) + t, CTLMBCHAR, LengthByte(|ch|), ch, t);
    }
  }

  predicate AllChars(cs: seq<seq<Byte>>) {
    forall i :: 0 <= i < |cs| ==> IsChar(cs[i])
  }

  /** Where control codes are escaped, taking the escapes out gives back the characters. */
  lemma {:induction false} WrittenBack(syntax: Syntax, cs: seq<seq<Byte>>)
    requires syntax != IsType && AreChars(cs) && AllChars(cs)
    ensures Unescaped(Written(syntax, cs)) == Some(Flat(cs))
  {
    hide WrittenFor, IsChar;
    if cs != [] {
      WrittenBack(syntax, cs[1..]);
      CharBack(syntax, cs[0], Written(syntax, cs[1..]));
    }
  }

  lemma {:induction false} CharsFlat(mbrlen: Mbrlen, keepnul: bool, s: seq<Byte>)
    requires forall i :: 0 <= i < |s| ==> s[i] != 0
    ensures Flat(Chars(mbrlen, keepnul, s)) == s && AllChars(Chars(mbrlen, keepnul, s))
    decreases |s|
  {
    hide IsChar, IsDropped, CharLen, Chars, Flat, AllChars;
    if s == [] {
      NoneFlat(mbrlen, keepnul);
    } else {
      var n := CharLen(mbrlen, s);
      FirstIsChar(mbrlen, keepnul, s);
      FirstOfChars(mbrlen, keepnul, s);
      CharsFlat(mbrlen, keepnul, s[n..]);
      OneFlat(s[..n], Chars(mbrlen, keepnul, s[n..]));
      Halves(s, n);
    }
  }

  lemma NoneFlat(mbrlen: Mbrlen, keepnul: bool)
    ensures Chars(mbrlen, keepnul, []) == [] && Flat([]) == [] && AllChars([])
  {}

  lemma OneFlat(ch: seq<Byte>, cs: seq<seq<Byte>>)
    requires IsChar(ch) && AllChars(cs)
    ensures Flat([ch] + cs) == ch + Flat(cs) && AllChars([ch] + cs)
  {
    hide IsChar;
    assert ([ch] + cs)[1..] == cs;
  }

  lemma Halves<T>(s: seq<T>, n: nat)
    requires n <= |s|
    ensures s[..n] + s[n..] == s
  {}

  lemma FirstOfChars(mbrlen: Mbrlen, keepnul: bool, s: seq<Byte>)
    requires s != [] && !IsDropped(keepnul, s[..CharLen(mbrlen, s)])
    ensures var n := CharLen(mbrlen, s);
            Chars(mbrlen, keepnul, s) == [s[..n]] + Chars(mbrlen, keepnul, s[n..])
  {
    hide IsDropped, CharLen;
  }

  lemma FirstIsChar(mbrlen: Mbrlen, keepnul: bool, s: seq<Byte>)
    requires s != [] && s[0] != 0
    ensures var ch := s[..CharLen(mbrlen, s)]; IsChar(ch) && !IsDropped(keepnul, ch)
  {}

  /** A string without NUL that is copied out where control codes are escaped is what it was without the escapes. */
  lemma CopiedBack(mbrlen: Mbrlen, flags: set<Flag>, s: seq<Byte>)
    requires SyntaxOf(flags) != IsType && forall i :: 0 <= i < |s| ==> s[i] != 0
    ensures Unescaped(Written(SyntaxOf(flags), Chars(mbrlen, EXP_KEEPNUL in flags, s))) == Some(s)
  {
    hide Written, Chars, AllChars;
    CharsFlat(mbrlen, EXP_KEEPNUL in flags, s);
    WrittenBack(SyntaxOf(flags), Chars(mbrlen, EXP_KEEPNUL in flags, s));
  }

  // ---------- in place ----------

  /** What the front of a text stands for, and how many bytes of it there are. */
  function Piece(t: seq<Byte>): (r: (seq<Byte>, nat))
    requires t != [] && Unescaped(t).Some?
    ensures 1 <= r.1 <= |t| && |r.0| <= r.1
  {
    if t[0] == CTLQUOTEMARK then ([], 1)
    else if t[0] == CTLESC then ([t[1]], 2)
    else if t[0] == CTLMBCHAR then
      var (start, n) := Group(t);
      (t[start..start + n], start + n + 2)
    else ([t[0]], 1)
  }

  lemma PieceOf(t: seq<Byte>)
    requires t != [] && Unescaped(t).Some?
    ensures t[0] != 0 && Unescaped(t[Piece(t).1..]).Some?
    ensures Unescaped(t).value == Piece(t).0 + Unescaped(t[Piece(t).1..]).value
  {
    hide Group;
  }

  /** Up to position p the text is unescaped, and that is up to position q. */
  ghost predicate Partly(now: seq<Byte>, t: seq<Byte>, p: nat, q: nat) {
    && q <= p <= |t| < |now| && now[p..|t|] == t[p..] && now[|t|] == 0
    && Unescaped(t).Some? && Unescaped(t[p..]).Some?
    && Unescaped(t).value == now[..q] + Unescaped(t[p..]).value
  }

  lemma PartlyNone(now: seq<Byte>, t: seq<Byte>)
    requires |t| < |now| && now[..|t|] == t && now[|t|] == 0 && Unescaped(t).Some?
    ensures Partly(now, t, 0, 0)
  {
    assert t[0..] == t && now[0..|t|] == t;
  }

  lemma PartlyAll(now: seq<Byte>, t: seq<Byte>, p: nat, q: nat)
    requires Partly(now, t, p, q)
    ensures q <= p <= |t| < |now| && (p == |t| <==> now[p] == 0)
    ensures p == |t| ==> Unescaped(t) == Some(now[..q])
  {
    if p < |t| {
      assert now[p] == now[p..|t|][0] == t[p..][0];
      PieceOf(t[p..]);
    } else {
      assert t[p..] == [] && now[..q] + [] == now[..q];
    }
  }

  /** What the pieces are in terms of the buffer. */
  lemma PieceAt(now: seq<Byte>, t: seq<Byte>, p: nat, q: nat)
    requires Partly(now, t, p, q) && p < |t|
    ensures var s, (piece, k) := t[p..], Piece(t[p..]);
            && p + k <= |t|
            && (now[p] == CTLQUOTEMARK ==> piece == [] && k == 1)
            && (now[p] == CTLESC ==> k == 2 && piece == [now[p + 1]])
            && (now[p] == CTLMBCHAR ==>
                  var (start, n) := Group(now[p..]); k == start + n + 2 && piece == now[p + start..p + start + n])
            && (now[p] !in {CTLQUOTEMARK, CTLESC, CTLMBCHAR} ==> piece == [now[p]] && k == 1)
  {
    hide LengthOf;
    var s := t[p..];
    assert now[p] == now[p..|t|][0] == s[0];
    if s[0] == CTLMBCHAR {
      GroupAt(now, t, p);
      hide Group;
      var (start, n) := Group(s);
      SliceOf(now, p, |t|, start, start + n);
    } else if s[0] == CTLESC {
      assert now[p + 1] == now[p..|t|][1] == s[1];
    }
  }

  lemma SliceOf<T>(s: seq<T>, p: nat, e: nat, i: nat, j: nat)
    requires i <= j <= e - p && e <= |s|
    ensures s[p..e][i..j] == s[p + i..p + j]
  {
    var u, v := s[p..e], s[p + i..p + j];
    assert forall k :: 0 <= k < j - i ==> u[i..j][k] == u[i + k] && v[k] == s[p + i + k];
  }

  lemma RestKept<T>(s: seq<T>, s': seq<T>, q: nat, p: nat)
    requires q <= p <= |s| == |s'| && s'[q..] == s[q..]
    ensures s'[p..] == s[p..]
  {
    assert s'[p..] == s'[q..][p - q..] && s[p..] == s[q..][p - q..];
  }

  lemma GroupAt(now: seq<Byte>, t: seq<Byte>, p: nat)
    requires p < |t| < |now| && now[p..|t|] == t[p..] && now[|t|] == 0
    requires |t[p..]| >= 4
    ensures Group(now[p..]) == Group(t[p..])
  {
    hide LengthOf;
    assert forall i :: 0 <= i < 3 ==> now[p + i] == now[p..|t|][i] == t[p..][i];
  }

  lemma PartlyMore(now: seq<Byte>, now': seq<Byte>, t: seq<Byte>, p: nat, q: nat)
    requires Partly(now, t, p, q) && p < |t| && |now'| == |now|
    requires var (piece, k) := Piece(t[p..]);
             now'[..q + |piece|] == now[..q] + piece && now'[p + k..] == now[p + k..]
    ensures var (piece, k) := Piece(t[p..]); Partly(now', t, p + k, q + |piece|)
  {
    hide Unescaped, Piece;
    var (piece, k) := Piece(t[p..]);
    PieceOf(t[p..]);
    assert t[p..][k..] == t[p + k..];
    assert now[p + k..|t|] == now[p..|t|][k..];
    assert now'[p + k..|t|] == now'[p + k..][..|t| - p - k] == now[p + k..][..|t| - p - k];
    assert now'[|t|] == now'[p + k..][|t| - p - k] == now[p + k..][|t| - p - k];
    CopyOut.Assoc(now[..q], piece, Unescaped(t[p + k..]).value);
  }

  /** Moves bytes down. */
  method MemMove(block: array<Byte>, q: nat, p: nat, n: nat)
    requires q <= p && p + n <= block.Length
    modifies block
    ensures block[..][..q + n] == old(block[..][..q]) + old(block[..][p..p + n])
    ensures block[..][q + n..] == old(block[..][q + n..])
  {
    for i := 0 to n
      invariant block[..q + i] == old(block[..q]) + old(block[p..p + i])
      invariant block[q + i..] == old(block[q + i..])
    {
      assert block[p + i] == block[q + i..][p - q] == old(block[p + i]);
      ghost var rest := block[q + i..];
      block[q + i] := block[p + i];
      assert block[q + i + 1..] == rest[1..];
    }
  }

  const CQCHARS: set<Byte> := {BACKSLASH, CTLESC, CTLMBCHAR, CTLQUOTEMARK}

  /** Where the bytes of the group at p start, and how many there are. */
  method MbNext(block: array<Byte>, p: nat) returns (start: nat, n: nat)
    requires p + 3 < block.Length
    ensures (start, n) == Group(block[..][p..])
  {
    var end := 1;
    if block[p + end] == CTLESC {
      end := end + 1;
    }
    n := LengthOf(block[p + end]);
    start := end + 1;
  }

  method PutByte(block: array<Byte>, q: nat, c: Byte)
    requires q < block.Length
    modifies block
    ensures block[..][..q + 1] == old(block[..][..q]) + [c] && block[..][q + 1..] == old(block[..][q + 1..])
  {
    block[q] := c;
  }

  /** What one round of the loop does to the buffer. */
  ghost predicate Round(now: seq<Byte>, now': seq<Byte>, p: nat, q: nat, p': nat, q': nat)
    requires q <= p < |now|
  {
    && p < p' <= |now| == |now'| && q <= q' <= p' && now'[p'..] == now[p'..]
    && if now[p] == CTLQUOTEMARK then p' == p + 1 && q' == q && now'[..q'] == now[..q]
       else if now[p] == CTLMBCHAR then
         var (start, n) := Group(now[p..]);
         p' == p + start + n + 2 && q' == q + n && now'[..q'] == now[..q] + now[p + start..p + start + n]
       else if now[p] == CTLESC then
         p' == p + 2 && p + 1 < |now| && q' == q + 1 && now'[..q'] == now[..q] + [now[p + 1]]
       else p' == p + 1 && q' == q + 1 && now'[..q'] == now[..q] + [now[p]]
  }

  lemma RoundPartly(now: seq<Byte>, now': seq<Byte>, t: seq<Byte>, p: nat, q: nat, p': nat, q': nat)
    requires Partly(now, t, p, q) && p < |t| && Round(now, now', p, q, p', q')
    ensures Partly(now', t, p', q')
  {
    hide Unescaped, Piece, Group, LengthOf, Partly;
    PieceAt(now, t, p, q);
    if now[p] == CTLQUOTEMARK {
      assert now[..q] + [] == now[..q];
    }
    PartlyMore(now, now', t, p, q);
  }

  /** There is room for one round. */
  lemma RoundFits(now: seq<Byte>, t: seq<Byte>, p: nat, q: nat)
    requires Partly(now, t, p, q) && p < |t|
    ensures p + 1 < |now| && q <= p
    ensures now[p] == CTLMBCHAR ==>
              var (start, n) := Group(now[p..]); p + start + n + 2 < |now|
  {
    hide Unescaped, Piece, Group, LengthOf;
    PieceAt(now, t, p, q);
  }

  /** One round of the loop. */
  method RmOne(block: array<Byte>, ghost t: seq<Byte>, p0: nat, q0: nat) returns (p: nat, q: nat)
    requires Partly(block[..], t, p0, q0) && p0 < |t|
    modifies block
    ensures q <= p <= |t| && p0 < p && Partly(block[..], t, p, q)
  {
    hide Unescaped, Piece, Partly, Group, LengthOf;
    ghost var now := block[..];
    RoundFits(now, t, p0, q0);
    p, q := p0, q0;
    var c := block[p];
    if c == CTLQUOTEMARK {
      p := p + 1;
    } else if c == CTLMBCHAR {
      var start, n := MbNext(block, p);
      MemMove(block, q, p + start, n);
      q, p := q + n, p + start + n + 2;
    } else {
      if c == CTLESC {
        p := p + 1;
        c := block[p];
      }
      PutByte(block, q, c);
      q, p := q + 1, p + 1;
    }
    RestKept(now, block[..], q, p);
    RoundPartly(now, block[..], t, p0, q0, p, q);
    PartlyAll(block[..], t, p, q);
  }

  /** Takes the escapes out of a string in place. */
  method RmEscapes(block: array<Byte>, ghost t: seq<Byte>)
    requires |t| < block.Length && block[..|t|] == t && block[|t|] == 0 && Unescaped(t).Some?
    modifies block
    ensures var r := Unescaped(t).value; block[..|r|] == r && block[|r|] == 0
  {
    hide Unescaped, Piece, Partly, Group, LengthOf;
    var p := 0;
    PartlyNone(block[..], t);
    PartlyAll(block[..], t, 0, 0);
    while block[p] != 0 && block[p] !in CQCHARS
      invariant p <= |t| && unchanged(block) && Partly(block[..], t, p, p)
      decreases |t| - p
    {
      PartlyAll(block[..], t, p, p);
      PieceAt(block[..], t, p, p);
      PartlyMore(block[..], block[..], t, p, p);
      p := p + 1;
    }
    var q := p;
    PartlyAll(block[..], t, p, p);
    while block[p] != 0
      invariant 0 <= q <= p <= |t| < block.Length && Partly(block[..], t, p, q)
      decreases |t| - p
    {
      PartlyAll(block[..], t, p, q);
      p, q := RmOne(block, t, p, q);
    }
    PartlyAll(block[..], t, p, q);
    block[q] := 0;
  }
}
