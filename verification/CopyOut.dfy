/**
 * Copying bytes into a word under construction, eight at a time where none needs an escape (memtodest in
 * src/expand.c).
 */
module CopyOut {
  type Byte = bv8

  const CTLESC: Byte := 129
  const CTLMBCHAR: Byte := 133

  datatype Flag = EXP_FULL | EXP_CASE | EXP_MBCHAR | EXP_QUOTED | EXP_KEEPNUL

  datatype Syntax = IsType | Basesyntax | Sqsyntax

  /** Bytes that single quotes would keep from being special in a pattern. */
  const SPECIAL: seq<Byte> := [94, 33, 42, 63, 91, 61, 126, 58, 47, 45, 93, 92]

  /** Whether a byte is escaped: the control codes, and in quotes what is special in a pattern. */
  predicate IsCtl(syntax: Syntax, c: Byte) {
    match syntax
    case IsType => false
    case Basesyntax => 129 <= c <= 136
    case Sqsyntax => 129 <= c <= 136 || c in SPECIAL
  }

  function SyntaxOf(flags: set<Flag>): Syntax {
    if EXP_FULL !in flags && EXP_CASE !in flags && EXP_MBCHAR !in flags then IsType
    else if EXP_QUOTED in flags then Sqsyntax
    else Basesyntax
  }

  // ---------- character by character ----------

  /** The length of the character at the front of some bytes, or less than 2 if they are none (mbrlen). */
  type Mbrlen = seq<Byte> -> int

  const MB_LEN_MAX := 16

  ghost predicate LengthsOk(mbrlen: Mbrlen) {
    forall s :: mbrlen(s) <= |s| && mbrlen(s) <= MB_LEN_MAX
  }

  /** Bytes below 128, and others that start no character, stand for themselves. */
  function CharLen(mbrlen: Mbrlen, s: seq<Byte>): (n: nat)
    requires s != []
    ensures 1 <= n <= |s| && n <= MB_LEN_MAX
  {
    if s[0] >= 128 && 2 <= mbrlen(s) <= |s| && mbrlen(s) <= MB_LEN_MAX then mbrlen(s) else 1
  }

  predicate IsDropped(keepnul: bool, ch: seq<Byte>) {
    ch == [0] && !keepnul
  }

  predicate AreChars(cs: seq<seq<Byte>>) {
    forall i :: 0 <= i < |cs| ==> 1 <= |cs[i]| <= MB_LEN_MAX
  }

  /** The characters of a string, without those that are dropped. */
  function Chars(mbrlen: Mbrlen, keepnul: bool, s: seq<Byte>): (cs: seq<seq<Byte>>)
    ensures AreChars(cs) && |cs| <= |s|
    decreases |s|
  {
    if s == [] then []
    else
      var n := CharLen(mbrlen, s);
      (if IsDropped(keepnul, s[..n]) then [] else [s[..n]]) + Chars(mbrlen, keepnul, s[n..])
  }

  function LengthByte(n: nat): Byte
    requires n <= MB_LEN_MAX
  {
    n as Byte
  }

  /** How a character is written: escaped, or with its length on both sides. */
  function WrittenFor(syntax: Syntax, ch: seq<Byte>): (r: seq<Byte>)
    requires 1 <= |ch| <= MB_LEN_MAX
    ensures |r| <= 3 * |ch|
  {
    if |ch| == 1 then if IsCtl(syntax, ch[0]) then [CTLESC] + ch else ch
    else if IsCtl(syntax, CTLMBCHAR) then
      [CTLMBCHAR, LengthByte(|ch|)] + ch + [LengthByte(|ch|), CTLMBCHAR]
    else ch
  }

  /** What is written for some characters. */
  function Written(syntax: Syntax, cs: seq<seq<Byte>>): seq<Byte>
    requires AreChars(cs)
  {
    if cs == [] then [] else WrittenFor(syntax, cs[0]) + Written(syntax, cs[1..])
  }

  predicate Ascii(c: Byte) {
    1 <= c < 128
  }

  predicate IsPlain(s: seq<Byte>) {
    forall i :: 0 <= i < |s| ==> Ascii(s[i])
  }

  /** Outside quotes, bytes from 1 to 127 are written as they are. */
  lemma {:induction false} WrittenPlain(mbrlen: Mbrlen, syntax: Syntax, keepnul: bool, s: seq<Byte>, k: nat)
    requires syntax != Sqsyntax && k <= |s| && IsPlain(s[..k])
    ensures Written(syntax, Chars(mbrlen, keepnul, s)) == s[..k] + Written(syntax, Chars(mbrlen, keepnul, s[k..]))
    ensures |Chars(mbrlen, keepnul, s)| == k + |Chars(mbrlen, keepnul, s[k..])|
    decreases k
  {
    hide Written, Chars, Ascii;
    if k == 0 {
      assert s[0..] == s;
    } else {
      assert Ascii(s[..k][0]);
      PlainChar(mbrlen, syntax, keepnul, s);
      assert s[1..][..k - 1] == s[..k][1..] && s[1..][k - 1..] == s[k..];
      WrittenPlain(mbrlen, syntax, keepnul, s[1..], k - 1);
      FirstOf(s, k, Written(syntax, Chars(mbrlen, keepnul, s[k..])));
    }
  }

  lemma FirstOf(s: seq<Byte>, k: nat, t: seq<Byte>)
    requires 1 <= k <= |s|
    ensures [s[0]] + (s[1..][..k - 1] + t) == s[..k] + t
  {}

  lemma PlainChar(mbrlen: Mbrlen, syntax: Syntax, keepnul: bool, s: seq<Byte>)
    requires syntax != Sqsyntax && s != [] && Ascii(s[0])
    ensures Chars(mbrlen, keepnul, s) == [[s[0]]] + Chars(mbrlen, keepnul, s[1..])
    ensures Written(syntax, Chars(mbrlen, keepnul, s))
            == [s[0]] + Written(syntax, Chars(mbrlen, keepnul, s[1..]))
  {
    assert s[..1] == [s[0]];
    var cs := Chars(mbrlen, keepnul, s);
    assert cs[1..] == Chars(mbrlen, keepnul, s[1..]);
  }

  /** The first character, and what is left. */
  lemma NextChar(mbrlen: Mbrlen, syntax: Syntax, keepnul: bool, s: seq<Byte>)
    requires s != []
    ensures var n := CharLen(mbrlen, s);
            var rest := Chars(mbrlen, keepnul, s[n..]);
            && (IsDropped(keepnul, s[..n]) ==> Chars(mbrlen, keepnul, s) == rest)
            && (!IsDropped(keepnul, s[..n]) ==>
                  && |Chars(mbrlen, keepnul, s)| == 1 + |rest|
                  && Written(syntax, Chars(mbrlen, keepnul, s)) == WrittenFor(syntax, s[..n]) + Written(syntax, rest))
  {
    hide CharLen, WrittenFor;
    var n := CharLen(mbrlen, s);
    var rest := Chars(mbrlen, keepnul, s[n..]);
    if !IsDropped(keepnul, s[..n]) {
      assert Chars(mbrlen, keepnul, s) == [s[..n]] + rest;
      assert ([s[..n]] + rest)[1..] == rest;
    }
  }

  // ---------- eight bytes at a time ----------

  /** Eight bytes as a word. */
  function Word(s: seq<Byte>): bv64
    requires |s| == 8
  {
    WordOf(s[0], s[1], s[2], s[3], s[4], s[5], s[6], s[7])
  }

  function WordOf(b0: Byte, b1: Byte, b2: Byte, b3: Byte, b4: Byte, b5: Byte, b6: Byte, b7: Byte): bv64 {
    (b0 as bv64) | ((b1 as bv64) << 8) | ((b2 as bv64) << 16) | ((b3 as bv64) << 24)
    | ((b4 as bv64) << 32) | ((b5 as bv64) << 40) | ((b6 as bv64) << 48) | ((b7 as bv64) << 56)
  }

  /** Zero just when no byte of the word is zero or above 127. */
  function WordTest(x: bv64): bv64 {
    (x | (x - 0x0101010101010101)) & 0x8080808080808080
  }

  lemma WordTestZero(b0: Byte, b1: Byte, b2: Byte, b3: Byte, b4: Byte, b5: Byte, b6: Byte, b7: Byte)
    ensures WordTest(WordOf(b0, b1, b2, b3, b4, b5, b6, b7)) == 0 <==>
              Ascii(b0) && Ascii(b1) && Ascii(b2) && Ascii(b3) && Ascii(b4) && Ascii(b5) && Ascii(b6) && Ascii(b7)
  {
  }

  lemma WordPlain(s: seq<Byte>)
    requires |s| == 8
    ensures WordTest(Word(s)) == 0 <==> IsPlain(s)
  {
    hide WordTest, WordOf, Ascii;
    WordTestZero(s[0], s[1], s[2], s[3], s[4], s[5], s[6], s[7]);
    if Ascii(s[0]) && Ascii(s[1]) && Ascii(s[2]) && Ascii(s[3]) && Ascii(s[4]) && Ascii(s[5]) && Ascii(s[6])
        && Ascii(s[7]) {
      forall i | 0 <= i < 8
        ensures Ascii(s[i])
      {
        EightCases(i);
      }
    }
  }

  lemma EightCases(i: int)
    requires 0 <= i < 8
    ensures i == 0 || i == 1 || i == 2 || i == 3 || i == 4 || i == 5 || i == 6 || i == 7
  {
  }

  /** A byte, with an escape before it if it needs one. */
  method ChToDest(c: Byte, syntax: Syntax, dest: array<Byte>, q: nat) returns (q': nat)
    requires q + 2 <= dest.Length
    modifies dest
    ensures q' <= q + 2 && dest[..q'] == old(dest[..q]) + WrittenFor(syntax, [c])
  {
    q' := q;
    if IsCtl(syntax, c) {
      dest[q'] := CTLESC;
      q' := q' + 1;
    }
    dest[q'] := c;
    q' := q' + 1;
  }

  /** Copies bytes. */
  method MemPCpy(dest: array<Byte>, q: nat, s: seq<Byte>) returns (q': nat)
    requires q + |s| <= dest.Length
    modifies dest
    ensures q' == q + |s| && dest[..q'] == old(dest[..q]) + s
  {
    for i := 0 to |s|
      invariant dest[..q + i] == old(dest[..q]) + s[..i]
    {
      dest[q + i] := s[i];
    }
    q' := q + |s|;
  }

  /** What starts with a byte above 127: ml is the number of bytes that it takes. */
  method MbToDest(mbrlen: Mbrlen, s: seq<Byte>, syntax: Syntax, dest: array<Byte>, q: nat) returns (ml: nat, q': nat)
    requires LengthsOk(mbrlen) && s != [] && s[0] >= 128
    requires q + 3 * |s| <= dest.Length
    modifies dest
    ensures ml == CharLen(mbrlen, s) && q' <= q + 3 * ml
    ensures dest[..q'] == old(dest[..q]) + WrittenFor(syntax, s[..ml])
  {
    var n := mbrlen(s);
    if n < 2 {
      ml := 1;
      assert s[..1] == [s[0]];
      q' := ChToDest(s[0], syntax, dest, q);
    } else {
      ml := n;
      q' := PutGroup(s[..ml], syntax, dest, q);
    }
  }

  /** A multibyte character, with its length on both sides where it would be escaped. */
  method PutGroup(ch: seq<Byte>, syntax: Syntax, dest: array<Byte>, q: nat) returns (q': nat)
    requires 2 <= |ch| <= MB_LEN_MAX && q + 3 * |ch| <= dest.Length
    modifies dest
    ensures q' <= q + 3 * |ch| && dest[..q'] == old(dest[..q]) + WrittenFor(syntax, ch)
  {
    var escaped, length := IsCtl(syntax, CTLMBCHAR), LengthByte(|ch|);
    assert WrittenFor(syntax, ch) == if escaped then [CTLMBCHAR, length] + ch + [length, CTLMBCHAR] else ch;
    hide WrittenFor, LengthByte, IsCtl;
    q' := q;
    ghost var before := dest[..q];
    if escaped {
      q' := MemPCpy(dest, q', [CTLMBCHAR, length]);
    }
    q' := MemPCpy(dest, q', ch);
    if escaped {
      q' := MemPCpy(dest, q', [length, CTLMBCHAR]);
      Group(before, [CTLMBCHAR, length], ch, [length, CTLMBCHAR]);
    }
  }

  lemma Group(a: seq<Byte>, b: seq<Byte>, c: seq<Byte>, d: seq<Byte>)
    ensures a + b + c + d == a + (b + c + d)
  {}

  /** Eight bytes at a time, as long as none of them needs a closer look. */
  method CopyEights(p: seq<Byte>, dest: array<Byte>, expdest: nat) returns (count: nat)
    requires expdest + |p| <= dest.Length
    modifies dest
    ensures count <= |p| && IsPlain(p[..count]) && dest[..expdest + count] == old(dest[..expdest]) + p[..count]
    ensures |p| - count >= 8 ==> !IsPlain(p[count..count + 8])
  {
    hide WordTest, WordOf, Word, Ascii;
    count := 0;
    ghost var before := dest[..expdest];
    assert p[..0] == [] && before + [] == before;
    while |p| - count >= 8
      invariant 0 <= count <= |p| && IsPlain(p[..count])
      invariant dest[..expdest + count] == before + p[..count]
    {
      var x := p[count..count + 8];
      WordPlain(x);
      if WordTest(Word(x)) != 0 {
        break;
      }
      assert p[..count + 8] == p[..count] + x;
      PlainBoth(p[..count], x);
      var q := MemPCpy(dest, expdest + count, x);
      count := count + 8;
    }
  }

  lemma PlainBoth(s: seq<Byte>, t: seq<Byte>)
    requires IsPlain(s) && IsPlain(t)
    ensures IsPlain(s + t)
  {
    hide Ascii;
  }

  /** With what is still to be written for the bytes from at on, out is all that there will be. */
  ghost predicate Copied(mbrlen: Mbrlen, syntax: Syntax, keepnul: bool, p: seq<Byte>, before: seq<Byte>,
                         at: nat, out: seq<Byte>, count: nat)
  {
    && at <= |p|
    && out + Written(syntax, Chars(mbrlen, keepnul, p[at..])) == before + Written(syntax, Chars(mbrlen, keepnul, p))
    && count + |Chars(mbrlen, keepnul, p[at..])| == |Chars(mbrlen, keepnul, p)|
  }

  lemma CopiedNone(mbrlen: Mbrlen, syntax: Syntax, keepnul: bool, p: seq<Byte>, before: seq<Byte>)
    ensures Copied(mbrlen, syntax, keepnul, p, before, 0, before, 0)
  {
    assert p[0..] == p;
  }

  lemma CopiedPlain(mbrlen: Mbrlen, syntax: Syntax, keepnul: bool, p: seq<Byte>, before: seq<Byte>, k: nat)
    requires syntax != Sqsyntax && k <= |p| && IsPlain(p[..k])
    ensures Copied(mbrlen, syntax, keepnul, p, before, k, before + p[..k], k)
  {
    hide Written, Chars, IsPlain;
    WrittenPlain(mbrlen, syntax, keepnul, p, k);
    Assoc(before, p[..k], Written(syntax, Chars(mbrlen, keepnul, p[k..])));
  }

  lemma CopiedMore(mbrlen: Mbrlen, syntax: Syntax, keepnul: bool, p: seq<Byte>, before: seq<Byte>,
                   at: nat, out: seq<Byte>, count: nat)
    requires Copied(mbrlen, syntax, keepnul, p, before, at, out, count) && at < |p|
    ensures var n := CharLen(mbrlen, p[at..]);
            if p[at] == 0 && !keepnul then Copied(mbrlen, syntax, keepnul, p, before, at + 1, out, count)
            else Copied(mbrlen, syntax, keepnul, p, before, at + n, out + WrittenFor(syntax, p[at..][..n]), count + 1)
    ensures p[at] < 128 ==> CharLen(mbrlen, p[at..]) == 1 && p[at..][..1] == [p[at]]
  {
    hide Written, Chars, WrittenFor, CharLen, IsDropped;
    var rest := p[at..];
    var n := CharLen(mbrlen, rest);
    NextChar(mbrlen, syntax, keepnul, rest);
    OneByte(mbrlen, keepnul, rest);
    assert rest[n..] == p[at + n..];
    Assoc(out, WrittenFor(syntax, rest[..n]), Written(syntax, Chars(mbrlen, keepnul, p[at + n..])));
  }

  lemma CopiedAll(mbrlen: Mbrlen, syntax: Syntax, keepnul: bool, p: seq<Byte>, before: seq<Byte>, out: seq<Byte>,
                  count: nat)
    requires Copied(mbrlen, syntax, keepnul, p, before, |p|, out, count)
    ensures out == before + Written(syntax, Chars(mbrlen, keepnul, p)) && count == |Chars(mbrlen, keepnul, p)|
  {
    assert Chars(mbrlen, keepnul, p[|p|..]) == [] && out + [] == out;
  }

  /**
   * The characters are written after what is in dest, which has room for three times as many bytes, and counted.
   */
  method MemToDest(mbrlen: Mbrlen, p: seq<Byte>, flags: set<Flag>, dest: array<Byte>, expdest: nat)
    returns (q: nat, count: nat)
    requires LengthsOk(mbrlen) && expdest + 3 * |p| <= dest.Length
    modifies dest
    ensures expdest <= q <= dest.Length
    ensures var cs := Chars(mbrlen, EXP_KEEPNUL in flags, p);
            dest[..q] == old(dest[..expdest]) + Written(SyntaxOf(flags), cs) && count == |cs|
  {
    hide IsCtl, Written, Chars, WrittenFor, SyntaxOf, CharLen, Copied, LengthsOk;
    var syntax, keepnul := SyntaxOf(flags), EXP_KEEPNUL in flags;
    ghost var before := dest[..expdest];
    count := 0;
    CopiedNone(mbrlen, syntax, keepnul, p, before);
    if syntax != Sqsyntax {
      count := CopyEights(p, dest, expdest);
      CopiedPlain(mbrlen, syntax, keepnul, p, before, count);
    }
    var at := count;
    q := expdest + count;
    while at < |p|
      invariant 0 <= at <= |p| && expdest <= q <= expdest + 3 * at
      invariant Copied(mbrlen, syntax, keepnul, p, before, at, dest[..q], count)
    {
      CopiedMore(mbrlen, syntax, keepnul, p, before, at, dest[..q], count);
      var c := p[at];
      if c == 0 && !keepnul {
        at := at + 1;
        continue;
      }
      count := count + 1;
      var ml := 1;
      if c >= 128 {
        ml, q := MbToDest(mbrlen, p[at..], syntax, dest, q);
      } else {
        q := ChToDest(c, syntax, dest, q);
      }
      at := at + ml;
    }
    CopiedAll(mbrlen, syntax, keepnul, p, before, dest[..q], count);
  }

  lemma Assoc(a: seq<Byte>, b: seq<Byte>, c: seq<Byte>)
    ensures a + b + c == a + (b + c)
  {}

  lemma OneByte(mbrlen: Mbrlen, keepnul: bool, s: seq<Byte>)
    requires s != []
    ensures s[0] < 128 ==> CharLen(mbrlen, s) == 1
    ensures s[..1] == [s[0]]
    ensures IsDropped(keepnul, s[..CharLen(mbrlen, s)]) <==> s[0] == 0 && !keepnul
  {}
}
