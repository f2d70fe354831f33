/** Laws of field splitting: the fields of a text from those of its parts (section 2.6.5 of POSIX.1-2017). */
module IfsLaws {
  import opened CBytes
  import opened IfsBreakup
  import opened IfsSplit

  // ---------- the classes of bytes ----------

  /** White space counts as such only if it is in IFS; any other byte of IFS is a mark. */
  lemma Classified(ifs: seq<Byte>, ch: char)
    requires ch < 128 as char
    ensures var c := ch as int;
            && (ClassOf(ifs, c) == Other <==> c !in ifs)
            && (ClassOf(ifs, c) == White <==> c in ifs && ch in " \t\n\r\U{000b}\U{000c}")
  {
  }

  function Others(n: nat): (cls: Classes)
    ensures |cls| == n && forall i :: 0 <= i < n ==> cls[i] == Other
  {
    seq(n, _ => Other)
  }

  /** What is around the region is not split, and the region is classified as if it was alone. */
  lemma Region(ifs: seq<Byte>, a: seq<Byte>, b: seq<Byte>, c: seq<Byte>)
    ensures ClassesOf(ifs, a + b + c, |a|, |a| + |b|) == Others(|a|) + ClassesOf(ifs, b, 0, |b|) + Others(|c|)
    ensures forall i :: 0 <= i < |b| ==> ClassesOf(ifs, b, 0, |b|)[i] == ClassOf(ifs, b[i])
  {
    hide ClassOf;
    assert forall i :: 0 <= i < |b| ==> (a + b + c)[|a| + i] == b[i];
  }

  /** Where the fields of a text can be read, they are: each at the start that the list has for it. */
  lemma ReadBack(block: seq<Byte>, text: seq<Byte>, fields: seq<Field>, list: seq<int>, i: int)
    requires Readable(block, text, fields, list) && 0 <= i < |fields|
    ensures |list| == |fields| && 0 <= fields[i].start <= fields[i].end <= |text| && list[i] == fields[i].start
    ensures CString(block, list[i]) == text[fields[i].start..fields[i].end]
  {
  }

  // ---------- the standard's fields ----------

  /** The fields of a text that has n more bytes in front. */
  function Moved(fields: seq<Field>, n: int): (r: seq<Field>)
    ensures |r| == |fields|
    ensures forall i :: 0 <= i < |r| ==> r[i] == Field(fields[i].start + n, fields[i].end + n)
  {
    seq(|fields|, i requires 0 <= i < |fields| => Field(fields[i].start + n, fields[i].end + n))
  }

  lemma MovedStep(f: Field, fields: seq<Field>, n: int)
    ensures Moved([f] + fields, n) == [Field(f.start + n, f.end + n)] + Moved(fields, n)
    ensures Moved([], n) == []
  {
  }

  lemma {:induction false} SkipAfter(a: Classes, c: Classes, i: nat)
    requires i <= |c|
    ensures SkipWhite(a + c, |a| + i) == |a| + SkipWhite(c, i)
    decreases |c| - i
  {
    if i < |c| {
      assert (a + c)[|a| + i] == c[i];
      SkipAfter(a, c, i + 1);
    }
  }

  lemma {:induction false} EndAfter(a: Classes, c: Classes, i: nat)
    requires i <= |c|
    ensures FieldEnd(a + c, |a| + i) == |a| + FieldEnd(c, i)
    decreases |c| - i
  {
    if i < |c| {
      assert (a + c)[|a| + i] == c[i];
      EndAfter(a, c, i + 1);
    }
  }

  lemma DelimAfter(a: Classes, c: Classes, i: nat)
    requires i <= |c|
    ensures DelimEnd(a + c, |a| + i) == |a| + DelimEnd(c, i)
  {
    hide SkipWhite;
    SkipAfter(a, c, i);
    var j := SkipWhite(c, i);
    if j < |c| {
      assert (a + c)[|a| + j] == c[j];
      SkipAfter(a, c, j + 1);
    }
  }

  lemma OneField(cls: Classes, i: nat)
    requires i <= |cls|
    ensures var e := FieldEnd(cls, i);
            SplitFrom(cls, i) == if i == |cls| then [] else [Field(i, e)] + SplitFrom(cls, DelimEnd(cls, e))
  {
    hide FieldEnd, DelimEnd;
  }

  lemma {:induction false} SplitAfter(a: Classes, c: Classes, i: nat)
    requires i <= |c|
    ensures SplitFrom(a + c, |a| + i) == Moved(SplitFrom(c, i), |a|)
    decreases |c| - i
  {
    hide FieldEnd, DelimEnd, SplitFrom, Moved;
    var e := FieldEnd(c, i);
    var rest := SplitFrom(c, DelimEnd(c, e));
    OneField(c, i);
    OneField(a + c, |a| + i);
    MovedStep(Field(i, e), rest, |a|);
    if i < |c| {
      EndAfter(a, c, i);
      DelimAfter(a, c, e);
      SplitAfter(a, c, DelimEnd(c, e));
    }
  }

  /** All of one class. */
  predicate All(cls: Classes, c: Class) {
    forall i :: 0 <= i < |cls| ==> cls[i] == c
  }

  /** The text does not begin with the class. */
  predicate NotFirst(cls: Classes, c: Class) {
    cls != [] ==> cls[0] != c
  }

  lemma {:induction false} SkipAll(a: Classes, c: Classes)
    requires All(a, White) && NotFirst(c, White)
    ensures SkipWhite(a + c, 0) == |a|
  {
    assert forall k :: 0 <= k < |a| ==> (a + c)[k] == a[k];
    assert c != [] ==> (a + c)[|a|] == c[0];
  }

  lemma {:induction false} EndAll(a: Classes, c: Classes)
    requires All(a, Other) && NotFirst(c, Other)
    ensures FieldEnd(a + c, 0) == |a|
  {
    assert forall k :: 0 <= k < |a| ==> (a + c)[k] == a[k];
    assert c != [] ==> (a + c)[|a|] == c[0];
  }

  /** A delimiter: white space, or one mark with any white space on both sides. */
  predicate Delimiter(d: Classes, mark: bool, k: nat) {
    if mark then k < |d| && All(d[..k], White) && d[k] == Mark && All(d[k + 1..], White)
    else d != [] && All(d, White)
  }

  lemma DelimAll(d: Classes, mark: bool, k: nat, c: Classes)
    requires Delimiter(d, mark, k) && NotFirst(c, White) && (!mark ==> NotFirst(c, Mark))
    ensures DelimEnd(d + c, 0) == |d|
  {
    hide SkipWhite;
    if mark {
      SkipAll(d[..k], d[k..] + c);
      assert d[..k] + (d[k..] + c) == d + c;
      SkipAll(d[k + 1..], c);
      SkipAfter(d[..k + 1], d[k + 1..] + c, 0);
      assert d[..k + 1] + (d[k + 1..] + c) == d + c;
    } else {
      SkipAll(d, c);
    }
  }

  lemma Joined<T>(a: seq<T>, b: seq<T>, c: seq<T>)
    ensures (a + b) + c == a + (b + c) && |a + b| == |a| + |b|
  {
  }

  /** White space at the start of a text makes no field. */
  lemma LeadingWhite(a: Classes, c: Classes)
    requires All(a, White) && NotFirst(c, White)
    ensures Split(a + c) == Moved(Split(c), |a|)
  {
    hide SkipWhite, SplitFrom, Moved;
    SkipAll(a, c);
    NoneLeading(c);
    SplitAfter(a, c, 0);
  }

  /** A text without any byte of IFS is one field, unless it is empty. */
  lemma OneWord(w: Classes)
    requires All(w, Other)
    ensures Split(w) == if w == [] then [] else [Field(0, |w|)]
  {
    EndAll(w, []);
    assert w + [] == w;
    assert SplitFrom(w, |w|) == [];
  }

  /**
   * A delimiter ends the field in front of it, and what follows is split as if it was alone. A field in front of a
   * mark may be empty; a text that begins with white space is the case before.
   */
  lemma Delimited(w: Classes, d: Classes, mark: bool, k: nat, c: Classes)
    requires All(w, Other) && Delimiter(d, mark, k) && (w == [] ==> d[0] == Mark)
    requires NotFirst(c, White) && (!mark ==> NotFirst(c, Mark))
    ensures Split(w + d + c) == [Field(0, |w|)] + Moved(Split(c), |w| + |d|)
  {
    hide SkipWhite, Moved, All, DelimEnd, FieldEnd, NotFirst, SplitFrom, Delimiter;
    Joined(w, d, c);
    FirstNotWhite(w, d, mark, k, c);
    NoneLeading(w + d + c);
    NoneLeading(c);
    OneField(w + d + c, 0);
    EndAll(w, d + c);
    DelimAll(d, mark, k, c);
    DelimAfter(w, d + c, 0);
    SplitAfter(w + d, c, 0);
  }

  lemma NoneLeading(c: Classes)
    requires NotFirst(c, White)
    ensures SkipWhite(c, 0) == 0
  {
  }

  lemma FirstNotWhite(w: Classes, d: Classes, mark: bool, k: nat, c: Classes)
    requires All(w, Other) && Delimiter(d, mark, k) && (w == [] ==> d[0] == Mark)
    ensures NotFirst(w + d + c, White) && NotFirst(d + c, Other) && w + d + c != []
  {
    assert (d + c)[0] == d[0];
    assert d[0] != Other by {
      if mark && k > 0 {
        assert d[..k][0] == d[0];
      }
    }
    assert (w + d + c)[0] == if w == [] then d[0] else w[0];
  }

  // ---------- a limited number of fields ----------

  lemma {:induction false} TrimAll(cls: Classes, n: nat, q: nat)
    requires n <= q <= |cls| && (forall k :: n <= k < q ==> cls[k].White?) && (n > 0 ==> !cls[n - 1].White?)
    ensures Trim(cls, q) == n
  {
  }

  /**
   * Where the text has more fields than the limit, the last one takes the rest of the text, delimiters and all, but
   * for white space at its end.
   */
  lemma {:induction false} LastTakesRest(text: Classes, white: Classes, i: nat, n: nat)
    requires n > 0 && All(white, White) && (text != [] ==> text[|text| - 1] != White)
    requires i <= |text + white| && |SplitFrom(text + white, i)| > n
    ensures var s, l := SplitFrom(text + white, i), Limited(text + white, i, n);
            |l| == n && l[..n - 1] == s[..n - 1] && l[n - 1] == Field(s[n - 1].start, |text|)
    decreases n
  {
    hide FieldEnd, DelimEnd, SplitFrom;
    var cls := text + white;
    var e := FieldEnd(cls, i);
    var d := DelimEnd(cls, e);
    OneField(cls, i);
    OneField(cls, d);
    if n > 1 {
      LastTakesRest(text, white, d, n - 1);
      LimitedStep(cls, i, n);
      FrontOf(Field(i, e), Limited(cls, d, n - 1), n - 1);
      FrontOf(Field(i, e), SplitFrom(cls, d), n - 1);
    } else {
      TrimAll(cls, |text|, |cls|);
    }
  }

  lemma FrontOf<T>(f: T, s: seq<T>, n: nat)
    requires 0 < n <= |s| + 1
    ensures ([f] + s)[..n] == [f] + s[..n - 1]
  {
  }
}
