/**
 * Field splitting (section 2.6.5 of the POSIX.1-2017 Shell Command Language), and the state that ifsbreakup_slow
 * in src/expand.c keeps, byte by byte. Where fields start and end depends only on the classes of the bytes.
 */
module IfsSplit {
  /** A byte that is not split at, IFS white space, or another IFS character. */
  datatype Class = Other | White | Mark

  type Classes = seq<Class>

  /** Where a field starts and ends. */
  datatype Field = Field(start: int, end: int)

  // ---------- the standard ----------

  function SkipWhite(cls: Classes, i: nat): (j: nat)
    requires i <= |cls|
    ensures i <= j <= |cls| && (forall k :: i <= k < j ==> cls[k].White?) && (j < |cls| ==> !cls[j].White?)
    decreases |cls| - i
  {
    if i < |cls| && cls[i].White? then SkipWhite(cls, i + 1) else i
  }

  function FieldEnd(cls: Classes, i: nat): (j: nat)
    requires i <= |cls|
    ensures i <= j <= |cls| && (forall k :: i <= k < j ==> cls[k].Other?) && (j < |cls| ==> !cls[j].Other?)
    decreases |cls| - i
  {
    if i < |cls| && cls[i].Other? then FieldEnd(cls, i + 1) else i
  }

  /** The end of a delimiter: white space, with at most one other IFS character in it. */
  function DelimEnd(cls: Classes, i: nat): (j: nat)
    requires i <= |cls|
    ensures i <= j <= |cls| && (i < |cls| && !cls[i].Other? ==> i < j) && (j < |cls| ==> !cls[j].White?)
  {
    var j := SkipWhite(cls, i);
    if j < |cls| && cls[j].Mark? then SkipWhite(cls, j + 1) else j
  }

  /** The fields from position i on, where no white space is before the first. */
  function SplitFrom(cls: Classes, i: nat): seq<Field>
    requires i <= |cls|
    decreases |cls| - i
  {
    if i == |cls| then []
    else
      var e := FieldEnd(cls, i);
      [Field(i, e)] + SplitFrom(cls, DelimEnd(cls, e))
  }

  function Split(cls: Classes): seq<Field> {
    SplitFrom(cls, SkipWhite(cls, 0))
  }

  /** Where the trailing white space before q starts. */
  function Trim(cls: Classes, q: nat): (t: nat)
    requires q <= |cls|
    ensures t <= q && (forall k :: t <= k < q ==> cls[k].White?) && (t > 0 ==> !cls[t - 1].White?)
  {
    if q > 0 && cls[q - 1].White? then Trim(cls, q - 1) else q
  }

  /**
   * At most n fields: the last is the only one left, without its delimiter, or it is all that is left but for
   * white space at the end. A last field that would be empty is not there.
   */
  function Limited(cls: Classes, i: nat, n: nat): seq<Field>
    requires i <= |cls| && n > 0
    decreases |cls| - i
  {
    if i == |cls| then []
    else
      var e := FieldEnd(cls, i);
      var d := DelimEnd(cls, e);
      if n > 1 then [Field(i, e)] + Limited(cls, d, n - 1)
      else if d < |cls| then [Field(i, Trim(cls, |cls|))]
      else if e > i then [Field(i, e)]
      else []
  }

  // ---------- the state of the splitter ----------

  /** The struct ifs_state, without the IFS; r is -1 where it is null, and fields are those made so far. */
  datatype Ifs = Ifs(start: int, r: int, maxargs: int, ifsspc: bool, fields: seq<Field>)

  /** What one byte of class c at position q does (ifsbreakup_slow). */
  function Step(st: Ifs, c: Class, q: int): Ifs {
    if st.maxargs == 0 then
      if c.White? then if st.r < 0 then st.(r := q) else st
      else st.(r := if c.Mark? && st.ifsspc then st.r else -1, ifsspc := false)
    else if st.ifsspc then
      st.(start := if c.Other? then q else q + 1, ifsspc := c.White?)
    else if c.Other? then st
    else if q == st.start && c.White? then st.(start := q + 1, ifsspc := false)
    else if st.maxargs == 1 then st.(maxargs := 0, r := q, ifsspc := c.White?)
    else
      st.(maxargs := if st.maxargs > 0 then st.maxargs - 1 else st.maxargs,
          ifsspc := c.White?, fields := st.fields + [Field(st.start, q)], start := q + 1)
  }

  function Run(cls: Classes, st: Ifs, q: nat, hi: nat): Ifs
    requires q <= hi <= |cls|
    decreases hi - q
  {
    if q == hi then st else Run(cls, Step(st, cls[q], q), q + 1, hi)
  }

  /** The fields at the end of the text, which is n long. */
  function Finish(st: Ifs, n: nat): seq<Field> {
    var end := if st.r >= 0 then st.r else n;
    if st.start < end then st.fields + [Field(st.start, end)] else st.fields
  }

  function Start(maxargs: int): Ifs {
    Ifs(0, -1, maxargs, false, [])
  }

  // ---------- unlimited fields ----------

  /** Where the next field starts, if there is one. */
  function NextField(cls: Classes, st: Ifs, q: nat): (i: nat)
    requires q <= |cls| && 0 <= st.start <= q
    ensures i <= |cls|
  {
    if st.ifsspc then DelimEnd(cls, q) else if st.start == q then SkipWhite(cls, q) else st.start
  }

  /** What the splitter still has to do at q: its fields, and then the standard's from here on. */
  ghost function Promise(cls: Classes, st: Ifs, q: nat): seq<Field>
    requires q <= |cls| && 0 <= st.start <= q
  {
    st.fields + SplitFrom(cls, NextField(cls, st, q))
  }

  /** The current field started at start, and has no IFS character yet. */
  ghost predicate InField(cls: Classes, st: Ifs, q: nat) {
    && q <= |cls| && 0 <= st.start <= q && st.r == -1
    && (st.ifsspc ==> st.start == q)
    && (forall k :: st.start <= k < q ==> cls[k].Other?)
  }

  lemma FieldEndAt(cls: Classes, i: nat, q: nat)
    requires i <= q <= |cls| && (forall k :: i <= k < q ==> cls[k].Other?)
    ensures FieldEnd(cls, i) == FieldEnd(cls, q)
    decreases q - i
  {
    if i < q {
      FieldEndAt(cls, i + 1, q);
    }
  }

  /** A delimiter, byte by byte. */
  lemma DelimStep(cls: Classes, q: nat)
    requires q < |cls|
    ensures cls[q].Other? ==>
              DelimEnd(cls, q) == q && SkipWhite(cls, q) == q && FieldEnd(cls, q) == FieldEnd(cls, q + 1)
    ensures cls[q].White? ==> DelimEnd(cls, q) == DelimEnd(cls, q + 1) && SkipWhite(cls, q) == SkipWhite(cls, q + 1)
    ensures cls[q].Mark? ==> DelimEnd(cls, q) == SkipWhite(cls, q + 1) && SkipWhite(cls, q) == q
    ensures !cls[q].Other? ==> FieldEnd(cls, q) == q
  {
  }

  /** One field of the standard's. */
  lemma SplitStep(cls: Classes, i: nat, q: nat)
    requires i <= q < |cls| && !cls[q].Other? && (forall k :: i <= k < q ==> cls[k].Other?)
    ensures SplitFrom(cls, i) == [Field(i, q)] + SplitFrom(cls, DelimEnd(cls, q))
  {
    FieldEndAt(cls, i, q);
  }

  lemma StepPromise(cls: Classes, st: Ifs, q: nat)
    requires q < |cls| && InField(cls, st, q) && st.maxargs < 0
    ensures var st' := Step(st, cls[q], q);
            st'.maxargs == st.maxargs && InField(cls, st', q + 1) && Promise(cls, st', q + 1) == Promise(cls, st, q)
  {
    hide SplitFrom, DelimEnd, SkipWhite;
    DelimStep(cls, q);
    if !st.ifsspc && !cls[q].Other? {
      if !(q == st.start && cls[q].White?) {
        SplitStep(cls, st.start, q);
        var more := SplitFrom(cls, DelimEnd(cls, q));
        assert st.fields + [Field(st.start, q)] + more == st.fields + ([Field(st.start, q)] + more);
      }
    }
  }

  lemma {:induction false} RunPromise(cls: Classes, st: Ifs, q: nat)
    requires q <= |cls| && InField(cls, st, q) && st.maxargs < 0
    ensures Finish(Run(cls, st, q, |cls|), |cls|) == Promise(cls, st, q)
    decreases |cls| - q
  {
    if q < |cls| {
      StepPromise(cls, st, q);
      RunPromise(cls, Step(st, cls[q], q), q + 1);
    } else {
      FieldEndAt(cls, st.start, q);
      assert SplitFrom(cls, |cls|) == [];
      assert st.start < q ==> SplitFrom(cls, st.start) == [Field(st.start, q)];
    }
  }

  /** Without a limit the fields are the standard's. */
  lemma UnlimitedIsSplit(cls: Classes, maxargs: int)
    requires maxargs < 0
    ensures Finish(Run(cls, Start(maxargs), 0, |cls|), |cls|) == Split(cls)
  {
    hide Run, SplitFrom, SkipWhite, DelimEnd, Finish;
    RunPromise(cls, Start(maxargs), 0);
    NoneBefore(Split(cls));
  }

  lemma NoneBefore<T>(s: seq<T>)
    ensures [] + s == s
  {}

  // ---------- a limited number of fields ----------

  ghost function LimitedPromise(cls: Classes, st: Ifs, q: nat): seq<Field>
    requires q <= |cls| && 0 <= st.start <= q && st.maxargs > 0
  {
    st.fields + Limited(cls, NextField(cls, st, q), st.maxargs)
  }

  /** The last field is over, and r is where it ends if what is read so far is all that counts. */
  ghost predicate LastField(cls: Classes, st: Ifs, q: nat) {
    && st.maxargs == 0 && 0 <= st.start <= |cls|
    && var e := FieldEnd(cls, st.start);
       var d := DelimEnd(cls, e);
       && e < q <= |cls|
       && if q <= d then st.r == e && (st.ifsspc <==> q <= SkipWhite(cls, e))
          else !st.ifsspc && Trim(cls, q) > d && st.r == if Trim(cls, q) == q then -1 else Trim(cls, q)
  }

  /** White space and other IFS characters in the delimiter at e. */
  lemma InDelim(cls: Classes, e: nat, q: nat)
    requires e < |cls| && e < q <= DelimEnd(cls, e)
    ensures q < DelimEnd(cls, e) ==> q < |cls| && !cls[q].Other? && (cls[q].Mark? <==> q == SkipWhite(cls, e))
    ensures q == DelimEnd(cls, e) && q < |cls| && cls[q].Mark? ==> q > SkipWhite(cls, e)
  {
  }

  lemma TrimStep(cls: Classes, q: nat)
    requires q < |cls|
    ensures Trim(cls, q + 1) == if cls[q].White? then Trim(cls, q) else q + 1
  {
  }

  lemma StepLast(cls: Classes, st: Ifs, q: nat)
    requires q < |cls| && LastField(cls, st, q)
    ensures var st' := Step(st, cls[q], q);
            LastField(cls, st', q + 1) && st'.start == st.start && st'.fields == st.fields
  {
    hide Trim, FieldEnd, DelimEnd;
    var e := FieldEnd(cls, st.start);
    TrimStep(cls, q);
    if q <= DelimEnd(cls, e) {
      InDelim(cls, e, q);
      DelimEndsHere(cls, e);
    }
  }

  lemma DelimEndsHere(cls: Classes, e: nat)
    requires e <= |cls|
    ensures var d := DelimEnd(cls, e); d < |cls| ==> !cls[d].White? && SkipWhite(cls, e) <= d
  {
  }

  lemma {:induction false} RunLast(cls: Classes, st: Ifs, q: nat)
    requires q <= |cls| && LastField(cls, st, q)
    ensures Finish(Run(cls, st, q, |cls|), |cls|) == st.fields + Limited(cls, st.start, 1)
    decreases |cls| - q
  {
    if q < |cls| {
      StepLast(cls, st, q);
      RunLast(cls, Step(st, cls[q], q), q + 1);
    }
  }

  /** The delimiter of the last field. */
  lemma StepToLast(cls: Classes, st: Ifs, q: nat)
    requires q < |cls| && InField(cls, st, q) && st.maxargs == 1
    requires !st.ifsspc && !cls[q].Other? && !(q == st.start && cls[q].White?)
    ensures LastField(cls, Step(st, cls[q], q), q + 1)
            && LimitedPromise(cls, st, q) == st.fields + Limited(cls, st.start, 1)
    ensures Step(st, cls[q], q).start == st.start && Step(st, cls[q], q).fields == st.fields
  {
    hide Limited, DelimEnd, SkipWhite, FieldEnd;
    DelimStep(cls, q);
    FieldEndAt(cls, st.start, q);
    AfterDelim(cls, q);
  }

  /** A field that is not the last. */
  lemma StepToNext(cls: Classes, st: Ifs, q: nat)
    requires q < |cls| && InField(cls, st, q) && st.maxargs > 1
    requires !st.ifsspc && !cls[q].Other? && !(q == st.start && cls[q].White?)
    ensures var st' := Step(st, cls[q], q);
            st'.maxargs > 0 && InField(cls, st', q + 1) && LimitedPromise(cls, st', q + 1) == LimitedPromise(cls, st, q)
  {
    hide Limited, DelimEnd, SkipWhite, FieldEnd;
    DelimStep(cls, q);
    FieldEndAt(cls, st.start, q);
    LimitedStep(cls, st.start, st.maxargs);
    var more := Limited(cls, DelimEnd(cls, q), st.maxargs - 1);
    assert st.fields + [Field(st.start, q)] + more == st.fields + ([Field(st.start, q)] + more);
  }

  /** No field ends here. */
  lemma StepWithin(cls: Classes, st: Ifs, q: nat)
    requires q < |cls| && InField(cls, st, q) && st.maxargs > 0
    requires st.ifsspc || cls[q].Other? || (q == st.start && cls[q].White?)
    ensures var st' := Step(st, cls[q], q);
            st'.maxargs > 0 && InField(cls, st', q + 1) && LimitedPromise(cls, st', q + 1) == LimitedPromise(cls, st, q)
  {
    hide Limited, DelimEnd, SkipWhite;
    DelimStep(cls, q);
  }

  lemma StepLimited(cls: Classes, st: Ifs, q: nat)
    requires q < |cls| && InField(cls, st, q) && st.maxargs > 0
    ensures var st' := Step(st, cls[q], q);
            if st'.maxargs > 0 then InField(cls, st', q + 1)
                && LimitedPromise(cls, st', q + 1) == LimitedPromise(cls, st, q)
            else LastField(cls, st', q + 1) && LimitedPromise(cls, st, q) == st'.fields + Limited(cls, st'.start, 1)
  {
    hide InField, LastField, LimitedPromise, Limited;
    if st.ifsspc || cls[q].Other? || (q == st.start && cls[q].White?) {
      StepWithin(cls, st, q);
    } else if st.maxargs == 1 {
      StepToLast(cls, st, q);
    } else {
      StepToNext(cls, st, q);
    }
  }

  lemma LimitedStep(cls: Classes, i: nat, n: nat)
    requires i < |cls| && n > 1
    ensures Limited(cls, i, n) == [Field(i, FieldEnd(cls, i))] + Limited(cls, DelimEnd(cls, FieldEnd(cls, i)), n - 1)
  {
  }

  lemma AfterDelim(cls: Classes, q: nat)
    requires q < |cls| && !cls[q].Other?
    ensures q < DelimEnd(cls, q) && SkipWhite(cls, q) <= DelimEnd(cls, q)
    ensures cls[q].White? <==> q + 1 <= SkipWhite(cls, q)
  {
  }

  lemma {:induction false} RunLimited(cls: Classes, st: Ifs, q: nat)
    requires q <= |cls| && InField(cls, st, q) && st.maxargs > 0
    ensures Finish(Run(cls, st, q, |cls|), |cls|) == LimitedPromise(cls, st, q)
    decreases |cls| - q
  {
    if q < |cls| {
      hide InField, LastField, LimitedPromise, Limited, Step;
      var st' := Step(st, cls[q], q);
      StepLimited(cls, st, q);
      if st'.maxargs > 0 {
        RunLimited(cls, st', q + 1);
      } else {
        StepMaxargs(st, cls[q], q);
        RunLast(cls, st', q + 1);
      }
    } else {
      AtEnd(cls, st);
    }
  }

  lemma StepMaxargs(st: Ifs, c: Class, q: int)
    requires st.maxargs >= 0
    ensures Step(st, c, q).maxargs >= 0
  {
  }

  lemma AtEnd(cls: Classes, st: Ifs)
    requires InField(cls, st, |cls|) && st.maxargs > 0
    ensures Finish(st, |cls|) == LimitedPromise(cls, st, |cls|)
  {
    FieldEndAt(cls, st.start, |cls|);
    assert Limited(cls, |cls|, st.maxargs) == [];
    assert st.start < |cls| ==> Limited(cls, st.start, st.maxargs) == [Field(st.start, |cls|)];
  }

  /** With at most n fields the last follows its own rule. */
  lemma LimitIsLimited(cls: Classes, n: nat)
    requires n > 0
    ensures Finish(Run(cls, Start(n), 0, |cls|), |cls|) == Limited(cls, SkipWhite(cls, 0), n)
  {
    hide Run, Limited, SkipWhite, DelimEnd, Finish;
    RunLimited(cls, Start(n), 0);
    NoneBefore(Limited(cls, SkipWhite(cls, 0), n));
  }

  lemma {:induction false} LimitedAtMost(cls: Classes, i: nat, n: nat)
    requires i <= |cls| && n > 0
    ensures |Limited(cls, i, n)| <= n
    decreases n
  {
    if i < |cls| && n > 1 {
      LimitedAtMost(cls, DelimEnd(cls, FieldEnd(cls, i)), n - 1);
    }
  }

  /**
   * The fields before the last are the standard's. All are if and only if there are fewer than the limit, or as many
   * and the last is not empty.
   */
  lemma {:induction false} LimitedAgrees(cls: Classes, i: nat, n: nat)
    requires i <= |cls| && n > 0
    ensures var s, l := SplitFrom(cls, i), Limited(cls, i, n);
            && (|s| >= n ==> |l| >= n - 1 && l[..n - 1] == s[..n - 1])
            && (l == s <==> |s| < n || (|s| == n && s[n - 1].start < s[n - 1].end))
    decreases n
  {
    if i < |cls| && n > 1 {
      var e := FieldEnd(cls, i);
      var d := DelimEnd(cls, e);
      LimitedAgrees(cls, d, n - 1);
      var s, l := SplitFrom(cls, d), Limited(cls, d, n - 1);
      assert SplitFrom(cls, i) == [Field(i, e)] + s && Limited(cls, i, n) == [Field(i, e)] + l;
      assert ([Field(i, e)] + s)[1..] == s && ([Field(i, e)] + l)[1..] == l;
      if |s| >= n - 1 {
        assert ([Field(i, e)] + l)[..n - 1] == [Field(i, e)] + l[..n - 2];
        assert ([Field(i, e)] + s)[..n - 1] == [Field(i, e)] + s[..n - 2];
      }
    } else if i < |cls| {
      LimitedAtMost(cls, i, n);
    }
  }

  /** An instance: with a limit of one, a text of a single IFS character that is not white space has no field. */
  lemma LimitDropsEmpty()
    ensures Finish(Run([Mark], Start(1), 0, 1), 1) == []
    ensures Finish(Run([Mark], Start(-1), 0, 1), 1) == Split([Mark]) == [Field(0, 0)]
  {
    LimitIsLimited([Mark], 1);
    UnlimitedIsSplit([Mark], -1);
    assert SkipWhite([Mark], 0) == 0 && FieldEnd([Mark], 0) == 0 && DelimEnd([Mark], 0) == 1;
    assert SplitFrom([Mark], 1) == [];
  }

  // ---------- whether the last field has ended ----------

  /**
   * The n-th of the fields from i on ends before the text does, and after its delimiter nothing follows, or the text
   * ends with white space.
   */
  predicate LastEnds(cls: Classes, i: nat, n: nat)
    requires i <= |cls| && n > 0
  {
    var s := SplitFrom(cls, i);
    |s| >= n && s[n - 1].end < |cls| && (|s| == n || cls[|cls| - 1].White?)
  }

  lemma NextOf(cls: Classes, i: nat, n: nat, e: nat)
    requires i < |cls| && n > 1 && e == FieldEnd(cls, i)
    ensures LastEnds(cls, i, n) <==> LastEnds(cls, DelimEnd(cls, e), n - 1)
  {
    hide FieldEnd, DelimEnd;
    var s := SplitFrom(cls, DelimEnd(cls, e));
    assert SplitFrom(cls, i) == [Field(i, e)] + s;
  }

  /** The end of the last field is noted just when it has ended. */
  lemma LastNoted(cls: Classes, st: Ifs)
    requires LastField(cls, st, |cls|)
    ensures st.r >= 0 <==> LastEnds(cls, st.start, 1)
  {
    var d := DelimEnd(cls, FieldEnd(cls, st.start));
    assert SplitFrom(cls, st.start) == [Field(st.start, FieldEnd(cls, st.start))] + SplitFrom(cls, d);
    assert SplitFrom(cls, d) == [] <==> d == |cls|;
  }

  lemma {:induction false} RunStaysLast(cls: Classes, st: Ifs, q: nat)
    requires q <= |cls| && LastField(cls, st, q)
    ensures LastField(cls, Run(cls, st, q, |cls|), |cls|) && Run(cls, st, q, |cls|).start == st.start
    decreases |cls| - q
  {
    if q < |cls| {
      StepLast(cls, st, q);
      RunStaysLast(cls, Step(st, cls[q], q), q + 1);
    }
  }

  lemma StepNoted(cls: Classes, st: Ifs, q: nat)
    requires q < |cls| && InField(cls, st, q) && st.maxargs > 0
    ensures var st' := Step(st, cls[q], q);
            if st'.maxargs > 0 then
              InField(cls, st', q + 1)
              && (LastEnds(cls, NextField(cls, st', q + 1), st'.maxargs)
                  <==> LastEnds(cls, NextField(cls, st, q), st.maxargs))
            else LastField(cls, st', q + 1) && st'.start == NextField(cls, st, q) && st.maxargs == 1
  {
    hide LastField, Limited, DelimEnd, SkipWhite, FieldEnd, LastEnds;
    DelimStep(cls, q);
    if st.ifsspc || cls[q].Other? || (q == st.start && cls[q].White?) {
      StepWithin(cls, st, q);
    } else if st.maxargs == 1 {
      StepToLast(cls, st, q);
    } else {
      StepToNext(cls, st, q);
      FieldEndAt(cls, st.start, q);
      NextOf(cls, st.start, st.maxargs, q);
    }
  }

  lemma {:induction false} RunNoted(cls: Classes, st: Ifs, q: nat)
    requires q <= |cls| && InField(cls, st, q) && st.maxargs > 0
    ensures Run(cls, st, q, |cls|).r >= 0 <==> LastEnds(cls, NextField(cls, st, q), st.maxargs)
    decreases |cls| - q
  {
    if q < |cls| {
      hide InField, LastField, LastEnds, NextField, Step;
      var st' := Step(st, cls[q], q);
      StepNoted(cls, st, q);
      if st'.maxargs > 0 {
        RunNoted(cls, st', q + 1);
      } else {
        StepMaxargs(st, cls[q], q);
        RunStaysLast(cls, st', q + 1);
        LastNoted(cls, Run(cls, st', q + 1, |cls|));
      }
    } else {
      NotEnded(cls, st);
    }
  }

  lemma NotEnded(cls: Classes, st: Ifs)
    requires InField(cls, st, |cls|) && st.maxargs > 0
    ensures !LastEnds(cls, NextField(cls, st, |cls|), st.maxargs)
  {
    FieldEndAt(cls, st.start, |cls|);
    assert SplitFrom(cls, |cls|) == [];
    assert st.start < |cls| ==> SplitFrom(cls, st.start) == [Field(st.start, |cls|)];
  }
}
