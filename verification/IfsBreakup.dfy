/** Splitting a string in place, with a fast path over eight bytes at a time (ifsbreakup in src/expand.c). */
module IfsBreakup {
  import opened CBytes
  import opened IfsSplit

  predicate IsWSpace(c: Byte) {
    c == 32 || 9 <= c <= 13
  }

  function ClassOf(ifs: seq<Byte>, c: Byte): Class {
    if c !in ifs then Other else if IsWSpace(c) then White else Mark
  }

  /** Bytes outside the recorded region are not split at. */
  function ClassesOf(ifs: seq<Byte>, text: seq<Byte>, lo: nat, hi: nat): (cls: Classes)
    ensures |cls| == |text|
  {
    seq(|text|, i requires 0 <= i < |text| => if lo <= i < hi then ClassOf(ifs, text[i]) else Other)
  }

  /** What a value of IFS can be here: bytes below 128, and no NUL. */
  predicate SingleByte(ifs: seq<Byte>) {
    forall c :: c in ifs ==> 0 < c < 128
  }

  /** The table of the bytes below 128 to stop at (changeifs). */
  method ChangeIfs(ifs: seq<Byte>) returns (ifsmap: array<bool>)
    requires SingleByte(ifs)
    ensures fresh(ifsmap) && ifsmap.Length == 128
    ensures forall c :: 0 <= c < 128 ==> (ifsmap[c] <==> c in ifs || c == NUL)
  {
    ifsmap := new bool[128](_ => false);
    var p := 0;
    while true
      invariant 0 <= p <= |ifs|
      invariant forall c :: 0 <= c < 128 ==> (ifsmap[c] <==> c in ifs[..p])
      decreases |ifs| - p
    {
      var c := At(ifs, p);
      assert p < |ifs| ==> c in ifs;
      ifsmap[c] := true;
      if c == NUL {
        assert p == |ifs|;
        break;
      }
      assert ifs[..p + 1] == ifs[..p] + [c];
      p := p + 1;
    }
    assert ifs[..p] == ifs;
  }

  /** The fields made so far are before start, one after the other. */
  ghost predicate Ordered(fields: seq<Field>, start: int) {
    && (forall i :: 0 <= i < |fields| ==> 0 <= fields[i].start <= fields[i].end < start)
    && (forall i, j :: 0 <= i < j < |fields| ==> fields[i].end < fields[j].start)
  }

  /** Each field of a splitter is ended by a NUL, and nothing else is changed. */
  ghost predicate Cut(block: seq<Byte>, text: seq<Byte>, fields: seq<Field>) {
    && |block| == |text| + 1 && block[|text|] == NUL
    && (forall i :: 0 <= i < |fields| ==> 0 <= fields[i].end < |text| && block[fields[i].end] == NUL)
    && (forall k :: 0 <= k < |text| && (forall i :: 0 <= i < |fields| ==> fields[i].end != k) ==> block[k] == text[k])
  }

  lemma CutAt(block: seq<Byte>, text: seq<Byte>, fields: seq<Field>, start: int, q: int)
    requires Cut(block, text, fields) && Ordered(fields, start) && 0 <= start <= q < |text|
    ensures |block| == |text| + 1 && block[q] == text[q]
  {
  }

  lemma StartsCut(block: seq<Byte>, text: seq<Byte>)
    requires block == text + [NUL]
    ensures Cut(block, text, []) && Ordered([], 0)
  {
  }

  lemma CutLength(block: seq<Byte>, text: seq<Byte>, fields: seq<Field>)
    requires Cut(block, text, fields)
    ensures |block| == |text| + 1
  {
  }

  lemma OrderedLater(fields: seq<Field>, start: int)
    requires Ordered(fields, start)
    ensures forall s :: s >= start ==> Ordered(fields, s)
  {
  }

  lemma OrderedMore(fields: seq<Field>, start: int, q: int)
    requires Ordered(fields, start) && 0 <= start <= q
    ensures Ordered(fields + [Field(start, q)], q + 1)
  {
  }

  lemma CutMore(block: seq<Byte>, text: seq<Byte>, fields: seq<Field>, start: int, q: int)
    requires Cut(block, text, fields) && 0 <= q < |text|
    ensures Cut(block[q := NUL], text, fields + [Field(start, q)])
  {
    var fields' := fields + [Field(start, q)];
    forall k | 0 <= k < |text| && forall i :: 0 <= i < |fields'| ==> fields'[i].end != k
      ensures block[q := NUL][k] == text[k]
    {
      assert fields'[|fields|].end != k;
      assert forall i :: 0 <= i < |fields| ==> fields'[i] == fields[i];
    }
  }

  /** A field of the text can be read as a string at p. */
  predicate ReadAt(block: seq<Byte>, text: seq<Byte>, f: Field, p: int) {
    0 <= f.start <= f.end <= |text| && p == f.start && CString(block, p) == text[f.start..f.end]
  }

  /** The list has the fields. */
  predicate Readable(block: seq<Byte>, text: seq<Byte>, fields: seq<Field>, list: seq<int>) {
    |list| == |fields| && forall i :: 0 <= i < |fields| ==> ReadAt(block, text, fields[i], list[i])
  }

  class IfsState {
    const ifs: seq<Byte>
    const block: array<Byte>
    var start: int
    var r: int
    var maxargs: int
    var ifsspc: bool
    var arglist: seq<int>
    ghost const text: seq<Byte>
    ghost var fields: seq<Field>

    constructor (block: array<Byte>, ifs: seq<Byte>, maxargs: int, ghost text: seq<Byte>)
      ensures this.block == block && this.ifs == ifs && this.text == text
      ensures State() == Start(maxargs) && arglist == []
    {
      this.block, this.ifs, this.text := block, ifs, text;
      start, r, this.maxargs, ifsspc, arglist := 0, -1, maxargs, false, [];
      fields := [];
    }

    ghost function State(): Ifs
      reads this
    {
      Ifs(start, r, maxargs, ifsspc, fields)
    }

    /** At position p: the fields made are behind, and the list has where they start. */
    ghost predicate Valid(p: int)
      reads this, block
    {
      && 0 <= start <= p <= |text| && (r == -1 || (maxargs == 0 && start <= r < p))
      && Ordered(fields, start) && Cut(block[..], text, fields)
      && |arglist| == |fields| && forall i :: 0 <= i < |fields| ==> arglist[i] == fields[i].start
    }

    /** The part of ifsbreakup_slow that makes a field. */
    method EndField(q: int)
      requires Valid(q) && q < |text| && maxargs != 0
      modifies this`start, this`fields, this`arglist, block
      ensures Valid(q + 1) && start == q + 1 && fields == old(fields) + [Field(old(start), q)]
    {
      CutMore(block[..], text, fields, start, q);
      OrderedMore(fields, start, q);
      hide Cut, Ordered;
      CutLength(block[..], text, fields);
      block[q] := NUL;
      assert block[..] == old(block[..])[q := NUL];
      fields := fields + [Field(start, q)];
      arglist := arglist + [start];
      start := q + 1;
    }

    /** One byte (ifsbreakup_slow). */
    method Slow(p: int) returns (p': int)
      requires Valid(p) && p < |text|
      modifies this, block
      ensures p' == p + 1 && Valid(p') && State() == Step(old(State()), ClassOf(ifs, text[p]), p)
    {
      hide Cut, Ordered, IsWSpace;
      CutAt(block[..], text, fields, start, p);
      OrderedLater(fields, start);
      var q := p;
      var isifs := block[q] in ifs;
      var isdefifs := isifs && IsWSpace(block[q]);
      p' := p + 1;
      if maxargs == 0 {
        if isdefifs {
          if r < 0 {
            r := q;
          }
          return;
        }
        if !(isifs && ifsspc) {
          r := -1;
        }
      } else if ifsspc {
        if isifs {
          q := p';
        }
        start := q;
        if isdefifs {
          return;
        }
      } else if isifs {
        ifsspc := isdefifs;
        if q != start || !ifsspc {
          if maxargs > 0 {
            maxargs := maxargs - 1;
            if maxargs == 0 {
              r := q;
              return;
            }
          }
          EndField(q);
          return;
        }
        start := p';
      }
      ifsspc := false;
    }

    /** The last field, if it is not empty. */
    method EndText(ghost p: int) returns (list: seq<int>)
      requires Valid(p)
      requires forall k :: 0 <= k < |text| ==> text[k] != NUL
      modifies block
      ensures Readable(block[..], text, Finish(State(), |text|), list)
    {
      hide Cut, Ordered;
      ghost var block0 := block[..];
      CutLength(block0, text, fields);
      if r >= 0 {
        block[r] := NUL;
      }
      LastRead(block0, block[..], text, fields, start, r);
      forall i | 0 <= i < |fields|
        ensures ReadAt(block[..], text, fields[i], arglist[i])
      {
        FieldRead(block0, block[..], text, fields, start, i);
      }
      if block[start] == NUL {
        return arglist;
      }
      return arglist + [start];
    }

    /** The state after bytes from p0 on that were skipped. */
    method Skipped(p0: int, ghost p: int)
      requires Valid(p0) && p0 < p <= |text|
      modifies this`r, this`start, this`ifsspc
      ensures Valid(p)
      ensures var st := old(State());
              State() == if st.maxargs == 0 then st.(r := -1, ifsspc := false)
                         else if st.ifsspc then st.(start := p0, ifsspc := false)
                         else st
    {
      hide Cut, Ordered;
      OrderedLater(fields, start);
      if maxargs == 0 {
        r := -1;
      } else if ifsspc {
        start := p0;
      }
      ifsspc := false;
    }

    /** Skips bytes that are not split at, eight at a time. */
    method SkipEights(p: int, endoff: int, ifsmap: array<bool>) returns (p': int)
      requires Valid(p) && p <= endoff <= |text| && ifsmap.Length == 128
      requires forall k :: 0 <= k < |text| ==> 0 <= text[k] < 256
      requires forall c :: 0 <= c < 128 ==> (ifsmap[c] <==> c in ifs || c == NUL)
      requires SingleByte(ifs)
      ensures p <= p' <= endoff
      ensures forall k :: p <= k < p' ==> text[k] !in ifs
    {
      hide Cut, Ordered;
      p' := p;
      while endoff - p' >= 8
        invariant p <= p' <= endoff
        invariant forall k :: p <= k < p' ==> text[k] !in ifs
        decreases endoff - p'
      {
        var stop := false;
        for i := 0 to 8
          invariant !stop ==> forall k :: p' <= k < p' + i ==> text[k] !in ifs
        {
          CutAt(block[..], text, fields, start, p' + i);
          if block[p' + i] >= 128 || ifsmap[block[p' + i]] {
            stop := true;
          }
        }
        if stop {
          break;
        }
        p' := p' + 8;
      }
    }
  }

  /** Bytes that are not split at have the effect of one. */
  lemma {:induction false} RunOthers(cls: Classes, st: Ifs, q: nat, hi: nat)
    requires q <= hi <= |cls| && forall k :: q <= k < hi ==> cls[k].Other?
    ensures Run(cls, st, q, hi) == if q == hi then st else Step(st, Other, q)
    decreases hi - q
  {
    if q < hi {
      RunOthers(cls, Step(st, Other, q), q + 1, hi);
    }
  }

  lemma {:induction false} RunSplit(cls: Classes, st: Ifs, q: nat, mid: nat, hi: nat)
    requires q <= mid <= hi <= |cls|
    ensures Run(cls, st, q, hi) == Run(cls, Run(cls, st, q, mid), mid, hi)
    decreases mid - q
  {
    if q < mid {
      RunSplit(cls, Step(st, cls[q], q), q + 1, mid, hi);
    }
  }

  /** Some bytes that are not split at, after the state at p0. */
  lemma Ran(cls: Classes, maxargs: int, p0: nat, p: nat)
    requires p0 <= p <= |cls| && forall k :: p0 <= k < p ==> cls[k].Other?
    ensures var st := Run(cls, Start(maxargs), 0, p0);
            Run(cls, Start(maxargs), 0, p) ==
              if p == p0 then st
              else if st.maxargs == 0 then st.(r := -1, ifsspc := false)
              else if st.ifsspc then st.(start := p0, ifsspc := false)
              else st
  {
    var st := Run(cls, Start(maxargs), 0, p0);
    RunSplit(cls, Start(maxargs), 0, p0, p);
    RunOthers(cls, st, p0, p);
    hide Run;
  }

  lemma RanOne(cls: Classes, maxargs: int, p: nat)
    requires p < |cls|
    ensures Run(cls, Start(maxargs), 0, p + 1) == Step(Run(cls, Start(maxargs), 0, p), cls[p], p)
  {
    var st := Run(cls, Start(maxargs), 0, p);
    RunSplit(cls, Start(maxargs), 0, p, p + 1);
    assert Run(cls, st, p, p + 1) == Run(cls, Step(st, cls[p], p), p + 1, p + 1);
  }

  lemma RanNone(cls: Classes, maxargs: int)
    ensures Run(cls, Start(maxargs), 0, 0) == Start(maxargs)
  {
  }

  /** Where the start and the end of the last field can be. */
  ghost predicate InText(st: Ifs, q: nat) {
    && 0 <= st.start <= q && (st.r == -1 || (st.maxargs == 0 && st.start <= st.r < q))
    && (st.ifsspc && st.maxargs != 0 ==> st.start == q)
  }

  lemma {:induction false} RunInText(cls: Classes, st: Ifs, q: nat, hi: nat)
    requires q <= hi <= |cls| && InText(st, q)
    ensures InText(Run(cls, st, q, hi), hi)
    decreases hi - q
  {
    if q < hi {
      RunInText(cls, Step(st, cls[q], q), q + 1, hi);
    }
  }

  /**
   * The text after the region changes nothing if and only if there is none, or the last field is not known to have
   * ended in the region.
   */
  lemma FinishEarly(cls: Classes, maxargs: int, p: nat)
    requires p <= |cls| && forall k :: p <= k < |cls| ==> cls[k].Other?
    ensures var st := Run(cls, Start(maxargs), 0, p);
            Finish(st, |cls|) == Finish(Run(cls, Start(maxargs), 0, |cls|), |cls|) <==> p == |cls| || st.r < 0
  {
    RunInText(cls, Start(maxargs), 0, p);
    Ran(cls, maxargs, p, |cls|);
    hide Run;
    var st := Run(cls, Start(maxargs), 0, p);
    if p < |cls| && st.r >= 0 {
      assert Finish(st.(r := -1, ifsspc := false), |cls|) == st.fields + [Field(st.start, |cls|)];
      assert (st.fields + [Field(st.start, |cls|)])[|st.fields|] == Field(st.start, |cls|);
      if st.start < st.r {
        assert (st.fields + [Field(st.start, st.r)])[|st.fields|] == Field(st.start, st.r);
      }
    }
  }

  lemma {:induction false} RunUnlimited(cls: Classes, st: Ifs, q: nat, hi: nat)
    requires q <= hi <= |cls| && st.maxargs < 0 && st.r == -1
    ensures Run(cls, st, q, hi).maxargs < 0 && Run(cls, st, q, hi).r == -1
    decreases hi - q
  {
    if q < hi {
      RunUnlimited(cls, Step(st, cls[q], q), q + 1, hi);
    }
  }

  /** A field that was made can be read. */
  lemma FieldRead(block: seq<Byte>, block': seq<Byte>, text: seq<Byte>, fields: seq<Field>, start: int, i: nat)
    requires Cut(block, text, fields) && Ordered(fields, start) && start <= |text| && i < |fields|
    requires |block'| == |block| && (forall k :: 0 <= k < start ==> block'[k] == block[k])
    requires forall k :: 0 <= k < |text| ==> text[k] != NUL
    ensures ReadAt(block', text, fields[i], fields[i].start)
  {
    var f := fields[i];
    assert forall k :: f.start <= k < f.end ==> block'[k] == text[k];
    CStringAt(block', f.start, f.end);
    assert block'[f.start..f.end] == text[f.start..f.end];
  }

  /** And so can the last. */
  lemma LastRead(block: seq<Byte>, block': seq<Byte>, text: seq<Byte>, fields: seq<Field>, start: nat, r: int)
    requires Cut(block, text, fields) && Ordered(fields, start) && start <= |text|
    requires (r == -1 && block' == block) || (start <= r < |text| && block' == block[r := NUL])
    requires forall k :: 0 <= k < |text| ==> text[k] != NUL
    ensures var end := if r >= 0 then r else |text|;
            && |block'| > start && (block'[start] == NUL <==> start == end)
            && CString(block', start) == text[start..end]
  {
    var end := if r >= 0 then r else |text|;
    assert forall k :: start <= k < end ==> block'[k] == text[k];
    CStringAt(block', start, end);
    assert block'[start..end] == text[start..end];
  }

  /**
   * The fields of a text that is split at IFS characters from begoff to endoff, at most maxargs if that is positive.
   */
  ghost function Fields(ifs: seq<Byte>, text: seq<Byte>, begoff: nat, endoff: nat, maxargs: int): seq<Field> {
    var cls := ClassesOf(ifs, text, begoff, endoff);
    if maxargs <= 0 then Split(cls) else Limited(cls, SkipWhite(cls, 0), maxargs)
  }

  /** The byte by byte splitter gives the fields, whatever skips bytes for it. */
  lemma FieldsOfRun(ifs: seq<Byte>, text: seq<Byte>, begoff: nat, endoff: nat, maxargs: int)
    requires maxargs != 0
    ensures var cls := ClassesOf(ifs, text, begoff, endoff);
            Finish(Run(cls, Start(maxargs), 0, |text|), |text|) == Fields(ifs, text, begoff, endoff, maxargs)
  {
    var cls := ClassesOf(ifs, text, begoff, endoff);
    if maxargs < 0 {
      UnlimitedIsSplit(cls, maxargs);
    } else {
      LimitIsLimited(cls, maxargs);
    }
  }

  /** The state of the byte by byte splitter at the end of the region. */
  ghost function Stopped(ifs: seq<Byte>, text: seq<Byte>, begoff: nat, endoff: nat, maxargs: int): Ifs
    requires begoff <= endoff <= |text|
  {
    Run(ClassesOf(ifs, text, begoff, endoff), Start(maxargs), 0, endoff)
  }

  lemma {:induction false} RunPrefix(cls: Classes, st: Ifs, q: nat, hi: nat)
    requires q <= hi <= |cls|
    ensures Run(cls[..hi], st, q, hi) == Run(cls, st, q, hi)
    decreases hi - q
  {
    if q < hi {
      RunPrefix(cls, Step(st, cls[q], q), q + 1, hi);
    }
  }

  /**
   * With a limit of maxargs fields, the last one ends in the region: by its bytes, that field and its delimiter are
   * in it, and either no other field is or it ends with white space.
   */
  predicate EndsInRegion(ifs: seq<Byte>, text: seq<Byte>, begoff: nat, endoff: nat, maxargs: int)
    requires begoff <= endoff <= |text|
  {
    var region := ClassesOf(ifs, text, begoff, endoff)[..endoff];
    maxargs > 0 && LastEnds(region, SkipWhite(region, 0), maxargs)
  }

  lemma EndNoted(ifs: seq<Byte>, text: seq<Byte>, begoff: nat, endoff: nat, maxargs: int)
    requires begoff <= endoff <= |text| && maxargs != 0
    ensures Stopped(ifs, text, begoff, endoff, maxargs).r >= 0 <==> EndsInRegion(ifs, text, begoff, endoff, maxargs)
  {
    hide Run, LastEnds;
    var cls := ClassesOf(ifs, text, begoff, endoff);
    if maxargs < 0 {
      RunUnlimited(cls, Start(maxargs), 0, endoff);
    } else {
      RunPrefix(cls, Start(maxargs), 0, endoff);
      RunNoted(cls[..endoff], Start(maxargs), 0);
    }
  }

  /**
   * They are the fields of the text, unless text follows the region and the last field ends in the region: then that
   * text is lost.
   */
  lemma StoppedFields(ifs: seq<Byte>, text: seq<Byte>, begoff: nat, endoff: nat, maxargs: int)
    requires begoff <= endoff <= |text| && maxargs != 0
    ensures Finish(Stopped(ifs, text, begoff, endoff, maxargs), |text|) == Fields(ifs, text, begoff, endoff, maxargs)
            <==> endoff == |text| || !EndsInRegion(ifs, text, begoff, endoff, maxargs)
  {
    FieldsOfRun(ifs, text, begoff, endoff, maxargs);
    FinishEarly(ClassesOf(ifs, text, begoff, endoff), maxargs, endoff);
    EndNoted(ifs, text, begoff, endoff, maxargs);
  }

  /**
   * An instance: of "a b" with the region "a ", one field at most is only "a". The read builtin records such a region
   * when the b was escaped, and then always another one after it, here an empty one, which changes nothing.
   */
  lemma TextLost()
    ensures var ifs, text := [32], [97, 32, 98];
            && Finish(Stopped(ifs, text, 0, 2, 1), 3) == [Field(0, 1)]
            && Fields(ifs, text, 0, 2, 1) == [Field(0, 3)]
  {
    var ifs, text := [32], [97, 32, 98];
    var cls := ClassesOf(ifs, text, 0, 2);
    assert cls == [Other, White, Other];
    var st := Start(1);
    assert Run(cls, Step(Step(st, Other, 0), White, 1), 2, 2) == Step(Step(st, Other, 0), White, 1);
    assert Run(cls, Step(st, Other, 0), 1, 2) == Step(Step(st, Other, 0), White, 1);
    assert SkipWhite(cls, 0) == 0;
    assert FieldEnd(cls, 1) == 1 && FieldEnd(cls, 0) == 1;
    assert SkipWhite(cls, 2) == 2 && SkipWhite(cls, 1) == 2 && DelimEnd(cls, 1) == 2;
    assert Trim(cls, 3) == 3;
  }

  /**
   * Splits the text in block, which ends with NUL, in the region from begoff to endoff: the list has where each
   * field starts, and there is a NUL where it ends. The fields are those of splitting byte by byte.
   */
  method IfsBreakup(block: array<Byte>, ifs: seq<Byte>, ifsmap: array<bool>, begoff: nat, endoff: nat, maxargs: int,
                    ghost text: seq<Byte>)
    returns (arglist: seq<int>)
    requires block[..] == text + [NUL] && (forall k :: 0 <= k < |text| ==> 0 < text[k] < 256)
    requires SingleByte(ifs) && ifsmap.Length == 128
    requires forall c :: 0 <= c < 128 ==> (ifsmap[c] <==> c in ifs || c == NUL)
    requires begoff <= endoff <= |text| && maxargs != 0
    modifies block
    ensures Readable(block[..], text, Finish(Stopped(ifs, text, begoff, endoff, maxargs), |text|), arglist)
    ensures maxargs < 0 || endoff == |text| ==>
              Readable(block[..], text, Fields(ifs, text, begoff, endoff, maxargs), arglist)
  {
    hide Step, Run, Cut, Ordered, ReadAt, Finish, Fields;
    StartsCut(block[..], text);
    var ifst := new IfsState(block, ifs, maxargs, text);
    ghost var cls := ClassesOf(ifs, text, begoff, endoff);
    var p: int := begoff;
    RanNone(cls, maxargs);
    Ran(cls, maxargs, 0, begoff);
    while true
      invariant begoff <= p <= endoff && ifst.block == block && ifst.ifs == ifs && ifst.text == text
      invariant fresh(ifst) && ifst.Valid(p) && ifst.State() == Run(cls, Start(maxargs), 0, p)
      decreases endoff - p
    {
      var p0 := p;
      p := ifst.SkipEights(p, endoff, ifsmap);
      Ran(cls, maxargs, p0, p);
      if p != p0 {
        ifst.Skipped(p0, p);
      }
      if p >= endoff {
        break;
      }
      RanOne(cls, maxargs, p);
      p := ifst.Slow(p);
    }
    StoppedFields(ifs, text, begoff, endoff, maxargs);
    arglist := ifst.EndText(p);
  }
}
