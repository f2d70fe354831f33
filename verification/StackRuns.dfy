/** Whole runs over the stack allocator, with marks set inside marks. */
module StackRuns {
  import opened StackModel
  import opened StackAlloc

  /**
   * Memory allocated; bytes allocated and written, kept while other things are done, and then given back or not;
   * a string built and left or grabbed; things done between a mark and its pop.
   */
  datatype Use =
    | Alloc(nbytes: nat)
    | Hold(first: Byte, rest: seq<Byte>, uses: seq<Use>, give: bool)
    | Build(bytes: seq<Byte>, more: seq<seq<Byte>>, grab: bool)
    | Framed(uses: seq<Use>)

  /** A run keeps the marks there are, and so everything before them. */
  method Run(st: Stack, uses: seq<Use>)
    requires st.Valid()
    modifies st
    ensures st.Valid() && st.marks == old(st.marks)
    decreases uses, 0
  {
    hide IsChain, Safe, Nested, AllSafe;
    if uses == [] {
      return;
    }
    match uses[0] {
      case Alloc(nbytes) =>
        var p := st.StAlloc(nbytes);
      case Hold(first, rest, body, give) =>
        var p := Kept(st, [first] + rest, body);
        if give && st.stackp == p.block {
          st.StUnalloc(p);
        }
      case Build(bytes, more, grab) =>
        var p := BuildString(st, bytes, more);
        if grab {
          p := st.StAlloc(p.off - st.stacknxt.off);
        }
      case Framed(body) =>
        Frame(st, body);
    }
    Run(st, uses[1..]);
  }

  /** Allocated and written; no mark is past them. */
  method AllocBytes(st: Stack, bytes: seq<Byte>) returns (p: Pointer)
    requires st.Valid() && bytes != []
    modifies st
    ensures st.Valid() && st.marks == old(st.marks)
    ensures p.block == st.stackp && p.off % 8 == 0 && p.off + |bytes| <= st.stacknxt.off <= |st.heap[st.stackp].space|
    ensures st.heap[st.stackp].space[p.off..p.off + |bytes|] == bytes
    ensures forall m :: m in st.marks && |m.chain| == |st.chain| ==> m.floor <= p.off
  {
    hide IsChain, Safe, Nested, AllSafe, BytesBefore, ShellAlign;
    FloorsBefore(st.marks, st.heap, st.chain, st.stacknxt.off);
    p := st.StAlloc(|bytes|);
    st.Write(bytes, p);
  }

  /**
   * Bytes that were allocated stay where they are and as they are, whatever is done after. While their block is on
   * top they can be given back.
   */
  method Kept(st: Stack, bytes: seq<Byte>, uses: seq<Use>) returns (p: Pointer)
    requires st.Valid() && bytes != []
    modifies st
    ensures st.Valid() && st.marks == old(st.marks) && p.off % 8 == 0
    ensures p.block in st.heap && p.off + |bytes| <= |st.heap[p.block].space|
    ensures st.heap[p.block].space[p.off..p.off + |bytes|] == bytes
    ensures st.stackp == p.block ==>
              p.off <= st.stacknxt.off && forall m :: m in st.marks && |m.chain| == |st.chain| ==> m.floor <= p.off
    decreases uses, 1
  {
    hide IsChain, Safe, Nested, AllSafe, BytesBefore;
    p := AllocBytes(st, bytes);
    // as if a mark that grabs nothing was set after the bytes
    ghost var marks, chain, off := st.marks, st.chain, st.stacknxt.off;
    ghost var m := NewMark(st.heap, chain, off, off);
    MarkHolds(st.heap, chain, off, p.off, bytes);
    SafeMarked(marks, st.heap, chain, off, off);
    st.marks := marks + [m];
    Run(st, uses);
    StillHeld(marks, m, st.heap, st.chain, st.stacknxt.off, p.off, bytes);
    st.marks := marks;
  }

  lemma FloorsBefore(marks: seq<Active>, heap: Heap, chain: seq<Address>, off: nat)
    requires IsChain(heap, chain) && AllSafe(marks, heap, chain, off)
    ensures forall m :: m in marks ==>
              |m.chain| < |chain| || (|m.chain| == |chain| && m.mark.stacknxt.off <= m.floor <= off)
  {
  }

  /** The bytes before a mark include those at a place before it. */
  lemma MarkHolds(heap: Heap, chain: seq<Address>, off: nat, at: nat, bytes: seq<Byte>)
    requires IsChain(heap, chain) && at + |bytes| <= off <= |heap[chain[|chain| - 1]].space|
    requires heap[chain[|chain| - 1]].space[at..at + |bytes|] == bytes
    ensures Holds(NewMark(heap, chain, off, off), at, bytes)
  {
    var space := heap[chain[|chain| - 1]].space;
    assert space[..off][at..at + |bytes|] == space[at..at + |bytes|];
  }

  ghost predicate Holds(m: Active, at: nat, bytes: seq<Byte>) {
    && 0 < |m.chain| == |m.bytes| && at + |bytes| <= |m.bytes[|m.chain| - 1]| <= m.mark.stacknxt.off
    && m.bytes[|m.chain| - 1][at..at + |bytes|] == bytes
  }

  /** While the mark is safe they are there, and the mark can be forgotten. */
  lemma StillHeld(marks: seq<Active>, m: Active, heap: Heap, chain: seq<Address>, off: nat, at: nat, bytes: seq<Byte>)
    requires IsChain(heap, chain) && AllSafe(marks + [m], heap, chain, off) && Holds(m, at, bytes)
    ensures AllSafe(marks, heap, chain, off)
    ensures m.mark.stackp in heap && at + |bytes| <= |heap[m.mark.stackp].space|
    ensures heap[m.mark.stackp].space[at..at + |bytes|] == bytes
    ensures m.chain <= chain && (chain[|chain| - 1] == m.mark.stackp ==> m.chain == chain && m.floor <= off)
  {
    var all := marks + [m];
    assert all[|marks|] == m && m in all;
    forall i | 0 <= i < |marks|
      ensures marks[i] == all[i] && marks[i] in all
    {
    }
    ChainFacts(heap, chain);
    assert chain[..|chain|] == chain;
    hide IsChain;
    var k := |m.chain| - 1;
    assert heap[chain[k]].space[..m.mark.stacknxt.off][at..at + |bytes|] == heap[chain[k]].space[at..at + |bytes|];
  }

  /** STARTSTACKSTR, the first bytes one by one, and then whole strings. */
  method BuildString(st: Stack, bytes: seq<Byte>, more: seq<seq<Byte>>) returns (p: Pointer)
    requires st.Valid()
    modifies st
    ensures st.Valid() && st.marks == old(st.marks) && st.InString(p) && st.Str(p) == bytes + Flatten(more)
  {
    hide IsChain, Safe, Nested, AllSafe;
    p := st.stacknxt;
    assert st.Str(p) == [];
    for i := 0 to |bytes|
      invariant st.Valid() && st.marks == old(st.marks) && st.InString(p) && st.Str(p) == bytes[..i]
    {
      p := st.StPutC(bytes[i], p);
      assert bytes[..i + 1] == bytes[..i] + [bytes[i]];
    }
    assert bytes[..|bytes|] == bytes && bytes + Flatten([]) == bytes && more[..0] == [];
    for i := 0 to |more|
      invariant st.Valid() && st.marks == old(st.marks) && st.InString(p) && st.Str(p) == bytes + Flatten(more[..i])
    {
      p := st.StNPuts(more[i], p);
      assert more[..i + 1][..i] == more[..i];
      assert bytes + Flatten(more[..i]) + more[i] == bytes + (Flatten(more[..i]) + more[i]);
    }
    assert more[..|more|] == more;
  }

  function Flatten(parts: seq<seq<Byte>>): seq<Byte>
    decreases |parts|
  {
    if parts == [] then [] else Flatten(parts[..|parts| - 1]) + parts[|parts| - 1]
  }

  /** Between a mark and its pop anything may be done: the blocks, the registers and every byte before are back. */
  method Frame(st: Stack, uses: seq<Use>)
    requires st.Valid()
    modifies st
    ensures st.Valid() && st.marks == old(st.marks) && st.chain == old(st.chain)
    ensures st.stackp == old(st.stackp) && st.stacknxt == old(st.stacknxt) && st.stacknleft == old(st.stacknleft)
    ensures BytesBefore(st.heap, st.chain, st.stacknxt.off) == old(BytesBefore(st.heap, st.chain, st.stacknxt.off))
    decreases uses, 1
  {
    hide IsChain, Safe, Nested, AllSafe, BytesBefore;
    ghost var k := |st.marks|;
    var mark := st.SetStackMark();
    Run(st, uses);
    st.PopStackMark(mark, k, false);
  }

  /**
   * A mark at the start of a block other than the base cannot be popped twice: once it was popped nothing keeps the
   * block in its place, and when a string there grows the block may move. Then the loop of a second pop, which looks
   * for the mark's block, has no block to stop at.
   */
  method PoppedTwice(st: Stack, mark: StackMark, ghost i: nat, newlen: nat)
    requires st.Valid() && i < |st.marks| && st.marks[i].mark == mark
    requires mark.stackp != STACKBASE && mark.stacknxt.off == 0
    requires newlen > mark.stacknleft && newlen % 8 == 0
    modifies st
    ensures st.Valid() && mark.stackp !in st.heap && mark.stackp !in st.chain
  {
    hide Safe, Nested, AllSafe, BytesBefore;
    ghost var m := st.marks[i];
    MarkInChain(st.marks, st.heap, st.chain, st.stacknxt.off, i);
    MarkAtStart(m, st.heap, st.chain, st.stacknxt.off);
    st.PopStackMark(mark, i, false);
    st.GrowByRealloc(newlen, true);
  }

  lemma MarkAtStart(m: Active, heap: Heap, chain: seq<Address>, off: nat)
    requires IsChain(heap, chain) && Safe(m, heap, chain, off)
    ensures m.mark.stacknxt.block == m.mark.stackp
  {}

  /** An instance: such a mark, popped. */
  method PoppedAtStart() returns (st: Stack, mark: StackMark)
    ensures st.Valid() && mark.stackp != STACKBASE && mark.stackp !in st.chain
  {
    hide Safe, Nested, AllSafe, BytesBefore;
    st := new Stack();
    ChainFacts(st.heap, st.chain);
    var p := st.StAlloc(MINSIZE + 8);
    st.StUnalloc(p);
    mark := st.SetStackMark();
    PoppedTwice(st, mark, 0, mark.stacknleft + 8);
  }
}
