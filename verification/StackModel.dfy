/** What the stack allocator's state is, and when the marks set on it are safe. */
module StackModel {
  type Address = int
  type Byte = int // nothing here depends on the range

  /** A block of memory; the bytes of the block's header are not modelled, only its link. */
  datatype Block = Block(prev: Address, space: seq<Byte>)

  datatype Pointer = Pointer(block: Address, off: nat)

  type Heap = map<Address, Block>

  const STACKBASE: Address := 0
  const MINSIZE: nat := 504

  function ShellAlign(n: nat): (r: nat)
    ensures n <= r < n + 8 && r % 8 == 0
  {
    (n + 7) / 8 * 8
  }

  /** The blocks in use: a chain from the base block up to the top. */
  ghost predicate IsChain(heap: Heap, chain: seq<Address>) {
    && |chain| > 0 && chain[0] == STACKBASE
    && (forall a :: a in heap <==> a in chain)
    && (forall i, j :: 0 <= i < j < |chain| ==> chain[i] != chain[j])
    && (forall i :: 0 < i < |chain| ==> heap[chain[i]].prev == chain[i - 1])
    && (forall i :: 0 <= i < |chain| ==> Sized(heap[chain[i]].space))
  }

  predicate Sized(space: seq<Byte>) {
    |space| >= MINSIZE && |space| % 8 == 0
  }

  /** What pushstackmark saves. */
  datatype StackMark = StackMark(stackp: Address, stacknxt: Pointer, stacknleft: nat)

  /** A mark still to be popped: what it grabbed, and the chain and the bytes there were before it. */
  datatype Active = Active(mark: StackMark, floor: nat, chain: seq<Address>, bytes: seq<seq<Byte>>)

  /** The bytes before a position in the top block of a chain. */
  ghost function BytesBefore(heap: Heap, chain: seq<Address>, off: nat): (bytes: seq<seq<Byte>>)
    requires IsChain(heap, chain) && off <= |heap[chain[|chain| - 1]].space|
    ensures |bytes| == |chain|
  {
    seq(|chain|, i requires 0 <= i < |chain| =>
      if i < |chain| - 1 then heap[chain[i]].space else heap[chain[i]].space[..off])
  }

  /** Nothing before the mark has moved or changed, and while its block is on top the next byte is past it. */
  ghost predicate Safe(m: Active, heap: Heap, chain: seq<Address>, off: nat)
    requires IsChain(heap, chain)
  {
    && 0 < |m.chain| <= |chain| && m.chain == chain[..|m.chain|]
    && m.mark.stackp == m.mark.stacknxt.block == m.chain[|m.chain| - 1]
    && m.mark.stacknxt.off % 8 == 0 && m.mark.stacknxt.off <= m.floor
    && m.mark.stacknxt.off + m.mark.stacknleft == |heap[m.mark.stackp].space|
    && |m.bytes| == |m.chain|
    && (forall i :: 0 <= i < |m.chain| - 1 ==> heap[chain[i]].space == m.bytes[i])
    && heap[m.mark.stackp].space[..m.mark.stacknxt.off] == m.bytes[|m.chain| - 1]
    && (|m.chain| == |chain| ==> m.floor <= off && Pinned(m))
  }

  /** The mark's block cannot be moved while the next byte is not before the floor. */
  ghost predicate Pinned(m: Active) {
    m.mark.stackp == STACKBASE || m.floor > 0
  }

  /** The later mark is not before the earlier. */
  ghost predicate Nested(m: Active, later: Active) {
    && |m.chain| <= |later.chain| && m.chain == later.chain[..|m.chain|]
    && (|m.chain| == |later.chain| ==> m.floor <= later.mark.stacknxt.off && Pinned(m))
  }

  ghost predicate AllSafe(marks: seq<Active>, heap: Heap, chain: seq<Address>, off: nat)
    requires IsChain(heap, chain)
  {
    && (forall m :: m in marks ==> Safe(m, heap, chain, off))
    && (forall i, j :: 0 <= i < j < |marks| ==> Nested(marks[i], marks[j]))
  }

  // ---------- what keeps the marks safe ----------

  /** Moving the next byte within the top block, not before a mark's floor. */
  lemma SafeMoved(marks: seq<Active>, heap: Heap, chain: seq<Address>, off: nat, off': nat)
    requires IsChain(heap, chain) && AllSafe(marks, heap, chain, off)
    requires forall m :: m in marks && |m.chain| == |chain| ==> m.floor <= off'
    ensures AllSafe(marks, heap, chain, off')
  {
  }

  /** A mark below the top stays safe while the blocks up to its own stay as they are. */
  lemma SafeBelow(m: Active, heap: Heap, chain: seq<Address>, off: nat, heap': Heap, chain': seq<Address>, off': nat)
    requires IsChain(heap, chain) && IsChain(heap', chain') && Safe(m, heap, chain, off)
    requires |m.chain| < |chain'| && chain[..|m.chain|] == chain'[..|m.chain|]
    requires forall i :: 0 <= i < |m.chain| ==>
               chain[i] in heap && chain[i] in heap' && heap'[chain[i]].space == heap[chain[i]].space
    ensures Safe(m, heap', chain', off')
  {
    assert forall i :: 0 <= i < |m.chain| ==> chain[i] == m.chain[i] == chain'[i];
  }

  /** A new block on top. */
  lemma ChainPushed(heap: Heap, chain: seq<Address>, a: Address, space: seq<Byte>)
    requires IsChain(heap, chain) && a !in heap && Sized(space)
    ensures IsChain(heap[a := Block(chain[|chain| - 1], space)], chain + [a])
  {
    assert forall i :: 0 <= i < |chain| ==> chain[i] in heap;
  }

  lemma SafePushed(marks: seq<Active>, heap: Heap, chain: seq<Address>, off: nat, a: Address, space: seq<Byte>,
      off': nat)
    requires IsChain(heap, chain) && AllSafe(marks, heap, chain, off)
    requires a !in heap && Sized(space)
    ensures var heap' := heap[a := Block(chain[|chain| - 1], space)];
            IsChain(heap', chain + [a]) && AllSafe(marks, heap', chain + [a], off')
  {
    ChainPushed(heap, chain, a, space);
    var heap' := heap[a := Block(chain[|chain| - 1], space)];
    forall m | m in marks
      ensures Safe(m, heap', chain + [a], off')
    {
      assert forall i :: 0 <= i < |m.chain| ==> chain[i] in heap;
      SafeBelow(m, heap, chain, off, heap', chain + [a], off');
    }
  }

  lemma ChainFacts(heap: Heap, chain: seq<Address>)
    requires IsChain(heap, chain)
    ensures |chain| > 0 && chain[0] == STACKBASE
    ensures forall i :: 0 <= i < |chain| ==> chain[i] in heap
    ensures forall i, j :: 0 <= i < j < |chain| ==> chain[i] != chain[j]
  {
  }

  lemma NotInTop(m: Active, heap: Heap, chain: seq<Address>)
    requires IsChain(heap, chain) && |chain| > 1 && Safe(m, heap, chain, 0)
    ensures 0 < |m.chain| < |chain|
  {
  }

  /** The top block freed. */
  lemma ChainFreed(heap: Heap, chain: seq<Address>)
    requires IsChain(heap, chain) && |chain| > 1
    ensures heap[chain[|chain| - 1]].prev == chain[|chain| - 2]
    ensures IsChain(heap - {chain[|chain| - 1]}, chain[..|chain| - 1])
    ensures forall i :: 0 <= i < |chain| - 1 ==>
              chain[i] in heap && chain[i] in heap - {chain[|chain| - 1]}
              && (heap - {chain[|chain| - 1]})[chain[i]] == heap[chain[i]]
  {
    ChainFacts(heap, chain);
    var heap', chain' := heap - {chain[|chain| - 1]}, chain[..|chain| - 1];
    forall b
      ensures b in heap' <==> b in chain'
    {
      if b in heap' {
        var i :| 0 <= i < |chain| && chain[i] == b;
        assert chain'[i] == b;
      }
    }
  }

  /** The top block moved and resized. */
  lemma ChainReplaced(heap: Heap, chain: seq<Address>, a: Address, space: seq<Byte>)
    requires IsChain(heap, chain) && |chain| > 1 && Sized(space)
    requires a == chain[|chain| - 1] || a !in heap
    ensures var top := chain[|chain| - 1];
            IsChain((heap - {top})[a := Block(heap[top].prev, space)], chain[..|chain| - 1] + [a])
  {
    ChainFreed(heap, chain);
    ChainPushed(heap - {chain[|chain| - 1]}, chain[..|chain| - 1], a, space);
  }

  /** The blocks below are as they were. */
  lemma ReplacedBelow(heap: Heap, chain: seq<Address>, a: Address, block: Block, k: nat)
    requires IsChain(heap, chain) && k < |chain|
    requires a == chain[|chain| - 1] || a !in heap
    ensures chain[..k] == (chain[..|chain| - 1] + [a])[..k]
    ensures forall i :: 0 <= i < k ==>
              && chain[i] in heap && chain[i] in (heap - {chain[|chain| - 1]})[a := block]
              && (heap - {chain[|chain| - 1]})[a := block][chain[i]] == heap[chain[i]]
  {
    ChainFacts(heap, chain);
  }

  /** That happens only while nothing in the block is in use, so no mark is in it. */
  lemma SafeReplaced(marks: seq<Active>, heap: Heap, chain: seq<Address>, a: Address, space: seq<Byte>, off': nat)
    requires IsChain(heap, chain) && AllSafe(marks, heap, chain, 0)
    requires |chain| > 1 && Sized(space)
    requires a == chain[|chain| - 1] || a !in heap
    ensures forall m :: m in marks ==> |m.chain| < |chain|
    ensures var top := chain[|chain| - 1];
            var heap' := (heap - {top})[a := Block(heap[top].prev, space)];
            var chain' := chain[..|chain| - 1] + [a];
            IsChain(heap', chain') && AllSafe(marks, heap', chain', off')
  {
    ChainReplaced(heap, chain, a, space);
    var top := chain[|chain| - 1];
    assert top in heap;
    hide IsChain;
    var block := Block(heap[top].prev, space);
    forall m | m in marks
      ensures |m.chain| < |chain| && Safe(m, (heap - {top})[a := block], chain[..|chain| - 1] + [a], off')
    {
      NotInTop(m, heap, chain);
      hide Safe;
      ReplacedBelow(heap, chain, a, block, |m.chain|);
      SafeBelow(m, heap, chain, 0, (heap - {top})[a := block], chain[..|chain| - 1] + [a], off');
    }
    hide Safe;
  }

  /** Bytes written at or after the last mark. */
  lemma SafeWritten(marks: seq<Active>, heap: Heap, chain: seq<Address>, off: nat, k: nat, from: nat, space: seq<Byte>)
    requires IsChain(heap, chain) && AllSafe(marks, heap, chain, off)
    requires k < |chain| && |space| == |heap[chain[k]].space| && from <= |space|
    requires space[..from] == heap[chain[k]].space[..from]
    requires marks != [] ==>
               var m := marks[|marks| - 1];
               |m.chain| - 1 < k || (|m.chain| - 1 == k && m.mark.stacknxt.off <= from)
    ensures var heap' := heap[chain[k] := heap[chain[k]].(space := space)];
            IsChain(heap', chain) && AllSafe(marks, heap', chain, off)
  {
    var heap' := heap[chain[k] := heap[chain[k]].(space := space)];
    ChainFacts(heap, chain);
    assert IsChain(heap', chain);
    hide IsChain;
    forall i | 0 <= i < |marks|
      ensures Safe(marks[i], heap', chain, off)
    {
      var m, last := marks[i], marks[|marks| - 1];
      assert m in marks && last in marks;
      assert i == |marks| - 1 || Nested(m, last);
      if |m.chain| - 1 == k {
        assert m.mark.stacknxt.off <= from;
        assert space[..m.mark.stacknxt.off] == space[..from][..m.mark.stacknxt.off];
        assert heap[chain[k]].space[..m.mark.stacknxt.off] == heap[chain[k]].space[..from][..m.mark.stacknxt.off];
      }
    }
  }

  /** A new mark, which grabs up to floor in the top block. */
  lemma SafeMarked(marks: seq<Active>, heap: Heap, chain: seq<Address>, off: nat, floor: nat)
    requires IsChain(heap, chain) && AllSafe(marks, heap, chain, off)
    requires off % 8 == 0 && off <= floor && off <= |heap[chain[|chain| - 1]].space|
    requires chain[|chain| - 1] == STACKBASE || floor > 0
    ensures AllSafe(marks + [NewMark(heap, chain, off, floor)], heap, chain, floor)
  {
    var m := NewMark(heap, chain, off, floor);
    assert chain[..|chain|] == chain;
    assert Safe(m, heap, chain, floor);
    SafeMoved(marks, heap, chain, off, floor);
    forall i | 0 <= i < |marks|
      ensures Nested(marks[i], m)
    {
      assert marks[i] in marks;
    }
  }

  ghost function NewMark(heap: Heap, chain: seq<Address>, off: nat, floor: nat): Active
    requires IsChain(heap, chain) && off <= |heap[chain[|chain| - 1]].space|
  {
    var top := chain[|chain| - 1];
    Active(StackMark(top, Pointer(top, off), |heap[top].space| - off), floor, chain, BytesBefore(heap, chain, off))
  }

  /** The blocks of a mark's chain are in both heaps, and are the same. */
  ghost predicate SameBlocks(chain: seq<Address>, heap: Heap, heap': Heap) {
    forall j :: 0 <= j < |chain| ==> chain[j] in heap && chain[j] in heap' && heap'[chain[j]] == heap[chain[j]]
  }

  /** Going back to a mark: its registers fit, and the bytes before it are those there were. */
  lemma MarkRestored(m: Active, heap: Heap, chain: seq<Address>, off: nat, heap': Heap)
    requires IsChain(heap, chain) && Safe(m, heap, chain, off)
    requires IsChain(heap', m.chain) && SameBlocks(m.chain, heap, heap')
    ensures m.mark.stackp == m.mark.stacknxt.block == m.chain[|m.chain| - 1] && m.mark.stacknxt.off % 8 == 0
    ensures m.mark.stacknxt.off + m.mark.stacknleft == |heap'[m.mark.stackp].space|
    ensures m.bytes == BytesBefore(heap', m.chain, m.mark.stacknxt.off)
    ensures m.mark.stackp == STACKBASE || m.mark.stacknxt.off > 0 ==>
              Safe(m.(floor := m.mark.stacknxt.off), heap', m.chain, m.mark.stacknxt.off)
  {
    assert m.chain[..|m.chain|] == m.chain;
    assert forall k :: 0 <= k < |m.chain| ==> m.chain[k] == chain[k];
    ChainFacts(heap', m.chain);
    hide IsChain;
  }

  /** An earlier mark stays safe. */
  lemma EarlierRestored(n: Active, m: Active, heap: Heap, chain: seq<Address>, off: nat, heap': Heap)
    requires IsChain(heap, chain) && Safe(n, heap, chain, off) && Safe(m, heap, chain, off) && Nested(n, m)
    requires IsChain(heap', m.chain) && SameBlocks(m.chain, heap, heap')
    ensures Safe(n, heap', m.chain, m.mark.stacknxt.off)
  {
    assert forall k :: 0 <= k < |n.chain| ==> n.chain[k] == m.chain[k] == chain[k];
    hide IsChain;
  }

  /** The marks before it are still safe, and so is the mark itself with nothing grabbed. */
  lemma SafePopped(marks: seq<Active>, heap: Heap, chain: seq<Address>, off: nat, i: nat, heap': Heap)
    requires IsChain(heap, chain) && AllSafe(marks, heap, chain, off)
    requires i < |marks| && IsChain(heap', marks[i].chain) && SameBlocks(marks[i].chain, heap, heap')
    ensures var m := marks[i];
            && AllSafe(marks[..i], heap', m.chain, m.mark.stacknxt.off)
            && (m.mark.stackp == STACKBASE || m.mark.stacknxt.off > 0 ==>
                  AllSafe(marks[..i] + [m.(floor := m.mark.stacknxt.off)], heap', m.chain, m.mark.stacknxt.off))
  {
    var m := marks[i];
    assert m in marks;
    hide IsChain;
    forall j | 0 <= j < i
      ensures marks[j] in marks && Safe(marks[j], heap', m.chain, m.mark.stacknxt.off)
    {
      assert marks[j] in marks;
      hide Safe;
      EarlierRestored(marks[j], m, heap, chain, off, heap');
    }
    hide Safe;
    MarkRestored(m, heap, chain, off, heap');
    if m.mark.stackp == STACKBASE || m.mark.stacknxt.off > 0 {
      var m' := m.(floor := m.mark.stacknxt.off);
      assert forall j :: 0 <= j < i ==> Nested(marks[j], m) ==> Nested(marks[j], m');
    }
  }
}
