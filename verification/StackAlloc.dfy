/** The stack allocator (src/memalloc.c): LIFO storage in a chain of blocks, whose top part can grow. */
module StackAlloc {
  import opened StackModel

  class Stack {
    var heap: Heap
    var stackp: Address
    var stacknxt: Pointer
    var stacknleft: nat
    var sstrend: Pointer

    /** The blocks from the base to the top, and the marks still to be popped. */
    ghost var chain: seq<Address>
    ghost var marks: seq<Active>

    constructor ()
      ensures Valid() && marks == [] && chain == [STACKBASE]
      ensures stacknxt == Pointer(STACKBASE, 0) && stacknleft == MINSIZE
    {
      heap := map[STACKBASE := Block(STACKBASE, seq(MINSIZE, i => 0))];
      stackp, stacknxt, stacknleft := STACKBASE, Pointer(STACKBASE, 0), MINSIZE;
      sstrend := Pointer(STACKBASE, MINSIZE);
      chain, marks := [STACKBASE], [];
    }

    ghost predicate Registers()
      reads this
    {
      && IsChain(heap, chain) && stackp == chain[|chain| - 1]
      && stacknxt.block == stackp && stacknxt.off % 8 == 0
      && stacknxt.off + stacknleft == |heap[stackp].space|
      && sstrend == Pointer(stackp, stacknxt.off + stacknleft)
    }

    ghost predicate Valid()
      reads this
    {
      Registers() && AllSafe(marks, heap, chain, stacknxt.off)
    }

    /** What string is being built: the bytes from the next one on. */
    ghost function Top(): seq<Byte>
      requires Registers()
      reads this
    {
      heap[stackp].space[stacknxt.off..]
    }

    // ---------- src/memalloc.c ----------

    method StAlloc(nbytes: nat) returns (p: Pointer)
      requires Valid()
      modifies this
      ensures Valid() && marks == old(marks)
      ensures p.off % 8 == 0 && stacknxt == Pointer(p.block, p.off + ShellAlign(nbytes))
      ensures ShellAlign(nbytes) <= old(stacknleft) ==>
                && p == old(stacknxt) && heap == old(heap) && chain == old(chain)
                && stacknleft == old(stacknleft) - ShellAlign(nbytes)
      ensures ShellAlign(nbytes) > old(stacknleft) ==>
                && p == Pointer(stackp, 0) && stackp !in old(heap) && chain == old(chain) + [stackp]
                && heap == old(heap)[stackp := heap[stackp]] && heap[stackp].prev == old(stackp)
                && |heap[stackp].space| == if ShellAlign(nbytes) < MINSIZE then MINSIZE else ShellAlign(nbytes)
    {
      hide IsChain, Safe, Nested, AllSafe;
      var aligned := ShellAlign(nbytes);
      if aligned > stacknleft {
        var blocksize := aligned;
        if blocksize < MINSIZE {
          blocksize := MINSIZE;
        }
        var sp := CkMalloc(stackp, blocksize);
        SafePushed(marks, old(heap), chain, stacknxt.off, sp, heap[sp].space, aligned);
        SetTop(sp, 0, blocksize);
        chain := chain + [sp];
      } else {
        SafeAdvanced(marks, heap, chain, stacknxt.off, stacknxt.off + aligned);
      }
      p := stacknxt;
      stacknxt := stacknxt.(off := stacknxt.off + aligned);
      stacknleft := stacknleft - aligned;
    }

    /** Gives back what was allocated from p on, in the top block; nothing a mark grabbed. */
    method StUnalloc(p: Pointer)
      requires Valid() && p.block == stackp && p.off <= stacknxt.off && p.off % 8 == 0
      requires forall m :: m in marks && |m.chain| == |chain| ==> m.floor <= p.off
      modifies this`stacknxt, this`stacknleft
      ensures Valid() && stacknxt == p
    {
      SafeMoved(marks, heap, chain, stacknxt.off, p.off);
      stacknleft := stacknleft + (stacknxt.off - p.off);
      stacknxt := p;
    }

    /** At the start of an allocated block at least one byte has to be grabbed. */
    method PushStackMark(len: nat) returns (mark: StackMark)
      requires Valid() && (stacknxt == Pointer(stackp, 0) && stackp != STACKBASE ==> len > 0)
      modifies this
      ensures if ShellAlign(len) <= old(stacknleft) then
                heap == old(heap) && chain == old(chain) && stacknleft == old(stacknleft) - ShellAlign(len)
              else
                stackp !in old(heap) && chain == old(chain) + [stackp] && stacknxt.off == ShellAlign(len)
      ensures Valid() && mark == StackMark(old(stackp), old(stacknxt), old(stacknleft))
      ensures |marks| == |old(marks)| + 1 && marks[..|old(marks)|] == old(marks)
      ensures var m := marks[|old(marks)|];
              m.mark == mark && m.chain == old(chain) && m.bytes == old(BytesBefore(heap, chain, stacknxt.off))
    {
      hide IsChain, Safe, Nested, AllSafe, BytesBefore, ShellAlign;
      mark := StackMark(stackp, stacknxt, stacknleft);
      ghost var off, floor := stacknxt.off, stacknxt.off + ShellAlign(len);
      ghost var m := NewMark(heap, chain, off, floor);
      TopFacts(heap, chain);
      SafeMarked(marks, heap, chain, off, floor);
      var p := StAlloc(len);
      TopFacts(heap, chain);
      if ShellAlign(len) > mark.stacknleft {
        SafePushed(marks + [m], old(heap), old(chain), floor, stackp, heap[stackp].space, stacknxt.off);
      }
      marks := marks + [m];
    }

    /** A mark always pins its block. */
    method SetStackMark() returns (mark: StackMark)
      requires Valid()
      modifies this
      ensures !(old(stacknxt) == Pointer(old(stackp), 0) && old(stackp) != STACKBASE) ==>
                heap == old(heap) && chain == old(chain) && stacknleft == old(stacknleft)
      ensures Valid() && mark == StackMark(old(stackp), old(stacknxt), old(stacknleft))
      ensures |marks| == |old(marks)| + 1 && marks[..|old(marks)|] == old(marks)
      ensures var m := marks[|old(marks)|];
              m.mark == mark && m.chain == old(chain) && m.bytes == old(BytesBefore(heap, chain, stacknxt.off))
    {
      mark := PushStackMark(if stacknxt == Pointer(stackp, 0) && stackp != STACKBASE then 1 else 0);
    }

    /**
     * Goes back to the i-th mark: the blocks above it are freed, the registers and every byte before the mark
     * are as they were. With again the mark is to be popped once more, which only a mark that had no need to
     * grab a byte can be.
     */
    method PopStackMark(mark: StackMark, ghost i: nat, ghost again: bool)
      requires Valid() && i < |marks| && marks[i].mark == mark
      requires again ==> mark.stackp == STACKBASE || mark.stacknxt.off > 0
      modifies this
      ensures Valid() && stackp == mark.stackp && stacknxt == mark.stacknxt && stacknleft == mark.stacknleft
      ensures chain == old(marks)[i].chain && BytesBefore(heap, chain, stacknxt.off) == old(marks)[i].bytes
      ensures marks == if again then old(marks)[..i] + [old(marks)[i].(floor := stacknxt.off)] else old(marks)[..i]
    {
      hide IsChain, Safe, Nested, AllSafe, Unwound, SameBlocks, BytesBefore;
      ghost var m, heap0, chain0, off0 := marks[i], heap, chain, stacknxt.off;
      MarkInChain(marks, heap0, chain0, off0, i);
      while stackp != mark.stackp
        invariant unchanged(`marks, `stacknxt)
        invariant |chain| >= |m.chain| && stackp == chain[|chain| - 1]
        invariant Unwound(heap0, chain0, heap, chain)
        decreases |chain|
      {
        UnwindStep(heap0, chain0, heap, chain, m.chain);
        FreeTop();
      }
      BackAtMark(marks, heap0, chain0, off0, i, heap, chain);
      SetTop(stackp, mark.stacknxt.off, mark.stacknleft);
      marks := if again then marks[..i] + [m.(floor := stacknxt.off)] else marks[..i];
    }

    /** The top block holds only the string being built: it may move, and no mark is in it. */
    method GrowByRealloc(newlen: nat, move: bool)
      requires Valid() && stacknxt == Pointer(stackp, 0) && stackp != STACKBASE
      requires newlen > stacknleft && newlen % 8 == 0
      modifies this
      ensures Valid() && marks == old(marks) && stacknleft == newlen && stacknxt == Pointer(stackp, 0)
      ensures old(Top()) <= Top()
      ensures if move then stackp !in old(heap) && old(stackp) !in heap else stackp == old(stackp)
    {
      hide IsChain, Safe, Nested, AllSafe;
      TopFacts(heap, chain);
      var sp := CkRealloc(stackp, newlen, move);
      SafeReplaced(marks, old(heap), chain, sp, heap[sp].space, 0);
      SetTop(sp, 0, newlen);
      chain := chain[..|chain| - 1] + [sp];
    }

    /** Something else is in the top block: the string is copied to a new one, so the two do not overlap. */
    method GrowByCopy(newlen: nat)
      requires Valid() && newlen > stacknleft && newlen % 8 == 0
      modifies this
      ensures Valid() && marks == old(marks) && stackp !in old(heap) && stacknxt == Pointer(stackp, 0)
      ensures stacknleft == if newlen < MINSIZE then MINSIZE else newlen
      ensures old(Top()) <= Top()
    {
      hide IsChain, Safe, Nested, AllSafe, ShellAlign, Overwrite;
      TopFacts(heap, chain);
      AlignAligned(newlen);
      var oldspace, oldlen := stacknxt, stacknleft;
      var p := StAlloc(newlen);
      TopFacts(heap, chain);
      MemCpy(p, oldspace, oldlen);
      assert heap == old(heap)[stackp := Block(old(stackp), heap[stackp].space)];
      SafePushed(marks, old(heap), old(chain), oldspace.off, stackp, heap[stackp].space, 0);
      SetTop(stackp, 0, stacknleft + newlen);
    }

    /** Makes the string space larger, moving it if necessary, and keeps what is in it. */
    method GrowStackBlock(min: nat) returns (p: Pointer)
      requires Valid()
      modifies this
      ensures Valid() && marks == old(marks) && p == stacknxt
      ensures stacknleft >= min && stacknleft > old(stacknleft)
      ensures var newlen := Grown(old(stacknleft), min);
              stacknxt == Pointer(stackp, 0)
              && stacknleft == if old(stacknxt) == Pointer(old(stackp), 0) && old(stackp) != STACKBASE then newlen
                               else if newlen < MINSIZE then MINSIZE else newlen
      ensures old(Top()) <= Top()
    {
      hide IsChain, Safe, Nested, AllSafe, ShellAlign, LeastSize;
      TopFacts(heap, chain);
      var newlen := stacknleft * 2;
      var least := LeastSize(min);
      if newlen < least {
        newlen := newlen + least;
      }
      NewLength(stacknxt.off, stacknleft, min, newlen);
      if stacknxt == Pointer(stackp, 0) && stackp != STACKBASE {
        var move: bool := *;
        GrowByRealloc(newlen, move);
      } else {
        GrowByCopy(newlen);
      }
      p := stacknxt;
    }

    // ---------- strings being built ----------

    /** p is where the next byte of a string goes that starts at the next byte of the stack. */
    ghost predicate InString(p: Pointer)
      reads this
    {
      Registers() && p.block == stackp && stacknxt.off <= p.off <= sstrend.off
    }

    ghost function Str(p: Pointer): seq<Byte>
      requires InString(p)
      reads this
    {
      heap[stackp].space[stacknxt.off..p.off]
    }

    method GrowStackStr() returns (p: Pointer)
      requires Valid()
      modifies this
      ensures Valid() && marks == old(marks)
      ensures InString(p) && p != sstrend && Str(p) == old(Top())
    {
      hide IsChain, Safe, Nested, AllSafe;
      var len := stacknleft;
      p := GrowStackBlock(0);
      p := p.(off := p.off + len);
    }

    method GrowStackTo(len: nat) returns (p: Pointer)
      requires Valid()
      modifies this
      ensures Valid() && marks == old(marks) && p == stacknxt && stacknleft >= len
      ensures old(Top()) <= Top()
      ensures old(stacknleft) >= len ==> stacknxt == old(stacknxt) && heap == old(heap)
    {
      hide IsChain, Safe, Nested, AllSafe;
      p := stacknxt;
      if stacknleft < len {
        p := GrowStackBlock(len);
      }
    }

    /** Makes room for newlen bytes after p; the string so far is kept. */
    method MakeStrSpace(newlen: nat, p: Pointer) returns (q: Pointer)
      requires Valid() && InString(p)
      modifies this
      ensures Valid() && marks == old(marks)
      ensures InString(q) && Str(q) == old(Str(p)) && sstrend.off - q.off >= newlen
    {
      hide IsChain, Safe, Nested, AllSafe;
      var len := p.off - stacknxt.off;
      assert Str(p) == Top()[..len];
      q := GrowStackTo(len + newlen);
      q := q.(off := q.off + len);
      assert Str(q) == Top()[..len];
    }

    /** Writes at p, where there is room. */
    method Store(bytes: seq<Byte>, p: Pointer) returns (q: Pointer)
      requires Valid() && InString(p) && |bytes| <= sstrend.off - p.off
      modifies this`heap
      ensures Valid() && InString(q) && Str(q) == old(Str(p)) + bytes && q == p.(off := p.off + |bytes|)
    {
      TopFacts(heap, chain);
      LastMarkBefore(marks, heap, chain, stacknxt.off);
      hide IsChain, Safe, Nested, AllSafe, Overwrite;
      ghost var space := Overwrite(heap[stackp].space, p.off, bytes);
      SafeWritten(marks, heap, chain, stacknxt.off, |chain| - 1, p.off, space);
      heap := heap[stackp := heap[stackp].(space := Overwrite(heap[stackp].space, p.off, bytes))];
      q := p.(off := p.off + |bytes|);
      Written(old(heap)[stackp].space, stacknxt.off, p.off, bytes);
    }

    method StPutC(c: Byte, p: Pointer) returns (q: Pointer)
      requires Valid() && InString(p)
      modifies this
      ensures Valid() && marks == old(marks)
      ensures InString(q) && Str(q) == old(Str(p)) + [c]
      ensures p != old(sstrend) ==> q == p.(off := p.off + 1) && stacknxt == old(stacknxt)
    {
      hide IsChain, Safe, Nested, AllSafe;
      q := p;
      if p == sstrend {
        q := GrowStackStr();
      }
      q := Store([c], q);
    }

    method StNPuts(bytes: seq<Byte>, p: Pointer) returns (q: Pointer)
      requires Valid() && InString(p)
      modifies this
      ensures Valid() && marks == old(marks)
      ensures InString(q) && Str(q) == old(Str(p)) + bytes
    {
      hide IsChain, Safe, Nested, AllSafe;
      q := MakeStrSpace(|bytes|, p);
      q := Store(bytes, q);
    }

    /** Writes to what was allocated in the top block after the last mark. */
    method Write(bytes: seq<Byte>, p: Pointer)
      requires Valid() && p.block == stackp && p.off + |bytes| <= stacknxt.off
      requires marks != [] ==>
                 var m := marks[|marks| - 1];
                 |m.chain| < |chain| || (|m.chain| == |chain| && m.mark.stacknxt.off <= p.off)
      modifies this`heap
      ensures Valid() && |heap[stackp].space| == |old(heap)[stackp].space|
      ensures heap[stackp].space[p.off..p.off + |bytes|] == bytes
      ensures stackp in old(heap) && p.off + |bytes| <= |old(heap)[stackp].space|
      ensures heap == old(heap)[stackp := old(heap)[stackp].(space :=
                        Overwrite(old(heap)[stackp].space, p.off, bytes))]
    {
      TopFacts(heap, chain);
      hide IsChain, Safe, Nested, AllSafe, Overwrite;
      ghost var space := Overwrite(heap[stackp].space, p.off, bytes);
      SafeWritten(marks, heap, chain, stacknxt.off, |chain| - 1, p.off, space);
      heap := heap[stackp := heap[stackp].(space := Overwrite(heap[stackp].space, p.off, bytes))];
    }

    // ---------- the state of the stack ----------

    /** The registers, for the next byte at off in block sp with left bytes after it. */
    method SetTop(sp: Address, off: nat, left: nat)
      modifies this`stackp, this`stacknxt, this`stacknleft, this`sstrend
      ensures stackp == sp && stacknxt == Pointer(sp, off) && stacknleft == left && sstrend == Pointer(sp, off + left)
    {
      stackp, stacknxt, stacknleft, sstrend := sp, Pointer(sp, off), left, Pointer(sp, off + left);
    }

    /** Frees the top block and goes to the one below. */
    method FreeTop()
      requires stackp in heap && |chain| > 0
      modifies this`stackp, this`heap, this`chain
      ensures stackp == old(heap[stackp]).prev && heap == old(heap) - {old(stackp)}
      ensures chain == old(chain)[..|old(chain)| - 1]
    {
      var sp := stackp;
      stackp := heap[sp].prev;
      heap := heap - {sp};
      chain := chain[..|chain| - 1];
    }

    // ---------- the memory underneath ----------

    /** An address no live block has; the bytes there may be anything. */
    method CkMalloc(prev: Address, size: nat) returns (a: Address)
      modifies this`heap
      ensures a !in old(heap) && a in heap && |heap[a].space| == size
      ensures heap == old(heap)[a := Block(prev, heap[a].space)]
    {
      a := Unused(heap, 0);
      var space: seq<Byte> := *;
      if |space| != size {
        space := seq(size, i => 0);
      }
      heap := heap[a := Block(prev, space)];
    }

    /** Resizes a block, which moves or not; the bytes that fit are kept. */
    method CkRealloc(p: Address, size: nat, move: bool) returns (a: Address)
      requires p in heap && |heap[p].space| <= size
      modifies this`heap
      ensures if move then a !in old(heap) else a == p
      ensures a in heap && |heap[a].space| == size
      ensures heap[a].space[..|old(heap)[p].space|] == old(heap)[p].space
      ensures heap == (old(heap) - {p})[a := Block(old(heap)[p].prev, heap[a].space)]
    {
      var block := heap[p];
      a := p;
      if move {
        a := Unused(heap, 0);
      }
      var more: seq<Byte> := *;
      if |more| != size - |block.space| {
        more := seq(size - |block.space|, i => 0);
      }
      heap := (heap - {p})[a := Block(block.prev, block.space + more)];
    }

    /** Copies n bytes between blocks; the source and the target do not overlap. */
    method MemCpy(to: Pointer, from: Pointer, n: nat)
      requires to.block in heap && from.block in heap && to.block != from.block
      requires to.off + n <= |heap[to.block].space| && from.off + n <= |heap[from.block].space|
      modifies this`heap
      ensures heap == old(heap)[to.block := old(heap)[to.block].(space :=
                        Overwrite(old(heap)[to.block].space, to.off,
                            old(heap)[from.block].space[from.off..from.off + n]))]
    {
      var bytes := heap[from.block].space[from.off..from.off + n];
      heap := heap[to.block := heap[to.block].(space := Overwrite(heap[to.block].space, to.off, bytes))];
    }
  }

  /** The same number, but that the bit for 128 is set. */
  function Or128(min: nat): (m: nat)
    ensures m % 128 == min % 128 && m / 128 % 2 == 1 && m / 256 == min / 256
  {
    if min / 128 % 2 == 1 then min else min + 128
  }

  /** That number aligned. */
  function LeastSize(min: nat): (n: nat)
    ensures n >= min && n >= 128 && n % 8 == 0 && Or128(min) <= n < Or128(min) + 8
  {
    ShellAlign(Or128(min))
  }

  /** How much room there is after a string has grown: twice as much, or that and the least size. */
  function Grown(left: nat, min: nat): (n: nat)
    ensures n >= 2 * left && n >= min && n >= 128
  {
    if left * 2 < LeastSize(min) then left * 2 + LeastSize(min) else left * 2
  }

  lemma AlignAligned(n: nat)
    requires n % 8 == 0
    ensures ShellAlign(n) == n
  {
  }

  /** The larger size, given what is left after an aligned offset. */
  lemma NewLength(off: nat, left: nat, min: nat, newlen: nat)
    requires off % 8 == 0 && (off + left) % 8 == 0
    requires newlen == Grown(left, min)
    ensures newlen > left && newlen >= min && newlen % 8 == 0
  {
    assert left % 8 == 0;
    hide LeastSize;
  }

  lemma MarkInChain(marks: seq<Active>, heap: Heap, chain: seq<Address>, off: nat, i: nat)
    requires IsChain(heap, chain) && AllSafe(marks, heap, chain, off) && i < |marks|
    ensures var m := marks[i];
            && 0 < |m.chain| <= |chain| && m.chain == chain[..|m.chain|]
            && m.chain[|m.chain| - 1] == m.mark.stackp && Safe(m, heap, chain, off)
    ensures Unwound(heap, chain, heap, chain)
  {
    assert marks[i] in marks;
    assert chain[..|chain|] == chain;
  }

  /** Some of the upper blocks are freed. */
  ghost predicate Unwound(heap: Heap, chain: seq<Address>, heap': Heap, chain': seq<Address>) {
    && IsChain(heap, chain) && IsChain(heap', chain') && |chain'| <= |chain| && chain' == chain[..|chain'|]
    && SameBlocks(chain', heap, heap')
  }

  /** The block on top is not the last one looked for: there is one below. */
  lemma UnwindStep(heap: Heap, chain: seq<Address>, heap': Heap, chain': seq<Address>, target: seq<Address>)
    requires Unwound(heap, chain, heap', chain') && 0 < |target| <= |chain'| && target == chain[..|target|]
    requires target[|target| - 1] != chain'[|chain'| - 1]
    ensures |chain'| > |target|
    ensures chain'[|chain'| - 1] in heap' && heap'[chain'[|chain'| - 1]].prev == chain'[|chain'| - 2]
    ensures Unwound(heap, chain, heap' - {chain'[|chain'| - 1]}, chain'[..|chain'| - 1])
  {
    ChainFreed(heap', chain');
    hide IsChain;
  }

  lemma UnwindEnds(heap: Heap, chain: seq<Address>, heap': Heap, chain': seq<Address>, target: seq<Address>)
    requires Unwound(heap, chain, heap', chain') && 0 < |target| <= |chain'| && target == chain[..|target|]
    requires target[|target| - 1] == chain'[|chain'| - 1]
    ensures chain' == target && IsChain(heap', chain') && SameBlocks(chain', heap, heap')
  {
    ChainFacts(heap, chain);
    hide IsChain;
    assert target[|target| - 1] == chain[|target| - 1] && chain'[|chain'| - 1] == chain[|chain'| - 1];
  }

  /** Everything is as it was at the mark. */
  lemma BackAtMark(marks: seq<Active>, heap: Heap, chain: seq<Address>, off: nat, i: nat, heap': Heap,
      chain': seq<Address>)
    requires Unwound(heap, chain, heap', chain') && AllSafe(marks, heap, chain, off) && i < |marks|
    requires |chain'| >= |marks[i].chain| && chain'[|chain'| - 1] == marks[i].mark.stackp
    ensures var m := marks[i];
            && m.chain == chain' && IsChain(heap', chain') && m.mark.stacknxt.block == m.mark.stackp
            && m.mark.stacknxt.off % 8 == 0
            && m.mark.stacknxt.off + m.mark.stacknleft == |heap'[m.mark.stackp].space|
            && m.bytes == BytesBefore(heap', chain', m.mark.stacknxt.off)
            && AllSafe(marks[..i], heap', chain', m.mark.stacknxt.off)
            && (m.mark.stackp == STACKBASE || m.mark.stacknxt.off > 0 ==>
                  AllSafe(marks[..i] + [m.(floor := m.mark.stacknxt.off)], heap', chain', m.mark.stacknxt.off))
  {
    var m := marks[i];
    MarkInChain(marks, heap, chain, off, i);
    UnwindEnds(heap, chain, heap', chain', m.chain);
    hide IsChain, Safe, Nested, AllSafe, Unwound, SameBlocks, BytesBefore;
    MarkRestored(m, heap, chain, off, heap');
    SafePopped(marks, heap, chain, off, i, heap');
  }

  /** A block that is not the base block is not at the bottom. */
  lemma TopFacts(heap: Heap, chain: seq<Address>)
    requires IsChain(heap, chain)
    ensures |chain| > 0 && chain[|chain| - 1] in heap && Sized(heap[chain[|chain| - 1]].space)
    ensures chain[|chain| - 1] != STACKBASE ==> |chain| > 1
  {
  }

  lemma SafeAdvanced(marks: seq<Active>, heap: Heap, chain: seq<Address>, off: nat, off': nat)
    requires IsChain(heap, chain) && AllSafe(marks, heap, chain, off) && off <= off'
    ensures AllSafe(marks, heap, chain, off')
  {
    SafeMoved(marks, heap, chain, off, off');
  }

  function Overwrite(s: seq<Byte>, at: nat, bytes: seq<Byte>): (r: seq<Byte>)
    requires at + |bytes| <= |s|
    ensures |r| == |s| && r[..at] == s[..at] && r[at..at + |bytes|] == bytes && r[at + |bytes|..] == s[at + |bytes|..]
  {
    s[..at] + bytes + s[at + |bytes|..]
  }

  lemma Written(s: seq<Byte>, from: nat, at: nat, bytes: seq<Byte>)
    requires from <= at && at + |bytes| <= |s|
    ensures Overwrite(s, at, bytes)[from..at + |bytes|] == s[from..at] + bytes
  {
  }

  lemma LastMarkBefore(marks: seq<Active>, heap: Heap, chain: seq<Address>, off: nat)
    requires IsChain(heap, chain) && AllSafe(marks, heap, chain, off)
    ensures |chain| > 0
    ensures forall m :: m in marks ==> |m.chain| < |chain| || (|m.chain| == |chain| && m.mark.stacknxt.off <= off)
  {
  }

  function Unused(heap: Heap, a: Address): (b: Address)
    ensures b !in heap
    decreases |set k | k in heap && k >= a|
  {
    if a !in heap then a
    else
      assert (set k | k in heap && k >= a + 1) == (set k | k in heap && k >= a) - {a};
      Unused(heap, a + 1)
  }
}
