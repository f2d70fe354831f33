/** Bytes as the shell compares them, and strings that end with NUL. */
module CBytes {
  /** A byte; 0 ends a string. */
  type Byte = int

  const NUL: Byte := 0

  /** Reading past the end gives the terminating NUL. */
  function At(s: seq<Byte>, i: int): Byte {
    if 0 <= i < |s| then s[i] else NUL
  }

  /** The C string that starts at position i. */
  function CString(s: seq<Byte>, i: nat): seq<Byte>
    decreases |s| - i
  {
    if At(s, i) == NUL then [] else [s[i]] + CString(s, i + 1)
  }

  lemma {:induction false} CStringAt(s: seq<Byte>, i: nat, j: nat)
    requires i <= j < |s| && s[j] == NUL && forall k :: i <= k < j ==> s[k] != NUL
    ensures CString(s, i) == s[i..j]
    decreases j - i
  {
    if i < j {
      CStringAt(s, i + 1, j);
      assert s[i..j] == [s[i]] + s[i + 1..j];
    }
  }
}
