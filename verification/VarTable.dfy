/** The chained hash table of variables (src/var.c, src/var.h). */
module VarTable {
  import opened CharClass
  import opened VarStore

  const VTABSIZE := 39
  const UINT := 0x1_0000_0000

  /** The name at the front of a text consists of name characters. */
  lemma {:induction false} NameChars(s: string)
    ensures forall k :: 0 <= k < NameLength(s) ==> IsInName(s[k])
  {
    if s != "" && IsInName(s[0]) {
      NameChars(s[1..]);
      assert forall k :: 1 <= k < NameLength(s) ==> s[k] == s[1..][k - 1];
    }
  }

  /** A character of the name, or NUL after it. */
  function NameAt(s: string, i: nat): char {
    if i < EndOfName(s) then s[i] else '\0'
  }

  lemma NameAtFacts(s: string)
    requires IsText(s)
    ensures 0 < EndOfName(s) <= |s| && forall i :: 0 <= i < EndOfName(s) ==> IsInName(s[i])
    ensures Peek(s, EndOfName(s)) == '=' || EndOfName(s) == |s|
  {
    NameChars(s);
  }

  // ---------- comparing and hashing names ----------

  /** Zero just when the two texts have the same name. */
  method VarCmp(p: string, q: string) returns (r: int)
    requires IsText(p) && IsText(q)
    ensures r == 0 <==> NameOf(p) == NameOf(q)
  {
    NameAtFacts(p);
    NameAtFacts(q);
    hide IsText, EndOfName;
    var i := 0;
    var c, d := Peek(p, 0), Peek(q, 0);
    while c == d
      invariant i <= EndOfName(p) && i <= EndOfName(q) && p[..i] == q[..i]
      invariant c == NameAt(p, i) && d == NameAt(q, i)
      decreases EndOfName(p) - i
    {
      if c == '\0' {
        break;
      }
      i := i + 1;
      c, d := Peek(p, i), Peek(q, i);
      if c == '=' {
        c := '\0';
      }
      if d == '=' {
        d := '\0';
      }
    }
    r := (c as int) - (d as int);
    if NameOf(p) == NameOf(q) {
      SameNameAt(p, q, i);
    }
  }

  lemma SameNameAt(p: string, q: string, i: nat)
    requires IsText(p) && IsText(q) && NameOf(p) == NameOf(q)
    ensures NameAt(p, i) == NameAt(q, i)
  {
    NameAtFacts(p);
    NameAtFacts(q);
    hide IsText, EndOfName;
    assert |NameOf(p)| == EndOfName(p) && |NameOf(q)| == EndOfName(q);
    assert i < EndOfName(p) ==> NameOf(p)[i] == p[i] && NameOf(q)[i] == q[i];
  }

  function SumOf(s: string): nat
    decreases |s|
  {
    if s == "" then 0 else SumOf(s[..|s| - 1]) + (s[|s| - 1] as int)
  }

  /** The hash of a name. */
  function HashOf(n: string): nat
    requires n != ""
  {
    Wrap((n[0] as int) * 16 + SumOf(n))
  }

  /** Unsigned arithmetic. */
  function Wrap(n: nat): nat {
    n % UINT
  }

  lemma WrapAdd(a: nat, b: nat)
    ensures Wrap(Wrap(a) + b) == Wrap(a + b)
  {
  }

  /** Only the name of a text counts. */
  method HashVal(p: string) returns (hashval: nat)
    requires IsText(p)
    ensures NameOf(p) != "" && hashval == HashOf(NameOf(p))
  {
    hide IsText, EndOfName, Wrap;
    NameAtFacts(p);
    var i := 0;
    hashval := Wrap((p[0] as int) * 16);
    while Peek(p, i) != '\0'
      invariant i <= EndOfName(p) && (i == EndOfName(p) ==> Peek(p, i) == '\0')
      invariant hashval == Wrap((p[0] as int) * 16 + SumOf(p[..i]))
      decreases |p| - i
    {
      assert p[..i + 1][..i] == p[..i];
      WrapAdd((p[0] as int) * 16 + SumOf(p[..i]), p[i] as int);
      hashval := Wrap(hashval + (p[i] as int));
      i := i + 1;
      if Peek(p, i) == '=' {
        break;
      }
    }
    assert NameOf(p) == p[..i];
  }

  // ---------- the chains ----------

  type Chains = seq<seq<VarId>>

  ghost function BucketOf(st: Store, vp: VarId): nat
    requires EntriesOk(st) && vp in st.entries
  {
    HashOf(NameOf(st.texts[st.entries[vp].text])) % VTABSIZE
  }

  /** Each entry is once in the chain of its name. */
  ghost predicate TableOk(tab: Chains, st: Store)
    requires EntriesOk(st)
  {
    && |tab| == VTABSIZE
    && (forall b, k :: 0 <= b < VTABSIZE && 0 <= k < |tab[b]| ==>
          tab[b][k] in st.entries && BucketOf(st, tab[b][k]) == b)
    && (forall vp :: vp in st.entries ==> vp in tab[BucketOf(st, vp)])
    && (forall b, j, k :: 0 <= b < VTABSIZE && 0 <= j < k < |tab[b]| ==> tab[b][j] != tab[b][k])
  }

  lemma TableKept(tab: Chains, st: Store, st': Store)
    requires EntriesOk(st) && EntriesOk(st') && TableOk(tab, st)
    requires forall v :: v in st.entries <==> v in st'.entries
    requires forall v :: v in st.entries ==>
               NameOf(st'.texts[st'.entries[v].text]) == NameOf(st.texts[st.entries[v].text])
    ensures TableOk(tab, st')
  {
    hide IsText, NameOf, HashOf;
    assert forall v :: v in st.entries ==> BucketOf(st', v) == BucketOf(st, v);
    hide EntriesOk;
  }

  lemma TableAppended(tab: Chains, st: Store, st': Store, vp: VarId, b: nat)
    requires EntriesOk(st) && EntriesOk(st') && TableOk(tab, st)
    requires vp !in st.entries && vp in st'.entries && b == BucketOf(st', vp)
    requires forall v :: v in st'.entries <==> v in st.entries || v == vp
    requires forall v :: v in st.entries ==>
               NameOf(st'.texts[st'.entries[v].text]) == NameOf(st.texts[st.entries[v].text])
    ensures TableOk(tab[b := tab[b] + [vp]], st')
  {
    hide IsText, NameOf, HashOf;
    assert forall v :: v in st.entries ==> BucketOf(st', v) == BucketOf(st, v);
    hide EntriesOk;
    var tab' := tab[b := tab[b] + [vp]];
    forall v | v in st'.entries
      ensures v in tab'[BucketOf(st', v)]
    {
      if v == vp {
        assert tab'[b][|tab[b]|] == vp;
      }
    }
  }

  lemma TablePrepended(tab: Chains, st: Store, st': Store, vp: VarId, b: nat)
    requires EntriesOk(st) && EntriesOk(st') && TableOk(tab, st)
    requires vp !in st.entries && vp in st'.entries && b == BucketOf(st', vp)
    requires forall v :: v in st'.entries <==> v in st.entries || v == vp
    requires forall v :: v in st.entries ==>
               NameOf(st'.texts[st'.entries[v].text]) == NameOf(st.texts[st.entries[v].text])
    ensures TableOk(tab[b := [vp] + tab[b]], st')
  {
    hide IsText, NameOf, HashOf;
    assert forall v :: v in st.entries ==> BucketOf(st', v) == BucketOf(st, v);
    hide EntriesOk;
    var tab' := tab[b := [vp] + tab[b]];
    forall v | v in st'.entries
      ensures v in tab'[BucketOf(st', v)]
    {
      if v != vp && BucketOf(st, v) == b {
        assert v in tab[b];
      }
    }
  }

  lemma ChainRemoved(chain: seq<VarId>, k: nat, v: VarId)
    requires k < |chain| && v in chain && v != chain[k]
    ensures v in chain[..k] + chain[k + 1..]
  {
    var j :| 0 <= j < |chain| && chain[j] == v;
    assert (chain[..k] + chain[k + 1..])[if j < k then j else j - 1] == v;
  }

  lemma TableRemoved(tab: Chains, st: Store, st': Store, vp: VarId, b: nat, k: nat)
    requires EntriesOk(st) && EntriesOk(st') && TableOk(tab, st)
    requires b < VTABSIZE && k < |tab[b]| && tab[b][k] == vp
    requires forall v :: v in st'.entries <==> v in st.entries && v != vp
    requires forall v :: v in st'.entries ==>
               NameOf(st'.texts[st'.entries[v].text]) == NameOf(st.texts[st.entries[v].text])
    ensures TableOk(tab[b := tab[b][..k] + tab[b][k + 1..]], st')
  {
    hide IsText, NameOf, HashOf;
    assert forall v :: v in st'.entries ==> BucketOf(st', v) == BucketOf(st, v);
    var chain' := tab[b][..k] + tab[b][k + 1..];
    assert forall j :: 0 <= j < |chain'| ==> chain'[j] == if j < k then tab[b][j] else tab[b][j + 1];
    forall v | v in st'.entries
      ensures v in tab[b := chain'][BucketOf(st', v)]
    {
      if BucketOf(st, v) == b {
        ChainRemoved(tab[b], k, v);
      }
    }
  }

  /** The chain of a name, and the place in it of the entry with the name, or its end. */
  method FindVar(tab: Chains, entries: map<VarId, Entry>, texts: map<TextId, string>, name: string, ghost st: Store)
    returns (b: nat, k: nat)
    requires Sound(st) && st.entries == entries && st.texts == texts && TableOk(tab, st) && IsText(name)
    ensures NameOf(name) != "" && b == HashOf(NameOf(name)) % VTABSIZE && k <= |tab[b]|
    ensures if NameOf(name) in st.index then k < |tab[b]| && tab[b][k] == st.index[NameOf(name)] else k == |tab[b]|
  {
    var hashval := HashVal(name);
    b := hashval % VTABSIZE;
    FoundAt(tab, st, NameOf(name));
    hide LocalsOk, EntryOwns, LocalOwns, HashOf, IsText, NameOf;
    k := 0;
    while k < |tab[b]|
      invariant k <= |tab[b]|
      invariant forall j :: 0 <= j < k ==> NameOf(texts[entries[tab[b][j]].text]) != NameOf(name)
    {
      var c := VarCmp(texts[entries[tab[b][k]].text], name);
      if c == 0 {
        return;
      }
      k := k + 1;
    }
  }

  /** The entry of a name is in the chain of the name. */
  lemma FoundAt(tab: Chains, st: Store, n: string)
    requires Sound(st) && TableOk(tab, st) && n != ""
    ensures n in st.index ==> st.index[n] in tab[HashOf(n) % VTABSIZE]
  {
    hide LocalsOk, EntryOwns, LocalOwns, IsText, NameOf, HashOf;
    if n in st.index {
      var vp: VarId := st.index[n];
      assert vp in st.entries && BucketOf(st, vp) == HashOf(n) % VTABSIZE;
    }
  }
}
