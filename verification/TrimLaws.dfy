/** Laws of the four trims: # and ## cut at the front, % and %% at the end, the doubled ones as much as they can. */
module TrimLaws {
  import opened CBytes
  import opened GlobPattern
  import opened Trim

  ghost predicate Front(p: seq<Byte>, v: seq<Byte>, k: int) {
    0 <= k <= |v| && Language(p, v[..k])
  }

  ghost predicate Back(p: seq<Byte>, v: seq<Byte>, k: int) {
    0 <= k <= |v| && Language(p, v[|v| - k..])
  }

  lemma CutsEnd(p: seq<Byte>, v: seq<Byte>, k: int)
    ensures Cuts(p, v, true, k) <==> Front(p, v, k)
    ensures Cuts(p, v, false, k) <==> Back(p, v, |v| - k)
  {
  }

  lemma CutAt(p: seq<Byte>, v: seq<Byte>, prefix: bool, least: bool, k: int)
    requires Cuts(p, v, prefix, k)
    ensures BestCut(p, v, prefix, least, if prefix then v[k..] else v[..k])
            <==> forall j :: Cuts(p, v, prefix, j) ==> if least then k <= j else j <= k
  {
    hide Language;
    var r := if prefix then v[k..] else v[..k];
    forall j | Cuts(p, v, prefix, j) && r == (if prefix then v[j..] else v[..j])
      ensures j == k
    {
      assert |r| == if prefix then |v| - j else j;
    }
  }

  lemma TwoParts<T>(a: seq<T>, b: seq<T>)
    ensures (a + b)[..|a|] == a && (a + b)[|a|..] == b
  {
  }

  /** Where u, at the front of u + r, is matched: # leaves r if no shorter front is, ## if no longer one is. */
  lemma FrontCut(p: seq<Byte>, u: seq<Byte>, r: seq<Byte>)
    requires Language(p, u)
    ensures IsTrim(VSTRIMLEFT, p, u + r, r) <==> forall k :: k < |u| ==> !Front(p, u + r, k)
    ensures IsTrim(VSTRIMLEFTMAX, p, u + r, r) <==> forall k :: k > |u| ==> !Front(p, u + r, k)
  {
    hide Language, BestCut;
    var v := u + r;
    TwoParts(u, r);
    assert Cuts(p, v, true, |u|) && !NoCut(p, v, true);
    CutAt(p, v, true, true, |u|);
    CutAt(p, v, true, false, |u|);
    forall k
      ensures Cuts(p, v, true, k) <==> Front(p, v, k)
    {
      CutsEnd(p, v, k);
    }
    hide Cuts, Front;
  }

  /** Where u, at the end of r + u, is matched: % leaves r if no shorter end is, %% if no longer one is. */
  lemma BackCut(p: seq<Byte>, u: seq<Byte>, r: seq<Byte>)
    requires Language(p, u)
    ensures IsTrim(VSTRIMRIGHT, p, r + u, r) <==> forall k :: k < |u| ==> !Back(p, r + u, k)
    ensures IsTrim(VSTRIMRIGHTMAX, p, r + u, r) <==> forall k :: k > |u| ==> !Back(p, r + u, k)
  {
    hide Language, BestCut;
    var v := r + u;
    TwoParts(r, u);
    assert Cuts(p, v, false, |r|) && !NoCut(p, v, false);
    CutAt(p, v, false, false, |r|);
    CutAt(p, v, false, true, |r|);
    forall k
      ensures Cuts(p, v, false, k) <==> Back(p, v, |v| - k)
    {
      CutsEnd(p, v, k);
    }
    hide Cuts, Back;
    forall k
      ensures Back(p, v, k) <==> Cuts(p, v, false, |v| - k)
    {
      assert Cuts(p, v, false, |v| - k) <==> Back(p, v, |v| - (|v| - k));
    }
  }

  /** What is not matched stays: # and ## look at the front, % and %% at the end. */
  lemma NothingCut(p: seq<Byte>, v: seq<Byte>, r: seq<Byte>)
    ensures (forall k :: !Front(p, v, k)) ==>
              (IsTrim(VSTRIMLEFT, p, v, r) <==> r == v) && (IsTrim(VSTRIMLEFTMAX, p, v, r) <==> r == v)
    ensures (forall k :: !Back(p, v, k)) ==>
              (IsTrim(VSTRIMRIGHT, p, v, r) <==> r == v) && (IsTrim(VSTRIMRIGHTMAX, p, v, r) <==> r == v)
  {
    hide Language;
    forall k
      ensures Cuts(p, v, true, k) ==> Front(p, v, k)
      ensures Cuts(p, v, false, k) ==> Back(p, v, |v| - k)
    {
      CutsEnd(p, v, k);
    }
  }
}
