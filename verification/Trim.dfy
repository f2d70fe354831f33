/**
 * The four trims #, ##, % and %% (src/expand.c): where to cut is found by scanning, with a NUL written for a
 * moment at the end of each prefix that is tried.
 */
module Trim {
  import opened Option
  import opened CBytes
  import opened GlobPattern
  import opened GlobMatch

  const VSTRIMRIGHT := 6    // %
  const VSTRIMRIGHTMAX := 7 // %%
  const VSTRIMLEFT := 8     // #
  const VSTRIMLEFTMAX := 9  // ##

  /** A pattern that can be matched against. */
  ghost predicate Usable(p: seq<Byte>) {
    Pattern(p) && Escaped(p, 0)
  }

  /** The pattern accepts the part of v before (when prefix) or after position k. */
  ghost predicate Cuts(p: seq<Byte>, v: seq<Byte>, prefix: bool, k: int) {
    0 <= k <= |v| && Language(p, if prefix then v[..k] else v[k..])
  }

  ghost predicate NoCut(p: seq<Byte>, v: seq<Byte>, prefix: bool) {
    forall k :: !Cuts(p, v, prefix, k)
  }

  /** A cut that leaves r, where no other one is at a lower place, or none is at a higher place. */
  ghost predicate BestCut(p: seq<Byte>, v: seq<Byte>, prefix: bool, least: bool, r: seq<Byte>) {
    exists k :: Cuts(p, v, prefix, k) && r == (if prefix then v[k..] else v[..k])
             && forall j :: Cuts(p, v, prefix, j) ==> if least then k <= j else j <= k
  }

  /** What each trim is to leave of v: the shortest or longest prefix or suffix that p accepts is gone. */
  ghost predicate IsTrim(subtype: int, p: seq<Byte>, v: seq<Byte>, r: seq<Byte>) {
    var prefix := subtype == VSTRIMLEFT || subtype == VSTRIMLEFTMAX;
    var least := subtype == VSTRIMLEFT || subtype == VSTRIMRIGHTMAX;
    if NoCut(p, v, prefix) then r == v else BestCut(p, v, prefix, least, r)
  }

  /** A NUL-terminated value in the string space. */
  ghost predicate ValueIn(block: seq<Byte>, startp: nat, endp: nat) {
    startp <= endp < |block| && block[endp] == NUL && Plain(block[startp..endp])
  }

  /** Tries one place: the byte there is put back. */
  method TryAt(block: array<Byte>, startp: nat, endp: nat, loc: nat, str: seq<Byte>, zero: bool) returns (matched: bool)
    requires ValueIn(block[..], startp, endp) && startp <= loc <= endp && Usable(str)
    modifies block
    ensures block[..] == old(block[..])
    ensures matched <==> Cuts(str, block[startp..endp], zero, loc - startp)
  {
    hide Escaped, Pattern, Accepts, Elements;
    ghost var v := block[startp..endp];
    var s := loc;
    var c := block[s];
    if zero {
      block[s] := NUL;
      s := startp;
    }
    CStringAt(block[..], s, if zero then loc else endp);
    assert block[..][s..if zero then loc else endp] == if zero then v[..loc - startp] else v[loc - startp..];
    var text := CString(block[..], s);
    matched := PMatch(str, 0, text, 0);
    assert text[0..] == text;
    block[loc] := c;
  }

  /** From left to right: the shortest prefix, or the longest suffix. */
  method ScanLeft(block: array<Byte>, startp: nat, endp: nat, str: seq<Byte>, zero: bool) returns (r: Option<nat>)
    requires ValueIn(block[..], startp, endp) && Usable(str)
    modifies block
    ensures block[..] == old(block[..])
    ensures var v := block[startp..endp];
            if r.None? then forall k :: !Cuts(str, v, zero, k)
            else startp <= r.value <= endp && Cuts(str, v, zero, r.value - startp)
                 && forall k :: Cuts(str, v, zero, k) ==> r.value - startp <= k
  {
    hide Cuts, Usable;
    var loc := startp;
    while true
      invariant startp <= loc <= endp && block[..] == old(block[..])
      invariant forall k :: 0 <= k < loc - startp ==> !Cuts(str, block[startp..endp], zero, k)
      decreases endp - loc
    {
      var c := block[loc];
      var matched := TryAt(block, startp, endp, loc, str, zero);
      CutsInside(str, block[startp..endp], zero);
      if matched {
        return Some(loc);
      }
      if c == NUL {
        assert loc == endp;
        break;
      }
      loc := loc + 1;
    }
    return None;
  }

  lemma CutsInside(p: seq<Byte>, v: seq<Byte>, prefix: bool)
    ensures forall k :: Cuts(p, v, prefix, k) ==> 0 <= k <= |v|
  {
  }

  /** From right to left: the longest prefix, or the shortest suffix. */
  method ScanRight(block: array<Byte>, startp: nat, endp: nat, str: seq<Byte>, zero: bool) returns (r: Option<nat>)
    requires ValueIn(block[..], startp, endp) && Usable(str)
    modifies block
    ensures block[..] == old(block[..])
    ensures var v := block[startp..endp];
            if r.None? then forall k :: !Cuts(str, v, zero, k)
            else startp <= r.value <= endp && Cuts(str, v, zero, r.value - startp)
                 && forall k :: Cuts(str, v, zero, k) ==> k <= r.value - startp
  {
    hide Cuts, Usable;
    var loc := endp;
    while true
      invariant startp <= loc <= endp && block[..] == old(block[..])
      invariant forall k :: loc - startp < k <= endp - startp ==> !Cuts(str, block[startp..endp], zero, k)
      decreases loc
    {
      var matched := TryAt(block, startp, endp, loc, str, zero);
      CutsInside(str, block[startp..endp], zero);
      if matched {
        return Some(loc);
      }
      if loc == startp {
        break;
      }
      loc := loc - 1;
    }
    return None;
  }

  /** Moves bytes to a lower place; the two may overlap. */
  method MemMove(block: array<Byte>, to: nat, from: nat, n: nat)
    requires to <= from && from + n <= block.Length
    modifies block
    ensures block[to..to + n] == old(block[from..from + n])
    ensures forall k :: 0 <= k < to || to + n <= k < block.Length ==> block[k] == old(block[k])
  {
    for i := 0 to n
      invariant block[to..to + i] == old(block[from..from + i])
      invariant forall k :: 0 <= k < to || to + i <= k < block.Length ==> block[k] == old(block[k])
    {
      block[to + i] := block[from + i];
    }
  }

  /** What is kept moves to the start, and is ended. */
  method KeepPart(block: array<Byte>, startp: nat, rmesc: nat, rmescend: nat, endp: nat) returns (loc: nat)
    requires startp <= rmesc <= rmescend <= endp < block.Length && block[endp] == NUL
    modifies block
    ensures startp <= loc <= endp && block[loc] == NUL && block[startp..loc] == old(block[rmesc..rmescend])
    ensures forall k :: 0 <= k < startp || endp <= k < block.Length ==> block[k] == old(block[k])
  {
    MemMove(block, startp, rmesc, rmescend - rmesc);
    loc := startp + (rmescend - rmesc);
    block[loc] := NUL;
  }

  /** A place k to cut that is the least or the greatest; -1 says there is none. */
  lemma IsTrimAt(subtype: int, p: seq<Byte>, v: seq<Byte>, k: int)
    requires VSTRIMRIGHT <= subtype <= VSTRIMLEFTMAX
    requires var prefix := subtype >= VSTRIMLEFT;
             var least := subtype == VSTRIMLEFT || subtype == VSTRIMRIGHTMAX;
             if k == -1 then forall j :: !Cuts(p, v, prefix, j)
             else Cuts(p, v, prefix, k) && forall j :: Cuts(p, v, prefix, j) ==> if least then k <= j else j <= k
    ensures IsTrim(subtype, p, v, if k == -1 then v else if subtype >= VSTRIMLEFT then v[k..] else v[..k])
  {
  }

  lemma SliceOf<T>(s: seq<T>, lo: nat, hi: nat, i: nat, j: nat)
    requires lo <= i <= j <= hi <= |s|
    ensures s[i..j] == s[lo..hi][i - lo..j - lo]
  {
    var u, v := s[i..j], s[lo..hi][i - lo..j - lo];
    assert forall k :: 0 <= k < j - i ==> u[k] == s[i + k] && v[k] == s[lo..hi][i - lo + k];
  }

  /** The trim part of subevalvar; the result is the new end of the value. */
  method SubEvalVarTrim(block: array<Byte>, startp: nat, endp: nat, str: seq<Byte>, subtype: int) returns (loc: nat)
    requires ValueIn(block[..], startp, endp) && Usable(str)
    requires VSTRIMRIGHT <= subtype <= VSTRIMLEFTMAX
    modifies block
    ensures startp <= loc <= endp && block[loc] == NUL
    ensures IsTrim(subtype, str, old(block[startp..endp]), block[startp..loc])
    ensures forall k :: 0 <= k < startp || endp <= k < block.Length ==> block[k] == old(block[k])
  {
    hide Cuts, Usable, IsTrim;
    ghost var v := block[startp..endp];
    var code := subtype - VSTRIMRIGHT;
    var zero := code / 2 == 1;
    assert zero == (subtype >= VSTRIMLEFT);
    var r;
    if (code % 2 == 1) != zero {
      r := ScanLeft(block, startp, endp, str, zero);
    } else {
      r := ScanRight(block, startp, endp, str, zero);
    }
    var rmesc, rmescend := startp, endp;
    if r.Some? {
      if zero {
        rmesc := r.value;
      } else {
        rmescend := r.value;
      }
    }
    assert block[rmesc..rmescend] == v[rmesc - startp..rmescend - startp] by {
      SliceOf(block[..], startp, endp, rmesc, rmescend);
    }
    loc := KeepPart(block, startp, rmesc, rmescend, endp);
    ghost var k := if r.None? then -1 else r.value - startp;
    assert block[startp..loc] == if k == -1 then v else if zero then v[k..] else v[..k];
    IsTrimAt(subtype, str, v, k);
  }
}
