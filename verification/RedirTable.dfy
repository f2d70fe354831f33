/** Descriptor tables, what a redirection means, and what undoing a saved frame means. */
module RedirTable {
  import opened Option

  /** An open file description. */
  type File = nat

  /** Which file each open descriptor refers to. */
  type Table = map<int, File>

  const EMPTY := -2  // nothing happened to this descriptor
  const CLOSED := -1 // it was closed before

  /** One frame: for each of the descriptors 0 to 9, EMPTY, CLOSED or where its old file was moved. */
  type Frame = f: seq<int> | |f| == 10 && forall i :: 0 <= i < 10 ==> f[i] == EMPTY || f[i] == CLOSED || f[i] >= 10
    witness [-2, -2, -2, -2, -2, -2, -2, -2, -2, -2]

  const NEW_FRAME: Frame := [EMPTY, EMPTY, EMPTY, EMPTY, EMPTY, EMPTY, EMPTY, EMPTY, EMPTY, EMPTY]

  /** The descriptors a frame holds for those below n. */
  function Saved(f: Frame, n: nat := 10): set<int>
    requires n <= 10
  {
    set i | 0 <= i < n && f[i] >= 10 :: f[i]
  }

  /** A frame's saved descriptors are open and distinct. */
  ghost predicate Holds(f: Frame, t: Table) {
    && (forall i :: 0 <= i < 10 && f[i] >= 10 ==> f[i] in t)
    && (forall i, j :: 0 <= i < j < 10 && f[i] >= 10 ==> f[i] != f[j])
  }

  ghost predicate OpenAfter(f: Frame, t: Table, d: int) {
    if d >= 10 then d in t && d !in Saved(f)
    else d >= 0 && (f[d] >= 10 || (f[d] == EMPTY && d in t))
  }

  /** The table once a frame is undone: 0 to 9 as they were, and nothing saved any more. */
  ghost function Undo(f: Frame, t: Table): Table
    requires Holds(f, t)
  {
    map d | d in t.Keys + {0, 1, 2, 3, 4, 5, 6, 7, 8, 9} && OpenAfter(f, t, d)
      :: if 0 <= d < 10 && f[d] >= 10 then t[f[d]] else t[d]
  }

  /** Undoing only what happened to the descriptors below n. */
  ghost function UndoTo(f: Frame, t: Table, n: nat): Table
    requires Holds(f, t) && n <= 10
  {
    map d | d in t.Keys + {0, 1, 2, 3, 4, 5, 6, 7, 8, 9} && OpenAfterTo(f, t, n, d)
      :: if 0 <= d < n && f[d] >= 10 then t[f[d]] else t[d]
  }

  ghost predicate OpenAfterTo(f: Frame, t: Table, n: nat, d: int)
    requires n <= 10
  {
    if d >= 10 then d in t && forall i :: 0 <= i < n ==> f[i] != d
    else if 0 <= d < n then f[d] >= 10 || (f[d] == EMPTY && d in t)
    else d in t
  }

  lemma SavedStep(f: Frame, n: nat)
    requires n < 10
    ensures Saved(f, n + 1) == Saved(f, n) + if f[n] >= 10 then {f[n]} else {}
  {
  }

  lemma UndoEnds(f: Frame, t: Table)
    requires Holds(f, t) && forall d :: d in t ==> d >= 0
    ensures UndoTo(f, t, 0) == t && UndoTo(f, t, 10) == Undo(f, t) && Saved(f, 0) == {}
    ensures forall d :: d in Undo(f, t) ==> d >= 0
  {
    assert forall d :: OpenAfterTo(f, t, 10, d) && d >= 0 ==> OpenAfter(f, t, d);
  }

  lemma UndoToAt(f: Frame, t: Table, n: nat)
    requires Holds(f, t) && n <= 10
    ensures forall d :: d in UndoTo(f, t, n) <==> OpenAfterTo(f, t, n, d)
    ensures forall d :: d in UndoTo(f, t, n) ==>
              UndoTo(f, t, n)[d] == if 0 <= d < n && f[d] >= 10 then t[f[d]] else t[d]
  {
  }

  /** Which descriptors are open then, from which were. */
  lemma OpenStep(f: Frame, t: Table, n: nat, d: int)
    requires Holds(f, t) && n < 10
    ensures OpenAfterTo(f, t, n + 1, d) ==
              if d == n then f[n] >= 10 || (f[n] == EMPTY && d in t)
              else OpenAfterTo(f, t, n, d) && (d >= 10 ==> f[n] != d)
    ensures d == n ==> OpenAfterTo(f, t, n, d) == (d in t)
    ensures f[n] >= 10 ==> f[n] in t && OpenAfterTo(f, t, n, f[n])
  {
  }

  /** One more descriptor. */
  lemma UndoStep(f: Frame, t: Table, n: nat)
    requires Holds(f, t) && n < 10
    ensures var u := UndoTo(f, t, n);
            UndoTo(f, t, n + 1) ==
              if f[n] == EMPTY then u
              else if f[n] == CLOSED then u - {n}
              else if f[n] in u then u[n := u[f[n]]] - {f[n]} else u
    ensures f[n] >= 10 ==> f[n] in UndoTo(f, t, n)
  {
    hide UndoTo, OpenAfterTo, Holds;
    var u, v := UndoTo(f, t, n), UndoTo(f, t, n + 1);
    UndoToAt(f, t, n);
    UndoToAt(f, t, n + 1);
    OpenStep(f, t, n, n);
    var w := if f[n] == EMPTY then u else if f[n] == CLOSED then u - {n} else u[n := u[f[n]]] - {f[n]};
    forall d
      ensures d in v <==> d in w
      ensures d in v ==> v[d] == w[d]
    {
      OpenStep(f, t, n, d);
    }
    assert v == w;
  }

  /** Descriptor fd was changed, and its old file was noted first. */
  ghost predicate Noting(f: Frame, t: Table, f': Frame, t': Table, fd: int) {
    && 0 <= fd < 10 && Holds(f, t)
    && f' == f[fd := f'[fd]]
    && t' - {fd, f'[fd]} == t - {fd, f'[fd]}
    && (|| (f[fd] != EMPTY && f' == f && (f[fd] in t ==> f[fd] in t' && t'[f[fd]] == t[f[fd]]))
        || (f[fd] == EMPTY && f'[fd] == CLOSED && fd !in t)
        || (f[fd] == EMPTY && f'[fd] >= 10 && f'[fd] !in t && fd in t && f'[fd] in t' && t'[f'[fd]] == t[fd]))
    && CLOSED !in t && CLOSED !in t'
  }

  lemma HoldsKept(f: Frame, t: Table, f': Frame, t': Table, fd: int)
    requires Noting(f, t, f', t', fd)
    ensures Holds(f, t) && Holds(f', t')
  {
    SameElsewhere(t, t', fd, f'[fd]);
  }

  /** What one descriptor is once a frame is undone. */
  ghost function Undone(f: Frame, t: Table, d: int): File
    requires Holds(f, t) && OpenAfter(f, t, d)
  {
    if 0 <= d < 10 && f[d] >= 10 then t[f[d]] else t[d]
  }

  lemma UndoAt(f: Frame, t: Table)
    requires Holds(f, t)
    ensures forall d :: d in Undo(f, t) <==> OpenAfter(f, t, d)
    ensures forall d :: d in Undo(f, t) ==> Undo(f, t)[d] == Undone(f, t, d)
  {
    hide Saved;
  }

  lemma KeptAt(f: Frame, t: Table, f': Frame, t': Table, fd: int, d: int)
    requires Noting(f, t, f', t', fd) && Holds(f', t')
    ensures OpenAfter(f', t', d) <==> OpenAfter(f, t, d)
    ensures OpenAfter(f, t, d) ==> Undone(f', t', d) == Undone(f, t, d)
  {
    hide Saved;
    SameElsewhere(t, t', fd, f'[fd]);
    SavedUpdate(f, fd, f'[fd]);
  }

  /** Changing descriptor fd does not change what undoing gives, if its old file is noted first. */
  lemma UndoKept(f: Frame, t: Table, f': Frame, t': Table, fd: int)
    requires Noting(f, t, f', t', fd)
    ensures Holds(f', t') && Undo(f', t') == Undo(f, t)
  {
    hide Noting, Holds, Undo, Undone, OpenAfter;
    HoldsKept(f, t, f', t', fd);
    UndoAt(f, t);
    UndoAt(f', t');
    forall d
      ensures d in Undo(f', t') <==> d in Undo(f, t)
      ensures d in Undo(f, t) ==> Undo(f', t')[d] == Undo(f, t)[d]
    {
      KeptAt(f, t, f', t', fd, d);
    }
  }

  lemma SameElsewhere(t: Table, t': Table, fd: int, s: int)
    requires t' - {fd, s} == t - {fd, s}
    ensures forall d :: d != fd && d != s ==> (d in t' <==> d in t) && (d in t ==> t'[d] == t[d])
  {
    forall d | d != fd && d != s
      ensures (d in t' <==> d in t) && (d in t ==> t'[d] == t[d])
    {
      assert d in t' <==> d in t' - {fd, s};
      assert d in t <==> d in t - {fd, s};
    }
  }

  lemma SavedUpdate(f: Frame, fd: int, s: int)
    requires 0 <= fd < 10 && (f[fd] == EMPTY || f[fd] == s) && (s == EMPTY || s == CLOSED || s >= 10)
    ensures Saved(f[fd := s]) == Saved(f) + if s >= 10 then {s} else {}
  {
    var f' := f[fd := s];
    forall d
      ensures d in Saved(f') <==> d in Saved(f) || (s >= 10 && d == s)
    {
      if d in Saved(f) {
        var i :| 0 <= i < 10 && f[i] >= 10 && f[i] == d;
        assert f'[i] == d || i == fd;
      }
      if s >= 10 && d == s {
        assert f'[fd] == d;
      }
    }
  }

  // ---------- what a list of redirections means ----------

  /** Open a file on fd (None if it cannot be opened), or make fd a copy of dupfd, or close fd if that is -1. */
  datatype Redir = OpenFile(fd: nat, file: Option<File>) | DupFd(fd: nat, dupfd: int)

  predicate WellFormed(r: Redir) {
    r.fd < 10 && (r.DupFd? ==> -1 <= r.dupfd < 10)
  }

  /** The effect on the table, or None if it fails. */
  function Apply(r: Redir, t: Table): Option<Table> {
    match r
    case OpenFile(fd, file) =>
      var f :- file;
      Some(t[fd := f])
    case DupFd(fd, dupfd) =>
      if dupfd == fd then Some(t)
      else if dupfd < 0 then Some(t - {fd})
      else if dupfd in t then Some(t[fd := t[dupfd]])
      else None
  }

  /** From left to right. */
  function ApplyAll(rs: seq<Redir>, t: Table): Option<Table> {
    if rs == [] then Some(t)
    else
      var t1 :- Apply(rs[0], t);
      ApplyAll(rs[1..], t1)
  }

  /** The part of a table that redirections are about. */
  function Low(t: Table): Table {
    map d | d in t && d < 10 :: t[d]
  }

  // ---------- the lowest free descriptor ----------

  function LowestFree(t: Table, n: int): (d: int)
    ensures d >= n && d !in t && forall k :: n <= k < d ==> k in t
    decreases |set k | k in t && k >= n|
  {
    if n !in t then n
    else
      assert (set k | k in t && k >= n + 1) == (set k | k in t && k >= n) - {n};
      LowestFree(t, n + 1)
  }
}
