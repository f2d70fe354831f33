/**
 * Redirections with undo (src/redir.c): a stack of frames that say where the old descriptors went, and a
 * bitmap of descriptors known to be closed. Popping a frame gives back the table as it was when the frame
 * was pushed, even if the redirection failed half way.
 */
module RedirMachine {
  import opened Option
  import opened RedirTable

  /** Undoing the frames from the top gives the tables there were when each was pushed. */
  ghost predicate Chain(frames: seq<Frame>, snaps: seq<Table>, t: Table)
  {
    |frames| == |snaps| &&
    (frames != [] ==>
       var n := |frames| - 1;
       Holds(frames[n], t) && Undo(frames[n], t) == snaps[n] && Chain(frames[..n], snaps[..n], snaps[n]))
  }

  lemma TopHolds(frames: seq<Frame>, snaps: seq<Table>, t: Table)
    requires Chain(frames, snaps, t) && frames != []
    ensures Holds(frames[|frames| - 1], t)
  {
  }

  /** Changing the top frame and the table together. */
  lemma ChainTop(frames: seq<Frame>, snaps: seq<Table>, t: Table, f: Frame, t': Table)
    requires Chain(frames, snaps, t) && frames != []
    requires Holds(frames[|frames| - 1], t) && Holds(f, t') && Undo(f, t') == Undo(frames[|frames| - 1], t)
    ensures Chain(frames[|frames| - 1 := f], snaps, t')
  {
    hide Holds, Undo;
    var n := |frames| - 1;
    assert frames[n := f][..n] == frames[..n];
  }

  /** The table t0 before a redirection, and the descriptor nf and table t1 after the opening. */
  predicate Opened(r: Redir, t0: Table, nf: int, t1: Table) {
    if r.OpenFile? then r.file.Some? && nf >= 0 && nf !in t0 && t1 == t0[nf := r.file.value]
    else nf == r.dupfd != r.fd && t1 == t0
  }

  /** What a frame's slot i0 and the table become when the old file is noted. */
  predicate Noted(fd: int, t1: Table, nf: int, i0: int, closed: bool, i: int, t2: Table) {
    if i0 != EMPTY then i == i0 && t2 == t1
    else if fd == nf || closed || fd !in t1 then i == CLOSED && t2 == t1
    else i >= 10 && i !in t1 && t2 == t1[i := t1[fd]] - {fd}
  }

  /** What the table becomes when nf is put on the target. */
  predicate Moved(r: Redir, t2: Table, nf: int, t3: Table, ok: bool) {
    if r.fd == nf then ok && t3 == t2
    else if r.OpenFile? then ok && nf in t2 && t3 == t2[r.fd := t2[nf]] - {nf}
    else if nf < 0 then ok && t3 == t2 - {r.fd}
    else ok == (nf in t2) && t3 == if ok then t2[r.fd := t2[nf]] else t2
  }

  lemma PlacedNoting(r: Redir, t0: Table, nf: int, t1: Table, f: Frame, closed: bool, f': Frame, t2: Table, t3: Table,
                     ok: bool)
    requires WellFormed(r) && (forall d :: d in t0 ==> d >= 0) && Holds(f, t0)
    requires Opened(r, t0, nf, t1)
    requires Noted(r.fd, t1, nf, f[r.fd], closed, f'[r.fd], t2) && f' == f[r.fd := f'[r.fd]]
    requires closed ==> r.fd !in t0
    requires Moved(r, t2, nf, t3, ok)
    ensures Noting(f, t0, f', t3, r.fd) && forall d :: d in t3 ==> d >= 0
  {
    hide Low, Apply;
  }

  lemma PlacedMeaning(r: Redir, t0: Table, nf: int, t1: Table, f: Frame, closed: bool, f': Frame, t2: Table, t3: Table,
                      ok: bool)
    requires WellFormed(r) && (forall d :: d in t0 ==> d >= 0) && Holds(f, t0)
    requires Opened(r, t0, nf, t1)
    requires Noted(r.fd, t1, nf, f[r.fd], closed, f'[r.fd], t2) && f' == f[r.fd := f'[r.fd]]
    requires closed ==> r.fd !in t0
    requires Moved(r, t2, nf, t3, ok)
    ensures ok == Apply(r, Low(t0)).Some?
    ensures ok ==> Low(t3) == Apply(r, Low(t0)).value
  {
    hide Holds;
  }

  /** The three steps keep what undoing gives, and do to the low descriptors what the redirection means. */
  lemma Placed(r: Redir, t0: Table, nf: int, t1: Table, f: Frame, closed: bool, f': Frame, t2: Table, t3: Table,
               ok: bool)
    requires WellFormed(r) && (forall d :: d in t0 ==> d >= 0) && Holds(f, t0)
    requires Opened(r, t0, nf, t1)
    requires Noted(r.fd, t1, nf, f[r.fd], closed, f'[r.fd], t2) && f' == f[r.fd := f'[r.fd]]
    requires closed ==> r.fd !in t0
    requires Moved(r, t2, nf, t3, ok)
    ensures Holds(f', t3) && Undo(f', t3) == Undo(f, t0)
    ensures (forall d :: d in t3 ==> d >= 0)
    ensures ok == Apply(r, Low(t0)).Some?
    ensures ok ==> Low(t3) == Apply(r, Low(t0)).value
  {
    hide Undo, Low, Apply, Noting, Holds, Opened, Noted, Moved;
    PlacedNoting(r, t0, nf, t1, f, closed, f', t2, t3, ok);
    PlacedMeaning(r, t0, nf, t1, f, closed, f', t2, t3, ok);
    UndoKept(f, t0, f', t3, r.fd);
  }

  /** A new frame undoes to the table it was pushed on. */
  lemma ChainPush(frames: seq<Frame>, snaps: seq<Table>, t: Table)
    requires Chain(frames, snaps, t) && forall d :: d in t ==> d >= 0
    ensures Chain(frames + [NEW_FRAME], snaps + [t], t)
  {
    assert (frames + [NEW_FRAME])[..|frames|] == frames && (snaps + [t])[..|frames|] == snaps;
    assert Undo(NEW_FRAME, t) == t;
  }

  /** The frames below depend only on the descriptors from 10 on. */
  ghost function Resnap(frames: seq<Frame>, t: Table): (snaps: seq<Table>)
    ensures |snaps| == |frames|
    decreases |frames|
  {
    if frames == [] then []
    else
      var f := frames[|frames| - 1];
      var u := if Holds(f, t) then Undo(f, t) else t;
      Resnap(frames[..|frames| - 1], u) + [u]
  }

  lemma {:induction false} ResnapChain(frames: seq<Frame>, snaps: seq<Table>, t: Table, u: Table)
    requires Chain(frames, snaps, t)
    requires forall d :: d >= 10 ==> (d in t <==> d in u)
    ensures Chain(frames, Resnap(frames, u), u)
    decreases |frames|
  {
    if frames != [] {
      var n := |frames| - 1;
      assert Holds(frames[n], u);
      ResnapChain(frames[..n], snaps[..n], snaps[n], Undo(frames[n], u));
    }
  }

  /** Dropping the top frame and what it holds. */
  lemma DropChain(frames: seq<Frame>, snaps: seq<Table>, t: Table, u: Table)
    requires Chain(frames, snaps, t) && frames != []
    requires u == t - Saved(frames[|frames| - 1])
    ensures Chain(frames[..|frames| - 1], Resnap(frames[..|frames| - 1], u), u)
  {
    hide Chain;
    ChainBelow(frames, snaps, t);
    var n := |frames| - 1;
    ResnapChain(frames[..n], snaps[..n], snaps[n], u);
  }

  lemma ChainBelow(frames: seq<Frame>, snaps: seq<Table>, t: Table)
    requires Chain(frames, snaps, t) && frames != []
    ensures |snaps| == |frames| && Holds(frames[|frames| - 1], t)
    ensures snaps[|frames| - 1] == Undo(frames[|frames| - 1], t)
    ensures Chain(frames[..|frames| - 1], snaps[..|frames| - 1], snaps[|frames| - 1])
  {
  }

  /** A file that cannot be opened, or a descriptor put on itself. */
  lemma ApplyEarly(r: Redir, t: Table)
    ensures r.OpenFile? && r.file.None? ==> Apply(r, t) == None
    ensures r.DupFd? && r.dupfd == r.fd ==> Apply(r, t) == Some(t)
  {
  }

  class Shell {
    var fds: Table
    var redirlist: seq<Frame>
    var closed_redirs: set<int>

    /** The table at the time each frame was pushed. */
    ghost var snaps: seq<Table>

    constructor (t: Table)
      requires forall d :: d in t ==> d >= 0
      ensures Valid() && fds == t && redirlist == []
    {
      fds, redirlist, closed_redirs, snaps := t, [], {}, [];
    }

    ghost predicate Valid()
      reads this
    {
      && (forall d :: d in fds ==> d >= 0)
      && (forall d :: d in closed_redirs ==> 0 <= d < 10 && d !in fds)
      && |redirlist| == |snaps| && Chain(redirlist, snaps, fds)
    }

    // ---------- the kernel ----------

    method Open(file: File) returns (fd: int)
      modifies this`fds
      ensures fd == LowestFree(old(fds), 0) && fds == old(fds)[fd := file]
    {
      fd := LowestFree(fds, 0);
      fds := fds[fd := file];
    }

    method Close(fd: int)
      modifies this`fds
      ensures fds == old(fds) - {fd}
    {
      fds := fds - {fd};
    }

    method Dup2(ofd: int, nfd: int) returns (ok: bool)
      modifies this`fds
      ensures ok == (ofd in old(fds))
      ensures fds == if ok then old(fds)[nfd := old(fds)[ofd]] else old(fds)
    {
      ok := ofd in fds;
      if ok {
        fds := fds[nfd := fds[ofd]];
      }
    }

    // ---------- src/redir.c ----------

    /** Notes whether fd is closed, and returns whether it was noted as closed. */
    method UpdateClosedRedirs(fd: int, nfd: int) returns (closed: bool)
      modifies this`closed_redirs
      ensures closed == (fd in old(closed_redirs))
      ensures closed_redirs == if nfd >= 0 then old(closed_redirs) - {fd} else old(closed_redirs) + {fd}
    {
      closed := fd in closed_redirs;
      closed_redirs := if nfd >= 0 then closed_redirs - {fd} else closed_redirs + {fd};
    }

    /** Moves a descriptor to 10 or above; CLOSED if it was not open. */
    method SaveFd(from: int, ofd: int) returns (newfd: int)
      modifies this`fds
      ensures newfd == if from in old(fds) then LowestFree(old(fds), 10) else CLOSED
      ensures fds == if from in old(fds) then old(fds)[newfd := old(fds)[from]] - {ofd} else old(fds)
    {
      if from !in fds {
        return CLOSED;
      }
      newfd := LowestFree(fds, 10);
      fds := fds[newfd := fds[from]];
      Close(ofd);
    }

    /** -2 says there is nothing to do; an error is None. */
    method OpenRedirect(r: Redir) returns (f: Option<int>)
      modifies this`fds
      ensures match r
              case OpenFile(_, None) => f == None && fds == old(fds)
              case OpenFile(_, Some(file)) =>
                f == Some(LowestFree(old(fds), 0)) && fds == old(fds)[f.value := file]
              case DupFd(fd, dupfd) => f == Some(if dupfd == fd then -2 else dupfd) && fds == old(fds)
    {
      match r
      case OpenFile(_, file) =>
        if file.None? {
          return None;
        }
        var fd := Open(file.value);
        return Some(fd);
      case DupFd(fd, dupfd) =>
        return Some(if dupfd == fd then -2 else dupfd);
    }

    /** Puts descriptor f on the target of r; a descriptor opened for it is closed again. */
    method DupRedirect(r: Redir, f: int) returns (ok: bool)
      requires f != r.fd && (r.OpenFile? ==> f in fds)
      modifies this`fds
      ensures ok == (f < 0 || f in old(fds) || (r.DupFd? && f < 0))
      ensures r.OpenFile? ==> fds == old(fds)[r.fd := old(fds)[f]] - {f}
      ensures r.DupFd? ==>
                fds == if f < 0 then old(fds) - {r.fd}
                       else if ok then old(fds)[r.fd := old(fds)[f]]
                       else old(fds)
    {
      if r.DupFd? {
        if f >= 0 {
          ok := Dup2(f, r.fd);
          return;
        }
        Close(r.fd);
        return true;
      }
      ok := Dup2(f, r.fd);
      Close(f);
    }

    /** One redirection, with what it replaces noted in the top frame. */
    method RedirectOne(r: Redir) returns (ok: bool)
      requires Valid() && redirlist != [] && WellFormed(r)
      modifies this`fds, this`redirlist, this`closed_redirs
      ensures Valid() && |redirlist| == |old(redirlist)|
      ensures redirlist[..|redirlist| - 1] == old(redirlist)[..|redirlist| - 1]
      ensures ok == Apply(r, Low(old(fds))).Some?
      ensures ok ==> Low(fds) == Apply(r, Low(old(fds))).value
    {
      hide LowestFree, Undo, Chain, Holds, Saved, Low, Apply;
      var newfd := OpenRedirect(r);
      if newfd.None? || newfd.value < -1 {
        ApplyEarly(r, Low(fds));
        return newfd.Some?;
      }
      ghost var t1, n := fds, |redirlist| - 1;
      var fd := r.fd as int;
      var i := redirlist[|redirlist| - 1][fd];
      var closed := UpdateClosedRedirs(fd, newfd.value);
      if i == EMPTY {
        i := CLOSED;
        if fd != newfd.value && !closed {
          i := SaveFd(fd, fd);
          fd := -1;
        }
      }
      redirlist := redirlist[|redirlist| - 1 := redirlist[|redirlist| - 1][r.fd := i]];
      ghost var t2 := fds;
      ok := true;
      if fd != newfd.value {
        ok := DupRedirect(r, newfd.value);
      }
      TopHolds(old(redirlist), snaps, old(fds));
      Placed(r, old(fds), newfd.value, t1, old(redirlist)[n], closed, redirlist[n], t2, fds, ok);
      ChainTop(old(redirlist), snaps, old(fds), redirlist[n], fds);
    }

    /** A list of redirections, from left to right; it stops at the first that fails. */
    method Redirect(rs: seq<Redir>) returns (ok: bool)
      requires Valid() && (rs != [] ==> redirlist != [])
      requires forall i :: 0 <= i < |rs| ==> WellFormed(rs[i])
      modifies this`fds, this`redirlist, this`closed_redirs
      ensures Valid() && |redirlist| == |old(redirlist)|
      ensures rs == [] ==> redirlist == old(redirlist) && fds == old(fds)
      ensures rs != [] ==> redirlist[..|redirlist| - 1] == old(redirlist)[..|redirlist| - 1]
      ensures ok == ApplyAll(rs, Low(old(fds))).Some?
      ensures ok ==> Low(fds) == ApplyAll(rs, Low(old(fds))).value
    {
      hide Apply, Chain, Low;
      if rs == [] {
        return true;
      }
      var i := 0;
      while i < |rs|
        invariant i <= |rs| && Valid() && |redirlist| == |old(redirlist)| > 0
        invariant redirlist[..|redirlist| - 1] == old(redirlist)[..|redirlist| - 1]
        invariant ApplyAll(rs, Low(old(fds))) == ApplyAll(rs[i..], Low(fds))
      {
        ok := RedirectOne(rs[i]);
        if !ok {
          return;
        }
        assert rs[i..][1..] == rs[i + 1..];
        i := i + 1;
      }
      ok := true;
    }

    /** Starts a frame if there is anything to redirect, and returns where to unwind to. */
    method PushRedir(rs: seq<Redir>) returns (stop: nat)
      requires Valid()
      modifies this`redirlist, this`snaps
      ensures Valid() && stop == |old(redirlist)|
      ensures redirlist == if rs == [] then old(redirlist) else old(redirlist) + [NEW_FRAME]
      ensures snaps == if rs == [] then old(snaps) else old(snaps) + [fds]
    {
      stop := |redirlist|;
      if rs != [] {
        ChainPush(redirlist, snaps, fds);
        redirlist := redirlist + [NEW_FRAME];
        snaps := snaps + [fds];
      }
    }

    /** Undoes the top frame, or with drop only forgets it and lets go of what it saved. */
    method PopRedir(drop: bool)
      requires Valid() && redirlist != []
      modifies this
      ensures Valid() && redirlist == old(redirlist)[..|old(redirlist)| - 1]
      ensures !drop ==> fds == old(snaps)[|redirlist|] && snaps == old(snaps)[..|redirlist|]
      ensures drop ==> fds == old(fds) - Saved(old(redirlist)[|redirlist|])
    {
      hide Chain, Undo, UndoTo, Holds, Saved;
      var rp := redirlist[|redirlist| - 1];
      TopHolds(redirlist, snaps, fds);
      ghost var t := fds;
      UndoEnds(rp, t);
      var i := 0;
      while i < 10
        invariant i <= 10 && unchanged(`redirlist) && unchanged(`snaps)
        invariant forall d :: d in closed_redirs ==> 0 <= d < 10 && d !in fds
        invariant !drop ==> fds == UndoTo(rp, t, i)
        invariant drop ==> fds == t - Saved(rp, i)
      {
        if !drop {
          UndoStep(rp, t, i);
        } else {
          SavedStep(rp, i);
        }
        if rp[i] != EMPTY {
          var closed := true;
          if !drop {
            closed := UpdateClosedRedirs(i, rp[i]);
          }
          if rp[i] == CLOSED {
            if !closed {
              Close(i);
            }
          } else {
            if !drop {
              var ok := Dup2(rp[i], i);
            }
            Close(rp[i]);
          }
        }
        i := i + 1;
      }
      redirlist := redirlist[..|redirlist| - 1];
      if drop {
        DropChain(old(redirlist), snaps, t, fds);
        snaps := Resnap(redirlist, fds);
      } else {
        UndoEnds(rp, t);
        ChainBelow(old(redirlist), snaps, t);
        snaps := snaps[..|redirlist|];
      }
    }

    /** Undoes frames until only those below stop are left. */
    method UnwindRedir(stop: nat)
      requires Valid() && stop <= |redirlist|
      modifies this
      ensures Valid() && redirlist == old(redirlist)[..stop] && snaps == old(snaps)[..stop]
      ensures fds == if stop == |old(redirlist)| then old(fds) else old(snaps)[stop]
    {
      hide Chain;
      while |redirlist| != stop
        invariant Valid() && stop <= |redirlist| <= |old(redirlist)|
        invariant redirlist == old(redirlist)[..|redirlist|] && snaps == old(snaps)[..|redirlist|]
        invariant fds == if |redirlist| == |old(redirlist)| then old(fds) else old(snaps)[|redirlist|]
        decreases |redirlist|
      {
        PopRedir(false);
      }
    }
  }
}

/** Runs of commands with redirections, nested in any way; any of them may raise an error. */
module RedirNesting {
  import opened RedirTable
  import opened RedirMachine

  /**
   * Something to run: an error raised; parts run in order; parts with redirections, as in src/eval.c:251-262; or
   * parts whose errors are caught and whose frames are unwound, as in src/eval.c:848-942. A redirection that
   * fails raises an error itself when fatal (a special builtin's does), and otherwise its frame is popped.
   */
  datatype Run =
    | Raise
    | Parts(parts: seq<Run>)
    | Redirected(rs: seq<Redir>, body: Run, fatal: bool)
    | Guarded(body: Run)

  ghost predicate Legal(run: Run) {
    match run
    case Raise => true
    case Parts(parts) => forall p :: p in parts ==> Legal(p)
    case Redirected(rs, body, _) => (forall i :: 0 <= i < |rs| ==> WellFormed(rs[i])) && Legal(body)
    case Guarded(body) => Legal(body)
  }

  /**
   * A run that ends leaves every descriptor and every frame as it was; one that raises an error leaves the
   * frames that get back there.
   */
  method Perform(sh: Shell, run: Run) returns (raised: bool)
    requires sh.Valid() && Legal(run)
    modifies sh
    ensures sh.Valid() && |sh.redirlist| >= |old(sh.redirlist)|
    ensures sh.redirlist[..|old(sh.redirlist)|] == old(sh.redirlist) && sh.snaps[..|old(sh.snaps)|] == old(sh.snaps)
    ensures old(sh.fds) == if |sh.redirlist| == |old(sh.redirlist)| then sh.fds else sh.snaps[|old(sh.snaps)|]
    ensures !raised ==> sh.fds == old(sh.fds) && sh.redirlist == old(sh.redirlist)
    decreases run
  {
    hide Chain;
    match run
    case Raise =>
      return true;
    case Parts(parts) =>
      raised := false;
      for i := 0 to |parts|
        invariant sh.Valid() && sh.fds == old(sh.fds) && sh.redirlist == old(sh.redirlist) && sh.snaps == old(sh.snaps)
      {
        raised := Perform(sh, parts[i]);
        if raised {
          return;
        }
      }
    case Redirected(rs, body, fatal) =>
      var stop := sh.PushRedir(rs);
      var ok := sh.Redirect(rs);
      raised := !ok && fatal;
      if ok {
        raised := Perform(sh, body);
      }
      if raised {
        assert rs != [] ==> sh.snaps[stop] == sh.snaps[..stop + 1][stop];
        return;
      }
      if rs != [] {
        sh.PopRedir(false);
      }
      raised := false;
    case Guarded(body) =>
      var stop := |sh.redirlist|;
      var r := Perform(sh, body);
      sh.UnwindRedir(stop);
      raised := false;
  }
}
