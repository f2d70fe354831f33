/** Laws of redirections: what each does to the descriptors, and that a list does it from left to right. */
module RedirLaws {
  import opened Option
  import opened RedirTable

  /** The file of a descriptor. */
  function FileOf(t: Table, d: int): Option<File> {
    if d in t then Some(t[d]) else None
  }

  /** A file that can be opened is on the descriptor afterwards, and nothing else has changed. */
  lemma Opens(fd: nat, file: Option<File>, t: Table, d: int)
    ensures var r := Apply(OpenFile(fd, file), t);
            && (r.None? <==> file.None?)
            && (r.Some? ==> FileOf(r.value, fd) == file && (d != fd ==> FileOf(r.value, d) == FileOf(t, d)))
  {}

  /** Afterwards the two descriptors have the file that the source had; a source that is not open is an error. */
  lemma Duplicates(fd: nat, dupfd: nat, t: Table, d: int)
    ensures var r := Apply(DupFd(fd, dupfd), t);
            && (r.None? <==> dupfd != fd && dupfd !in t)
            && (r.Some? ==>
                  && FileOf(r.value, fd) == FileOf(r.value, dupfd) == FileOf(t, dupfd)
                  && (d != fd ==> FileOf(r.value, d) == FileOf(t, d)))
  {}

  /** Closing always succeeds. */
  lemma Closes(fd: nat, t: Table, d: int)
    ensures var r := Apply(DupFd(fd, -1), t);
            r.Some? && FileOf(r.value, fd) == None && (d != fd ==> FileOf(r.value, d) == FileOf(t, d))
  {}

  /** A list after another does its part to what the other left. */
  lemma {:induction false} FirstThen(a: seq<Redir>, b: seq<Redir>, t: Table)
    ensures ApplyAll(a + b, t) == if ApplyAll(a, t).Some? then ApplyAll(b, ApplyAll(a, t).value) else None
  {
    if a == [] {
      assert a + b == b;
    } else {
      assert (a + b)[0] == a[0] && (a + b)[1..] == a[1..] + b;
      var t1 := Apply(a[0], t);
      if t1.Some? {
        FirstThen(a[1..], b, t1.value);
      }
    }
  }

  lemma OneAlone(r: Redir, t: Table)
    ensures ApplyAll([r], t) == Apply(r, t) && ApplyAll([], t) == Some(t)
  {
    assert [r][1..] == [];
  }

  /** `>f 2>&1` puts both descriptors on the file. */
  lemma BothToFile(f: File, t: Table, d: int)
    ensures var r := ApplyAll([OpenFile(1, Some(f)), DupFd(2, 1)], t);
            && r.Some? && FileOf(r.value, 1) == FileOf(r.value, 2) == Some(f)
            && (d != 1 && d != 2 ==> FileOf(r.value, d) == FileOf(t, d))
  {
    var a, b := OpenFile(1, Some(f)), DupFd(2, 1);
    assert [a, b] == [a] + [b];
    FirstThen([a], [b], t);
    OneAlone(a, t);
    OneAlone(b, ApplyAll([a], t).value);
    Duplicates(2, 1, ApplyAll([a], t).value, d);
  }

  /** `2>&1 >f` leaves the second on what the first was. */
  lemma FirstToFile(f: File, t: Table, d: int)
    requires 1 in t
    ensures var r := ApplyAll([DupFd(2, 1), OpenFile(1, Some(f))], t);
            && r.Some? && FileOf(r.value, 1) == Some(f) && FileOf(r.value, 2) == FileOf(t, 1)
            && (d != 1 && d != 2 ==> FileOf(r.value, d) == FileOf(t, d))
  {
    var a, b := DupFd(2, 1), OpenFile(1, Some(f));
    assert [a, b] == [a] + [b];
    FirstThen([a], [b], t);
    OneAlone(a, t);
    OneAlone(b, ApplyAll([a], t).value);
    Duplicates(2, 1, t, d);
  }

  /** Redirections do not touch descriptors that they do not name. */
  lemma {:induction false} OnlyNamed(rs: seq<Redir>, t: Table, d: int)
    requires forall i :: 0 <= i < |rs| ==> rs[i].fd != d
    ensures ApplyAll(rs, t).Some? ==> FileOf(ApplyAll(rs, t).value, d) == FileOf(t, d)
  {
    if rs != [] {
      var t1 := Apply(rs[0], t);
      if t1.Some? {
        OnlyNamed(rs[1..], t1.value, d);
      }
    }
  }
}
