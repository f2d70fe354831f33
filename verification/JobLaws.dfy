/** Laws of jobs: what a status word says, when a job is done or stopped, and where it stands in the order. */
module JobLaws {
  import opened JobTable
  import opened JobMachine
  import opened JobWait

  // ---------- statuses ----------

  /** A process that has ended: not running and not stopped. */
  predicate Ended(status: int) {
    status != -1 && !WIfStopped(status)
  }

  /** Status words: an exit code, a signal with or without a core dump, and a stop. */
  lemma StatusWords(code: int, sig: int, core: bool)
    requires 0 <= code < 256 && 0 <= sig < 127
    ensures Ended(code * 256) && Ended(sig + if core then 128 else 0)
    ensures WIfStopped(sig * 256 + 127) && !WIfStopped(-1)
  {
  }

  /** A job is done when all its processes have ended; it is stopped when none runs and one has not ended. */
  lemma SummaryOf(ps: seq<Proc>)
    ensures Summary(ps) == JOBDONE <==> forall p :: p in ps ==> Ended(p.status)
    ensures Summary(ps) == JOBSTOPPED <==>
              (forall p :: p in ps ==> p.status != -1) && !(forall p :: p in ps ==> Ended(p.status))
  {
    hide WIfStopped;
    assert forall i :: 0 <= i < |ps| ==> ps[i] in ps;
  }

  // ---------- reaping ----------

  datatype Reaped = Reaped(pid: int, status: int)

  /** Processes are reaped one after the other. */
  function MarkAll(ps: seq<Proc>, rs: seq<Reaped>): (r: seq<Proc>)
    ensures |r| == |ps|
    decreases |rs|
  {
    if rs == [] then ps else MarkAll(Mark(ps, rs[0].pid, rs[0].status), rs[1..])
  }

  /** Each process has the last status that was reaped for it, if there was one, and what it had otherwise. */
  lemma {:induction false} LastStatus(ps: seq<Proc>, rs: seq<Reaped>, k: nat, j: nat)
    requires k < |ps| && j <= |rs| && forall i :: j <= i < |rs| ==> rs[i].pid != ps[k].pid
    ensures MarkAll(ps, rs)[k].pid == ps[k].pid
    ensures j == 0 ==> MarkAll(ps, rs)[k] == ps[k]
    ensures j > 0 && rs[j - 1].pid == ps[k].pid ==> MarkAll(ps, rs)[k].status == rs[j - 1].status
    decreases |rs|
  {
    if rs != [] {
      var ps' := Mark(ps, rs[0].pid, rs[0].status);
      LastStatus(ps', rs[1..], k, if j > 0 then j - 1 else 0);
    }
  }

  /** A job is done once each of its processes was reaped and none was only stopped. */
  lemma {:induction false} AllReaped(ps: seq<Proc>, rs: seq<Reaped>)
    requires forall p :: p in ps ==> Ended(p.status) || exists r :: r in rs && r.pid == p.pid
    requires forall r :: r in rs ==> Ended(r.status)
    ensures Summary(MarkAll(ps, rs)) == JOBDONE
    decreases |rs|
  {
    hide WIfStopped;
    if rs == [] {
      SummaryOf(ps);
    } else {
      var ps' := Mark(ps, rs[0].pid, rs[0].status);
      assert rs[0] in rs;
      forall p | p in ps'
        ensures Ended(p.status) || exists r :: r in rs[1..] && r.pid == p.pid
      {
        var k :| 0 <= k < |ps'| && ps'[k] == p;
        assert ps[k] in ps;
        if ps[k].pid != rs[0].pid && !Ended(ps[k].status) {
          var r :| r in rs && r.pid == ps[k].pid;
          assert r in rs[1..];
        }
      }
      AllReaped(ps', rs[1..]);
    }
  }

  /** It runs as long as one that runs was not reaped. */
  lemma OneNotReaped(ps: seq<Proc>, rs: seq<Reaped>, k: nat)
    requires k < |ps| && ps[k].status == -1 && forall r :: r in rs ==> r.pid != ps[k].pid
    ensures Summary(MarkAll(ps, rs)) == JOBRUNNING
  {
    LastStatus(ps, rs, k, 0);
    var all := MarkAll(ps, rs);
    assert all[k].status == -1;
  }

  /** Continuing a job undoes stops: its processes are as if the stopped one still ran. */
  lemma ResumeUndoesStop(ps: seq<Proc>, pid: int, status: int)
    requires WIfStopped(status) && forall p :: p in ps && p.pid == pid ==> p.status == -1
    ensures Resume(Mark(ps, pid, status)) == Resume(ps)
    ensures (forall p :: p in ps ==> !WIfStopped(p.status)) ==> Resume(ps) == ps
  {
    assert forall k :: 0 <= k < |ps| ==> ps[k] in ps;
    assert !WIfStopped(-1);
  }

  /** The job that is looked for is the first that is not done and has the process. */
  lemma {:induction false} FirstOf(c: map<int, JobView>, order: seq<int>, pid: int, k: nat)
    requires k <= |order|
    requires forall j :: 0 <= j < k ==> order[j] !in c || c[order[j]].state == JOBDONE
                                        || forall p :: p in c[order[j]].procs ==> p.pid != pid
    ensures (k < |order| && order[k] in c && c[order[k]].state != JOBDONE
             && exists p :: p in c[order[k]].procs && p.pid == pid) ==>
              FirstWith(c, order, pid) == k
    ensures k == |order| ==> FirstWith(c, order, pid) == -1
  {
    assert forall ps: seq<Proc>, i :: 0 <= i < |ps| ==> ps[i] in ps;
    if k > 0 {
      FirstOf(c, order[1..], pid, k - 1);
    }
  }

  // ---------- the order ----------

  lemma {:induction false} NotThere(order: seq<int>, i: int)
    requires i !in order
    ensures Remove(order, i) == order
  {
    if order != [] {
      NotThere(order[1..], i);
    }
  }

  /** Taking a job out leaves what is before it and what is after it. */
  lemma {:induction false} TakenOut(a: seq<int>, i: int, b: seq<int>)
    requires i !in a
    ensures Remove(a + [i] + b, i) == a + b
    decreases |a|
  {
    if a == [] {
      assert a + [i] + b == [i] + b && a + b == b;
    } else {
      assert (a + [i] + b)[1..] == a[1..] + [i] + b;
      TakenOut(a[1..], i, b);
      assert [a[0]] + (a[1..] + b) == a + b;
    }
  }

  ghost predicate Slots(jobs: seq<Job>, order: seq<int>) {
    forall k :: 0 <= k < |order| ==> 0 <= order[k] < |jobs|
  }

  lemma {:induction false} StoppedFront(jobs: seq<Job>, a: seq<int>, b: seq<int>)
    requires Slots(jobs, a) && Slots(jobs, b) && forall k :: 0 <= k < |a| ==> jobs[a[k]].state == JOBSTOPPED
    requires b != [] ==> jobs[b[0]].state != JOBSTOPPED
    ensures Stopped(jobs, a + b) == |a|
    decreases |a|
  {
    if a == [] {
      assert a + b == b;
    } else {
      assert (a + b)[1..] == a[1..] + b;
      StoppedFront(jobs, a[1..], b);
    }
  }

  /**
   * Where a job goes: a stopped one to the front, one in the background after the stopped ones; one that is freed is
   * gone. The others keep their order.
   */
  lemma PutWhere(jobs: seq<Job>, a: seq<int>, i: int, b: seq<int>, front: seq<int>, back: seq<int>)
    requires i !in a && Slots(jobs, a + [i] + b) && a + b == front + back && Slots(jobs, front) && Slots(jobs, back)
    requires forall k :: 0 <= k < |front| ==> jobs[front[k]].state == JOBSTOPPED
    requires back != [] ==> jobs[back[0]].state != JOBSTOPPED
    ensures Remove(a + [i] + b, i) == a + b
    ensures Reordered(jobs, a + [i] + b, i, CUR_DELETE) == a + b
    ensures Reordered(jobs, a + [i] + b, i, CUR_STOPPED) == [i] + (a + b)
    ensures Reordered(jobs, a + [i] + b, i, CUR_RUNNING) == front + [i] + back
  {
    hide Stopped, Remove, Insert;
    TakenOut(a, i, b);
    StoppedFront(jobs, front, back);
    Inserted(front, back, i);
    Inserted([], a + b, i);
    hide Slots;
    assert [] + (a + b) == a + b && [] + [i] + (a + b) == [i] + (a + b);
  }

  lemma Inserted(front: seq<int>, back: seq<int>, i: int)
    ensures Insert(front + back, |front|, i) == front + [i] + back
  {
  }
}
