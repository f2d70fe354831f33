/** The processes of jobs: what happens to them when one is started, reaped or continued (src/jobs.c). */
module JobWait {
  import opened JobTable
  import opened JobMachine

  /** The processes after one was reaped. */
  function Mark(ps: seq<Proc>, pid: int, status: int): (r: seq<Proc>)
    ensures |r| == |ps|
  {
    seq(|ps|, k requires 0 <= k < |ps| => if ps[k].pid == pid then ps[k].(status := status) else ps[k])
  }

  /** The processes after the job was continued. */
  function Resume(ps: seq<Proc>): (r: seq<Proc>)
    ensures |r| == |ps|
  {
    seq(|ps|, k requires 0 <= k < |ps| => if WIfStopped(ps[k].status) then ps[k].(status := -1) else ps[k])
  }

  predicate HasPid(ps: seq<Proc>, pid: int) {
    exists k :: 0 <= k < |ps| && ps[k].pid == pid
  }

  /** The first job in the chain, from position k on, that is not done and has the process. */
  function FirstWith(c: map<int, JobView>, order: seq<int>, pid: int): (k: int)
    ensures -1 <= k < |order|
  {
    if order == [] then -1
    else if order[0] in c && c[order[0]].state != JOBDONE && HasPid(c[order[0]].procs, pid) then 0
    else
      var k := FirstWith(c, order[1..], pid);
      if k < 0 then -1 else k + 1
  }

  lemma {:induction false} FirstWithFrom(c: map<int, JobView>, order: seq<int>, pid: int, k: nat)
    requires k <= |order|
    requires forall j :: 0 <= j < k ==>
            !(order[j] in c && c[order[j]].state != JOBDONE && HasPid(c[order[j]].procs, pid))
    ensures FirstWith(c, order, pid)
            == if FirstWith(c, order[k..], pid) < 0 then -1 else k + FirstWith(c, order[k..], pid)
  {
    if k > 0 {
      FirstWithFrom(c, order[1..], pid, k - 1);
      assert order[1..][k - 1..] == order[k..];
    } else {
      assert order[0..] == order;
    }
  }

  // ---------- summaries ----------

  /** The summary goes over to one more process. */
  lemma SummaryAppend(ps: seq<Proc>, p: Proc)
    ensures Summary(ps + [p]) ==
              if p.status == -1 then JOBRUNNING
              else if Summary(ps) == JOBRUNNING then JOBRUNNING
              else if WIfStopped(p.status) then JOBSTOPPED
              else Summary(ps)
  {
    var ps' := ps + [p];
    assert forall i :: 0 <= i < |ps| ==> ps'[i] == ps[i];
    assert ps'[|ps|] == p;
  }

  /** A job that still runs after a process was reaped was running before. */
  lemma StillRunning(ps: seq<Proc>, pid: int, status: int)
    requires status != -1 && Summary(Mark(ps, pid, status)) == JOBRUNNING
    ensures Summary(ps) == JOBRUNNING
  {
    var ps' := Mark(ps, pid, status);
    var i :| 0 <= i < |ps'| && ps'[i].status == -1;
    assert ps[i].status == -1;
  }

  /** A job that is continued runs. */
  lemma ResumedRuns(ps: seq<Proc>)
    requires Summary(ps) != JOBDONE
    ensures Summary(Resume(ps)) == JOBRUNNING
  {
    var i :| 0 <= i < |ps| && (ps[i].status == -1 || WIfStopped(ps[i].status));
    assert Resume(ps)[i].status == -1;
  }

  // ---------- writing a process ----------

  /** The table and the arrays after process n of job i is written. */
  function PutProc(base: int, jobs: seq<Job>, arrays: map<int, seq<Proc>>, i: int, n: int, p: Proc): (seq<Job>,
      map<int, seq<Proc>>)
    requires 0 <= i < |jobs| && 0 <= n < Capacity(base, jobs, arrays, i)
  {
    if jobs[i].ps == Addr(base, i) then (jobs[i := jobs[i].(ps0 := p)], arrays)
    else (jobs, arrays[jobs[i].ps := arrays[jobs[i].ps][n := p]])
  }

  lemma PutProcOk(base: int, jobs: seq<Job>, arrays: map<int, seq<Proc>>, i: int, n: int, p: Proc)
    requires ProcsOk(base, jobs, arrays) && 0 <= i < |jobs| && jobs[i].used && 0 <= n < jobs[i].nprocs
    ensures jobs[i].nprocs <= Capacity(base, jobs, arrays, i)
    ensures var (jobs', arrays') := PutProc(base, jobs, arrays, i, n, p);
            && ProcsOk(base, jobs', arrays') && |jobs'| == |jobs| && arrays'.Keys == arrays.Keys
            && jobs' == jobs[i := jobs'[i]] && jobs'[i] == jobs[i].(ps0 := jobs'[i].ps0)
            && ProcsOf(base, jobs', arrays', i) == ProcsOf(base, jobs, arrays, i)[n := p]
            && (forall j :: 0 <= j < |jobs| && j != i && jobs[j].used ==>
                  ProcsOf(base, jobs', arrays', j) == ProcsOf(base, jobs, arrays, j))
  {
    hide Addr, Summary;
  }

  // ---------- src/jobs.c ----------

  /** Process n of the job in a slot. */
  function GetProc(base: int, jobs: seq<Job>, arrays: map<int, seq<Proc>>, slot: int, n: int): Proc
    requires 0 <= slot < |jobs| && 0 <= n < Capacity(base, jobs, arrays, slot)
  {
    if jobs[slot].ps == Addr(base, slot) then jobs[slot].ps0 else arrays[jobs[slot].ps][n]
  }

  lemma GetProcOk(base: int, jobs: seq<Job>, arrays: map<int, seq<Proc>>, i: int, n: int)
    requires ProcsOk(base, jobs, arrays) && 0 <= i < |jobs| && jobs[i].used && 0 <= n < jobs[i].nprocs
    ensures jobs[i].nprocs <= Capacity(base, jobs, arrays, i) && |ProcsOf(base, jobs, arrays, i)| == jobs[i].nprocs
    ensures GetProc(base, jobs, arrays, i, n) == ProcsOf(base, jobs, arrays, i)[n]
  {
    hide Addr, Summary;
  }

  /** All but the processes of one job, and which of its processes it keeps itself, is as it was. */
  ghost predicate OnlyProcs(base: int, jobs: seq<Job>, arrays: map<int, seq<Proc>>, jobs': seq<Job>,
      arrays': map<int, seq<Proc>>, i: int)
    requires ProcsOk(base, jobs, arrays) && 0 <= i < |jobs|
  {
    && ProcsOk(base, jobs', arrays') && |jobs'| == |jobs| && arrays'.Keys == arrays.Keys
    && jobs' == jobs[i := jobs'[i]] && jobs'[i] == jobs[i].(ps0 := jobs'[i].ps0)
    && (forall j :: 0 <= j < |jobs| && j != i && jobs[j].used ==>
          ProcsOf(base, jobs', arrays', j) == ProcsOf(base, jobs, arrays, j))
  }

  /** The job has no process yet, but what is in the place of its first is taken for the process with the pid. */
  predicate Mistaken(base: int, jobs: seq<Job>, arrays: map<int, seq<Proc>>, slot: int, pid: int)
    requires 0 <= slot < |jobs|
  {
    && jobs[slot].nprocs == 0 && Capacity(base, jobs, arrays, slot) > 0
    && GetProc(base, jobs, arrays, slot, 0).pid == pid
  }

  lemma HasRoom(base: int, jobs: seq<Job>, arrays: map<int, seq<Proc>>, i: int)
    requires ProcsOk(base, jobs, arrays) && 0 <= i < |jobs| && jobs[i].used
    ensures Capacity(base, jobs, arrays, i) > 0
    ensures jobs[i].nprocs == 0 ==> ProcsOf(base, jobs, arrays, i) == []
  {
    hide Addr;
  }

  /** What is written where no process is yet changes no process. */
  lemma PutSpare(base: int, jobs: seq<Job>, arrays: map<int, seq<Proc>>, i: int, p: Proc)
    requires ProcsOk(base, jobs, arrays) && 0 <= i < |jobs| && jobs[i].used && jobs[i].nprocs == 0
    requires Capacity(base, jobs, arrays, i) > 0
    ensures var (jobs', arrays') := PutProc(base, jobs, arrays, i, 0, p);
            && OnlyProcs(base, jobs, arrays, jobs', arrays', i) && |jobs'| == |jobs|
            && ProcsOf(base, jobs', arrays', i) == [] && jobs'[i].nprocs == 0
  {
    hide Addr, Summary;
  }

  /** The first round of the inner loop, for a job without a process. */
  method ScanPlace(t: Jobs, slot: int, pid: int, status: int) returns (found: bool, state: State)
    requires t.Valid() && 0 <= slot < |t.jobs| && t.jobs[slot].used && status != -1 && t.jobs[slot].nprocs == 0
    modifies t`jobs, t`arrays
    ensures OnlyProcs(t.jobtab, old(t.jobs), old(t.arrays), t.jobs, t.arrays, slot) && |t.jobs| == |old(t.jobs)|
    ensures found == old(Mistaken(t.jobtab, t.jobs, t.arrays, slot, pid))
    ensures ProcsOf(t.jobtab, t.jobs, t.arrays, slot) == []
    ensures if found then state == (if WIfStopped(status) then JOBSTOPPED else JOBDONE)
            else t.jobs == old(t.jobs) && t.arrays == old(t.arrays)
  {
    hide LinksOk, Addr, UsedOk, StatesOk, Summary, BrkOk, ProcsOf, OnlyProcs, Capacity, ProcsOk;
    OnlyProcsStart(t.jobtab, t.jobs, t.arrays, slot);
    HasRoom(t.jobtab, t.jobs, t.arrays, slot);
    var sp := GetProc(t.jobtab, t.jobs, t.arrays, slot, 0);
    found, state := false, JOBDONE;
    if sp.pid == pid {
      sp := sp.(status := status);
      PutSpare(t.jobtab, t.jobs, t.arrays, slot, sp);
      PutAt(t, slot, 0, sp);
      found := true;
    }
    if sp.status == -1 {
      state := JOBRUNNING;
    } else if WIfStopped(sp.status) {
      state := JOBSTOPPED;
    }
  }

  method PutAt(t: Jobs, slot: int, n: int, p: Proc)
    requires 0 <= slot < |t.jobs| && 0 <= n < Capacity(t.jobtab, t.jobs, t.arrays, slot)
    modifies t`jobs, t`arrays
    ensures (t.jobs, t.arrays) == old(PutProc(t.jobtab, t.jobs, t.arrays, slot, n, p))
  {
    hide Addr;
    if t.jobs[slot].ps == Addr(t.jobtab, slot) {
      t.jobs := t.jobs[slot := t.jobs[slot].(ps0 := p)];
    } else {
      t.arrays := t.arrays[t.jobs[slot].ps := t.arrays[t.jobs[slot].ps][n := p]];
    }
  }

  /** The inner loop of waitone: the status is written to the processes with the pid, and the states are summed up. */
  method ScanProcs(t: Jobs, slot: int, pid: int, status: int) returns (found: bool, state: State)
    requires t.Valid() && 0 <= slot < |t.jobs| && t.jobs[slot].used && status != -1
    modifies t`jobs, t`arrays
    ensures OnlyProcs(t.jobtab, old(t.jobs), old(t.arrays), t.jobs, t.arrays, slot)
    ensures var ps := old(ProcsOf(t.jobtab, t.jobs, t.arrays, slot));
            && found == (HasPid(ps, pid) || old(Mistaken(t.jobtab, t.jobs, t.arrays, slot, pid)))
            && ProcsOf(t.jobtab, t.jobs, t.arrays, slot) == Mark(ps, pid, status)
            && (found ==> state == if old(t.jobs)[slot].nprocs > 0 then Summary(Mark(ps, pid, status))
                                   else if WIfStopped(status) then JOBSTOPPED else JOBDONE)
    ensures !found ==> t.jobs == old(t.jobs) && t.arrays == old(t.arrays)
    ensures |t.jobs| == |old(t.jobs)|
  {
    hide LinksOk, Addr, UsedOk, StatesOk, Summary, BrkOk, ProcsOf, OnlyProcs, HasPid, Mark, WIfStopped, Capacity,
        ProcsOk, GetProc;
    ghost var ps, base, jobs0, arrays0 := ProcsOf(t.jobtab, t.jobs, t.arrays, slot), t.jobtab, t.jobs, t.arrays;
    found, state := false, JOBDONE;
    var n := 0;
    SummaryNone();
    OnlyProcsStart(base, jobs0, arrays0, slot);
    MarkStart(ps, pid, status);
    if t.jobs[slot].nprocs == 0 {
      // the first place is read all the same
      MarkEnd(ps, pid, status);
      found, state := ScanPlace(t, slot, pid, status);
      return;
    }
    while n < t.jobs[slot].nprocs
      invariant |t.jobs| == |jobs0| && OnlyProcs(base, jobs0, arrays0, t.jobs, t.arrays, slot)
      invariant 0 <= n <= t.jobs[slot].nprocs == |ps| && t.jobs[slot].used && ProcsOk(base, t.jobs, t.arrays)
      invariant ProcsOf(base, t.jobs, t.arrays, slot) == Partly(ps, pid, status, n)
      invariant found <==> HasPid(ps[..n], pid)
      invariant !found ==> t.jobs == jobs0 && t.arrays == arrays0
      invariant state == Summary(Mark(ps, pid, status)[..n])
    {
      GetProcOk(t.jobtab, t.jobs, t.arrays, slot, n);
      var sp := GetProc(t.jobtab, t.jobs, t.arrays, slot, n);
      MarkStep(ps, pid, status, n);
      if sp.pid == pid {
        sp := sp.(status := status);
        WriteProc(t, slot, n, sp, jobs0, arrays0);
        found := true;
      }
      SummaryAppend(Mark(ps, pid, status)[..n], sp);
      if sp.status == -1 {
        state := JOBRUNNING;
      }
      if state != JOBRUNNING && WIfStopped(sp.status) {
        state := JOBSTOPPED;
      }
      n := n + 1;
    }
    MarkEnd(ps, pid, status);
  }

  /** Some processes are written. */
  function Partly(ps: seq<Proc>, pid: int, status: int, n: nat): seq<Proc>
    requires n <= |ps|
  {
    Mark(ps, pid, status)[..n] + ps[n..]
  }

  lemma MarkStart(ps: seq<Proc>, pid: int, status: int)
    ensures Partly(ps, pid, status, 0) == ps && !HasPid(ps[..0], pid) && Mark(ps, pid, status)[..0] == []
  {
  }

  lemma MarkEnd(ps: seq<Proc>, pid: int, status: int)
    ensures Partly(ps, pid, status, |ps|) == Mark(ps, pid, status)
    ensures ps[..|ps|] == ps && Mark(ps, pid, status)[..|ps|] == Mark(ps, pid, status)
  {
  }

  lemma MarkStep(ps: seq<Proc>, pid: int, status: int, n: nat)
    requires n < |ps|
    ensures var p := if ps[n].pid == pid then ps[n].(status := status) else ps[n];
            && Partly(ps, pid, status, n)[n] == ps[n]
            && Partly(ps, pid, status, n + 1) == Partly(ps, pid, status, n)[n := p]
            && Mark(ps, pid, status)[..n + 1] == Mark(ps, pid, status)[..n] + [p]
    ensures HasPid(ps[..n + 1], pid) <==> HasPid(ps[..n], pid) || ps[n].pid == pid
  {
    assert forall k :: 0 <= k < n ==> ps[..n + 1][k] == ps[..n][k];
    assert ps[..n + 1][n] == ps[n];
  }

  lemma OnlyProcsStart(base: int, jobs: seq<Job>, arrays: map<int, seq<Proc>>, i: int)
    requires ProcsOk(base, jobs, arrays) && 0 <= i < |jobs|
    ensures OnlyProcs(base, jobs, arrays, jobs, arrays, i)
    ensures jobs[i].used ==> |ProcsOf(base, jobs, arrays, i)| == jobs[i].nprocs
  {
    hide Addr;
  }

  lemma OnlyProcsAgain(base: int, jobs: seq<Job>, arrays: map<int, seq<Proc>>, jobs1: seq<Job>,
      arrays1: map<int, seq<Proc>>,
                       i: int, n: int, p: Proc)
    requires ProcsOk(base, jobs, arrays) && 0 <= i < |jobs| && OnlyProcs(base, jobs, arrays, jobs1, arrays1, i)
    requires |jobs1| == |jobs| && jobs1[i].used && 0 <= n < jobs1[i].nprocs
    ensures ProcsOk(base, jobs1, arrays1) && jobs1[i].nprocs <= Capacity(base, jobs1, arrays1, i)
    ensures |ProcsOf(base, jobs1, arrays1, i)| == jobs1[i].nprocs
    ensures var (jobs', arrays') := PutProc(base, jobs1, arrays1, i, n, p);
            && OnlyProcs(base, jobs, arrays, jobs', arrays', i) && |jobs'| == |jobs|
            && jobs'[i].used && jobs'[i].nprocs == jobs1[i].nprocs && ProcsOk(base, jobs', arrays')
            && ProcsOf(base, jobs', arrays', i) == ProcsOf(base, jobs1, arrays1, i)[n := p]
  {
    GetProcOk(base, jobs1, arrays1, i, n);
    PutProcOk(base, jobs1, arrays1, i, n, p);
    hide Addr, ProcsOk, ProcsOf, PutProc;
  }

  /** Writes a process. */
  method WriteProc(t: Jobs, slot: int, n: int, p: Proc, ghost jobs0: seq<Job>, ghost arrays0: map<int, seq<Proc>>)
    requires ProcsOk(t.jobtab, jobs0, arrays0) && 0 <= slot < |jobs0| && |t.jobs| == |jobs0|
    requires OnlyProcs(t.jobtab, jobs0, arrays0, t.jobs, t.arrays, slot)
    requires t.jobs[slot].used && 0 <= n < t.jobs[slot].nprocs && ProcsOk(t.jobtab, t.jobs, t.arrays)
    requires |ProcsOf(t.jobtab, t.jobs, t.arrays, slot)| == t.jobs[slot].nprocs
    modifies t`jobs, t`arrays
    ensures |t.jobs| == |jobs0| && ProcsOk(t.jobtab, t.jobs, t.arrays)
    ensures OnlyProcs(t.jobtab, jobs0, arrays0, t.jobs, t.arrays, slot)
    ensures t.jobs[slot].used && t.jobs[slot].nprocs == old(t.jobs[slot].nprocs)
    ensures ProcsOf(t.jobtab, t.jobs, t.arrays, slot) == old(ProcsOf(t.jobtab, t.jobs, t.arrays, slot))[n := p]
  {
    hide Addr, ProcsOk, ProcsOf, OnlyProcs;
    OnlyProcsAgain(t.jobtab, jobs0, arrays0, t.jobs, t.arrays, slot, n, p);
    PutAt(t, slot, n, p);
  }

  lemma SummaryNone()
    ensures Summary([]) == JOBDONE
  {
  }

  // ---------- the state of a job ----------

  /** What else a job has does not matter to where its processes are. */
  lemma JobReplaced(t: int, jobs: seq<Job>, arrays: map<int, seq<Proc>>, i: int, job: Job)
    requires ProcsOk(t, jobs, arrays) && 0 <= i < |jobs|
    requires job.used == jobs[i].used && job.ps == jobs[i].ps && job.ps0 == jobs[i].ps0 && job.nprocs == jobs[i].nprocs
    ensures ProcsOk(t, jobs[i := job], arrays)
    ensures forall j :: 0 <= j < |jobs| && jobs[j].used ==>
            ProcsOf(t, jobs[i := job], arrays, j) == ProcsOf(t, jobs, arrays, j)
  {
    hide Addr, ProcsOf;
    var jobs' := jobs[i := job];
    forall j | 0 <= j < |jobs| && jobs[j].used
      ensures ProcsOf(t, jobs', arrays, j) == ProcsOf(t, jobs, arrays, j)
    {
      SameProcs(t, jobs, arrays, jobs', arrays, j);
    }
  }

  /** The processes and the state of one job change together. */
  lemma JobChanged(t: int, jobs: seq<Job>, arrays: map<int, seq<Proc>>, jobs1: seq<Job>, arrays1: map<int, seq<Proc>>,
      i: int, job: Job)
    requires ProcsOk(t, jobs, arrays) && StatesOk(t, jobs, arrays) && 0 <= i < |jobs| && jobs[i].used
    requires OnlyProcs(t, jobs, arrays, jobs1, arrays1, i) && |jobs1| == |jobs|
    requires job.used && job.ps == jobs1[i].ps && job.ps0 == jobs1[i].ps0 && job.nprocs == jobs1[i].nprocs > 0
    requires job.waited == jobs[i].waited && job.prev_job == jobs[i].prev_job
    requires job.state == Summary(ProcsOf(t, jobs1, arrays1, i))
    ensures var jobs' := jobs1[i := job];
            && ProcsOk(t, jobs', arrays1) && StatesOk(t, jobs', arrays1)
            && ContentsOf(t, jobs', arrays1)
                == ContentsOf(t, jobs, arrays)[i := JobView(job.state, job.waited, ProcsOf(t, jobs1, arrays1, i))]
            && (forall j :: 0 <= j < |jobs| ==>
                  jobs'[j].prev_job == jobs[j].prev_job && (jobs'[j].used <==> jobs[j].used))
  {
    hide Addr, Summary, ProcsOf, ProcsOk;
    JobReplaced(t, jobs1, arrays1, i, job);
  }

  lemma UsedKept(jobs: seq<Job>, jobs': seq<Job>, order: seq<int>)
    requires UsedOk(jobs, order) && |jobs'| == |jobs|
    requires forall j :: 0 <= j < |jobs| ==> (jobs'[j].used <==> jobs[j].used)
    ensures UsedOk(jobs', order)
  {
  }

  /** The job in a slot is not done, and is taken to have the process. */
  ghost predicate Hit(base: int, jobs: seq<Job>, arrays: map<int, seq<Proc>>, slot: int, pid: int) {
    && 0 <= slot < |jobs| && jobs[slot].state != JOBDONE
    && (HasPid(ProcsOf(base, jobs, arrays, slot), pid) || Mistaken(base, jobs, arrays, slot, pid))
  }

  ghost predicate NoHit(base: int, jobs: seq<Job>, arrays: map<int, seq<Proc>>, order: seq<int>, k: int, pid: int) {
    forall j :: 0 <= j < k && j < |order| ==> !Hit(base, jobs, arrays, order[j], pid)
  }

  /** The first job of the chain that is taken to have the process has none. */
  ghost predicate MistakenFirst(base: int, jobs: seq<Job>, arrays: map<int, seq<Proc>>, order: seq<int>, pid: int) {
    exists k :: && 0 <= k < |order| && NoHit(base, jobs, arrays, order, k, pid)
                && Hit(base, jobs, arrays, order[k], pid) && jobs[order[k]].nprocs == 0
  }

  /** The first hit decides. */
  lemma HitDecides(base: int, jobs: seq<Job>, arrays: map<int, seq<Proc>>, order: seq<int>, pid: int, k: nat)
    requires k <= |order| && NoHit(base, jobs, arrays, order, k, pid)
    requires k < |order| ==> Hit(base, jobs, arrays, order[k], pid)
    ensures MistakenFirst(base, jobs, arrays, order, pid) <==> k < |order| && jobs[order[k]].nprocs == 0
  {
    hide Hit;
  }

  lemma NoHitMore(base: int, jobs: seq<Job>, arrays: map<int, seq<Proc>>, order: seq<int>, pid: int, k: nat)
    requires k < |order| && NoHit(base, jobs, arrays, order, k, pid) && !Hit(base, jobs, arrays, order[k], pid)
    ensures NoHit(base, jobs, arrays, order, k + 1, pid)
  {
    hide Hit;
  }

  /** Where no job is taken to have the process, none has it. */
  lemma NoneWith(base: int, jobs: seq<Job>, arrays: map<int, seq<Proc>>, order: seq<int>, pid: int, k: nat)
    requires ProcsOk(base, jobs, arrays) && k <= |order| && NoHit(base, jobs, arrays, order, k, pid)
    ensures var c := ContentsOf(base, jobs, arrays);
            forall j :: 0 <= j < k ==>
              !(order[j] in c && c[order[j]].state != JOBDONE && HasPid(c[order[j]].procs, pid))
  {
    hide Addr, ProcsOf, ProcsOk, HasPid, Mistaken, ContentsOf;
    ContentsAt(base, jobs, arrays);
    forall j | 0 <= j < k
      ensures !Hit(base, jobs, arrays, order[j], pid)
    {
    }
  }

  /**
   * A child was reaped: the first job that has it is brought up to date, and is the current job if it has stopped. But
   * if that job has no process yet, and is only taken to have this one, it gets a state though nothing of it ran.
   */
  method WaitOne(t: Jobs, pid: int, status: int)
    requires t.Valid() && status != -1
    modifies t`jobs, t`arrays, t`curjob, t`order
    ensures t.Valid() <==> !old(MistakenFirst(t.jobtab, t.jobs, t.arrays, t.order, pid))
    ensures t.Valid() ==>
              var c, order := old(t.Contents()), old(t.order);
              var k := FirstWith(c, order, pid);
              if k < 0 then t.Contents() == c && t.order == order
              else
                order[k] in c &&
                var was := c[order[k]];
                var ps := Mark(was.procs, pid, status);
                && t.Contents() == c[order[k] := JobView(Summary(ps), was.waited, ps)]
                && t.order == if Summary(ps) == JOBSTOPPED && was.state != JOBSTOPPED
                              then [order[k]] + Remove(order, order[k]) else order
  {
    hide LinksOk, Addr, Slot, Summary, BrkOk, ProcsOf, OnlyProcs, HasPid, Mark, FirstWith, ProcsOk, StatesOk,
        ContentsOf, Mistaken, NoHit, MistakenFirst;
    ghost var c, order, k: nat := t.Contents(), t.order, 0;
    ghost var base, jobs, arrays := t.jobtab, t.jobs, t.arrays;
    InRange(t.jobtab, t.jobs, t.curjob, order);
    ContentsAt(t.jobtab, t.jobs, t.arrays);
    LinkAt(t.jobtab, t.jobs, t.curjob, order, 0, -1);
    var jp := t.curjob;
    assert NoHit(base, jobs, arrays, order, 0, pid) by { NoHitNone(base, jobs, arrays, order, pid); }
    while jp != 0
      invariant unchanged(t) && k <= |order| && jp == Next(t.jobtab, order, k)
      invariant NoHit(base, jobs, arrays, order, k, pid)
      decreases |order| - k
    {
      SlotAddr(t.jobtab, order[k]);
      var slot := Slot(t.jobtab, jp);
      if t.jobs[slot].state != JOBDONE {
        var found, state := ScanProcs(t, slot, pid, status);
        if found {
          HitDecides(base, jobs, arrays, order, pid, k);
          ScannedJob(base, jobs, arrays, t.jobs, t.arrays, slot, pid, t.curjob, order);
          if t.jobs[slot].nprocs > 0 {
            NoneWith(base, jobs, arrays, order, pid, k);
            FirstWithFrom(c, order, pid, k);
            FirstWithHere(c, order[k..], pid);
            GotJob(t, jp, slot, pid, status, state, jobs, arrays, c);
          } else {
            GotNone(t, jp, slot, state);
          }
          return;
        }
      }
      NoHitMore(base, jobs, arrays, order, pid, k);
      k := k + 1;
      LinkAt(t.jobtab, t.jobs, t.curjob, order, k, slot);
      jp := t.jobs[slot].prev_job;
    }
    LinkEnds(t.jobtab, t.jobs, t.curjob, order, k);
    HitDecides(base, jobs, arrays, order, pid, k);
    NoneWith(base, jobs, arrays, order, pid, k);
    FirstWithFrom(c, order, pid, k);
    FirstWithNone(c, order[k..], pid);
  }

  /** What a job is after its processes were scanned. */
  lemma ScannedJob(base: int, jobs: seq<Job>, arrays: map<int, seq<Proc>>, jobs1: seq<Job>,
                   arrays1: map<int, seq<Proc>>, i: int, pid: int, curjob: int, order: seq<int>)
    requires ProcsOk(base, jobs, arrays) && StatesOk(base, jobs, arrays) && 0 <= i < |jobs| && jobs[i].used
    requires OnlyProcs(base, jobs, arrays, jobs1, arrays1, i) && |jobs1| == |jobs| && LinksOk(base, jobs, curjob, order)
    ensures jobs1[i].used && jobs1[i].nprocs == jobs[i].nprocs && LinksOk(base, jobs1, curjob, order)
    ensures if jobs[i].nprocs > 0 then !Mistaken(base, jobs, arrays, i, pid)
            else jobs1[i].state == JOBRUNNING && !HasPid(ProcsOf(base, jobs, arrays, i), pid)
  {
    hide Addr, Summary, LinksOk;
    UsedLinks(base, jobs, jobs1, curjob, order);
  }

  lemma NoHitNone(base: int, jobs: seq<Job>, arrays: map<int, seq<Proc>>, order: seq<int>, pid: int)
    ensures NoHit(base, jobs, arrays, order, 0, pid)
  {}

  /** What follows the label gotjob, for a job without a process: its state is not what it has to be. */
  method GotNone(t: Jobs, jp: int, slot: int, state: State)
    requires t.Links() && 0 <= slot < |t.jobs| && slot in t.order && jp == Addr(t.jobtab, slot)
    requires t.jobs[slot].used && t.jobs[slot].nprocs == 0 && t.jobs[slot].state == JOBRUNNING && state != JOBRUNNING
    modifies t`jobs, t`curjob, t`order
    ensures !t.Valid()
  {
    hide LinksOk, Addr, Slot, Summary, ProcsOf, ProcsOk, BrkOk, UsedOk;
    ghost var jobs0 := t.jobs;
    t.jobs := t.jobs[slot := t.jobs[slot].(changed := true, state := state)];
    UsedLinks(t.jobtab, jobs0, t.jobs, t.curjob, t.order);
    if state == JOBSTOPPED {
      t.SetCurjob(jp, CUR_STOPPED, slot);
    }
    assert t.jobs[slot].used && t.jobs[slot].nprocs == 0 && t.jobs[slot].state == state;
  }

  lemma FirstWithHere(c: map<int, JobView>, order: seq<int>, pid: int)
    requires order != [] && order[0] in c && c[order[0]].state != JOBDONE && HasPid(c[order[0]].procs, pid)
    ensures FirstWith(c, order, pid) == 0
  {
  }

  lemma FirstWithNone(c: map<int, JobView>, order: seq<int>, pid: int)
    requires order == []
    ensures FirstWith(c, order, pid) == -1
  {
  }

  /** Only the end of the chain has no address. */
  lemma LinkEnds(base: int, jobs: seq<Job>, curjob: int, order: seq<int>, k: nat)
    requires LinksOk(base, jobs, curjob, order) && k <= |order| && Next(base, order, k) == 0
    ensures k == |order|
  {
  }

  /** What follows the label gotjob: the job gets the state that was summed up. */
  method GotJob(t: Jobs, jp: int, slot: int, pid: int, status: int, state: State,
                ghost jobs0: seq<Job>, ghost arrays0: map<int, seq<Proc>>, ghost c: map<int, JobView>)
    requires LinksOk(t.jobtab, jobs0, t.curjob, t.order) && UsedOk(jobs0, t.order)
    requires ProcsOk(t.jobtab, jobs0, arrays0) && StatesOk(t.jobtab, jobs0, arrays0)
            && BrkOk(t.jobtab, |jobs0|, arrays0, t.brk)
    requires 0 <= slot < |jobs0| && jobs0[slot].used && slot in t.order && jp == Addr(t.jobtab, slot)
            && jobs0[slot].nprocs > 0
    requires OnlyProcs(t.jobtab, jobs0, arrays0, t.jobs, t.arrays, slot) && |t.jobs| == |jobs0|
    requires status != -1
    requires ProcsOf(t.jobtab, t.jobs, t.arrays, slot) == Mark(ProcsOf(t.jobtab, jobs0, arrays0, slot), pid, status)
    requires state == Summary(Mark(ProcsOf(t.jobtab, jobs0, arrays0, slot), pid, status))
    requires c == ContentsOf(t.jobtab, jobs0, arrays0)
    modifies t`jobs, t`curjob, t`order
    ensures t.Valid()
    ensures t.Contents()
            == c[slot := JobView(state, jobs0[slot].waited, Mark(ProcsOf(t.jobtab, jobs0, arrays0, slot), pid, status))]
    ensures t.order == if state == JOBSTOPPED && jobs0[slot].state != JOBSTOPPED
                       then [slot] + Remove(old(t.order), slot) else old(t.order)
  {
    hide LinksOk, Addr, Slot, Summary, ProcsOf, Mark, ProcsOk, StatesOk, ContentsOf, BrkOk, OnlyProcs, UsedOk;
    ghost var base, order, jobs1 := t.jobtab, t.order, t.jobs;
    StateKept(base, jobs0, arrays0, jobs1, t.arrays, slot);
    if state == JOBRUNNING {
      StillRunning(ProcsOf(base, jobs0, arrays0, slot), pid, status);
    }
    ghost var job := jobs1[slot].(state := state, changed := state != JOBRUNNING || jobs1[slot].changed);
    JobChanged(base, jobs0, arrays0, jobs1, t.arrays, slot, job);
    var stopped := false;
    if state != JOBRUNNING {
      t.jobs := t.jobs[slot := t.jobs[slot].(changed := true)];
      if t.jobs[slot].state != state {
        t.jobs := t.jobs[slot := t.jobs[slot].(state := state)];
        stopped := state == JOBSTOPPED;
      }
    }
    assert t.jobs == jobs1[slot := job];
    BrkSame(base, |jobs0|, arrays0, t.arrays, t.brk);
    UsedLinks(base, jobs0, t.jobs, t.curjob, order);
    UsedKept(jobs0, t.jobs, order);
    if stopped {
      ghost var jobs2 := t.jobs;
      InRange(base, t.jobs, t.curjob, order);
      RemoveKeeps(order, slot);
      t.SetCurjob(jp, CUR_STOPPED, slot);
      RelinkedProcs(base, jobs2, t.jobs, t.arrays);
      UsedReordered(jobs2, t.jobs, order, slot);
    }
  }

  lemma StateKept(base: int, jobs: seq<Job>, arrays: map<int, seq<Proc>>, jobs1: seq<Job>,
      arrays1: map<int, seq<Proc>>, i: int)
    requires ProcsOk(base, jobs, arrays) && StatesOk(base, jobs, arrays) && 0 <= i < |jobs| && jobs[i].used
            && jobs[i].nprocs > 0
    requires OnlyProcs(base, jobs, arrays, jobs1, arrays1, i) && |jobs1| == |jobs|
    ensures ProcsOk(base, jobs1, arrays1) && jobs1[i] == jobs[i].(ps0 := jobs1[i].ps0)
    ensures jobs[i].state == Summary(ProcsOf(base, jobs, arrays, i)) && arrays1.Keys == arrays.Keys
  {
    hide Addr, Summary, ProcsOf;
  }

  lemma BrkSame(base: int, n: nat, arrays: map<int, seq<Proc>>, arrays': map<int, seq<Proc>>, brk: int)
    requires BrkOk(base, n, arrays, brk) && arrays'.Keys == arrays.Keys
    ensures BrkOk(base, n, arrays', brk)
  {
    assert forall a :: a in arrays' ==> a in arrays.Keys;
  }

  /** The job is at the front, and the chain has the same jobs. */
  lemma UsedReordered(jobs: seq<Job>, jobs': seq<Job>, order: seq<int>, i: int)
    requires UsedOk(jobs, order) && SameButLinks(jobs, jobs') && i in order
    requires forall x :: x in Remove(order, i) <==> x in order && x != i
    ensures UsedOk(jobs', Insert(Remove(order, i), 0, i)) && Insert(Remove(order, i), 0, i) == [i] + Remove(order, i)
  {
    hide Remove;
    var order' := [i] + Remove(order, i);
    assert Insert(Remove(order, i), 0, i) == order';
    assert forall x :: x in order' <==> x == i || x in Remove(order, i);
  }

  // ---------- processes started and continued ----------

  /** The last part of forkparent: the process that was started is noted in the job. */
  method AddProc(t: Jobs, jp: int, pid: int, ghost i: int)
    requires t.Valid() && 0 <= i < |t.jobs| && t.jobs[i].used && jp == Addr(t.jobtab, i)
    requires t.jobs[i].nprocs < Capacity(t.jobtab, t.jobs, t.arrays, i) && t.jobs[i].state == JOBRUNNING
    modifies t`jobs, t`arrays
    ensures t.Valid() && t.order == old(t.order)
    ensures var was := old(t.Contents())[i];
            t.Contents() == old(t.Contents())[i := was.(procs := was.procs + [Proc(pid, -1)])]
    ensures Capacity(t.jobtab, t.jobs, t.arrays, i) == old(Capacity(t.jobtab, t.jobs, t.arrays, i))
  {
    hide LinksOk, Addr, Slot, Summary, ProcsOk, StatesOk, ContentsOf, ProcsOf, BrkOk, UsedOk, Capacity;
    SlotAddr(t.jobtab, i);
    var slot := Slot(t.jobtab, jp);
    ProcAdded(t.jobtab, t.jobs, t.arrays, t.curjob, t.order, t.brk, i, Proc(pid, -1));
    ghost var r := WithProc(t.jobtab, t.jobs, t.arrays, i, Proc(pid, -1));
    var n := t.jobs[slot].nprocs;
    t.jobs := t.jobs[slot := t.jobs[slot].(nprocs := n + 1)];
    if t.jobs[slot].ps == jp {
      t.jobs := t.jobs[slot := t.jobs[slot].(ps0 := Proc(pid, -1))];
    } else {
      t.arrays := t.arrays[t.jobs[slot].ps := t.arrays[t.jobs[slot].ps][n := Proc(pid, -1)]];
    }
    assert t.jobs == r.0 && t.arrays == r.1;
  }

  /** The part of forkparent for a job: one in the background comes after the stopped ones. */
  method ForkParent(t: Jobs, jp: int, pid: int, background: bool, ghost i: int)
    requires t.Valid() && 0 <= i < |t.jobs| && t.jobs[i].used && jp == Addr(t.jobtab, i)
    requires t.jobs[i].nprocs < Capacity(t.jobtab, t.jobs, t.arrays, i) && t.jobs[i].state == JOBRUNNING
    modifies t`jobs, t`arrays, t`curjob, t`order
    ensures t.Valid()
    ensures var was := old(t.Contents())[i];
            t.Contents() == old(t.Contents())[i := was.(procs := was.procs + [Proc(pid, -1)])]
    ensures !background ==> t.order == old(t.order)
    ensures background ==>
              && (forall k :: 0 <= k < |Remove(old(t.order), i)| ==> 0 <= Remove(old(t.order), i)[k] < |old(t.jobs)|)
              && t.order == Reordered(old(t.jobs), old(t.order), i, CUR_RUNNING)
  {
    hide LinksOk, Addr, Slot, Summary, ProcsOk, StatesOk, ContentsOf, ProcsOf, BrkOk, Capacity, Remove, Reordered;
    if background {
      t.MoveJob(jp, CUR_RUNNING, i);
      SameRoom(t.jobtab, old(t.jobs), t.jobs, t.arrays, i);
    }
    AddProc(t, jp, pid, i);
  }

  lemma SameRoom(base: int, jobs: seq<Job>, jobs': seq<Job>, arrays: map<int, seq<Proc>>, i: int)
    requires SameButLinks(jobs, jobs') && 0 <= i < |jobs|
    ensures Capacity(base, jobs', arrays, i) == Capacity(base, jobs, arrays, i)
  {
    hide Addr;
  }

  /** The table and the arrays after a process is added. */
  function WithProc(base: int, jobs: seq<Job>, arrays: map<int, seq<Proc>>, i: int, p: Proc): (seq<Job>,
      map<int, seq<Proc>>)
    requires 0 <= i < |jobs| && jobs[i].nprocs < Capacity(base, jobs, arrays, i)
  {
    var n := jobs[i].nprocs;
    if jobs[i].ps == Addr(base, i) then (jobs[i := jobs[i].(nprocs := n + 1, ps0 := p)], arrays)
    else (jobs[i := jobs[i].(nprocs := n + 1)], arrays[jobs[i].ps := arrays[jobs[i].ps][n := p]])
  }

  lemma ProcAdded(base: int, jobs: seq<Job>, arrays: map<int, seq<Proc>>, curjob: int, order: seq<int>, brk: int,
      i: int, p: Proc)
    requires LinksOk(base, jobs, curjob, order) && UsedOk(jobs, order) && BrkOk(base, |jobs|, arrays, brk)
    requires ProcsOk(base, jobs, arrays) && StatesOk(base, jobs, arrays)
    requires 0 <= i < |jobs| && jobs[i].used && jobs[i].state == JOBRUNNING && p.status == -1
    requires jobs[i].nprocs < Capacity(base, jobs, arrays, i)
    ensures jobs[i].ps != Addr(base, i) ==> jobs[i].ps in arrays && jobs[i].nprocs < |arrays[jobs[i].ps]|
    ensures var (jobs', arrays') := WithProc(base, jobs, arrays, i, p);
            && LinksOk(base, jobs', curjob, order) && UsedOk(jobs', order) && BrkOk(base, |jobs'|, arrays', brk)
            && ProcsOk(base, jobs', arrays') && StatesOk(base, jobs', arrays') && |jobs'| == |jobs|
            && Capacity(base, jobs', arrays', i) == Capacity(base, jobs, arrays, i)
            && i in ContentsOf(base, jobs, arrays)
            && var was := ContentsOf(base, jobs, arrays)[i];
               ContentsOf(base, jobs', arrays') == ContentsOf(base, jobs, arrays)[i := was.(procs := was.procs + [p])]
  {
    hide Addr, Summary, ProcsOf, Capacity, LinksOk, BrkOk;
    var (jobs', arrays') := WithProc(base, jobs, arrays, i, p);
    AddedProcs(base, jobs, arrays, i, p);
    assert arrays'.Keys == arrays.Keys;
    BrkSame(base, |jobs|, arrays, arrays', brk);
    UsedLinks(base, jobs, jobs', curjob, order);
    SummaryAppend(ProcsOf(base, jobs, arrays, i), p);
  }

  lemma AddedProcs(base: int, jobs: seq<Job>, arrays: map<int, seq<Proc>>, i: int, p: Proc)
    requires ProcsOk(base, jobs, arrays)
    requires 0 <= i < |jobs| && jobs[i].used && jobs[i].nprocs < Capacity(base, jobs, arrays, i)
    ensures jobs[i].ps != Addr(base, i) ==> jobs[i].ps in arrays && jobs[i].nprocs < |arrays[jobs[i].ps]|
    ensures var (jobs', arrays') := WithProc(base, jobs, arrays, i, p);
            && ProcsOk(base, jobs', arrays') && |jobs'| == |jobs|
            && Capacity(base, jobs', arrays', i) == Capacity(base, jobs, arrays, i)
            && ProcsOf(base, jobs', arrays', i) == ProcsOf(base, jobs, arrays, i) + [p]
            && (forall j :: 0 <= j < |jobs| && j != i && jobs[j].used ==>
                  ProcsOf(base, jobs', arrays', j) == ProcsOf(base, jobs, arrays, j))
  {
    hide Addr, Summary;
    var (jobs', arrays') := WithProc(base, jobs, arrays, i, p);
    assert ProcsOk(base, jobs', arrays');
    forall j | 0 <= j < |jobs| && j != i && jobs[j].used
      ensures ProcsOf(base, jobs', arrays', j) == ProcsOf(base, jobs, arrays, j)
    {
      SameProcs(base, jobs, arrays, jobs', arrays', j);
    }
  }

  /** Some processes are continued. */
  function PartlyResumed(ps: seq<Proc>, n: nat): seq<Proc>
    requires n <= |ps|
  {
    Resume(ps)[..n] + ps[n..]
  }

  lemma ResumeStart(ps: seq<Proc>)
    ensures PartlyResumed(ps, 0) == ps && PartlyResumed(ps, |ps|) == Resume(ps)
  {
  }

  lemma ResumeStep(ps: seq<Proc>, n: nat)
    requires n < |ps|
    ensures PartlyResumed(ps, n)[n] == ps[n]
    ensures PartlyResumed(ps, n + 1) ==
              PartlyResumed(ps, n)[n := if WIfStopped(ps[n].status) then ps[n].(status := -1) else ps[n]]
  {
  }

  /** With another state the processes are the same. */
  lemma StateSet(base: int, jobs: seq<Job>, arrays: map<int, seq<Proc>>, i: int, state: State)
    requires ProcsOk(base, jobs, arrays) && 0 <= i < |jobs|
    ensures var jobs' := jobs[i := jobs[i].(state := state)];
            && ProcsOk(base, jobs', arrays)
            && (forall j :: 0 <= j < |jobs| && jobs[j].used ==>
                ProcsOf(base, jobs', arrays, j) == ProcsOf(base, jobs, arrays, j))
  {
    hide Addr, ProcsOf;
    var jobs' := jobs[i := jobs[i].(state := state)];
    forall j | 0 <= j < |jobs| && jobs[j].used
      ensures ProcsOf(base, jobs', arrays, j) == ProcsOf(base, jobs, arrays, j)
    {
      SameProcs(base, jobs, arrays, jobs', arrays, j);
    }
  }

  /** The state was set before the processes were changed; it might have been after. */
  lemma StateFirst(base: int, jobs: seq<Job>, arrays: map<int, seq<Proc>>, jobs1: seq<Job>,
      arrays1: map<int, seq<Proc>>, i: int, state: State)
    requires ProcsOk(base, jobs, arrays) && 0 <= i < |jobs| && |jobs1| == |jobs|
    requires ProcsOk(base, jobs[i := jobs[i].(state := state)], arrays)
    requires OnlyProcs(base, jobs[i := jobs[i].(state := state)], arrays, jobs1, arrays1, i)
    ensures jobs1[i].state == state && arrays1.Keys == arrays.Keys
    ensures jobs1[i] == jobs[i].(state := state, ps0 := jobs1[i].ps0)
    ensures var jobs2 := jobs1[i := jobs1[i].(state := jobs[i].state)];
            && OnlyProcs(base, jobs, arrays, jobs2, arrays1, i)
            && (jobs[i].used ==> ProcsOf(base, jobs2, arrays1, i) == ProcsOf(base, jobs1, arrays1, i))
            && jobs2[i := jobs1[i]] == jobs1
  {
    hide Addr, ProcsOf;
    StateSet(base, jobs, arrays, i, state);
    StateSet(base, jobs1, arrays1, i, jobs[i].state);
    var jobs2 := jobs1[i := jobs1[i].(state := jobs[i].state)];
    assert forall j :: 0 <= j < |jobs| && j != i ==> jobs2[j] == jobs1[j] == jobs[j];
    assert jobs2 == jobs[i := jobs2[i]];
  }

  /** The status part of restartjob: stopped processes run again. */
  method RestartJob(t: Jobs, jp: int, ghost i: int)
    requires t.Valid() && 0 <= i < |t.jobs| && t.jobs[i].used && jp == Addr(t.jobtab, i) && t.jobs[i].nprocs > 0
    modifies t`jobs, t`arrays
    ensures t.Valid() && t.order == old(t.order)
    ensures var was := old(t.Contents())[i];
            t.Contents() == if was.state == JOBDONE then old(t.Contents())
                            else old(t.Contents())[i := JobView(JOBRUNNING, was.waited, Resume(was.procs))]
  {
    hide LinksOk, Addr, Slot, UsedOk, StatesOk, Summary, BrkOk, ProcsOf, OnlyProcs, Resume, WIfStopped, Capacity,
        ProcsOk, GetProc, ContentsOf;
    SlotAddr(t.jobtab, i);
    ContentsAt(t.jobtab, t.jobs, t.arrays);
    var slot := Slot(t.jobtab, jp);
    if t.jobs[slot].state == JOBDONE {
      return;
    }
    ghost var base, jobs, arrays := t.jobtab, t.jobs, t.arrays;
    ghost var ps := ProcsOf(base, jobs, arrays, slot);
    StateSet(base, jobs, arrays, slot, JOBRUNNING);
    t.jobs := t.jobs[slot := t.jobs[slot].(state := JOBRUNNING)];
    ghost var jobs0 := t.jobs;
    OnlyProcsStart(base, jobs0, arrays, slot);
    ResumeStart(ps);
    var n := 0;
    while n < t.jobs[slot].nprocs
      invariant |t.jobs| == |jobs0| && OnlyProcs(base, jobs0, arrays, t.jobs, t.arrays, slot)
      invariant 0 <= n <= t.jobs[slot].nprocs == |ps| && t.jobs[slot].used && ProcsOk(base, t.jobs, t.arrays)
      invariant ProcsOf(base, t.jobs, t.arrays, slot) == PartlyResumed(ps, n)
    {
      GetProcOk(t.jobtab, t.jobs, t.arrays, slot, n);
      var sp := GetProc(t.jobtab, t.jobs, t.arrays, slot, n);
      ResumeStep(ps, n);
      if WIfStopped(sp.status) {
        WriteProc(t, slot, n, sp.(status := -1), jobs0, arrays);
      }
      n := n + 1;
    }
    RestartedOk(t, jobs, arrays, slot);
  }

  /** What the loop leaves is a sound table. */
  lemma RestartedOk(t: Jobs, jobs: seq<Job>, arrays: map<int, seq<Proc>>, i: int)
    requires LinksOk(t.jobtab, jobs, t.curjob, t.order) && UsedOk(jobs, t.order)
    requires ProcsOk(t.jobtab, jobs, arrays) && StatesOk(t.jobtab, jobs, arrays)
            && BrkOk(t.jobtab, |jobs|, arrays, t.brk)
    requires 0 <= i < |jobs| && jobs[i].used && jobs[i].nprocs > 0 && jobs[i].state != JOBDONE && |t.jobs| == |jobs|
    requires ProcsOk(t.jobtab, jobs[i := jobs[i].(state := JOBRUNNING)], arrays)
    requires OnlyProcs(t.jobtab, jobs[i := jobs[i].(state := JOBRUNNING)], arrays, t.jobs, t.arrays, i)
    requires ProcsOf(t.jobtab, t.jobs, t.arrays, i) == Resume(ProcsOf(t.jobtab, jobs, arrays, i))
    ensures t.Valid()
    ensures t.Contents() == ContentsOf(t.jobtab, jobs, arrays)[
                              i := JobView(JOBRUNNING, jobs[i].waited, Resume(ProcsOf(t.jobtab, jobs, arrays, i)))]
  {
    hide LinksOk, Addr, Summary, ProcsOf, OnlyProcs, Resume, ProcsOk, StatesOk, BrkOk, UsedOk, ContentsOf;
    var base := t.jobtab;
    StateFirst(base, jobs, arrays, t.jobs, t.arrays, i, JOBRUNNING);
    var jobs2 := t.jobs[i := t.jobs[i].(state := jobs[i].state)];
    StateKept(base, jobs, arrays, jobs2, t.arrays, i);
    ResumedRuns(ProcsOf(base, jobs, arrays, i));
    JobChanged(base, jobs, arrays, jobs2, t.arrays, i, t.jobs[i]);
    UsedLinks(base, jobs, t.jobs, t.curjob, t.order);
    UsedKept(jobs, t.jobs, t.order);
    BrkSame(base, |jobs|, arrays, t.arrays, t.brk);
  }
}
