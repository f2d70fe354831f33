/** Any run over the job table: following prev_job from curjob visits each used slot exactly once. */
module JobRuns {
  import opened JobTable
  import opened JobMachine
  import opened JobWait

  datatype Event =
    | Make(nprocs: nat)
    | Fork(slot: int, pid: int, background: bool)
    | Move(slot: int, stopped: bool)
    | Reap(pid: int, status: int)
    | Restart(slot: int)
    | Free(slot: int)

  /**
   * What dash's own code sees to before it does something to a job; and memory that was never written does not hold
   * the pid of the child that is reaped.
   */
  predicate Allowed(t: Jobs, e: Event)
    reads t
  {
    match e
    case Make(_) => true
    case Fork(i, _, _) =>
      0 <= i < |t.jobs| && t.jobs[i].used && t.jobs[i].state == JOBRUNNING
          && t.jobs[i].nprocs < Capacity(t.jobtab, t.jobs, t.arrays, i)
    case Move(i, _) => 0 <= i < |t.jobs| && t.jobs[i].used
    case Reap(pid, status) =>
      status != -1 && forall i :: 0 <= i < |t.jobs| ==> !Mistaken(t.jobtab, t.jobs, t.arrays, i, pid)
    case Restart(i) => 0 <= i < |t.jobs| && t.jobs[i].used && t.jobs[i].nprocs > 0
    case Free(i) => 0 <= i < |t.jobs| && t.jobs[i].used
  }

  lemma NoneMistaken(base: int, jobs: seq<Job>, arrays: map<int, seq<Proc>>, order: seq<int>, pid: int)
    requires forall i :: 0 <= i < |jobs| ==> !Mistaken(base, jobs, arrays, i, pid)
    ensures !MistakenFirst(base, jobs, arrays, order, pid)
  {
    hide ProcsOf, HasPid;
    forall k | 0 <= k < |order| && Hit(base, jobs, arrays, order[k], pid) && jobs[order[k]].nprocs == 0
      ensures false
    {
      NoPid(base, jobs, arrays, order[k], pid);
    }
  }

  lemma NoPid(base: int, jobs: seq<Job>, arrays: map<int, seq<Proc>>, i: int, pid: int)
    requires 0 <= i < |jobs| && jobs[i].nprocs == 0
    ensures !HasPid(ProcsOf(base, jobs, arrays, i), pid)
  {}

  method Perform(t: Jobs, e: Event)
    requires t.Valid() && Allowed(t, e)
    modifies t
    ensures t.Valid()
  {
    hide LinksOk, Addr, Slot, Summary, ProcsOk, StatesOk, ContentsOf, ProcsOf, BrkOk, Capacity, Remove, Reordered,
        Mistaken;
    match e {
      case Make(nprocs) =>
        var jp, i := t.MakeJob(nprocs);
      case Fork(i, pid, background) =>
        ForkParent(t, Addr(t.jobtab, i), pid, background, i);
      case Move(i, stopped) =>
        t.MoveJob(Addr(t.jobtab, i), if stopped then CUR_STOPPED else CUR_RUNNING, i);
      case Reap(pid, status) =>
        NoneMistaken(t.jobtab, t.jobs, t.arrays, t.order, pid);
        WaitOne(t, pid, status);
      case Restart(i) =>
        RestartJob(t, Addr(t.jobtab, i), i);
      case Free(i) =>
        t.FreeJob(Addr(t.jobtab, i), i);
    }
  }

  /** Where k links lead from p; 0 if the chain is at its end before. */
  function Walk(base: int, jobs: seq<Job>, p: int, k: nat): int
    decreases k
  {
    if k == 0 then p
    else if 0 <= Slot(base, p) < |jobs| && p != 0 then Walk(base, jobs, jobs[Slot(base, p)].prev_job, k - 1)
    else 0
  }

  lemma {:induction false} WalkOrder(base: int, jobs: seq<Job>, curjob: int, order: seq<int>, from: nat, k: nat)
    requires LinksOk(base, jobs, curjob, order) && from + k <= |order|
    ensures Walk(base, jobs, Next(base, order, from), k) == Next(base, order, from + k)
    decreases k
  {
    hide LinksOk, Addr, Slot, Next;
    if k > 0 {
      Follow(base, jobs, curjob, order, from);
      WalkOrder(base, jobs, curjob, order, from + 1, k - 1);
    }
  }

  lemma Follow(base: int, jobs: seq<Job>, curjob: int, order: seq<int>, k: nat)
    requires LinksOk(base, jobs, curjob, order) && k < |order|
    ensures var p := Next(base, order, k);
            p != 0 && 0 <= Slot(base, p) < |jobs| && jobs[Slot(base, p)].prev_job == Next(base, order, k + 1)
  {
    hide Addr, Slot;
    LinkAt(base, jobs, curjob, order, k, if k == 0 then -1 else order[k - 1]);
  }

  /** The chain ends after n jobs, visits a slot if and only if it is used, and no slot twice. */
  ghost predicate Visits(base: int, jobs: seq<Job>, curjob: int, n: nat) {
    && Walk(base, jobs, curjob, n) == 0
    && (forall k: nat :: k < n ==> IsUsedSlot(base, jobs, Walk(base, jobs, curjob, k)))
    && (forall i :: 0 <= i < |jobs| && jobs[i].used ==> Reaches(base, jobs, curjob, n, Addr(base, i)))
    && (forall j: nat, k: nat :: j < k < n ==> Walk(base, jobs, curjob, j) != Walk(base, jobs, curjob, k))
  }

  ghost predicate IsUsedSlot(base: int, jobs: seq<Job>, p: int) {
    exists i :: 0 <= i < |jobs| && jobs[i].used && p == Addr(base, i)
  }

  ghost predicate Reaches(base: int, jobs: seq<Job>, curjob: int, n: nat, p: int) {
    exists k: nat :: k < n && Walk(base, jobs, curjob, k) == p
  }

  lemma ChainVisits(t: Jobs)
    requires t.Valid()
    ensures Visits(t.jobtab, t.jobs, t.curjob, |t.order|)
  {
    hide ProcsOk, StatesOk, BrkOk, Summary, Walk, Slot;
    var base, jobs, curjob, order := t.jobtab, t.jobs, t.curjob, t.order;
    AddrApart(base);
    hide Addr;
    forall k: nat | k <= |order|
      ensures Walk(base, jobs, curjob, k) == Next(base, order, k)
    {
      WalkOrder(base, jobs, curjob, order, 0, k);
    }
    forall k: nat | k < |order|
      ensures IsUsedSlot(base, jobs, Walk(base, jobs, curjob, k))
    {
      assert order[k] in order;
    }
    forall i | 0 <= i < |jobs| && jobs[i].used
      ensures Reaches(base, jobs, curjob, |order|, Addr(base, i))
    {
      var k: nat :| k < |order| && order[k] == i;
      assert Walk(base, jobs, curjob, k) == Addr(base, i);
    }
  }

  /** Whatever was done to jobs, in whatever order. */
  method Run(t: Jobs, events: seq<Event>) returns (done: bool)
    requires t.Valid()
    modifies t
    ensures t.Valid() && Visits(t.jobtab, t.jobs, t.curjob, |t.order|)
  {
    hide LinksOk, ProcsOk, StatesOk, BrkOk, Addr, Capacity, Mistaken, Visits;
    done := true;
    for n := 0 to |events|
      invariant t.Valid()
    {
      if !Allowed(t, events[n]) {
        done := false;
        break;
      }
      Perform(t, events[n]);
    }
    ChainVisits(t);
  }
}
