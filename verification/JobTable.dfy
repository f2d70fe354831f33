/** The job table (src/jobs.c, src/jobs.h): an array that may move, with a chain through it. */
module JobTable {
  /** The state of a process: its last status from wait(), or -1 while it runs. */
  datatype Proc = Proc(pid: int, status: int)

  datatype State = JOBRUNNING | JOBSTOPPED | JOBDONE

  /** Pointers are addresses; 0 is the null pointer. The first part of a job is its own process record ps0. */
  datatype Job = Job(ps0: Proc, ps: int, nprocs: nat, state: State, waited: bool, used: bool, changed: bool,
      prev_job: int)

  const JOBSIZE := 40

  /** The address of a slot. */
  function Addr(base: int, i: int): int {
    base + i * JOBSIZE
  }

  /** The slot at an address. */
  function Slot(base: int, p: int): int {
    (p - base) / JOBSIZE
  }

  lemma SlotAddr(base: int, i: int)
    ensures Slot(base, Addr(base, i)) == i
  {
  }

  lemma AddrApart(base: int)
    ensures forall i, j :: Addr(base, i) == Addr(base, j) ==> i == j
    ensures base > 0 ==> forall i :: i >= 0 ==> Addr(base, i) > 0
  {
  }

  lemma AddrMoved(base: int, move: int)
    ensures forall i :: Addr(base + move, i) == Addr(base, i) + move
  {
  }

  predicate WIfStopped(status: int) {
    status % 256 == 127
  }

  /** What the statuses of a job's processes say about the job. */
  function Summary(ps: seq<Proc>): State {
    if exists i :: 0 <= i < |ps| && ps[i].status == -1 then JOBRUNNING
    else if exists i :: 0 <= i < |ps| && WIfStopped(ps[i].status) then JOBSTOPPED
    else JOBDONE
  }

  /** Address of the job after position k in the chain. */
  function Next(base: int, order: seq<int>, k: int): int {
    if 0 <= k < |order| then Addr(base, order[k]) else 0
  }

  /** The chain from curjob is the given order of different slots. */
  ghost predicate LinksOk(base: int, jobs: seq<Job>, curjob: int, order: seq<int>) {
    && (jobs != [] ==> base > 0)
    && (forall k :: 0 <= k < |order| ==> 0 <= order[k] < |jobs|)
    && (forall j, k :: 0 <= j < k < |order| ==> order[j] != order[k])
    && curjob == Next(base, order, 0)
    && (forall k :: 0 <= k < |order| ==> jobs[order[k]].prev_job == Next(base, order, k + 1))
  }

  /** The chain visits each used slot, and no unused slot. */
  ghost predicate UsedOk(jobs: seq<Job>, order: seq<int>) {
    forall i :: 0 <= i < |jobs| ==> (jobs[i].used <==> i in order)
  }

  /** The processes of a used job are in the job or in an array of their own. */
  ghost predicate ProcsOk(base: int, jobs: seq<Job>, arrays: map<int, seq<Proc>>) {
    && (forall i, a :: 0 <= i < |jobs| && a in arrays ==> a != Addr(base, i))
    && (forall i :: 0 <= i < |jobs| && jobs[i].used ==>
          if jobs[i].ps == Addr(base, i) then jobs[i].nprocs <= 1
          else jobs[i].ps in arrays && 1 <= |arrays[jobs[i].ps]| && jobs[i].nprocs <= |arrays[jobs[i].ps]|)
    && (forall i, j :: 0 <= i < j < |jobs| && jobs[i].used && jobs[j].used ==> jobs[i].ps != jobs[j].ps)
  }

  function ProcsOf(base: int, jobs: seq<Job>, arrays: map<int, seq<Proc>>, i: int): seq<Proc>
    requires 0 <= i < |jobs|
  {
    var ps := if jobs[i].ps == Addr(base, i) then [jobs[i].ps0]
              else if jobs[i].ps in arrays then arrays[jobs[i].ps] else [];
    if jobs[i].nprocs <= |ps| then ps[..jobs[i].nprocs] else ps
  }

  /** A job with processes is in the state that they say. */
  ghost predicate StatesOk(base: int, jobs: seq<Job>, arrays: map<int, seq<Proc>>)
    requires ProcsOk(base, jobs, arrays)
  {
    forall i :: 0 <= i < |jobs| && jobs[i].used ==>
      jobs[i].state == if jobs[i].nprocs == 0 then JOBRUNNING else Summary(ProcsOf(base, jobs, arrays, i))
  }

  // ---------- the order of the chain ----------

  function Remove(order: seq<int>, i: int): seq<int> {
    if order == [] then [] else if order[0] == i then order[1..] else [order[0]] + Remove(order[1..], i)
  }

  lemma {:induction false} RemoveAt(order: seq<int>, k: nat)
    requires k < |order| && forall j :: 0 <= j < k ==> order[j] != order[k]
    ensures Remove(order, order[k]) == order[..k] + order[k + 1..]
  {
    if k > 0 {
      RemoveAt(order[1..], k - 1);
      assert order[1..][..k - 1] == order[1..k] && order[1..][k..] == order[k + 1..];
      assert order[..k] == [order[0]] + order[1..k];
    }
  }

  /** How many jobs at the front are stopped. */
  function Stopped(jobs: seq<Job>, order: seq<int>): (n: nat)
    requires forall k :: 0 <= k < |order| ==> 0 <= order[k] < |jobs|
    ensures n <= |order|
  {
    if order == [] || jobs[order[0]].state != JOBSTOPPED then 0 else 1 + Stopped(jobs, order[1..])
  }

  function Insert(order: seq<int>, at: nat, i: int): seq<int>
    requires at <= |order|
  {
    order[..at] + [i] + order[at..]
  }

  // ---------- changing links ----------

  /** The link at a place: curjob at -1, else that of a slot. */
  function Link(jobs: seq<Job>, curjob: int, at: int): int
    requires -1 <= at < |jobs|
  {
    if at == -1 then curjob else jobs[at].prev_job
  }

  /** The place of the link to position k of the chain. */
  ghost predicate PlaceOf(order: seq<int>, k: nat, at: int) {
    k <= |order| && at == if k == 0 then -1 else order[k - 1]
  }

  lemma LinkAt(base: int, jobs: seq<Job>, curjob: int, order: seq<int>, k: nat, at: int)
    requires LinksOk(base, jobs, curjob, order) && PlaceOf(order, k, at)
    ensures -1 <= at < |jobs| && Link(jobs, curjob, at) == Next(base, order, k)
    ensures k < |order| ==> Slot(base, Next(base, order, k)) == order[k] && Next(base, order, k) > 0
    ensures k < |order| ==> PlaceOf(order, k + 1, order[k])
  {
    AddrApart(base);
    if k < |order| {
      SlotAddr(base, order[k]);
    }
  }

  /** Link at changed to p. */
  function Relink(jobs: seq<Job>, at: int, p: int): seq<Job>
    requires -1 <= at < |jobs|
  {
    if at == -1 then jobs else jobs[at := jobs[at].(prev_job := p)]
  }

  lemma LinkRemoved(base: int, jobs: seq<Job>, curjob: int, order: seq<int>, k: nat, at: int)
    requires LinksOk(base, jobs, curjob, order) && PlaceOf(order, k, at) && k < |order|
    ensures -1 <= at < |jobs|
    ensures var next := jobs[order[k]].prev_job;
            LinksOk(base, Relink(jobs, at, next), if at == -1 then next else curjob, order[..k] + order[k + 1..])
  {
    hide Addr;
    var order' := order[..k] + order[k + 1..];
    var next := jobs[order[k]].prev_job;
    var jobs' := Relink(jobs, at, next);
    RemovedAt(order, k);
    forall j | 0 <= j < |order'|
      ensures jobs'[order'[j]].prev_job == Next(base, order', j + 1)
    {
      var was := if j < k then j else j + 1;
      assert order'[j] == order[was] && jobs[order[was]].prev_job == Next(base, order, was + 1);
    }
  }

  lemma RemovedAt(order: seq<int>, k: nat)
    requires k < |order|
    ensures var order' := order[..k] + order[k + 1..];
            |order'| == |order| - 1 && forall j :: 0 <= j < |order'| ==> order'[j] == order[if j < k then j else j + 1]
  {
  }

  /** One link of the chain. */
  lemma LinkOf(base: int, jobs: seq<Job>, curjob: int, order: seq<int>, m: int)
    requires LinksOk(base, jobs, curjob, order)
    ensures 0 <= m < |order| ==> 0 <= order[m] < |jobs| && jobs[order[m]].prev_job == Next(base, order, m + 1)
    ensures forall l :: 0 <= m < |order| && 0 <= l < |order| && l != m ==> order[l] != order[m]
  {
  }

  /** The link after position j of the longer chain. */
  lemma LinkInsertedAt(base: int, jobs: seq<Job>, curjob: int, order: seq<int>, k: nat, at: int, i: int, j: nat)
    requires LinksOk(base, jobs, curjob, order) && PlaceOf(order, k, at) && -1 <= at < |jobs|
    requires 0 <= i < |jobs| && i !in order && j <= |order|
    ensures var order' := Insert(order, k, i);
            var jobs' := Relink(jobs[i := jobs[i].(prev_job := Link(jobs, curjob, at))], at, Addr(base, i));
            |order'| == |order| + 1 && 0 <= order'[j] < |jobs| && jobs'[order'[j]].prev_job == Next(base, order', j + 1)
  {
    hide Addr, LinksOk, Link;
    LinkAt(base, jobs, curjob, order, k, at);
    var was := if j < k then j else j - 1;
    if j != k {
      LinkOf(base, jobs, curjob, order, was);
      assert order[was] != i;
    }
  }

  lemma DistinctInserted(order: seq<int>, k: nat, i: int)
    requires k <= |order| && i !in order && forall j, l :: 0 <= j < l < |order| ==> order[j] != order[l]
    ensures var order' := Insert(order, k, i);
            forall j, l :: 0 <= j < l < |order'| ==> order'[j] != order'[l]
  {
  }

  lemma LinkInserted(base: int, jobs: seq<Job>, curjob: int, order: seq<int>, k: nat, at: int, i: int)
    requires LinksOk(base, jobs, curjob, order) && PlaceOf(order, k, at)
    requires 0 <= i < |jobs| && i !in order
    ensures -1 <= at < |jobs|
    ensures var jobs' := jobs[i := jobs[i].(prev_job := Link(jobs, curjob, at))];
            LinksOk(base, Relink(jobs', at, Addr(base, i)),
                    if at == -1 then Addr(base, i) else curjob, Insert(order, k, i))
  {
    hide Addr;
    DistinctInserted(order, k, i);
    var order' := Insert(order, k, i);
    var jobs' := Relink(jobs[i := jobs[i].(prev_job := Link(jobs, curjob, at))], at, Addr(base, i));
    forall j | 0 <= j < |order'|
      ensures 0 <= order'[j] < |jobs| && jobs'[order'[j]].prev_job == Next(base, order', j + 1)
    {
      LinkInsertedAt(base, jobs, curjob, order, k, at, i, j);
    }
    assert Next(base, order', 0) == if k == 0 then Addr(base, i) else curjob;
  }
}
