/** Creating, freeing, reordering and waiting for jobs, in place (src/jobs.c). */
module JobMachine {
  import opened JobTable

  datatype Mode = CUR_DELETE | CUR_RUNNING | CUR_STOPPED

  /** Only links differ. */
  ghost predicate SameButLinks(jobs: seq<Job>, jobs': seq<Job>) {
    |jobs'| == |jobs| && forall i :: 0 <= i < |jobs| ==> jobs'[i] == jobs[i].(prev_job := jobs'[i].prev_job)
  }

  ghost predicate BrkOk(base: int, n: nat, arrays: map<int, seq<Proc>>, brk: int) {
    brk > 0 && Addr(base, n) <= brk && forall a :: a in arrays ==> a < brk
  }

  /** The order after a job is taken out and put where its mode says. */
  ghost function Reordered(jobs: seq<Job>, order: seq<int>, i: int, mode: Mode): seq<int>
    requires forall k :: 0 <= k < |order| ==> 0 <= order[k] < |jobs|
    requires forall k :: 0 <= k < |Remove(order, i)| ==> 0 <= Remove(order, i)[k] < |jobs|
  {
    var rest := Remove(order, i);
    match mode
    case CUR_DELETE => rest
    case CUR_RUNNING => Insert(rest, Stopped(jobs, rest), i)
    case CUR_STOPPED => Insert(rest, 0, i)
  }

  /** Taking a job out leaves the others in their order. */
  lemma {:induction false} RemoveKeeps(order: seq<int>, i: int)
    requires forall j, k :: 0 <= j < k < |order| ==> order[j] != order[k]
    ensures forall x :: x in Remove(order, i) <==> x in order && x != i
    ensures |Remove(order, i)| == if i in order then |order| - 1 else |order|
  {
    if order != [] {
      RemoveKeeps(order[1..], i);
      assert forall x :: x in order <==> x == order[0] || x in order[1..];
      if order[0] == i {
        assert i !in order[1..];
      }
    }
  }

  lemma InRange(base: int, jobs: seq<Job>, curjob: int, order: seq<int>)
    requires LinksOk(base, jobs, curjob, order)
    ensures forall k :: 0 <= k < |order| ==> 0 <= order[k] < |jobs|
    ensures forall j, k :: 0 <= j < k < |order| ==> order[j] != order[k]
  {
  }

  lemma {:induction false} StoppedSame(jobs: seq<Job>, jobs': seq<Job>, order: seq<int>)
    requires SameButLinks(jobs, jobs') && forall k :: 0 <= k < |order| ==> 0 <= order[k] < |jobs|
    ensures Stopped(jobs', order) == Stopped(jobs, order)
  {
    if order != [] {
      assert jobs'[order[0]].state == jobs[order[0]].state;
      StoppedSame(jobs, jobs', order[1..]);
    }
  }

  class Jobs {
    var jobtab: int
    var jobs: seq<Job>
    var arrays: map<int, seq<Proc>>
    var curjob: int
    var jobctl: bool
    /** Memory from here on is free. */
    var brk: int

    /** The slots in the order of the chain. */
    ghost var order: seq<int>

    ghost predicate Links()
      reads this
    {
      LinksOk(jobtab, jobs, curjob, order)
    }

    ghost predicate Valid()
      reads this
    {
      && Links() && UsedOk(jobs, order)
      && ProcsOk(jobtab, jobs, arrays) && StatesOk(jobtab, jobs, arrays)
      && BrkOk(jobtab, |jobs|, arrays, brk)
    }

    constructor ()
      ensures Valid() && jobs == [] && order == []
    {
      jobtab, jobs, arrays, curjob, jobctl, brk := 0, [], map[], 0, false, 1;
      order := [];
    }

    method SetLink(at: int, p: int)
      requires -1 <= at < |jobs|
      modifies `jobs, `curjob
      ensures jobs == Relink(old(jobs), at, p) && curjob == if at == -1 then p else old(curjob)
    {
      if at == -1 {
        curjob := p;
      } else {
        jobs := jobs[at := jobs[at].(prev_job := p)];
      }
    }

    /** Takes a job out of the chain and puts it back where it belongs. */
    method SetCurjob(jp: int, mode: Mode, ghost i: int)
      requires Links() && i in order && jp == Addr(jobtab, i)
      modifies `jobs, `curjob, `order
      ensures Links() && SameButLinks(old(jobs), jobs)
      ensures (forall k :: 0 <= k < |Remove(old(order), i)| ==> 0 <= Remove(old(order), i)[k] < |jobs|)
              && order == Reordered(old(jobs), old(order), i, mode)
    {
      hide LinksOk, Addr, Slot;
      TakeOut(jp, i);
      InRange(jobtab, jobs, curjob, order);
      StoppedSame(old(jobs), jobs, order);
      if mode == CUR_DELETE {
        return;
      }
      var at := -1;
      ghost var k := 0;
      if mode == CUR_RUNNING {
        at, k := AfterStopped();
      }
      PutIn(jp, at, k, i);
    }

    /** The first part of set_curjob: the link to the job is found, and leads past it. */
    method TakeOut(jp: int, ghost i: int)
      requires Links() && i in order && jp == Addr(jobtab, i)
      modifies `jobs, `curjob, `order
      ensures Links() && SameButLinks(old(jobs), jobs) && order == Remove(old(order), i) && i !in order
              && 0 <= i < |jobs|
    {
      hide LinksOk, Addr, Slot, Remove;
      var at, k := FindLink(jp, i);
      InRange(jobtab, jobs, curjob, order);
      LinkAt(jobtab, jobs, curjob, order, k, at);
      LinkRemoved(jobtab, jobs, curjob, order, k, at);
      RemoveAt(order, k);
      RemoveKeeps(order, i);
      SlotAddr(jobtab, i);
      order := order[..k] + order[k + 1..];
      SetLink(at, jobs[Slot(jobtab, jp)].prev_job);
    }

    /** The place of the link to a job. */
    method FindLink(jp: int, ghost i: int) returns (at: int, ghost k: nat)
      requires Links() && i in order && jp == Addr(jobtab, i)
      ensures PlaceOf(order, k, at) && k < |order| && order[k] == i && forall j :: 0 <= j < k ==> order[j] != i
    {
      hide LinksOk, Addr, Slot;
      k := 0;
      AddrApart(jobtab);
      at := -1;
      var jp1 := curjob;
      LinkAt(jobtab, jobs, curjob, order, 0, -1);
      while jp1 != jp
        invariant PlaceOf(order, k, at) && k < |order| && jp1 == Addr(jobtab, order[k])
        invariant i in order[k..] && forall j :: 0 <= j < k ==> order[j] != i
        decreases |order| - k
      {
        SlotAddr(jobtab, order[k]);
        at := Slot(jobtab, jp1);
        k := k + 1;
        LinkAt(jobtab, jobs, curjob, order, k, at);
        jp1 := Link(jobs, curjob, at);
      }
    }

    /** The place after all stopped jobs at the front. */
    method AfterStopped() returns (at: int, ghost k: nat)
      requires Links()
      ensures PlaceOf(order, k, at)
      ensures (forall j :: 0 <= j < |order| ==> 0 <= order[j] < |jobs|) && k == Stopped(jobs, order)
    {
      hide Addr, Slot;
      at, k := -1, 0;
      LinkAt(jobtab, jobs, curjob, order, 0, -1);
      var jp1 := curjob;
      assert order[0..] == order;
      while jp1 != 0 && jobs[Slot(jobtab, jp1)].state == JOBSTOPPED
        invariant PlaceOf(order, k, at) && jp1 == Next(jobtab, order, k) && k <= |order|
        invariant jp1 != 0 ==> k < |order| && Slot(jobtab, jp1) == order[k]
        invariant Stopped(jobs, order) == k + Stopped(jobs, order[k..])
        decreases |order| - k
      {
        at := Slot(jobtab, jp1);
        assert order[k..][1..] == order[k + 1..];
        k := k + 1;
        LinkAt(jobtab, jobs, curjob, order, k, at);
        jp1 := Link(jobs, curjob, at);
      }
      if k < |order| {
        LinkAt(jobtab, jobs, curjob, order, k, at);
      }
    }

    /** The last part of set_curjob. */
    method PutIn(jp: int, at: int, ghost k: nat, ghost i: int)
      requires Links() && PlaceOf(order, k, at) && 0 <= i < |jobs| && i !in order && jp == Addr(jobtab, i)
      modifies `jobs, `curjob, `order
      ensures Links() && SameButLinks(old(jobs), jobs) && order == Insert(old(order), k, i)
    {
      hide LinksOk, Addr, Slot;
      SlotAddr(jobtab, i);
      LinkInserted(jobtab, jobs, curjob, order, k, at, i);
      var slot := Slot(jobtab, jp);
      jobs := jobs[slot := jobs[slot].(prev_job := Link(jobs, curjob, at))];
      SetLink(at, jp);
      order := Insert(order, k, i);
    }

    // ---------- creating, moving and freeing ----------

    /** What each used slot holds. */
    ghost function Contents(): map<int, JobView>
      requires ProcsOk(jobtab, jobs, arrays)
      reads this
    {
      ContentsOf(jobtab, jobs, arrays)
    }

    /** A job gets another place in the chain; nothing else changes. */
    method MoveJob(jp: int, mode: Mode, ghost i: int)
      requires Valid() && i in order && jp == Addr(jobtab, i) && mode != CUR_DELETE
      modifies `jobs, `curjob, `order
      ensures Valid() && Contents() == old(Contents()) && SameButLinks(old(jobs), jobs)
      ensures (forall k :: 0 <= k < |Remove(old(order), i)| ==> 0 <= Remove(old(order), i)[k] < |jobs|)
              && order == Reordered(old(jobs), old(order), i, mode)
    {
      hide LinksOk, Addr, Slot, Summary, BrkOk, StatesOk, ProcsOf, ContentsOf, ProcsOk, Remove;
      InRange(jobtab, jobs, curjob, order);
      RemoveKeeps(order, i);
      SetCurjob(jp, mode, i);
      RelinkedProcs(jobtab, old(jobs), jobs, arrays);
      var rest := Remove(old(order), i);
      InsertKeeps(rest, if mode == CUR_RUNNING then Stopped(old(jobs), rest) else 0, i);
    }

    /** Marks a slot as unused and takes it out of the chain. */
    method FreeJob(jp: int, ghost i: int)
      requires Valid() && i in order && jp == Addr(jobtab, i)
      modifies `jobs, `arrays, `curjob, `order
      ensures Valid() && order == Remove(old(order), i) && Contents() == old(Contents()) - {i}
      ensures |jobs| == |old(jobs)| && forall j :: 0 <= j < |jobs| ==> (jobs[j].used <==> old(jobs)[j].used && j != i)
      ensures arrays == old(arrays) - OwnArray(jobtab, old(jobs), i)
    {
      hide LinksOk, Addr, Slot, Summary, BrkOk, StatesOk, ProcsOf, ContentsOf;
      InRange(jobtab, jobs, curjob, order);
      SlotAddr(jobtab, i);
      BrkKept(jobtab, |jobs|, arrays, brk, []);
      var slot := Slot(jobtab, jp);
      if jobs[slot].ps != jp {
        arrays := arrays - {jobs[slot].ps};
      }
      jobs := jobs[slot := jobs[slot].(used := false)];
      UsedLinks(jobtab, old(jobs), jobs, curjob, order);
      ghost var jobs1 := jobs;
      FreedProcs(jobtab, old(jobs), i, old(arrays));
      SetCurjob(jp, CUR_DELETE, i);
      RemoveKeeps(old(order), i);
      RelinkedProcs(jobtab, jobs1, jobs, arrays);
    }

    /** Somewhere for a table of n slots: where it is, or elsewhere. Nothing else is there. */
    method CkRealloc(n: nat) returns (base: int)
      requires Valid()
      modifies `brk
      ensures base > 0 && (forall i, a :: 0 <= i < n && a in arrays ==> a != Addr(base, i))
              && BrkOk(base, n, arrays, brk)
    {
      hide LinksOk, ProcsOk, StatesOk;
      base := brk;
      var stay: bool := *;
      if stay && jobtab > 0 && forall a :: a in arrays ==> a < jobtab {
        base := jobtab;
      }
      brk := if Addr(base, n) > brk then Addr(base, n) else brk;
    }

    /** An array for n processes. */
    method NewProcs(n: nat) returns (ps: int)
      requires Valid()
      modifies `arrays, `brk
      ensures Valid() && Contents() == old(Contents())
      ensures ps !in old(arrays) && arrays.Keys == old(arrays).Keys + {ps}
      ensures |arrays[ps]| == n && forall i :: 0 <= i < |jobs| ==> ps != Addr(jobtab, i)
      ensures forall i :: 0 <= i < |jobs| && jobs[i].used ==> ps != jobs[i].ps
    {
      hide LinksOk, Slot, Addr, BrkOk, Summary, ProcsOk, StatesOk, ContentsOf;
      BrkKept(jobtab, |jobs|, arrays, brk, seq(n, i => Proc(0, 0)));
      BrkFree(jobtab, |jobs|, arrays, brk);
      ps := brk;
      brk := brk + 1;
      NewArray(jobtab, jobs, arrays, ps, seq(n, i => Proc(0, 0)));
      arrays := arrays[ps := seq(n, i => Proc(0, 0))];
    }

    /** Adds four unused slots. If the table moves, the pointers into it move with it. */
    method GrowJobTab() returns (jp: int)
      requires Valid()
      modifies `jobs, `jobtab, `curjob, `brk
      ensures Valid() && Contents() == old(Contents())
      ensures |jobs| == |old(jobs)| + 4 && forall i :: |old(jobs)| <= i < |jobs| ==> !jobs[i].used
      ensures jp == Addr(jobtab, |old(jobs)|)
    {
      hide LinksOk, Addr, Slot, Summary, ProcsOk, StatesOk, BrkOk, ContentsOf;
      var njobs := |jobs|;
      var base := CkRealloc(njobs + 4);
      var offset := base - jobtab;
      if offset != 0 {
        RelocatedOk(jobtab, jobs, curjob, order, arrays, offset, base);
        var l := njobs;
        while l > 0
          invariant 0 <= l <= njobs == |jobs| && jobtab == old(jobtab) && curjob == old(curjob)
          invariant BrkOk(base, njobs + 4, arrays, brk)
          invariant forall i :: 0 <= i < l ==> jobs[i] == old(jobs)[i]
          invariant forall i :: l <= i < njobs ==> jobs[i] == Relocate(old(jobs)[i], Addr(jobtab, i), offset)
        {
          l := l - 1;
          if jobs[l].ps == Addr(jobtab, l) {
            jobs := jobs[l := jobs[l].(ps := jobs[l].ps + offset)];
          }
          if jobs[l].prev_job != 0 {
            jobs := jobs[l := jobs[l].(prev_job := jobs[l].prev_job + offset)];
          }
        }
        assert jobs == Relocated(old(jobs), jobtab, offset);
        if curjob != 0 {
          curjob := curjob + offset;
        }
      }
      ExtendedOk(base, jobs, curjob, order, arrays);
      jobs := jobs + seq(4, i => UNUSED);
      jobtab := base;
      jp := Addr(jobtab, njobs);
    }

    /** A slot for a new job: an unused one, that of a finished job, or one in a larger table. */
    method MakeJob(nprocs: nat) returns (jp: int, ghost i: int)
      requires Valid()
      modifies `jobs, `jobtab, `arrays, `curjob, `order, `brk
      ensures Valid() && 0 <= i < |jobs| && jp == Addr(jobtab, i)
      ensures i in old(order) ==> old(jobs[i]).state == JOBDONE && old(jobs[i]).waited && !jobctl
      ensures order == [i] + Remove(old(order), i)
      ensures Contents() == old(Contents())[i := JobView(JOBRUNNING, false, [])]
      ensures Capacity(jobtab, jobs, arrays, i) == if nprocs > 1 then nprocs else 1
      ensures arrays.Keys == (old(arrays).Keys - if i in old(order) then OwnArray(old(jobtab), old(jobs), i) else {})
                             + OwnArray(jobtab, jobs, i)
    {
      hide LinksOk, Addr, Slot, Summary, ProcsOk, StatesOk, ContentsOf;
      InRange(jobtab, jobs, curjob, order);
      var slot := 0;
      while slot < |jobs| && jobs[slot].used && (jobs[slot].state != JOBDONE || !jobs[slot].waited || jobctl)
        invariant 0 <= slot <= |jobs|
      {
        slot := slot + 1;
      }
      i := slot;
      RemoveKeeps(order, i);
      if slot == |jobs| {
        jp := GrowJobTab();
      } else {
        jp := Addr(jobtab, slot);
        if jobs[slot].used {
          FreeJob(jp, slot);
        }
      }
      RemoveNone(old(order), i);
      var ps := jp;
      if nprocs > 1 {
        ps := NewProcs(nprocs);
      }
      NewJobOk(jobtab, jobs, curjob, order, arrays, slot, ps);
      jobs := jobs[slot := Job(Proc(0, 0), ps, 0, JOBRUNNING, false, true, false, curjob)];
      curjob := jp;
      order := [slot] + order;
    }
  }

  /** The array that the processes of a job are in, if they are not in the job itself. */
  function OwnArray(base: int, jobs: seq<Job>, i: int): set<int>
    requires 0 <= i < |jobs|
  {
    if jobs[i].ps == Addr(base, i) then {} else {jobs[i].ps}
  }

  lemma BrkFree(base: int, n: nat, arrays: map<int, seq<Proc>>, brk: int)
    requires BrkOk(base, n, arrays, brk)
    ensures brk !in arrays
  {}

  /** A new job on an unused slot, at the front of the chain. */
  lemma NewJobOk(base: int, jobs: seq<Job>, curjob: int, order: seq<int>, arrays: map<int, seq<Proc>>, slot: nat,
      ps: int)
    requires LinksOk(base, jobs, curjob, order) && UsedOk(jobs, order)
    requires ProcsOk(base, jobs, arrays) && StatesOk(base, jobs, arrays)
    requires slot < |jobs| && !jobs[slot].used
    requires ps == Addr(base, slot)
             || (ps in arrays && arrays[ps] != [] && forall i :: 0 <= i < |jobs| && jobs[i].used ==> ps != jobs[i].ps)
    ensures var jobs' := jobs[slot := Job(Proc(0, 0), ps, 0, JOBRUNNING, false, true, false, curjob)];
            && LinksOk(base, jobs', Addr(base, slot), [slot] + order) && UsedOk(jobs', [slot] + order)
            && ProcsOk(base, jobs', arrays) && StatesOk(base, jobs', arrays)
            && ContentsOf(base, jobs', arrays) == ContentsOf(base, jobs, arrays)[slot := JobView(JOBRUNNING, false, [])]
  {
    AddrApart(base);
    NewJobLinks(base, jobs, curjob, order, slot, ps);
    hide Addr, Summary, LinksOk;
    NewJobProcs(base, jobs, arrays, slot, Job(Proc(0, 0), ps, 0, JOBRUNNING, false, true, false, curjob));
  }

  lemma NewJobLinks(base: int, jobs: seq<Job>, curjob: int, order: seq<int>, slot: nat, ps: int)
    requires LinksOk(base, jobs, curjob, order) && UsedOk(jobs, order)
    requires slot < |jobs| && !jobs[slot].used
    ensures var jobs' := jobs[slot := Job(Proc(0, 0), ps, 0, JOBRUNNING, false, true, false, curjob)];
            LinksOk(base, jobs', Addr(base, slot), [slot] + order) && UsedOk(jobs', [slot] + order)
  {
    hide Addr, Link;
    assert slot !in order;
    var jobs1 := jobs[slot := Job(Proc(0, 0), ps, 0, JOBRUNNING, false, true, false, curjob)];
    var jobs' := jobs1;
    OtherSlot(base, jobs, curjob, order, slot, jobs1[slot]);
    LinkInserted(base, jobs1, curjob, order, 0, -1, slot);
    LinkFirst(jobs1, curjob);
    assert Insert(order, 0, slot) == [slot] + order;
    assert jobs1[slot := jobs1[slot].(prev_job := curjob)] == jobs1;
    hide LinksOk, Next;
    assert forall x :: x in [slot] + order <==> x == slot || x in order;
  }

  lemma NewArray(base: int, jobs: seq<Job>, arrays: map<int, seq<Proc>>, ps: int, procs: seq<Proc>)
    requires ProcsOk(base, jobs, arrays) && ps !in arrays && ps >= Addr(base, |jobs|)
    ensures ProcsOk(base, jobs, arrays[ps := procs])
    ensures ContentsOf(base, jobs, arrays[ps := procs]) == ContentsOf(base, jobs, arrays)
    ensures StatesOk(base, jobs, arrays) ==> StatesOk(base, jobs, arrays[ps := procs])
    ensures forall i :: 0 <= i < |jobs| ==> ps != Addr(base, i)
    ensures forall i :: 0 <= i < |jobs| && jobs[i].used ==> ps != jobs[i].ps
  {
    hide Summary;
    assert forall i :: 0 <= i < |jobs| ==> ps != Addr(base, i);
  }

  /** With fewer arrays, or one more. */
  lemma BrkKept(base: int, n: nat, arrays: map<int, seq<Proc>>, brk: int, procs: seq<Proc>)
    requires BrkOk(base, n, arrays, brk)
    ensures forall a :: BrkOk(base, n, arrays - {a}, brk)
    ensures BrkOk(base, n, arrays[brk := procs], brk + 1)
    ensures brk !in arrays && brk >= Addr(base, n)
  {
  }

  lemma LinkFirst(jobs: seq<Job>, curjob: int)
    ensures Link(jobs, curjob, -1) == curjob
  {
  }

  lemma OtherSlot(base: int, jobs: seq<Job>, curjob: int, order: seq<int>, slot: nat, job: Job)
    requires LinksOk(base, jobs, curjob, order) && slot < |jobs| && slot !in order
    ensures LinksOk(base, jobs[slot := job], curjob, order)
  {
    hide Addr;
    assert forall k :: 0 <= k < |order| ==> order[k] != slot;
  }

  lemma NewJobProcs(base: int, jobs: seq<Job>, arrays: map<int, seq<Proc>>, slot: nat, job: Job)
    requires ProcsOk(base, jobs, arrays) && StatesOk(base, jobs, arrays)
    requires slot < |jobs| && !jobs[slot].used && job.used && job.nprocs == 0 && job.state == JOBRUNNING && !job.waited
    requires forall i, j :: Addr(base, i) == Addr(base, j) ==> i == j
    requires job.ps == Addr(base, slot)
             || (job.ps in arrays && arrays[job.ps] != []
                 && forall i :: 0 <= i < |jobs| && jobs[i].used ==> job.ps != jobs[i].ps)
    ensures var jobs' := jobs[slot := job];
            && ProcsOk(base, jobs', arrays) && StatesOk(base, jobs', arrays)
            && ContentsOf(base, jobs', arrays) == ContentsOf(base, jobs, arrays)[slot := JobView(JOBRUNNING, false, [])]
  {
    hide Addr, Summary;
  }

  lemma {:induction false} RemoveNone(order: seq<int>, i: int)
    ensures i !in order ==> Remove(order, i) == order
  {
    if order != [] {
      RemoveNone(order[1..], i);
    }
  }

  const UNUSED := Job(Proc(0, 0), 0, 0, JOBRUNNING, false, false, false, 0)

  /** A job at an address after a move. */
  function Relocate(job: Job, at: int, offset: int): Job {
    job.(ps := if job.ps == at then job.ps + offset else job.ps,
         prev_job := if job.prev_job != 0 then job.prev_job + offset else 0)
  }

  function Relocated(jobs: seq<Job>, base: int, offset: int): seq<Job> {
    seq(|jobs|, i requires 0 <= i < |jobs| => Relocate(jobs[i], Addr(base, i), offset))
  }

  /** How many processes a job has room for. */
  function Capacity(base: int, jobs: seq<Job>, arrays: map<int, seq<Proc>>, i: int): nat
    requires 0 <= i < |jobs|
  {
    if jobs[i].ps == Addr(base, i) then 1 else if jobs[i].ps in arrays then |arrays[jobs[i].ps]| else 0
  }

  /** After a move the chain has the same order. */
  lemma RelocatedLinks(base: int, jobs: seq<Job>, curjob: int, order: seq<int>, offset: int)
    requires LinksOk(base, jobs, curjob, order) && base + offset > 0
    ensures LinksOk(base + offset, Relocated(jobs, base, offset), if curjob != 0 then curjob + offset else 0, order)
  {
    AddrMoved(base, offset);
    AddrApart(base);
    AddrApart(base + offset);
    hide Addr;
    var jobs' := Relocated(jobs, base, offset);
    forall k | 0 <= k <= |order|
      ensures Next(base + offset, order, k) == if Next(base, order, k) != 0 then Next(base, order, k) + offset else 0
    {
    }
    assert forall k :: 0 <= k < |order| ==> jobs'[order[k]] == Relocate(jobs[order[k]], Addr(base, order[k]), offset);
  }

  /** Each job has the same processes. */
  lemma RelocatedProcs(base: int, jobs: seq<Job>, arrays: map<int, seq<Proc>>, offset: int, base': int)
    requires ProcsOk(base, jobs, arrays) && base' == base + offset
    requires forall i, a :: 0 <= i < |jobs| && a in arrays ==> a != Addr(base', i)
    ensures var jobs' := Relocated(jobs, base, offset);
            && ProcsOk(base', jobs', arrays)
            && (forall i :: 0 <= i < |jobs| && jobs[i].used ==>
                  ProcsOf(base', jobs', arrays, i) == ProcsOf(base, jobs, arrays, i))
  {
    AddrMoved(base, offset);
    AddrApart(base);
    AddrApart(base');
    hide Addr;
    var jobs' := Relocated(jobs, base, offset);
    assert forall i :: 0 <= i < |jobs| ==> jobs'[i] == Relocate(jobs[i], Addr(base, i), offset);
  }

  lemma RelocatedOk(base: int, jobs: seq<Job>, curjob: int, order: seq<int>, arrays: map<int, seq<Proc>>, offset: int,
      base': int)
    requires LinksOk(base, jobs, curjob, order) && UsedOk(jobs, order)
    requires ProcsOk(base, jobs, arrays) && StatesOk(base, jobs, arrays)
    requires base' == base + offset > 0
    requires forall i, a :: 0 <= i < |jobs| && a in arrays ==> a != Addr(base', i)
    ensures var jobs' := Relocated(jobs, base, offset);
            && LinksOk(base', jobs', if curjob != 0 then curjob + offset else 0, order) && UsedOk(jobs', order)
            && ProcsOk(base', jobs', arrays) && StatesOk(base', jobs', arrays)
            && ContentsOf(base', jobs', arrays) == ContentsOf(base, jobs, arrays)
  {
    RelocatedLinks(base, jobs, curjob, order, offset);
    RelocatedProcs(base, jobs, arrays, offset, base');
    hide Addr, Summary, LinksOk, ProcsOf, ProcsOk, StatesOk, ContentsOf;
    var jobs' := Relocated(jobs, base, offset);
    assert forall i :: 0 <= i < |jobs| ==> jobs'[i] == Relocate(jobs[i], Addr(base, i), offset);
    SameContents(base, jobs, arrays, base', jobs', arrays);
  }

  /** Four unused slots more. */
  lemma ExtendedOk(base: int, jobs: seq<Job>, curjob: int, order: seq<int>, arrays: map<int, seq<Proc>>)
    requires LinksOk(base, jobs, curjob, order) && UsedOk(jobs, order) && base > 0
    requires ProcsOk(base, jobs, arrays) && StatesOk(base, jobs, arrays)
    requires forall i, a :: 0 <= i < |jobs| + 4 && a in arrays ==> a != Addr(base, i)
    ensures var jobs' := jobs + seq(4, i => UNUSED);
            && LinksOk(base, jobs', curjob, order) && UsedOk(jobs', order)
            && ProcsOk(base, jobs', arrays) && StatesOk(base, jobs', arrays)
            && ContentsOf(base, jobs', arrays) == ContentsOf(base, jobs, arrays)
  {
    hide Addr, Summary, ProcsOf, LinksOk;
    var jobs' := jobs + seq(4, i => UNUSED);
    assert forall i :: 0 <= i < |jobs| ==> jobs'[i] == jobs[i];
    assert forall i :: |jobs| <= i < |jobs'| ==> jobs'[i] == UNUSED;
    InRange(base, jobs, curjob, order);
    ExtendedLinks(base, jobs, curjob, order, jobs');
    assert ProcsOk(base, jobs', arrays);
    forall j | 0 <= j < |jobs| && jobs'[j].used
      ensures ProcsOf(base, jobs', arrays, j) == ProcsOf(base, jobs, arrays, j)
    {
      SameProcs(base, jobs, arrays, jobs', arrays, j);
    }
  }

  lemma ExtendedLinks(base: int, jobs: seq<Job>, curjob: int, order: seq<int>, jobs': seq<Job>)
    requires LinksOk(base, jobs, curjob, order) && base > 0
    requires |jobs| <= |jobs'| && forall i :: 0 <= i < |jobs| ==> jobs'[i] == jobs[i]
    ensures LinksOk(base, jobs', curjob, order)
  {
    hide Addr;
  }

  datatype JobView = JobView(state: State, waited: bool, procs: seq<Proc>)

  ghost function ContentsOf(base: int, jobs: seq<Job>, arrays: map<int, seq<Proc>>): map<int, JobView>
    requires ProcsOk(base, jobs, arrays)
  {
    map i | 0 <= i < |jobs| && jobs[i].used :: JobView(jobs[i].state, jobs[i].waited, ProcsOf(base, jobs, arrays, i))
  }

  lemma ContentsAt(base: int, jobs: seq<Job>, arrays: map<int, seq<Proc>>)
    requires ProcsOk(base, jobs, arrays)
    ensures forall i :: i in ContentsOf(base, jobs, arrays) <==> 0 <= i < |jobs| && jobs[i].used
    ensures forall i :: 0 <= i < |jobs| && jobs[i].used ==>
              ContentsOf(base, jobs, arrays)[i]
                  == JobView(jobs[i].state, jobs[i].waited, ProcsOf(base, jobs, arrays, i))
  {
  }

  /** Each used slot has the same, wherever it is kept. */
  lemma SameContents(base: int, jobs: seq<Job>, arrays: map<int, seq<Proc>>, base': int, jobs': seq<Job>,
                     arrays': map<int, seq<Proc>>)
    requires ProcsOk(base, jobs, arrays) && ProcsOk(base', jobs', arrays') && |jobs| <= |jobs'|
    requires forall i :: 0 <= i < |jobs'| ==> (jobs'[i].used <==> i < |jobs| && jobs[i].used)
    requires forall i :: 0 <= i < |jobs| && jobs[i].used ==>
               && jobs'[i].state == jobs[i].state && jobs'[i].waited == jobs[i].waited
               && jobs'[i].nprocs == jobs[i].nprocs
               && ProcsOf(base', jobs', arrays', i) == ProcsOf(base, jobs, arrays, i)
    ensures ContentsOf(base', jobs', arrays') == ContentsOf(base, jobs, arrays)
    ensures StatesOk(base, jobs, arrays) ==> StatesOk(base', jobs', arrays')
  {
    hide Addr, Summary, ProcsOf, ProcsOk;
  }

  lemma InsertKeeps(order: seq<int>, k: nat, i: int)
    requires k <= |order|
    ensures forall x :: x in Insert(order, k, i) <==> x in order || x == i
  {
    assert order == order[..k] + order[k..];
    assert Insert(order, k, i)[k] == i;
    forall x | x in order
      ensures x in Insert(order, k, i)
    {
      assert x in order[..k] || x in order[k..];
    }
  }

  /** Only links differ, so nothing else does. */
  lemma RelinkedProcs(base: int, jobs: seq<Job>, jobs': seq<Job>, arrays: map<int, seq<Proc>>)
    requires SameButLinks(jobs, jobs') && ProcsOk(base, jobs, arrays)
    ensures ProcsOk(base, jobs', arrays) && ContentsOf(base, jobs', arrays) == ContentsOf(base, jobs, arrays)
    ensures StatesOk(base, jobs, arrays) ==> StatesOk(base, jobs', arrays)
  {
    hide Addr, Summary, ProcsOf;
    forall j | 0 <= j < |jobs| && jobs'[j].used
      ensures ProcsOf(base, jobs', arrays, j) == ProcsOf(base, jobs, arrays, j)
    {
      SameProcs(base, jobs, arrays, jobs', arrays, j);
    }
  }

  /** A change of other fields leaves the links. */
  lemma UsedLinks(base: int, jobs: seq<Job>, jobs': seq<Job>, curjob: int, order: seq<int>)
    requires LinksOk(base, jobs, curjob, order) && |jobs'| == |jobs|
    requires forall i :: 0 <= i < |jobs| ==> jobs'[i].prev_job == jobs[i].prev_job
    ensures LinksOk(base, jobs', curjob, order)
  {
    hide Addr;
  }

  lemma FreedProcs(base: int, jobs: seq<Job>, i: int, arrays: map<int, seq<Proc>>)
    requires 0 <= i < |jobs| && jobs[i].used && ProcsOk(base, jobs, arrays)
    ensures var jobs' := jobs[i := jobs[i].(used := false)];
            var arrays' := if jobs[i].ps == Addr(base, i) then arrays else arrays - {jobs[i].ps};
            && ProcsOk(base, jobs', arrays')
            && ContentsOf(base, jobs', arrays') == ContentsOf(base, jobs, arrays) - {i}
            && (StatesOk(base, jobs, arrays) ==> StatesOk(base, jobs', arrays'))
  {
    hide Addr, Summary, ProcsOf, ProcsOk, ContentsOf;
    FreedRoom(base, jobs, i, arrays);
    var jobs' := jobs[i := jobs[i].(used := false)];
    var arrays' := if jobs[i].ps == Addr(base, i) then arrays else arrays - {jobs[i].ps};
    ContentsAt(base, jobs, arrays);
    ContentsAt(base, jobs', arrays');
    var c, c' := ContentsOf(base, jobs, arrays), ContentsOf(base, jobs', arrays');
    assert forall j :: j in c' <==> j in c - {i};
    assert forall j :: j in c' ==> c'[j] == c[j];
  }

  lemma FreedRoom(base: int, jobs: seq<Job>, i: int, arrays: map<int, seq<Proc>>)
    requires 0 <= i < |jobs| && jobs[i].used && ProcsOk(base, jobs, arrays)
    ensures var jobs' := jobs[i := jobs[i].(used := false)];
            var arrays' := if jobs[i].ps == Addr(base, i) then arrays else arrays - {jobs[i].ps};
            && ProcsOk(base, jobs', arrays')
            && forall j :: 0 <= j < |jobs| && jobs'[j].used ==>
                 ProcsOf(base, jobs', arrays', j) == ProcsOf(base, jobs, arrays, j)
  {
    hide Addr, Summary, ProcsOf;
    var jobs' := jobs[i := jobs[i].(used := false)];
    var arrays' := if jobs[i].ps == Addr(base, i) then arrays else arrays - {jobs[i].ps};
    forall j | 0 <= j < |jobs| && jobs'[j].used
      ensures ProcsOf(base, jobs', arrays', j) == ProcsOf(base, jobs, arrays, j)
    {
      SameProcs(base, jobs, arrays, jobs', arrays', j);
    }
  }

  /** The processes of a job that is not changed, and neither is its array. */
  lemma SameProcs(base: int, jobs: seq<Job>, arrays: map<int, seq<Proc>>, jobs': seq<Job>,
      arrays': map<int, seq<Proc>>, i: int)
    requires 0 <= i < |jobs| && i < |jobs'| && jobs'[i].ps == jobs[i].ps && jobs'[i].ps0 == jobs[i].ps0
    requires jobs'[i].nprocs == jobs[i].nprocs
    requires jobs[i].ps == Addr(base, i)
            || (jobs[i].ps in arrays && jobs[i].ps in arrays' && arrays'[jobs[i].ps] == arrays[jobs[i].ps])
    ensures ProcsOf(base, jobs', arrays', i) == ProcsOf(base, jobs, arrays, i)
  {
  }
}
