/** The job table of the tiny shell (labs/07-shell/tsh.c). */
module ShellJobs {
  const MAXJOBS: nat := 16

  datatype JobState = UNDEF | FG | BG | ST

  datatype Job = Job(pid: int, jid: int, state: JobState)

  const FREE := Job(0, 0, UNDEF)

  datatype Table = Table(jobs: seq<Job>, nextjid: int)

  // ---------------------------------------------------------------- lookups

  /** The first slot at which P holds; the number of slots when there is none. */
  function First(jobs: seq<Job>, P: Job -> bool): (i: nat)
    ensures i <= |jobs| && (i < |jobs| ==> P(jobs[i])) && forall j :: 0 <= j < i ==> !P(jobs[j])
  {
    if jobs == [] || P(jobs[0]) then 0 else 1 + First(jobs[1..], P)
  }

  // getjobpid
  function ByPid(jobs: seq<Job>, pid: int): (i: nat)
    ensures i <= |jobs| && (i < |jobs| ==> jobs[i].pid == pid)
    ensures i == |jobs| && pid >= 0 ==> forall j :: 0 <= j < |jobs| ==> jobs[j].pid != pid
  {
    if pid < 0 then |jobs| else First(jobs, (x: Job) => x.pid == pid)
  }

  // getjobjid
  function ByJid(jobs: seq<Job>, jid: int): (i: nat)
    ensures i <= |jobs| && (i < |jobs| ==> jobs[i].jid == jid >= 1)
    ensures i == |jobs| && jid >= 1 ==> forall j :: 0 <= j < |jobs| ==> jobs[j].jid != jid
  {
    if jid < 1 then |jobs| else First(jobs, (x: Job) => x.jid == jid)
  }

  /** The largest job number in use, 0 when there is none. */
  function MaxJid(jobs: seq<Job>): (m: int)
    ensures m >= 0 && forall j :: 0 <= j < |jobs| ==> jobs[j].jid <= m
    ensures m == 0 || exists j :: 0 <= j < |jobs| && jobs[j].jid == m
  {
    if jobs == [] then 0
    else
      var m := MaxJid(jobs[..|jobs| - 1]);
      var x := jobs[|jobs| - 1].jid;
      if x > m then assert jobs[|jobs| - 1].jid == x; x else m
  }

  // ---------------------------------------------------------------- updates

  // addjob, when a slot is free
  function Add(t: Table, pid: int, st: JobState): Table
    requires ByPid(t.jobs, 0) < |t.jobs|
  {
    Table(t.jobs[ByPid(t.jobs, 0) := Job(pid, t.nextjid, st)], if t.nextjid + 1 > MAXJOBS then 1 else t.nextjid + 1)
  }

  // deletejob
  function Delete(t: Table, i: nat): Table
    requires i < |t.jobs|
  {
    var jobs := t.jobs[i := FREE];
    Table(jobs, MaxJid(jobs) + 1)
  }

  function SetState(t: Table, i: nat, st: JobState): Table
    requires i < |t.jobs|
  {
    t.(jobs := t.jobs[i := t.jobs[i].(state := st)])
  }

  /** What waitpid reports about a child. */
  datatype Status = Stopped | Exited

  // reap_child
  function Reap(t: Table, pid: int, status: Status): Table {
    var i := ByPid(t.jobs, pid);
    if i == |t.jobs| then t else if status.Stopped? then SetState(t, i, ST) else Delete(t, i)
  }

  class JobTable {
    const jobs: array<Job>
    var nextjid: int

    ghost predicate Valid()
      reads this
    {
      jobs.Length == MAXJOBS
    }

    ghost function View(): Table
      reads this, jobs
    {
      Table(jobs[..], nextjid)
    }

    // initjobs
    constructor ()
      ensures Valid() && fresh(jobs) && View() == Table(seq(MAXJOBS, _ => FREE), 1)
    {
      nextjid := 1;
      jobs := new Job[MAXJOBS](_ => FREE);
    }

    // getjobpid
    method GetJobPid(pid: int) returns (i: nat)
      requires Valid()
      ensures i == ByPid(jobs[..], pid)
    {
      if pid < 0 {
        return MAXJOBS;
      }
      i := 0;
      while i < MAXJOBS
        invariant i <= ByPid(jobs[..], pid)
      {
        if jobs[i].pid == pid {
          return i;
        }
        i := i + 1;
      }
    }

    // getjobjid
    method GetJobJid(jid: int) returns (i: nat)
      requires Valid()
      ensures i == ByJid(jobs[..], jid)
    {
      if jid < 1 {
        return MAXJOBS;
      }
      i := 0;
      while i < MAXJOBS
        invariant i <= ByJid(jobs[..], jid)
      {
        if jobs[i].jid == jid {
          return i;
        }
        i := i + 1;
      }
    }

    // maxjob
    method MaxJob() returns (max: int)
      requires Valid()
      ensures max == MaxJid(jobs[..])
    {
      max := 0;
      var i := 0;
      while i < MAXJOBS
        invariant 0 <= i <= MAXJOBS && max == MaxJid(jobs[..i])
      {
        assert jobs[..i + 1][..i] == jobs[..i];
        if jobs[i].jid > max {
          max := jobs[i].jid;
        }
        i := i + 1;
      }
    }

    // addjob
    method AddJob(pid: int, state: JobState) returns (added: bool)
      requires Valid()
      modifies this, jobs
      ensures added <==> ByPid(old(jobs[..]), 0) < MAXJOBS
      ensures View() == if added then Add(old(View()), pid, state) else old(View())
    {
      var i := GetJobPid(0);
      if i == MAXJOBS {
        return false;
      }
      jobs[i] := Job(pid, nextjid, state);
      nextjid := nextjid + 1;
      if nextjid > MAXJOBS {
        nextjid := 1;
      }
      added := true;
    }

    // deletejob
    method DeleteJob(i: nat)
      requires Valid() && i < MAXJOBS
      modifies this, jobs
      ensures View() == Delete(old(View()), i)
    {
      jobs[i] := FREE;
      var max := MaxJob();
      nextjid := max + 1;
    }

    // reap_child
    method ReapChild(pid: int, status: Status)
      requires Valid()
      modifies this, jobs
      ensures View() == Reap(old(View()), pid, status)
    {
      var i := GetJobPid(pid);
      if i == MAXJOBS {
        return;
      }
      if status.Stopped? {
        jobs[i] := jobs[i].(state := ST);
        return;
      }
      DeleteJob(i);
    }
  }
}
