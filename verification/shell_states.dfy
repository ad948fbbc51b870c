/** What the state of a job says, over all runs of the tiny shell. */
module ShellStates {
  import opened ShellJobs
  import opened Shell

  /** The slot that fg or bg is asked for; the number of slots when there is none. */
  function Asked(s: State): (i: nat)
    requires s.main.LookingUp?
    ensures i <= |s.table.jobs|
  {
    if s.main.byJid then ByJid(s.table.jobs, s.main.id) else ByPid(s.table.jobs, s.main.id)
  }

  /** What an action makes the job of process p: running as it was started, running as fg or bg says, or stopped because
      a stop is reported; UNDEF when it is none of these. */
  function Becomes(s: State, a: Action, p: int): JobState {
    match a
    case EnterJob =>
      if s.main.Forked? && s.main.pid == p && ByPid(s.table.jobs, 0) < |s.table.jobs| then if s.main.bg then BG else FG else UNDEF
    case LookUp =>
      if s.main.LookingUp? && Asked(s) < |s.table.jobs| && s.table.jobs[Asked(s)].pid == p then if s.main.bg then BG else FG else UNDEF
    case ReapOne => if s.main.Reaping? && s.main.pid == p && s.main.status == Stopped then ST else UNDEF
    case SweepOne(q) => if q == p && p in s.children && s.children[p].life.Halted? then ST else UNDEF
    case HandlerReaps(q) => if q == p && p in s.children && s.children[p].life.Halted? then ST else UNDEF
    case _ => UNDEF
  }

  /** A slot holds the job of p in this state. */
  predicate Shows(t: Table, i: int, p: int, st: JobState) {
    0 <= i < |t.jobs| && t.jobs[i].pid == p && t.jobs[i].state == st
  }

  /** The action makes the job what it is, or leaves it alone and does not concern it. */
  ghost predicate Explains(s: State, s': State, a: Action, i: nat, p: int)
    requires i < |s'.table.jobs|
  {
    var st := s'.table.jobs[i].state;
    if Becomes(s, a, p) == UNDEF then Shows(s.table, i, p, st) else Becomes(s, a, p) == st
  }

  lemma EnterExplains(s: State, s': State, i: nat, p: int)
    requires Inv(s) && Step(s, s', EnterJob) && i < |s'.table.jobs| && s'.table.jobs[i].pid == p > 0
    ensures Explains(s, s', EnterJob, i, p)
  {
    NotEntered(s, i);
    hide ByPid, HasJob;
  }

  /** A child just forked has no job. */
  lemma NotEntered(s: State, i: nat)
    requires Inv(s) && s.main.Forked? && i < |s.table.jobs|
    ensures s.table.jobs[i].pid != s.main.pid
  {
    var pid := s.main.pid;
    assert s.table.jobs[i].pid == pid ==> HasJob(s.table, pid);
  }

  lemma LookUpExplains(s: State, s': State, i: nat, p: int)
    requires Inv(s) && Step(s, s', LookUp) && i < |s'.table.jobs| && s'.table.jobs[i].pid == p > 0
    ensures Explains(s, s', LookUp, i, p)
  {
    assert TableOk(s.table);
    hide Inv, ByPid, ByJid;
  }

  lemma ReportExplains(t: Table, pid: int, status: Status, i: nat, p: int)
    requires TableOk(t) && pid > 0 && i < |Reap(t, pid, status).jobs| && Reap(t, pid, status).jobs[i].pid == p > 0
    ensures if p == pid then status == Stopped && Reap(t, pid, status).jobs[i].state == ST
            else Shows(t, i, p, Reap(t, pid, status).jobs[i].state)
  {
    var k := ByPid(t.jobs, pid);
    if k < |t.jobs| { ByPidFinds(t, k); }
  }

  lemma ReapedExplains(s: State, s': State, a: Action, i: nat, p: int)
    requires Inv(s) && Step(s, s', a) && (a.ReapOne? || a.SweepOne? || a.HandlerReaps?)
    requires i < |s'.table.jobs| && s'.table.jobs[i].pid == p > 0
    ensures Explains(s, s', a, i, p)
  {
    assert MainOk(s) && HistoryOk(s) && TableOk(s.table);
    if a.ReapOne? {
      assert Foreground(s.main, s.main.pid);
      ReapedTable(s, s.main.pid, s.main.status);
      ReportExplains(s.table, s.main.pid, s.main.status, i, p);
    } else {
      SweepStep(s, s', a.pid, a);
      WaitedHistory(s, a.pid);
      var t, status := Waited(s, a.pid), StatusOf(s.children[a.pid]);
      ReapedTable(t, a.pid, status);
      ReportExplains(s.table, a.pid, status, i, p);
    }
  }

  lemma StepExplains(s: State, s': State, a: Action, i: nat, p: int)
    requires Inv(s) && Step(s, s', a) && i < |s'.table.jobs| && s'.table.jobs[i].pid == p > 0
    ensures Explains(s, s', a, i, p)
  {
    hide Inv;
    match a {
      case EnterJob => EnterExplains(s, s', i, p);
      case LookUp => LookUpExplains(s, s', i, p);
      case ReapOne => ReapedExplains(s, s', a, i, p);
      case SweepOne(_) => ReapedExplains(s, s', a, i, p);
      case HandlerReaps(_) => ReapedExplains(s, s', a, i, p);
      case _ => TableSteps(s, s', a);
    }
  }

  /** Action j is the last one before state k that says anything about the job of p, and makes it st. */
  ghost predicate LastSays(r: seq<State>, acts: seq<Action>, j: int, k: int, p: int, st: JobState)
    requires |r| == |acts| + 1 && k <= |acts|
  {
    && 0 <= j < k && Becomes(r[j], acts[j], p) == st != UNDEF
    && forall l :: j < l < k ==> Becomes(r[l], acts[l], p) == UNDEF
  }

  /** In every run every job is in the state that the last action about it has given it: running in the background or in
      the foreground as it was started or resumed, or stopped if a stop was reported after that. */
  lemma {:induction false} JobStateExactly(r: seq<State>, acts: seq<Action>, k: nat, i: nat) returns (j: nat)
    requires Run(r, acts) && k < |r| && i < |r[k].table.jobs| && r[k].table.jobs[i].pid > 0
    ensures LastSays(r, acts, j, k, r[k].table.jobs[i].pid, r[k].table.jobs[i].state)
  {
    hide Inv, Step, Becomes;
    if k == 0 {
      InitFree(r[0], i);
      assert false;
    } else {
      var p := r[k].table.jobs[i].pid;
      RunInv(r, acts, k - 1);
      StepExplains(r[k - 1], r[k], acts[k - 1], i, p);
      if Becomes(r[k - 1], acts[k - 1], p) == UNDEF {
        j := JobStateExactly(r, acts, k - 1, i);
      } else {
        j := k - 1;
        RunInv(r, acts, k);
        assert r[k].table.jobs[i].state != UNDEF by { StateSet(r[k], i); }
      }
    }
  }

  lemma InitFree(s: State, i: nat)
    requires Init(s) && i < |s.table.jobs|
    ensures s.table.jobs[i].pid == 0
  {
  }

  lemma StateSet(s: State, i: nat)
    requires Inv(s) && i < |s.table.jobs| && s.table.jobs[i].pid > 0
    ensures s.table.jobs[i].state != UNDEF
  {
  }

  // ---------------------------------------------------------------- stopped jobs

  /** The main program has the report of a stop of p in hand. */
  predicate InHand(m: Main, p: int) {
    || (m.Collected? && m.pid == p && m.status == Stopped)
    || (m.Reaping? && m.pid == p && m.status == Stopped)
  }

  /** A job whose child has stopped, and whose stop was reported, is marked as stopped. */
  ghost predicate StopsShown(s: State) {
    && (forall i :: 0 <= i < |s.table.jobs| && s.table.jobs[i].pid > 0 && StopReported(s, s.table.jobs[i].pid)
          ==> s.table.jobs[i].state == ST || InHand(s.main, s.table.jobs[i].pid))
    && (s.main.Forked? ==> !StopReported(s, s.main.pid))
  }

  /** Where a child's stop becomes known: it is reported by this action, or was before. */
  lemma StopKnown(s: State, s': State, a: Action, p: int)
    requires MainOk(s) && Step(s, s', a) && StopReported(s', p)
    ensures StopReported(s, p) || a == WaitReturns(p) || ((a == SweepOne(p) || a == HandlerReaps(p)) && s.children[p].life.Halted?)
    ensures a == WaitReturns(p) && !StopReported(s, p) ==> InHand(s'.main, p)
    ensures (a == SweepOne(p) || a == HandlerReaps(p)) ==> p in s.children && s.children[p].life.Halted?
  {
    hide ByPid, ByJid, Add, SetState, Reap;
  }

  /** A job that is resumed goes on. */
  lemma ResumedRuns(s: State, s': State, p: int)
    requires Step(s, s', LookUp) && StopReported(s', p)
    ensures Asked(s) < |s.table.jobs| ==> s.table.jobs[Asked(s)].pid != p
  {
    hide ByPid, ByJid, SetState;
  }

  /** A report in hand stays there until the job is marked. */
  lemma HandKept(s: State, s': State, a: Action, p: int)
    requires Step(s, s', a) && InHand(s.main, p)
    ensures InHand(s'.main, p) || (a == ReapOne && s.main.Reaping? && s.main.pid == p && s.main.status == Stopped)
  {
    hide ByPid, ByJid, Add, SetState, Reap;
  }

  lemma StopsShownStep(s: State, s': State, a: Action)
    requires Inv(s) && Step(s, s', a) && StopsShown(s)
    ensures StopsShown(s')
  {
    assert MainOk(s);
    hide Inv;
    forall i | 0 <= i < |s'.table.jobs| && s'.table.jobs[i].pid > 0 && StopReported(s', s'.table.jobs[i].pid)
      ensures s'.table.jobs[i].state == ST || InHand(s'.main, s'.table.jobs[i].pid)
    {
      ShownAt(s, s', a, i);
    }
    if s'.main.Forked? { ForkedRuns(s, s', a); }
  }

  lemma ShownAt(s: State, s': State, a: Action, i: nat)
    requires Inv(s) && Step(s, s', a) && StopsShown(s)
    requires i < |s'.table.jobs| && s'.table.jobs[i].pid > 0 && StopReported(s', s'.table.jobs[i].pid)
    ensures s'.table.jobs[i].state == ST || InHand(s'.main, s'.table.jobs[i].pid)
  {
    assert MainOk(s);
    hide Inv, Step, StopReported, InHand, MainOk;
    var p := s'.table.jobs[i].pid;
    StepExplains(s, s', a, i, p);
    StopKnown(s, s', a, p);
    if a == LookUp { ResumedRuns(s, s', p); }
    if a == EnterJob {
      EnteredRuns(s, s', p);
    } else if InHand(s.main, p) {
      HandKept(s, s', a, p);
    }
  }

  /** The job just entered is not one whose stop was reported. */
  lemma EnteredRuns(s: State, s': State, p: int)
    requires Step(s, s', EnterJob) && StopsShown(s) && StopReported(s', p)
    ensures Becomes(s, EnterJob, p) == UNDEF && StopReported(s, p) && !InHand(s.main, p)
  {
    hide ByPid, Add;
  }

  lemma ForkedRuns(s: State, s': State, a: Action)
    requires MainOk(s) && Step(s, s', a) && StopsShown(s) && s'.main.Forked?
    ensures !StopReported(s', s'.main.pid)
  {
    hide ByPid, ByJid, Add, SetState, Reap;
  }

  ghost predicate AllStopsMarked(s: State) {
    forall i :: 0 <= i < |s.table.jobs| && s.table.jobs[i].pid > 0 && StopReported(s, s.table.jobs[i].pid) ==> s.table.jobs[i].state == ST
  }

  /** In every run, at the prompt, a job that is not marked as stopped stands for a child whose stop, if it has stopped,
      was not reported yet. */
  lemma {:induction false} StoppedIsMarked(r: seq<State>, acts: seq<Action>, k: nat)
    requires Run(r, acts) && k < |r|
    ensures StopsShown(r[k])
    ensures r[k].main == Prompt ==> AllStopsMarked(r[k])
  {
    hide Inv, Step, StopReported;
    if k == 0 {
      assert forall i :: 0 <= i < |r[0].table.jobs| ==> r[0].table.jobs[i] == FREE;
    } else {
      RunInv(r, acts, k - 1);
      StoppedIsMarked(r, acts, k - 1);
      StopsShownStep(r[k - 1], r[k], acts[k - 1]);
    }
  }
}
