/** The main loop of the tiny shell interleaved with its SIGCHLD handler and with the kernel
    (labs/07-shell/tsh.c). */
module Shell {
  import opened ShellJobs

  /** A child process; uid tells children apart that had the same pid one after the other. */
  datatype Child = Child(uid: nat, life: Life)

  /** A stopped child is reported once; a dead one stays until it is waited for. */
  datatype Life = Running | Halted(reported: bool) | Dead

  /** Where the main program is. saved is the signal mask it will restore: true means SIGCHLD blocked. */
  datatype Main =
    | Prompt
    | Forking(saved: bool, bg: bool)
    | Forked(saved: bool, bg: bool, pid: int, uid: nat)
    | Added(saved: bool, bg: bool, pid: int)
    | LookingUp(saved: bool, bg: bool, byJid: bool, id: int)
    | Resuming(saved: bool, bg: bool, pid: int)
    | Waiting(pid: int)                                        // in waitpid(pid)
    | Collected(pid: int, status: Status, uid: nat)            // before blocking SIGCHLD
    | Reaping(saved: bool, pid: int, status: Status, uid: nat)
    | Sweeping(saved: bool)                                      // in wait_childs
    | Gone                                                     // exited, or crashed on a missing job

  /** added, deleted and reaped are history: the children whose job was entered, those whose job was deleted, and
      those whose end was reported to the shell. owner tells which child a job's pid stands for. */
  datatype State = State(
    main: Main, mask: bool, inHandler: bool, table: Table, children: map<int, Child>, nextUid: nat,
    owner: map<int, nat>, added: set<nat>, deleted: set<nat>, reaped: set<nat>)

  datatype Action =
    // main loop
    | RunCommand(bg: bool) | Fork(pid: int) | ForkFails | EnterJob | RestoreMask | FgBg(bg: bool, byJid: bool, id: int)
    | BadArgument(garbage: bool) | LookUp | WaitReturns(pid: int) | WaitFails | BlockAgain | ReapOne | SweepOne(pid: int)
    | SweepEnds | Quit
    // SIGCHLD handler
    | HandlerStarts | HandlerReaps(pid: int) | HandlerEnds
    // kernel
    | ChildStops(pid: int) | ChildContinues(pid: int) | ChildDies(pid: int)

  // ---------------------------------------------------------------- steps

  predicate Reportable(s: State, pid: int) {
    pid in s.children && (s.children[pid].life.Dead? || s.children[pid].life == Halted(false))
  }

  function StatusOf(c: Child): Status {
    if c.life.Dead? then Exited else Stopped
  }

  /** The kernel's side of a successful waitpid. */
  function Waited(s: State, pid: int): State
    requires pid in s.children
  {
    var c := s.children[pid];
    if c.life.Dead? then s.(children := s.children - {pid}, reaped := s.reaped + {c.uid})
    else s.(children := s.children[pid := c.(life := Halted(true))])
  }

  /** SIGCONT to the process group of a child: it goes on if it has stopped. */
  function Continued(children: map<int, Child>, pid: int): (c: map<int, Child>)
    ensures c.Keys == children.Keys && forall p :: p in c ==> c[p].uid == children[p].uid
  {
    if pid in children && children[pid].life.Halted? then children[pid := children[pid].(life := Running)] else children
  }

  /** reap_child, with the history of deletions. */
  function Reaped(s: State, pid: int, status: Status): State {
    var i := ByPid(s.table.jobs, pid);
    var t := s.(table := Reap(s.table, pid, status));
    if i < |s.table.jobs| && status.Exited? && pid in s.owner
      then t.(deleted := s.deleted + {s.owner[pid]}, owner := s.owner - {pid}) else t
  }

  ghost predicate Init(s: State) {
    && s.main == Prompt && !s.inHandler && s.table == Table(seq(MAXJOBS, _ => FREE), 1) && s.children == map[]
    && s.owner == map[] && s.added == s.deleted == s.reaped == {}
  }

  /** A step of the main program, which the handler suspends. */
  ghost predicate MainStep(s: State, s': State, a: Action) {
    !s.inHandler &&
    match a
    case RunCommand(bg) =>
      s.main == Prompt && s' == s.(main := Forking(s.mask, bg), mask := true)
    case ForkFails =>
      s.main.Forking? && s' == s.(main := Prompt, mask := s.main.saved)
    case Fork(pid) =>
      && s.main.Forking? && pid > 0 && pid !in s.children
      && s' == s.(main := Forked(s.main.saved, s.main.bg, pid, s.nextUid), nextUid := s.nextUid + 1,
                  children := s.children[pid := Child(s.nextUid, Running)])
    case EnterJob =>
      && s.main.Forked?
      && var i := ByPid(s.table.jobs, 0);
         if i < |s.table.jobs| then
           s' == s.(main := Added(s.main.saved, s.main.bg, s.main.pid), added := s.added + {s.main.uid},
                    table := Add(s.table, s.main.pid, if s.main.bg then BG else FG), owner := s.owner[s.main.pid := s.main.uid])
         else s' == s.(main := if s.main.bg then Gone else Added(s.main.saved, false, s.main.pid))
    case RestoreMask =>
      && (s.main.Added? || s.main.Resuming?)
      && s' == s.(main := if s.main.bg then Prompt else Waiting(s.main.pid), mask := s.main.saved)
    case BadArgument(garbage) =>
      s.main == Prompt && s' == s.(mask := garbage)
    case FgBg(bg, byJid, id) =>
      s.main == Prompt && s' == s.(main := LookingUp(s.mask, bg, byJid, id), mask := true)
    case LookUp =>
      && s.main.LookingUp?
      && var i := if s.main.byJid then ByJid(s.table.jobs, s.main.id) else ByPid(s.table.jobs, s.main.id);
         if i == |s.table.jobs| then s' == s.(main := Prompt, mask := s.main.saved)
         else s' == s.(main := Resuming(s.main.saved, s.main.bg, s.table.jobs[i].pid),
                       table := SetState(s.table, i, if s.main.bg then BG else FG),
                       children := Continued(s.children, s.table.jobs[i].pid))
    case WaitReturns(pid) =>
      && s.main == Waiting(pid) && Reportable(s, pid)
      && s' == Waited(s, pid).(main := Collected(pid, StatusOf(s.children[pid]), s.children[pid].uid))
    case WaitFails =>
      s.main.Waiting? && s.main.pid !in s.children && s' == s.(main := Prompt)
    case BlockAgain =>
      s.main.Collected? && s' == s.(main := Reaping(s.mask, s.main.pid, s.main.status, s.main.uid), mask := true)
    case ReapOne =>
      s.main.Reaping? && s' == Reaped(s, s.main.pid, s.main.status).(main := Sweeping(s.main.saved))
    case SweepOne(pid) =>
      s.main.Sweeping? && Reportable(s, pid) && s' == Reaped(Waited(s, pid), pid, StatusOf(s.children[pid]))
    case SweepEnds =>
      s.main.Sweeping? && s' == s.(main := Prompt, mask := s.main.saved)
    case Quit =>
      s.main == Prompt && s' == s.(main := Gone)
    case _ => false
  }

  /** A step of the handler, which can start whenever SIGCHLD is not blocked, or of the kernel. */
  ghost predicate OtherStep(s: State, s': State, a: Action) {
    match a
    case HandlerStarts =>
      !s.inHandler && !s.mask && s.main != Gone && s' == s.(inHandler := true)
    case HandlerReaps(pid) =>
      s.inHandler && Reportable(s, pid) && s' == Reaped(Waited(s, pid), pid, StatusOf(s.children[pid]))
    case HandlerEnds =>
      s.inHandler && s' == s.(inHandler := false)
    case ChildStops(pid) =>
      pid in s.children && s.children[pid].life == Running
      && s' == s.(children := s.children[pid := s.children[pid].(life := Halted(false))])
    case ChildContinues(pid) =>
      pid in s.children && s.children[pid].life.Halted?
      && s' == s.(children := s.children[pid := s.children[pid].(life := Running)])
    case ChildDies(pid) =>
      pid in s.children && !s.children[pid].life.Dead?
      && s' == s.(children := s.children[pid := s.children[pid].(life := Dead)])
    case _ => false
  }

  ghost predicate Step(s: State, s': State, a: Action) {
    MainStep(s, s', a) || OtherStep(s, s', a)
  }

  // ---------------------------------------------------------------- invariant

  /** A slot without a pid is free, whatever its state says; pids tell jobs apart. */
  ghost predicate TableOk(t: Table) {
    && |t.jobs| == MAXJOBS && t.nextjid >= 1
    && (forall i :: 0 <= i < |t.jobs| ==> JobOk(t.jobs[i]))
    && forall i, j :: 0 <= i < j < |t.jobs| && t.jobs[i].pid == t.jobs[j].pid ==> t.jobs[i].pid == 0
  }

  predicate JobOk(j: Job) {
    (j.pid == 0 && j.jid == 0) || (j.pid > 0 && j.jid >= 1 && j.state != UNDEF)
  }

  predicate HasJob(t: Table, pid: int) {
    exists i :: 0 <= i < |t.jobs| && t.jobs[i].pid == pid
  }

  /** The process the main program is running or waiting for in the foreground. */
  predicate Foreground(m: Main, pid: int) {
    match m
    case Added(_, bg, p) => !bg && p == pid
    case Resuming(_, bg, p) => !bg && p == pid
    case Waiting(p) => p == pid
    case Collected(p, _, _) => p == pid
    case Reaping(_, p, _, _) => p == pid
    case _ => false
  }

  /** The main program knows of the end of a child and has not acted on it yet. */
  predicate Pending(m: Main, pid: int, uid: nat) {
    || (m.Collected? && m.pid == pid && m.uid == uid && m.status == Exited)
    || (m.Reaping? && m.pid == pid && m.uid == uid && m.status == Exited)
  }

  /** Only the process in the foreground can have an FG job, and in most places there is none. */
  ghost predicate FgOk(s: State) {
    forall i :: 0 <= i < |s.table.jobs| && s.table.jobs[i].state == FG
      ==> s.table.jobs[i].pid == 0 || Foreground(s.main, s.table.jobs[i].pid)
  }

  ghost predicate OwnersOk(s: State) {
    forall p :: p in s.owner <==> p != 0 && HasJob(s.table, p)
  }

  /** A job stands for a child not reaped yet, or whose end the main program is about to act on. */
  ghost predicate Alive(s: State, p: int)
    requires p in s.owner
  {
    || (p in s.children && s.children[p].uid == s.owner[p])
    || (p !in s.children && Pending(s.main, p, s.owner[p]))
  }

  ghost predicate JobsOk(s: State) {
    OwnersOk(s) && forall p :: p in s.owner ==> Alive(s, p)
  }

  /** A child is entered before it is deleted, and deleted as soon as its end has been acted on. */
  ghost predicate HistoryOk(s: State) {
    && s.deleted <= s.added && s.deleted <= s.reaped
    && (forall u :: u in s.added || u in s.reaped ==> u < s.nextUid)
    && (forall p :: p in s.children ==> p > 0 && s.children[p].uid < s.nextUid && s.children[p].uid !in s.reaped)
    && (forall p, q :: p in s.children && q in s.children && s.children[p].uid == s.children[q].uid ==> p == q)
    && (forall u :: u in s.added && u !in s.deleted ==> exists p :: p in s.owner && s.owner[p] == u)
    && (forall p :: p in s.owner ==> s.owner[p] in s.added && s.owner[p] !in s.deleted)
    && (forall p, q :: p in s.owner && q in s.owner && s.owner[p] == s.owner[q] ==> p == q)
  }

  /** What the main program holds is in step with the rest. */
  ghost predicate MainOk(s: State) {
    && (s.main.Forking? || s.main.Forked? || s.main.Added? || s.main.LookingUp? || s.main.Resuming? || s.main.Reaping? || s.main.Sweeping?
        ==> s.mask && !s.inHandler)
    && (s.main.Forked? ==> (s.main.pid > 0 && s.main.pid in s.children && s.children[s.main.pid].uid == s.main.uid
                            && s.main.uid !in s.added && s.main.pid !in s.owner))
    && (forall p :: Foreground(s.main, p) ==> p > 0 || (p == 0 && (s.main.Resuming? || s.main.Waiting?)))
    && (forall p, u :: Pending(s.main, p, u) ==> p !in s.children && u in s.reaped)
  }

  ghost predicate Inv(s: State) {
    TableOk(s.table) && FgOk(s) && JobsOk(s) && HistoryOk(s) && MainOk(s)
  }

  // ---------------------------------------------------------------- table lemmas

  lemma ByPidFinds(t: Table, i: nat)
    requires TableOk(t) && i < |t.jobs| && t.jobs[i].pid > 0
    ensures ByPid(t.jobs, t.jobs[i].pid) == i
  {
  }

  lemma AddOk(t: Table, pid: int, st: JobState)
    requires TableOk(t) && pid > 0 && !HasJob(t, pid) && st != UNDEF && ByPid(t.jobs, 0) < |t.jobs|
    ensures TableOk(Add(t, pid, st)) && forall p :: p != 0 ==> (HasJob(Add(t, pid, st), p) <==> HasJob(t, p) || p == pid)
  {
    var i, jobs := ByPid(t.jobs, 0), Add(t, pid, st).jobs;
    assert t.jobs[i].pid == 0;
    forall p | p != 0 ensures HasJob(Add(t, pid, st), p) <==> HasJob(t, p) || p == pid {
      if k :| 0 <= k < |t.jobs| && t.jobs[k].pid == p {
        assert jobs[k].pid == p;
      }
      assert jobs[i].pid == pid;
    }
  }

  lemma DeleteOk(t: Table, i: nat)
    requires TableOk(t) && i < |t.jobs| && t.jobs[i].pid > 0
    ensures TableOk(Delete(t, i)) && forall p :: p != 0 ==> (HasJob(Delete(t, i), p) <==> HasJob(t, p) && p != t.jobs[i].pid)
  {
    var jobs := Delete(t, i).jobs;
    forall p | p != 0 ensures HasJob(Delete(t, i), p) <==> HasJob(t, p) && p != t.jobs[i].pid {
      if p != t.jobs[i].pid {
        if k :| 0 <= k < |t.jobs| && t.jobs[k].pid == p {
          assert jobs[k].pid == p;
        }
      }
    }
  }

  lemma SetStateOk(t: Table, i: nat, st: JobState)
    requires TableOk(t) && i < |t.jobs| && st != UNDEF
    ensures TableOk(SetState(t, i, st)) && forall p :: HasJob(SetState(t, i, st), p) <==> HasJob(t, p)
  {
    var jobs := SetState(t, i, st).jobs;
    forall p ensures HasJob(SetState(t, i, st), p) <==> HasJob(t, p) {
      if k :| 0 <= k < |t.jobs| && t.jobs[k].pid == p {
        assert jobs[k].pid == p;
      }
    }
  }

  // ---------------------------------------------------------------- every step keeps the invariant

  lemma InitInv(s: State)
    requires Init(s)
    ensures Inv(s)
  {
  }

  lemma KernelInv(s: State, s': State, a: Action)
    requires Inv(s) && Step(s, s', a) && (a.ChildStops? || a.ChildContinues? || a.ChildDies?)
    ensures Inv(s') && s'.deleted == s.deleted
  {
    hide TableOk, HasJob;
  }

  /** Steps that only move the main program on, or the handler. */
  lemma OnlyMoves(s: State, s': State)
    requires Inv(s) && s' == s.(main := s'.main, mask := s'.mask, inHandler := s'.inHandler) && MainOk(s')
    requires forall p, u :: Pending(s.main, p, u) ==> Pending(s'.main, p, u)
    requires forall p :: Foreground(s.main, p) ==> Foreground(s'.main, p)
    ensures Inv(s')
  {
    hide TableOk, HasJob, MainOk;
    forall p | p in s'.owner ensures Alive(s', p) {
      assert Alive(s, p);
    }
  }

  lemma StartInv(s: State, s': State, a: Action)
    requires Inv(s) && Step(s, s', a)
    requires a.RunCommand? || a.FgBg? || a.BadArgument? || a.Quit? || a.HandlerStarts? || a.HandlerEnds?
    ensures Inv(s') && s'.deleted == s.deleted
  {
    assert MainOk(s);
    hide Inv;
    assert forall p, u :: Pending(s'.main, p, u) ==> Pending(s.main, p, u);
    assert forall p :: Foreground(s'.main, p) ==> Foreground(s.main, p);
    OnlyMoves(s, s');
  }

  lemma GoOnInv(s: State, s': State, a: Action)
    requires Inv(s) && Step(s, s', a) && (a.ForkFails? || a.RestoreMask? || a.BlockAgain? || a.SweepEnds?)
    ensures Inv(s') && s'.deleted == s.deleted
  {
    assert MainOk(s);
    hide Inv;
    assert forall p, u :: Pending(s'.main, p, u) ==> Pending(s.main, p, u);
    assert forall p :: Foreground(s'.main, p) ==> Foreground(s.main, p);
    OnlyMoves(s, s');
  }

  lemma WaitFailsInv(s: State, s': State)
    requires Inv(s) && Step(s, s', WaitFails)
    ensures Inv(s') && s'.deleted == s.deleted
  {
    forall i | 0 <= i < |s.table.jobs| && s.table.jobs[i].pid != 0 ensures s.table.jobs[i].state != FG {
      assert s.table.jobs[i].state == FG ==> HasJob(s.table, s.table.jobs[i].pid);
    }
    hide TableOk, HasJob;
  }

  lemma ForkInv(s: State, s': State, pid: int)
    requires Inv(s) && Step(s, s', Fork(pid))
    ensures Inv(s') && s'.deleted == s.deleted
  {
    hide TableOk, HasJob;
    assert pid !in s.owner;
  }

  /** addjob: the new job is the only one that can be in the foreground. */
  lemma Entered(s: State, s': State, pid: int, st: JobState)
    requires TableOk(s.table) && OwnersOk(s) && pid > 0 && pid !in s.owner && st != UNDEF && ByPid(s.table.jobs, 0) < |s.table.jobs|
    requires s'.table == Add(s.table, pid, st) && s'.owner.Keys == s.owner.Keys + {pid}
    requires forall j :: 0 <= j < |s.table.jobs| && s.table.jobs[j].state == FG ==> s.table.jobs[j].pid == 0
    requires st == FG ==> Foreground(s'.main, pid)
    ensures TableOk(s'.table) && OwnersOk(s') && FgOk(s')
  {
    AddOk(s.table, pid, st);
    hide TableOk, HasJob;
  }

  lemma EnterHistory(s: State, s': State, pid: int, uid: nat)
    requires HistoryOk(s) && pid in s.children && s.children[pid].uid == uid && uid !in s.added && pid !in s.owner
    requires s' == s.(main := s'.main, table := s'.table, added := s.added + {uid}, owner := s.owner[pid := uid])
    ensures HistoryOk(s')
  {
    forall u | u in s'.added && u !in s'.deleted ensures exists p :: p in s'.owner && s'.owner[p] == u {
      if u == uid {
        assert s'.owner[pid] == u;
      } else {
        var p :| p in s.owner && s.owner[p] == u;
        assert s'.owner[p] == u;
      }
    }
  }

  lemma EnterJobInv(s: State, s': State)
    requires Inv(s) && Step(s, s', EnterJob)
    ensures Inv(s') && s'.deleted == s.deleted
  {
    if ByPid(s.table.jobs, 0) < |s.table.jobs| {
      SlotFoundInv(s, s');
    } else {
      OnlyMoves(s, s');
    }
  }

  lemma SlotFoundInv(s: State, s': State)
    requires Inv(s) && Step(s, s', EnterJob) && ByPid(s.table.jobs, 0) < |s.table.jobs|
    ensures Inv(s') && s'.deleted == s.deleted
  {
    var pid, uid, st := s.main.pid, s.main.uid, if s.main.bg then BG else FG;
    assert s.main.Forked? && pid in s.children && s.children[pid].uid == uid && uid !in s.added && pid !in s.owner;
    hide TableOk, HasJob, Add, ByPid, FgOk, OwnersOk, HistoryOk;
    assert FgOk(s) && MainOk(s') && HistoryOk(s) && OwnersOk(s) && TableOk(s.table);
    assert pid > 0;
    NoneForeground(s);
    Entered(s, s', pid, st);
    EnterHistory(s, s', pid, uid);
    forall p | p in s'.owner ensures Alive(s', p) {
      assert p != pid ==> Alive(s, p);
    }
  }

  lemma NoneForeground(s: State)
    requires FgOk(s) && !exists p :: Foreground(s.main, p)
    ensures forall j :: 0 <= j < |s.table.jobs| && s.table.jobs[j].state == FG ==> s.table.jobs[j].pid == 0
  {
  }

  /** do_bgfg giving job i a new state: only it can have become the foreground job. */
  lemma Resumed(s: State, s': State, i: nat, st: JobState)
    requires TableOk(s.table) && OwnersOk(s) && i < |s.table.jobs| && st != UNDEF
    requires s'.table == SetState(s.table, i, st) && s'.owner == s.owner
    requires forall j :: 0 <= j < |s.table.jobs| && s.table.jobs[j].state == FG ==> s.table.jobs[j].pid == 0
    requires st == FG ==> Foreground(s'.main, s.table.jobs[i].pid)
    ensures TableOk(s'.table) && OwnersOk(s') && FgOk(s')
  {
    SetStateOk(s.table, i, st);
    hide TableOk, HasJob;
  }

  lemma LookUpInv(s: State, s': State)
    requires Inv(s) && Step(s, s', LookUp)
    ensures Inv(s') && s'.deleted == s.deleted
  {
    var i := if s.main.byJid then ByJid(s.table.jobs, s.main.id) else ByPid(s.table.jobs, s.main.id);
    if i < |s.table.jobs| {
      Resumed(s, s', i, if s.main.bg then BG else FG);
      hide TableOk, HasJob, SetState, ByPid, ByJid, FgOk, OwnersOk;
      forall p | p in s'.owner ensures Alive(s', p) {
        assert Alive(s, p);
      }
    } else {
      OnlyMoves(s, s');
    }
  }

  lemma WaitReturnsInv(s: State, s': State, pid: int)
    requires Inv(s) && Step(s, s', WaitReturns(pid))
    ensures Inv(s') && s'.deleted == s.deleted
  {
    hide TableOk, HasJob;
  }

  /** A deletion follows the entry and the end of the same child, and happens once. */
  ghost predicate DeletesRightly(s: State, s': State) {
    s'.deleted == s.deleted
    || exists u :: u in s.added && u !in s.deleted && u in s'.reaped && s'.deleted == s.deleted + {u}
  }

  lemma ReapTable(t: Table, pid: int, status: Status)
    requires TableOk(t)
    ensures var i := ByPid(t.jobs, pid); pid > 0 ==> (i < |t.jobs| <==> HasJob(t, pid))
    ensures pid > 0 ==> TableOk(Reap(t, pid, status))
    ensures pid > 0 ==> forall p :: p != 0 ==> (HasJob(Reap(t, pid, status), p) <==> HasJob(t, p) && (status.Exited? ==> p != pid))
  {
    var i := ByPid(t.jobs, pid);
    if i < |t.jobs| && pid > 0 {
      SetStateOk(t, i, ST);
      DeleteOk(t, i);
    }
  }

  /** reap_child leaves no FG job of that pid, and makes none. */
  lemma ReapFg(t: Table, pid: int, status: Status)
    requires TableOk(t) && pid > 0
    ensures |Reap(t, pid, status).jobs| == |t.jobs|
    ensures forall j :: 0 <= j < |t.jobs| && Reap(t, pid, status).jobs[j].state == FG
              ==> t.jobs[j].pid != pid && Reap(t, pid, status).jobs[j] == t.jobs[j]
  {
    var i := ByPid(t.jobs, pid);
    if i < |t.jobs| {
      ByPidFinds(t, i);
    }
  }

  /** reap_child on a report about child uid, whose end, if that is the report, has just been waited for. */
  lemma ReapedKeeps(t: State, pid: int, status: Status, uid: nat)
    requires TableOk(t.table) && OwnersOk(t) && HistoryOk(t) && pid > 0
    requires status.Exited? ==> uid in t.reaped && (pid in t.owner ==> t.owner[pid] == uid)
    ensures var r := Reaped(t, pid, status);
            && TableOk(r.table) && OwnersOk(r) && HistoryOk(r) && DeletesRightly(t, r)
            && r.owner == (if status.Exited? then t.owner - {pid} else t.owner)
            && r == t.(table := r.table, owner := r.owner, deleted := r.deleted)
  {
    ReapTable(t.table, pid, status);
    if status.Exited? && pid in t.owner {
      HistoryAfter(t, pid, uid);
    }
    ReapOwners(t, pid, status);
    hide TableOk, HasJob, ByPid, Reap, HistoryOk, OwnersOk;
  }

  lemma ReapOwners(t: State, pid: int, status: Status)
    requires TableOk(t.table) && OwnersOk(t) && pid > 0
    ensures OwnersOk(Reaped(t, pid, status))
    ensures Reaped(t, pid, status).owner == if status.Exited? then t.owner - {pid} else t.owner
    ensures pid in t.owner <==> ByPid(t.table.jobs, pid) < |t.table.jobs|
  {
    ReapTable(t.table, pid, status);
    hide TableOk, HasJob, ByPid, Reap;
  }

  /** The history after the job of pid, standing for uid, is deleted. */
  lemma HistoryAfter(t: State, pid: int, uid: nat)
    requires HistoryOk(t) && pid in t.owner && t.owner[pid] == uid && uid in t.reaped
    ensures forall t': Table :: var r := t.(table := t', deleted := t.deleted + {uid}, owner := t.owner - {pid});
              HistoryOk(r) && DeletesRightly(t, r)
  {
    var r := t.(deleted := t.deleted + {uid}, owner := t.owner - {pid});
    forall u | u in r.added && u !in r.deleted ensures exists p :: p in r.owner && r.owner[p] == u {
      var p :| p in t.owner && t.owner[p] == u;
      assert p in r.owner;
    }
    forall p | p in r.owner ensures r.owner[p] in r.added && r.owner[p] !in r.deleted {
      assert p in t.owner && p != pid;
    }
  }

  lemma FgAfterReap(s: State, s': State, pid: int, status: Status)
    requires TableOk(s.table) && FgOk(s) && pid > 0 && s'.table == Reap(s.table, pid, status)
    requires forall p :: Foreground(s.main, p) ==> Foreground(s'.main, p) || p == pid
    ensures FgOk(s')
  {
    ReapFg(s.table, pid, status);
    hide Reap, TableOk;
  }

  /** Moving on in the main program leaves the rest as it was. */
  lemma OnlyMain(r: State, s': State)
    requires s' == r.(main := s'.main) && HistoryOk(r) && OwnersOk(r)
    ensures HistoryOk(s') && OwnersOk(s')
  {
    hide HasJob;
  }

  lemma ReapOneStep(s: State, s': State)
    requires Step(s, s', ReapOne)
    ensures s.main.Reaping? && s' == Reaped(s, s.main.pid, s.main.status).(main := Sweeping(s.main.saved))
  {
    hide Reaped;
  }

  lemma ReapOneInv(s: State, s': State)
    requires Inv(s) && Step(s, s', ReapOne)
    ensures Inv(s') && DeletesRightly(s, s')
  {
    hide Step, Reaped;
    ReapOneStep(s, s');
    var pid, status, uid := s.main.pid, s.main.status, s.main.uid;
    var r := Reaped(s, pid, status);
    assert s' == r.(main := Sweeping(s.main.saved));
    assert Foreground(s.main, pid);
    if status.Exited? {
      assert Pending(s.main, pid, uid);
      assert pid in s.owner ==> Alive(s, pid);
    }
    hide TableOk, FgOk, HistoryOk, Reap, DeletesRightly, OwnersOk;
    ReapedKeeps(s, pid, status, uid);
    ReapedTable(s, pid, status);
    OnlyMain(r, s');
    FgAfterReap(s, s', pid, status);
    forall p | p in s'.owner ensures Alive(s', p) {
      assert p in s.owner && Alive(s, p);
    }
    SameDeletes(s, r, s');
  }

  lemma SameDeletes(s: State, r: State, s': State)
    requires DeletesRightly(s, r) && r.deleted == s'.deleted && r.reaped == s'.reaped
    ensures DeletesRightly(s, s')
  {
  }

  lemma ReapedTable(s: State, pid: int, status: Status)
    ensures Reaped(s, pid, status).table == Reap(s.table, pid, status)
  {
    hide Reap;
  }

  lemma SweepStep(s: State, s': State, pid: int, a: Action)
    requires Step(s, s', a) && (a == SweepOne(pid) || a == HandlerReaps(pid))
    ensures Reportable(s, pid) && s' == Reaped(Waited(s, pid), pid, StatusOf(s.children[pid]))
    ensures s.main.Sweeping? || s.inHandler
  {
    hide Reaped, Waited, StatusOf;
  }

  lemma AliveAfterReport(s: State, s': State, pid: int)
    requires Reportable(s, pid) && forall p :: p in s.owner ==> Alive(s, p)
    requires s'.main == s.main && s'.children == Waited(s, pid).children
    requires s'.owner == if StatusOf(s.children[pid]).Exited? then s.owner - {pid} else s.owner
    ensures forall p :: p in s'.owner ==> Alive(s', p)
  {
    forall p | p in s'.owner ensures Alive(s', p) {
      assert p in s.owner && Alive(s, p);
    }
  }

  /** One report taken by wait_childs, in the handler or in waitfg. */
  lemma SweepInv(s: State, s': State, pid: int, a: Action)
    requires Inv(s) && Step(s, s', a) && (a == SweepOne(pid) || a == HandlerReaps(pid))
    ensures Inv(s') && DeletesRightly(s, s')
  {
    SweepStep(s, s', pid, a);
    var status, uid, t := StatusOf(s.children[pid]), s.children[pid].uid, Waited(s, pid);
    assert pid in s.owner ==> Alive(s, pid);
    WaitedHistory(s, pid);
    hide Step, TableOk, FgOk, HistoryOk, Reap, DeletesRightly, OwnersOk, Reaped, MainOk;
    SameOwners(s, t);
    ReapedKeeps(t, pid, status, uid);
    ReapedTable(t, pid, status);
    AliveAfterReport(s, s', pid);
    hide Alive;
    FgAfterReap(s, s', pid, status);
    MainAfterReport(s, s', pid);
    ReportDeletes(s, t, s');
  }

  lemma SameOwners(s: State, t: State)
    requires OwnersOk(s) && t.owner == s.owner && t.table == s.table
    ensures OwnersOk(t)
  {
  }

  lemma ReportDeletes(s: State, t: State, s': State)
    requires DeletesRightly(t, s') && t.deleted == s.deleted && t.added == s.added
    ensures DeletesRightly(s, s')
  {
  }

  lemma MainAfterReport(s: State, s': State, pid: int)
    requires MainOk(s) && s'.main == s.main && s'.mask == s.mask && s'.inHandler == s.inHandler && s'.added == s.added
    requires s.main.Sweeping? || s.inHandler
    requires s.reaped <= s'.reaped && forall p :: p in s'.children ==> p in s.children
    ensures MainOk(s')
  {
  }

  lemma WaitedHistory(s: State, pid: int)
    requires HistoryOk(s) && Reportable(s, pid)
    ensures HistoryOk(Waited(s, pid)) && pid > 0
  {
  }

  lemma StepInv(s: State, s': State, a: Action)
    requires Inv(s) && Step(s, s', a)
    ensures Inv(s') && DeletesRightly(s, s')
  {
    hide Inv, MainStep, OtherStep;
    match a {
      case ChildStops(_) => KernelInv(s, s', a);
      case ChildContinues(_) => KernelInv(s, s', a);
      case ChildDies(_) => KernelInv(s, s', a);
      case Fork(pid) => ForkInv(s, s', pid);
      case EnterJob => EnterJobInv(s, s');
      case LookUp => LookUpInv(s, s');
      case WaitReturns(pid) => WaitReturnsInv(s, s', pid);
      case WaitFails => WaitFailsInv(s, s');
      case ReapOne => ReapOneInv(s, s');
      case SweepOne(pid) => SweepInv(s, s', pid, a);
      case HandlerReaps(pid) => SweepInv(s, s', pid, a);
      case ForkFails => GoOnInv(s, s', a);
      case RestoreMask => GoOnInv(s, s', a);
      case BlockAgain => GoOnInv(s, s', a);
      case SweepEnds => GoOnInv(s, s', a);
      case _ => StartInv(s, s', a);
    }
  }

  // ---------------------------------------------------------------- runs

  /** States and the actions between them. */
  ghost predicate Run(r: seq<State>, acts: seq<Action>) {
    |r| == |acts| + 1 && Init(r[0]) && forall i :: 0 <= i < |acts| ==> Step(r[i], r[i + 1], acts[i])
  }

  lemma {:induction false} RunInv(r: seq<State>, acts: seq<Action>, i: nat)
    requires Run(r, acts) && i < |r|
    ensures Inv(r[i])
    ensures i > 0 ==> DeletesRightly(r[i - 1], r[i])
  {
    hide Inv, Step, DeletesRightly;
    if i == 0 {
      InitInv(r[0]);
    } else {
      RunInv(r, acts, i - 1);
      StepInv(r[i - 1], r[i], acts[i - 1]);
    }
  }

  predicate FgAt(t: Table, i: int)
    requires 0 <= i < |t.jobs|
  {
    t.jobs[i].state == FG
  }

  ghost predicate NoFg(t: Table) {
    forall i :: 0 <= i < |t.jobs| ==> !FgAt(t, i)
  }

  /** Every child that was entered as a job and whose end was reported has had its job deleted, unless the main
      program is just about to do it; a deletion happens once, and only after the job was entered. */
  lemma DeletedExactlyOnce(r: seq<State>, acts: seq<Action>, k: nat)
    requires Run(r, acts) && k < |r|
    ensures forall u :: u in r[k].added && u in r[k].reaped ==> u in r[k].deleted || exists p :: Pending(r[k].main, p, u)
    ensures r[k].deleted <= r[k].added && r[k].deleted <= r[k].reaped
    ensures r[k].main == Prompt ==> r[k].deleted == r[k].added * r[k].reaped
    ensures k > 0 ==> DeletesRightly(r[k - 1], r[k])
  {
    RunInv(r, acts, k);
    var s := r[k];
    hide TableOk, FgOk, MainOk, DeletesRightly, Run;
    forall u | u in s.added && u in s.reaped && u !in s.deleted ensures exists p :: Pending(s.main, p, u) {
      var p :| p in s.owner && s.owner[p] == u;
      assert Alive(s, p);
    }
  }

  // ---------------------------------------------------------------- the foreground

  /** do_bgfg on behalf of fg 0 finds a slot that stands for no job. */
  predicate MarksFree(s: State, a: Action) {
    a.LookUp? && s.main.LookingUp? && !s.main.bg && !s.main.byJid && s.main.id == 0 && ByPid(s.table.jobs, 0) < |s.table.jobs|
  }

  ghost predicate AtMostOneFg(t: Table) {
    forall i, j :: 0 <= i < j < |t.jobs| ==> !(FgAt(t, i) && FgAt(t, j))
  }

  /** The foreground is as it should be: one job at most, and none at the prompt. */
  ghost predicate FgSane(s: State) {
    AtMostOneFg(s.table) && (s.main == Prompt ==> NoFg(s.table))
  }

  ghost predicate Unmarked(t: Table) {
    forall i :: 0 <= i < |t.jobs| && FgAt(t, i) ==> t.jobs[i].pid != 0
  }

  /** Exactly one slot is in the foreground, and it stands for no job. */
  ghost predicate OneMark(t: Table) {
    exists i :: 0 <= i < |t.jobs| && FgAt(t, i) && t.jobs[i].pid == 0 && forall j :: 0 <= j < |t.jobs| && FgAt(t, j) ==> j == i
  }

  /** Between the look-up of fg 0 that found a free slot and the next prompt. */
  ghost predicate Marked(s: State) {
    (s.main == Waiting(0) || (s.main.Resuming? && !s.main.bg && s.main.pid == 0)) && OneMark(s.table)
  }

  lemma OnlyForeground(m: Main, p: int, q: int)
    requires Foreground(m, p) && Foreground(m, q)
    ensures p == q
  {
  }

  lemma UnmarkedSane(s: State)
    requires Inv(s) && Unmarked(s.table)
    ensures FgSane(s)
  {
    hide JobsOk, HistoryOk, MainOk;
    forall i, j | 0 <= i < j < |s.table.jobs| ensures !(FgAt(s.table, i) && FgAt(s.table, j)) {
      if FgAt(s.table, i) && FgAt(s.table, j) {
        OnlyForeground(s.main, s.table.jobs[i].pid, s.table.jobs[j].pid);
      }
    }
  }

  /** The table changes only where a job is entered, looked up or reported on. */
  lemma TableSteps(s: State, s': State, a: Action)
    requires Step(s, s', a) && !a.EnterJob? && !a.LookUp? && !a.ReapOne? && !a.SweepOne? && !a.HandlerReaps?
    ensures s'.table == s.table
  {
  }

  /** reap_child leaves the slots without a pid alone. */
  lemma ReapSlots(t: Table, pid: int, status: Status)
    requires TableOk(t) && pid > 0
    ensures Unmarked(t) ==> Unmarked(Reap(t, pid, status))
    ensures OneMark(t) ==> OneMark(Reap(t, pid, status))
  {
    ReapFg(t, pid, status);
    var t' := Reap(t, pid, status);
    if OneMark(t) {
      var i :| 0 <= i < |t.jobs| && FgAt(t, i) && t.jobs[i].pid == 0 && forall j :: 0 <= j < |t.jobs| && FgAt(t, j) ==> j == i;
      assert t'.jobs[i] == t.jobs[i] && FgAt(t', i);
      forall j | 0 <= j < |t'.jobs| && FgAt(t', j) ensures j == i {
        assert FgAt(t, j);
      }
    }
    if Unmarked(t) {
      forall j | 0 <= j < |t'.jobs| && FgAt(t', j) ensures t'.jobs[j].pid != 0 {
        assert FgAt(t, j);
      }
    }
  }

  lemma ReportSlots(s: State, s': State, a: Action)
    requires Inv(s) && Step(s, s', a) && (a.ReapOne? || a.SweepOne? || a.HandlerReaps?)
    ensures Unmarked(s.table) ==> Unmarked(s'.table)
    ensures OneMark(s.table) ==> OneMark(s'.table)
    ensures a.HandlerReaps? ==> s'.main == s.main
  {
    assert MainOk(s) && HistoryOk(s) && TableOk(s.table);
    if a.ReapOne? {
      assert Foreground(s.main, s.main.pid);
      ReapedTable(s, s.main.pid, s.main.status);
      ReapSlots(s.table, s.main.pid, s.main.status);
    } else {
      SweepStep(s, s', a.pid, a);
      WaitedHistory(s, a.pid);
      var t, status := Waited(s, a.pid), StatusOf(s.children[a.pid]);
      ReapedTable(t, a.pid, status);
      ReapSlots(s.table, a.pid, status);
    }
  }

  lemma AddUnmarked(t: Table, pid: int, st: JobState)
    requires Unmarked(t) && pid > 0 && ByPid(t.jobs, 0) < |t.jobs|
    ensures Unmarked(Add(t, pid, st))
  {
    var jobs, i := Add(t, pid, st).jobs, ByPid(t.jobs, 0);
    forall j | 0 <= j < |jobs| && FgAt(Add(t, pid, st), j) ensures jobs[j].pid != 0 {
      if j != i { assert FgAt(t, j); }
    }
  }

  lemma SetUnmarked(t: Table, i: nat, st: JobState)
    requires Unmarked(t) && i < |t.jobs| && (st == FG ==> t.jobs[i].pid != 0)
    ensures Unmarked(SetState(t, i, st))
  {
    var jobs := SetState(t, i, st).jobs;
    forall j | 0 <= j < |jobs| && FgAt(SetState(t, i, st), j) ensures jobs[j].pid != 0 {
      if j != i { assert FgAt(t, j); }
    }
  }

  lemma UnmarkedStep(s: State, s': State, a: Action)
    requires Inv(s) && Step(s, s', a) && Unmarked(s.table) && !MarksFree(s, a)
    ensures Unmarked(s'.table)
  {
    assert MainOk(s) && TableOk(s.table);
    hide Inv;
    match a {
      case EnterJob =>
        assert s.main.Forked? && s.main.pid > 0;
        if ByPid(s.table.jobs, 0) < |s.table.jobs| {
          AddUnmarked(s.table, s.main.pid, if s.main.bg then BG else FG);
        }
      case LookUp =>
        var i := if s.main.byJid then ByJid(s.table.jobs, s.main.id) else ByPid(s.table.jobs, s.main.id);
        if i < |s.table.jobs| {
          SetUnmarked(s.table, i, if s.main.bg then BG else FG);
        }
      case ReapOne => ReportSlots(s, s', a);
      case SweepOne(_) => ReportSlots(s, s', a);
      case HandlerReaps(_) => ReportSlots(s, s', a);
      case _ => TableSteps(s, s', a);
    }
  }

  lemma MarkStep(s: State, s': State, a: Action)
    requires Inv(s) && Step(s, s', a) && Unmarked(s.table) && MarksFree(s, a)
    ensures Marked(s')
  {
    var i := ByPid(s.table.jobs, 0);
    assert FgOk(s);
    assert forall j :: 0 <= j < |s.table.jobs| ==> !FgAt(s.table, j);
    assert FgAt(s'.table, i) && s'.table.jobs[i].pid == 0;
    assert forall j :: 0 <= j < |s'.table.jobs| && j != i ==> FgAt(s'.table, j) == FgAt(s.table, j);
  }

  lemma MarkedStep(s: State, s': State, a: Action)
    requires Inv(s) && Step(s, s', a) && Marked(s)
    ensures OneMark(s'.table) && (s'.main != Prompt ==> Marked(s'))
  {
    hide Inv;
    if a.HandlerReaps? {
      ReportSlots(s, s', a);
    } else {
      MarkedMain(s, s', a);
    }
  }

  lemma MarkedMain(s: State, s': State, a: Action)
    requires Inv(s) && Step(s, s', a) && Marked(s) && !a.HandlerReaps?
    ensures s'.table == s.table
    ensures s'.main == s.main || s'.main == Waiting(0) || s'.main == Prompt
  {
    assert HistoryOk(s);
    hide Inv, OneMark, HasJob, ByPid, ByJid, Add, SetState, Reaped;
  }

  lemma {:induction false} UnmarkedRun(r: seq<State>, acts: seq<Action>, k: nat)
    requires Run(r, acts) && k < |r| && forall j :: 0 <= j < k ==> !MarksFree(r[j], acts[j])
    ensures Unmarked(r[k].table)
  {
    hide Inv, Step, MarksFree;
    if k > 0 {
      RunInv(r, acts, k - 1);
      UnmarkedRun(r, acts, k - 1);
      UnmarkedStep(r[k - 1], r[k], acts[k - 1]);
    }
  }

  /** After the first fg 0 that found a free slot, that slot stays in the foreground until the prompt is back. */
  lemma {:induction false} MarkedRun(r: seq<State>, acts: seq<Action>, k: nat, m: nat)
    requires Run(r, acts) && k < m < |r| && MarksFree(r[k], acts[k])
    requires forall j :: 0 <= j < k ==> !MarksFree(r[j], acts[j])
    requires forall j :: k < j < m ==> r[j].main != Prompt
    ensures OneMark(r[m].table) && (r[m].main != Prompt ==> Marked(r[m]))
  {
    hide Inv, Step, MarksFree, Marked, OneMark, Unmarked;
    RunInv(r, acts, m - 1);
    if m == k + 1 {
      UnmarkedRun(r, acts, k);
      MarkStep(r[k], r[m], acts[k]);
      MarkedIsOne(r[m]);
    } else {
      MarkedRun(r, acts, k, m - 1);
      MarkedStep(r[m - 1], r[m], acts[m - 1]);
    }
  }

  lemma MarkedIsOne(s: State)
    ensures Marked(s) ==> OneMark(s.table)
    ensures OneMark(s.table) ==> AtMostOneFg(s.table) && !NoFg(s.table)
  {
  }

  /** Some fg 0 finds a free slot, and the prompt comes back afterwards. */
  ghost predicate ZeroReturns(r: seq<State>, acts: seq<Action>)
    requires |r| == |acts| + 1
  {
    exists k, m :: 0 <= k < m < |r| && MarksFree(r[k], acts[k]) && r[m].main == Prompt
  }

  lemma FirstMark(r: seq<State>, acts: seq<Action>, n: nat) returns (k: nat)
    requires |r| == |acts| + 1 && n <= |acts|
    ensures k <= n && forall j :: 0 <= j < k ==> !MarksFree(r[j], acts[j])
    ensures k < n ==> MarksFree(r[k], acts[k])
  {
    k := 0;
    while k < n && !MarksFree(r[k], acts[k])
      invariant k <= n && forall j :: 0 <= j < k ==> !MarksFree(r[j], acts[j])
    {
      k := k + 1;
    }
  }

  lemma FirstPrompt(r: seq<State>, k: nat, m: nat) returns (p: nat)
    requires k < m < |r|
    ensures k < p <= m && (forall j :: k < j < p ==> r[j].main != Prompt) && (p < m ==> r[p].main == Prompt)
  {
    p := k + 1;
    while p < m && r[p].main != Prompt
      invariant k < p <= m && forall j :: k < j < p ==> r[j].main != Prompt
    {
      p := p + 1;
    }
  }

  lemma SaneAt(r: seq<State>, acts: seq<Action>, n: nat)
    requires Run(r, acts) && n < |r| && !ZeroReturns(r, acts)
    ensures FgSane(r[n])
  {
    hide Inv, Step, MarksFree, Unmarked, FgSane, OneMark, Marked;
    RunInv(r, acts, n);
    var k := FirstMark(r, acts, n);
    if k == n {
      UnmarkedRun(r, acts, n);
      UnmarkedSane(r[n]);
    } else {
      MarkedRun(r, acts, k, n);
      MarkedIsOne(r[n]);
      assert FgSane(r[n]) by { OneIsSane(r[n]); }
    }
  }

  lemma OneIsSane(s: State)
    requires AtMostOneFg(s.table) && s.main != Prompt
    ensures FgSane(s)
  {
  }

  lemma InsaneAt(r: seq<State>, acts: seq<Action>) returns (n: nat)
    requires Run(r, acts) && ZeroReturns(r, acts)
    ensures n < |r| && r[n].main == Prompt && !NoFg(r[n].table)
  {
    hide Inv, Step, MarksFree, OneMark, Marked, NoFg;
    var k0, m: nat :| 0 <= k0 < m < |r| && MarksFree(r[k0], acts[k0]) && r[m].main == Prompt;
    var k := FirstMark(r, acts, m);
    assert k <= k0;
    n := FirstPrompt(r, k, m);
    MarkedRun(r, acts, k, n);
    MarkedIsOne(r[n]);
  }

  /** At most one job is ever in the foreground, and none at the prompt, exactly if no fg 0 that finds a free slot is
      followed by a prompt. */
  lemma ForegroundExactly(r: seq<State>, acts: seq<Action>)
    requires Run(r, acts)
    ensures (forall n :: 0 <= n < |r| ==> FgSane(r[n])) <==> !ZeroReturns(r, acts)
  {
    hide ZeroReturns, FgSane, Step, Init;
    if ZeroReturns(r, acts) {
      var n := InsaneAt(r, acts);
      InsaneIs(r[n]);
    } else {
      forall n | 0 <= n < |r| ensures FgSane(r[n]) {
        SaneAt(r, acts, n);
      }
    }
  }

  lemma InsaneIs(s: State)
    requires s.main == Prompt && !NoFg(s.table)
    ensures !FgSane(s)
  {
  }

  /** fg 0 takes a free slot for a job: the shell is back at its prompt with a slot in the foreground. */
  lemma ZeroBreaksIt() returns (r: seq<State>, acts: seq<Action>)
    ensures Run(r, acts) && |acts| == 4 && MarksFree(r[1], acts[1])
    ensures r[|r| - 1].main == Prompt && !NoFg(r[|r| - 1].table)
  {
    var jobs := seq(MAXJOBS, _ => FREE);
    var s0 := State(Prompt, false, false, Table(jobs, 1), map[], 0, map[], {}, {}, {});
    var s1 := s0.(main := LookingUp(false, false, false, 0), mask := true);
    var fg := SetState(s0.table, 0, FG);
    var s2 := s1.(main := Resuming(false, false, 0), table := fg);
    var s3 := s2.(main := Waiting(0), mask := false);
    var s4 := s3.(main := Prompt);
    r, acts := [s0, s1, s2, s3, s4], [FgBg(false, false, 0), LookUp, RestoreMask, WaitFails];
    assert jobs[0].pid == 0;
    assert ByPid(jobs, 0) == 0;
    assert FgAt(s4.table, 0);
    assert Step(s0, s1, acts[0]) && Step(s1, s2, acts[1]) && Step(s2, s3, acts[2]) && Step(s3, s4, acts[3]);
  }

  // ---------------------------------------------------------------- a stop taken by the handler

  /** Child pid has stopped, and somebody has taken the report. */
  predicate StopReported(s: State, pid: int) {
    pid in s.children && s.children[pid].life == Halted(true)
  }

  /** waitfg waits for a child whose stop somebody else has taken. */
  predicate Stranded(s: State, pid: int) {
    s.main == Waiting(pid) && StopReported(s, pid)
  }

  /** Then the main program is stuck, and stays so until that child goes on or dies. */
  lemma StrandedStays(s: State, pid: int)
    requires Inv(s) && Stranded(s, pid)
    ensures forall s', a :: !MainStep(s, s', a)
    ensures forall s', a :: Step(s, s', a) && a != ChildContinues(pid) && a != ChildDies(pid) ==> Stranded(s', pid)
  {
    forall s', a ensures !MainStep(s, s', a) {
    }
    forall s', a | Step(s, s', a) && a != ChildContinues(pid) && a != ChildDies(pid) ensures Stranded(s', pid) {
    }
  }

  /** The handler takes the report that child pid has stopped. */
  predicate TakesStop(s: State, a: Action, pid: int) {
    a == HandlerReaps(pid) && pid in s.children && s.children[pid].life == Halted(false)
  }

  /** Child pid goes on, by a signal from outside or because fg or bg resumes it, or dies. */
  predicate Wakes(s: State, a: Action, pid: int) {
    || a == ChildContinues(pid) || a == ChildDies(pid)
    || (a.LookUp? && s.main.LookingUp? &&
        var i := if s.main.byJid then ByJid(s.table.jobs, s.main.id) else ByPid(s.table.jobs, s.main.id);
        i < |s.table.jobs| && s.table.jobs[i].pid == pid)
  }

  /** A child about to be waited for has no stop that was reported already. */
  predicate Awaited(s: State) {
    (s.main.Forked? || s.main.Added? || s.main.Resuming?) && !s.main.bg ==> !StopReported(s, s.main.pid)
  }

  lemma AwaitedStep(s: State, s': State, a: Action)
    requires MainOk(s) && Awaited(s) && Step(s, s', a)
    ensures Awaited(s')
  {
    hide ByPid, ByJid, Add, SetState, Reap;
  }

  /** What makes a state stranded: it was so already, or the handler takes the stop in the middle of the wait. */
  lemma StrandedBefore(s: State, s': State, a: Action, pid: int)
    requires MainOk(s) && Awaited(s) && Step(s, s', a) && Stranded(s', pid)
    ensures s.main == Waiting(pid) && !Wakes(s, a, pid) && (Stranded(s, pid) || TakesStop(s, a, pid))
  {
    hide ByPid, ByJid, Add, SetState, Reap;
  }

  lemma HaltedStays(s: State, s': State, a: Action, pid: int)
    requires StopReported(s, pid) && Step(s, s', a) && !Wakes(s, a, pid)
    ensures StopReported(s', pid)
  {
    hide ByPid, ByJid, Add, SetState, Reap;
  }

  lemma {:induction false} AwaitedRun(r: seq<State>, acts: seq<Action>, n: nat)
    requires Run(r, acts) && n < |r|
    ensures Awaited(r[n]) && MainOk(r[n])
  {
    RunInv(r, acts, n);
    hide Step, MainOk, Awaited, TableOk, FgOk, JobsOk, HistoryOk;
    if n > 0 {
      AwaitedRun(r, acts, n - 1);
      AwaitedStep(r[n - 1], r[n], acts[n - 1]);
    } else {
      InitAwaited(r[0]);
    }
  }

  lemma InitAwaited(s: State)
    requires Init(s)
    ensures Awaited(s)
  {
  }

  /** The handler took the stop of child pid at step j, and nothing has woken the child by state n. */
  ghost predicate StopLost(r: seq<State>, acts: seq<Action>, j: int, n: int, pid: int)
    requires |r| == |acts| + 1
  {
    0 <= j < n < |r| && TakesStop(r[j], acts[j], pid) && forall k :: j < k < n ==> !Wakes(r[k], acts[k], pid)
  }

  ghost predicate WaitsThrough(r: seq<State>, j: int, n: int, pid: int) {
    0 <= j <= n < |r| && forall k :: j <= k <= n ==> r[k].main == Waiting(pid)
  }

  lemma {:induction false} StopWasTaken(r: seq<State>, acts: seq<Action>, n: nat, pid: int) returns (j: nat)
    requires Run(r, acts) && n < |r| && Stranded(r[n], pid)
    ensures StopLost(r, acts, j, n, pid) && WaitsThrough(r, j, n, pid)
  {
    hide Step, MainOk, Awaited, TakesStop, Wakes;
    InitNotStranded(r[0], pid);
    AwaitedRun(r, acts, n - 1);
    StrandedBefore(r[n - 1], r[n], acts[n - 1], pid);
    if TakesStop(r[n - 1], acts[n - 1], pid) {
      j := n - 1;
    } else {
      j := StopWasTaken(r, acts, n - 1, pid);
    }
  }

  lemma InitNotStranded(s: State, pid: int)
    requires Init(s)
    ensures !Stranded(s, pid)
  {
  }

  lemma {:induction false} LostStays(r: seq<State>, acts: seq<Action>, j: int, n: int, pid: int)
    requires Run(r, acts) && StopLost(r, acts, j, n, pid)
    ensures StopReported(r[n], pid)
  {
    hide Step, Init, TakesStop, Wakes, StopReported;
    if n == j + 1 {
      TakenIsReported(r[j], r[n], acts[j], pid);
    } else {
      LostStays(r, acts, j, n - 1, pid);
      HaltedStays(r[n - 1], r[n], acts[n - 1], pid);
    }
  }

  lemma TakenIsReported(s: State, s': State, a: Action, pid: int)
    requires Step(s, s', a) && TakesStop(s, a, pid)
    ensures StopReported(s', pid)
  {
    hide Reap;
  }

  /** waitfg is stuck exactly when the handler has taken the stop of the child it waits for and nothing has woken the
      child since; and the handler did so during that very wait. */
  lemma StrandedExactly(r: seq<State>, acts: seq<Action>, n: nat, pid: int)
    requires Run(r, acts) && n < |r|
    ensures Stranded(r[n], pid) <==> r[n].main == Waiting(pid) && exists j :: StopLost(r, acts, j, n, pid)
    ensures Stranded(r[n], pid) ==> exists j :: StopLost(r, acts, j, n, pid) && WaitsThrough(r, j, n, pid)
  {
    hide StopLost, WaitsThrough, Step, Init;
    if Stranded(r[n], pid) {
      var j := StopWasTaken(r, acts, n, pid);
    }
    if j :| StopLost(r, acts, j, n, pid) {
      LostStays(r, acts, j, n, pid);
    }
  }

  lemma RunExtends(r: seq<State>, acts: seq<Action>, s: State, a: Action)
    requires Run(r, acts) && Step(r[|r| - 1], s, a)
    ensures Run(r + [s], acts + [a])
  {
    hide Step, Init;
    var longer, more := r + [s], acts + [a];
    forall i | 0 <= i < |more| ensures Step(longer[i], longer[i + 1], more[i]) {
      assert i < |acts| ==> longer[i] == r[i] && longer[i + 1] == r[i + 1] && more[i] == acts[i];
    }
  }

  /** Job 1 with pid 7 in the first slot. */
  function OneJob(st: JobState): Table {
    Table([Job(7, 1, st)] + seq(15, _ => FREE), 2)
  }

  lemma OneJobFacts(st: JobState)
    ensures var jobs := seq(MAXJOBS, _ => FREE); ByPid(jobs, 0) == 0 && Add(Table(jobs, 1), 7, st) == OneJob(st)
    ensures ByPid(OneJob(st).jobs, 7) == 0 && Reap(OneJob(st), 7, Stopped) == OneJob(ST)
  {
    var jobs := seq(MAXJOBS, _ => FREE);
    assert jobs[0].pid == 0 && OneJob(st).jobs[0].pid == 7;
  }

  /** That job entered for the only child so far. */
  function WithJob(main: Main, mask: bool, inHandler: bool, st: JobState, life: Life): State {
    State(main, mask, inHandler, OneJob(st), map[7 := Child(0, life)], 1, map[7 := 0], {0}, {}, {})
  }

  /** A child that stops as soon as its job has been entered. */
  lemma StopsEarly() returns (r: seq<State>, acts: seq<Action>)
    ensures Run(r, acts) && r[|r| - 1] == WithJob(Added(false, false, 7), true, false, FG, Halted(false))
  {
    OneJobFacts(FG);
    var s0 := State(Prompt, false, false, Table(seq(MAXJOBS, _ => FREE), 1), map[], 0, map[], {}, {}, {});
    var s1 := s0.(main := Forking(false, false), mask := true);
    var s2 := s1.(main := Forked(false, false, 7, 0), nextUid := 1, children := map[7 := Child(0, Running)]);
    var s3 := s2.(main := Added(false, false, 7), added := {0}, table := OneJob(FG), owner := map[7 := 0]);
    var s4 := s3.(children := map[7 := Child(0, Halted(false))]);
    hide Add, ByPid, Reap, OneJob;
    r, acts := [s0, s1, s2, s3, s4], [RunCommand(false), Fork(7), EnterJob, ChildStops(7)];
    assert Step(s0, s1, acts[0]) && Step(s1, s2, acts[1]) && Step(s2, s3, acts[2]) && Step(s3, s4, acts[3]);
  }

  lemma HandlerTakes(s: State, s': State)
    requires s == WithJob(Waiting(7), false, true, FG, Halted(false)) && s' == WithJob(Waiting(7), false, true, ST, Halted(true))
    ensures Step(s, s', HandlerReaps(7))
  {
    OneJobFacts(FG);
    hide OneJob, ByPid, Reap;
    assert Waited(s, 7) == s.(children := s'.children);
    assert s' == Reaped(Waited(s, 7), 7, Stopped);
    hide Reaped, Waited;
  }

  lemma WaitStarts(s: State, s': State, s'': State)
    requires s == WithJob(Added(false, false, 7), true, false, FG, Halted(false))
    requires s' == WithJob(Waiting(7), false, false, FG, Halted(false)) && s'' == WithJob(Waiting(7), false, true, FG, Halted(false))
    ensures Step(s, s', RestoreMask) && Step(s', s'', HandlerStarts)
  {
    hide OneJob;
  }

  lemma HandlerStops(s: State, s': State)
    requires s.inHandler && s' == s.(inHandler := false)
    ensures Step(s, s', HandlerEnds)
  {
  }

  /** The handler gets the stop of the foreground job before waitfg does. */
  lemma StopIsStolen() returns (r: seq<State>, acts: seq<Action>)
    ensures Run(r, acts) && Stranded(r[|r| - 1], 7) && !r[|r| - 1].inHandler && !r[|r| - 1].mask
    ensures r[|r| - 1].table.jobs == [Job(7, 1, ST)] + seq(15, _ => FREE)
  {
    r, acts := StopsEarly();
    var s5 := WithJob(Waiting(7), false, false, FG, Halted(false));
    var s6 := s5.(inHandler := true);
    var s7 := WithJob(Waiting(7), false, true, ST, Halted(true));
    var s8 := s7.(inHandler := false);
    WaitStarts(r[|r| - 1], s5, s6);
    HandlerTakes(s6, s7);
    HandlerStops(s7, s8);
    hide Run, Step;
    RunExtends(r, acts, s5, RestoreMask);
    RunExtends(r + [s5], acts + [RestoreMask], s6, HandlerStarts);
    r, acts := r + [s5] + [s6], acts + [RestoreMask] + [HandlerStarts];
    RunExtends(r, acts, s7, HandlerReaps(7));
    RunExtends(r + [s7], acts + [HandlerReaps(7)], s8, HandlerEnds);
    r, acts := r + [s7] + [s8], acts + [HandlerReaps(7)] + [HandlerEnds];
  }
}
