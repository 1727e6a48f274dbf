/** PIDs over whole runs: they are never handed out twice, and tasks that share one share their address space. */
module KernelPids {
  import opened Tasks
  import opened TaskInvariant
  import opened EntryLaws
  import opened KernelSteps
  import opened KernelSafety
  import opened NewTasks
  import opened KernelRuns
  import Heap
  import Runs

  /** Two live tasks with the same PID run in the same table, and live PIDs are positive. */
  ghost predicate PidsOk(k: Kern)
    requires KernOk(k)
  {
    && (forall t :: t in Live(k.s) ==> k.s.tasks[t].pid > 0)
    && (forall t, u :: t in Live(k.s) && u in Live(k.s) && k.s.tasks[t].pid == k.s.tasks[u].pid ==> k.m.dir[t] == k.m.dir[u])
  }

  ghost predicate PidInv(k: Kern) {
    GeneralInv(k) && PidsOk(k)
  }

  /** If no live task changes its PID or its table, nothing changes. */
  lemma PidsKept(k: Kern, k': Kern)
    requires KernOk(k) && KernOk(k') && PidsOk(k) && Live(k'.s) <= Live(k.s)
    requires forall t :: t in Live(k'.s) ==> k'.s.tasks[t].pid == k.s.tasks[t].pid && k'.m.dir[t] == k.m.dir[t]
    ensures PidsOk(k')
  {
  }

  /** Semaphore calls change nobody's PID. */
  lemma SemaphorePids(s: Sys, e: Event, t: int)
    requires Inv(s) && Enabled(s, e) && (e.SemCreate? || e.SemWait? || e.SemSignal? || e.SemDestroy?) && 0 <= t < 10
    ensures Shape(Step(s, e)) && Step(s, e).tasks[t].pid == s.tasks[t].pid
  {
    if e.SemCreate? {
      CreateLaw(s, e.value);
      assert (forall i :: 0 <= i < 10 ==> s.sems[i].semid != -1) || exists i :: 0 <= i < 10 && s.sems[i].semid == -1;
    } else if !Owner(s, e.id) {
      StrangerLaw(s, e.id);
    } else if e.SemWait? {
      WaitLaw(s, e.id);
    } else if e.SemSignal? {
      SignalLaw(s, e.id);
    } else {
      DestroyLaw(s, e.id);
      assert t in s.queues[2 + e.id] ==> NowIn(s, Step(s, e), t, Ready);
    }
  }

  lemma CpuPids(s: Sys, e: Event, t: int)
    requires Inv(s) && Enabled(s, e) && (e.Tick? || e.Yield?) && 0 <= t < 10
    ensures Shape(Step(s, e)) && Step(s, e).tasks[t].pid == s.tasks[t].pid
  {
    if e.Tick? {
      TickLaw(s);
    } else {
      YieldLaw(s);
    }
  }

  lemma PlainPids(k: Kern, k': Kern, e: Event)
    requires PidInv(k) && k' in Next(k, Plain(e))
    ensures KernOk(k') && PidsOk(k')
  {
    FreeKept(k.s, e);
    assert Live(k'.s) == Live(k.s);
    forall t | t in Live(k.s)
      ensures k'.s.tasks[t].pid == k.s.tasks[t].pid
    {
      if e.Tick? || e.Yield? {
        CpuPids(k.s, e, t);
      } else {
        SemaphorePids(k.s, e, t);
      }
    }
    PidsKept(k, k');
  }

  lemma ForkPids(k: Kern, k': Kern)
    requires PidInv(k) && k' in Next(k, ForkCall)
    ensures KernOk(k') && PidsOk(k')
  {
    StepKeeps(k, k', ForkCall);
    ForkLaw(k.s, Frames(k));
    if k.s.queues[0] != [] {
      LiveFork(k.s, Frames(k));
      if Frames(k) {
        ForkClones(k, k');
        OneMore(k, k', k.s.queues[0][0]);
      } else {
        FailedForkExact(k, k');
        PidsKept(k, k');
      }
    }
  }

  /** A new process with a new PID. */
  lemma OneMore(k: Kern, k': Kern, c: nat)
    requires KernOk(k) && KernOk(k') && PidsOk(k) && Names(k.s) && c < 10 && k.s.queues[0] != []
    requires Live(k'.s) == Live(k.s) + {c as int} && c !in Live(k.s) && NewProcess(k, k', c, k.s.lastPid + 1)
    ensures PidsOk(k')
  {
  }

  /** A new task with the PID and the table of a live one. */
  lemma OneJoins(k: Kern, k': Kern, c: nat)
    requires KernOk(k) && KernOk(k') && PidsOk(k) && c < 10 && k.s.current in Live(k.s)
    requires Live(k'.s) == Live(k.s) || Live(k'.s) == Live(k.s) + {c as int}
    requires forall t :: 0 <= t < 10 && t != c ==> k'.s.tasks[t] == k.s.tasks[t] && k'.m.dir[t] == k.m.dir[t]
    requires c !in Live(k.s) && k'.s.tasks[c].pid == k.s.tasks[k.s.current].pid && k'.m.dir[c] == k.m.dir[k.s.current]
    ensures PidsOk(k')
  {
  }

  lemma ThreadPids(k: Kern, k': Kern, call: Call)
    requires PidInv(k) && call.ThreadCreateCall? && k' in Next(k, call)
    ensures KernOk(k') && PidsOk(k')
  {
    var page, frame := HeapPage(k.m, k.s.current), FrameLeft(k.m);
    GuardIsFalse(k);
    CurrentLive(k.s);
    ThreadLaw(k.s, call.accessOk, page, frame);
    if call.accessOk && k.s.queues[0] != [] {
      LiveThread(k.s, page, frame);
      OneJoins(k, k', k.s.queues[0][0]);
    }
  }

  lemma OthersPids(s: Sys, e: Event, t: int)
    requires Inv(s) && s.current != s.idle && (e.Exit? || e.ThreadExit?) && 0 <= t < 10 && t != s.current
    ensures Shape(Step(s, e)) && Step(s, e).tasks[t].pid == s.tasks[t].pid
  {
    ExitLaw(s, e);
  }

  lemma ExitPids(k: Kern, k': Kern, call: Call)
    requires PidInv(k) && (call.ExitCall? || call.ThreadExitCall?) && k' in Next(k, call)
    ensures KernOk(k') && PidsOk(k')
  {
    var e := if call.ExitCall? then Exit else ThreadExit;
    LiveExit(k.s, call.ExitCall?);
    forall t | t in Live(k'.s)
      ensures k'.s.tasks[t].pid == k.s.tasks[t].pid
    {
      OthersPids(k.s, e, t);
    }
    PidsKept(k, k');
  }

  lemma PidStepKeeps(k: Kern, k': Kern, call: Call)
    requires PidInv(k) && k' in Next(k, call)
    ensures PidInv(k')
  {
    StepKeeps(k, k', call);
    match call
    case Plain(e) => PlainPids(k, k', e);
    case ForkCall => ForkPids(k, k');
    case ThreadCreateCall(_, _, _) => ThreadPids(k, k', call);
    case SbrkCall(size) =>
      CallerFit(k);
      var r :| Heap.SbrkEffect(k.m, k'.m, k.s.current, size, r);
      Heap.SbrkKeeps(k.m, k'.m, k.s.current, size, r);
      PidsKept(k, k');
    case _ => ExitPids(k, k', call);
  }

  lemma OneTask(k: Kern)
    requires KernOk(k) && Live(k.s) == {1} && k.s.tasks[1].pid == 1
    ensures PidsOk(k)
  {
  }

  lemma BootPids(k: Kern)
    requires Booted(k)
    ensures PidInv(k)
  {
    BootGeneral(k);
    BootFree();
    BootLaw();
    OneTask(k);
  }

  /**
    In every state of every run from boot a live task has a PID between 1 and the last one given, and two
    live tasks in different tables have different PIDs.
   */
  lemma RunPids(ks: seq<Kern>, calls: seq<Call>, n: nat, t: int, u: int)
    requires KernelRun(ks, calls) && Booted(ks[0]) && n < |ks|
    requires KernOk(ks[n]) && t in Live(ks[n].s) && u in Live(ks[n].s)
    ensures 0 < ks[n].s.tasks[t].pid <= ks[n].s.lastPid
    ensures ks[n].m.dir[t] != ks[n].m.dir[u] ==> ks[n].s.tasks[t].pid != ks[n].s.tasks[u].pid
  {
    RunPidInv(ks, calls, n);
  }

  lemma RunPidInv(ks: seq<Kern>, calls: seq<Call>, n: nat)
    requires KernelRun(ks, calls) && Booted(ks[0]) && n < |ks|
    ensures PidInv(ks[n])
  {
    BootPids(ks[0]);
    forall k, k', c | PidInv(k) && k' in Next(k, c)
      ensures PidInv(k')
    {
      PidStepKeeps(k, k', c);
    }
    Runs.RunInvariant(Next, PidInv, (k, c) => true, ks, calls, n);
  }

  /** Without threads, all live PIDs are different. */
  lemma PlainRunPids(ks: seq<Kern>, calls: seq<Call>, n: nat, t: int, u: int)
    requires PlainRun(ks, calls) && n < |ks|
    requires KernOk(ks[n]) && t in Live(ks[n].s) && u in Live(ks[n].s) && t != u
    ensures ks[n].s.tasks[t].pid != ks[n].s.tasks[u].pid
  {
    PlainRunOwned(ks, calls, n);
    RunPids(ks, calls, n, t, u);
  }
}
