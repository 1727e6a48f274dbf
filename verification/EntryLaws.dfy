/**
  What each kernel entry does to the tasks, the rings and the semaphores, and what it returns: every
  field that changes, with its value, and that nothing else does.
 */
module EntryLaws {
  import opened Tasks
  import opened TaskInvariant
  import opened TaskTheorem

  // ---- what stays

  /** Everything but the listed task structs, rings and semaphores, the CPU and the counters is as before. */
  predicate OnlyThese(s: Sys, s': Sys, ts: seq<nat>, ks: seq<nat>, ids: seq<nat>) {
    && Shape(s) && Shape(s') && s'.idle == s.idle
    && (forall t :: 0 <= t < 10 && t !in ts ==> s'.tasks[t] == s.tasks[t])
    && (forall k :: 0 <= k < 12 && k !in ks ==> s'.queues[k] == s.queues[k])
    && (forall i :: 0 <= i < 10 && i !in ids ==> s'.sems[i] == s.sems[i])
  }

  predicate SameNumbers(s: Sys, s': Sys) {
    s'.lastPid == s.lastPid && s'.lastTid == s.lastTid
  }

  predicate SameCpu(s: Sys, s': Sys) {
    s'.current == s.current && s'.remaining == s.remaining
  }

  /** Task t has the given state and is otherwise as before. */
  predicate NowIn(s: Sys, s': Sys, t: int, state: TaskState)
    requires |s.tasks| == |s'.tasks| == 10 && 0 <= t < 10
  {
    s'.tasks[t] == Task(s.tasks[t].pid, s.tasks[t].tid, state, s.tasks[t].quantum)
  }

  /** The CPU goes with ten ticks to the head of the queue q, the rest of which is the new ready ring, or to idle. */
  predicate CpuTo(s: Sys, s': Sys, q: seq<nat>)
    requires Shape(s) && Shape(s')
  {
    && s'.remaining == 10
    && s'.current == (if q == [] then s.idle else q[0])
    && s'.queues[1] == (if q == [] then [] else q[1..])
    && s'.tasks[s'.current].state == Run
    && s'.tasks[s'.current].pid == s.tasks[s'.current].pid && s'.tasks[s'.current].tid == s.tasks[s'.current].tid
    && s'.tasks[s'.current].quantum == s.tasks[s'.current].quantum
  }

  // ---- the clock and the CPU

  /** The running task goes to the ready tail and the head of that queue runs. */
  predicate HandsOn(s: Sys, s': Sys) {
    && OnlyThese(s, s', [s.current, s'.current], [1], []) && SameNumbers(s, s')
    && CpuTo(s, s', s.queues[1] + [s.current])
    && (s'.current != s.current ==> NowIn(s, s', s.current, Ready))
  }

  lemma PreemptLaw(s: Sys, remaining: int)
    requires Inv(s)
    ensures var x := s.(remaining := remaining); HandsOn(s, Dispatch(Preempted(x)))
  {
    ReadyNotFree(s);
  }

  /** A tick takes one from the quantum; the tenth hands the CPU on if somebody is ready, and else refills it. */
  lemma TickLaw(s: Sys)
    requires Inv(s)
    ensures s.remaining > 1 ==> Step(s, Tick) == s.(remaining := s.remaining - 1)
    ensures s.remaining == 1 && s.queues[1] == [] ==> Step(s, Tick) == s.(remaining := 10)
    ensures s.remaining == 1 && s.queues[1] != [] ==> HandsOn(s, Step(s, Tick))
  {
    ReadyNotFree(s);
    PreemptLaw(s, 0);
  }

  lemma YieldLaw(s: Sys)
    requires Inv(s) && s.current != s.idle
    ensures HandsOn(s, Step(s, Yield))
  {
    PreemptLaw(s, s.remaining);
    assert s.(remaining := s.remaining) == s;
  }

  /** A ready task and the running one have a quantum of ten. */
  lemma ReadyNotFree(s: Sys)
    requires Inv(s)
    ensures s.tasks[s.current].quantum == 10 && s.tasks[s.idle].quantum == 10
    ensures forall t :: t in s.queues[1] ==> t < 10 && s.tasks[t].quantum == 10
    ensures s.current !in s.queues[1]
  {
    if s.current in s.queues[0] {
      Alone(s.queues, multiset{s.current}, s.idle, 0, s.current);
    }
    forall t | t in s.queues[1]
      ensures t < 10 && s.tasks[t].quantum == 10
    {
      Alone(s.queues, multiset{s.current}, s.idle, 1, t);
    }
  }

  /** exit and threadExit: the slot joins the free tail; only exit makes it forget its PID. */
  lemma ExitLaw(s: Sys, e: Event)
    requires Inv(s) && s.current != s.idle && (e.Exit? || e.ThreadExit?)
    ensures var s' := Step(s, e);
            && OnlyThese(s, s', [s.current, s'.current], [0, 1], []) && SameNumbers(s, s')
            && s'.queues[0] == s.queues[0] + [s.current]
            && CpuTo(s, s', s.queues[1]) && s'.current != s.current
            && s'.tasks[s.current] == (if e.Exit? then s.tasks[s.current].(pid := -1) else s.tasks[s.current])
  {
    ReadyNotFree(s);
    assert s.queues[1] != [] ==> s.queues[1][0] in s.queues[1];
  }

  // ---- new tasks

  const NO_SEM := Sem(-1, 0, -1)

  /** sys_fork: the child is a copy of the caller with its own, new PID, at the ready tail; all semaphores are blank. */
  lemma ForkLaw(s: Sys, frames: bool)
    requires Inv(s) && s.current != s.idle
    ensures s.queues[0] == [] ==> ForkStep(s, frames) == (s, -12)
    ensures s.queues[0] != [] ==>
              var c, s', r := s.queues[0][0], ForkStep(s, frames).0, ForkStep(s, frames).1;
              var caller := s.tasks[s.current];
              && OnlyThese(s, s', [c], [0, 1, 2, 3, 4, 5, 6, 7, 8, 9, 10, 11], [0, 1, 2, 3, 4, 5, 6, 7, 8, 9])
              && SameCpu(s, s') && s'.lastTid == s.lastTid
              && (forall i :: 0 <= i < 10 ==> s'.sems[i] == NO_SEM && s'.queues[2 + i] == [])
              && (if frames then
                    && r == s.lastPid + 1 == s'.lastPid && s'.tasks[c] == Task(r, caller.tid, Ready, caller.quantum)
                    && s'.queues[0] == s.queues[0][1..] && s'.queues[1] == s.queues[1] + [c]
                  else
                    && r == -11 && s'.lastPid == s.lastPid && s'.tasks[c] == caller
                    && s'.queues[0] == s.queues[0][1..] + [c] && s'.queues[1] == s.queues[1])
  {
    HeadAloneIfAny(s);
  }

  lemma HeadAloneIfAny(s: Sys)
    requires Inv(s)
    ensures s.queues[0] != [] ==> s.queues[0][0] < 10 && s.queues[0][0] != s.current
  {
    if s.queues[0] != [] {
      HeadAlone(s.queues, multiset{s.current}, s.idle, 0);
    }
  }

  /** sys_threadCreate: the thread is a copy of the caller with a new TID and the same PID, at the ready tail. */
  lemma ThreadLaw(s: Sys, accessOk: bool, page: int, frame: bool)
    requires Inv(s) && s.current != s.idle
    ensures !accessOk ==> ThreadCreateStep(s, accessOk, page, frame) == (s, -14)
    ensures accessOk && s.queues[0] == [] ==> ThreadCreateStep(s, accessOk, page, frame) == (s, -12)
    ensures accessOk && s.queues[0] != [] ==>
              var c := s.queues[0][0];
              var s', r := ThreadCreateStep(s, accessOk, page, frame).0, ThreadCreateStep(s, accessOk, page, frame).1;
              var caller := s.tasks[s.current];
              && OnlyThese(s, s', [c], [0, 1], []) && SameCpu(s, s')
              && s'.lastPid == s.lastPid && s'.lastTid == s.lastTid + 1
              && s'.tasks[c] == Task(caller.pid, s.lastTid + 1, Ready, caller.quantum)
              && r == (if page > 1024 then -1 else if !frame then -11 else s.lastTid + 1)
              && s'.queues[0] == (if page <= 1024 && !frame then s.queues[0][1..] + [c] else s.queues[0][1..])
              && s'.queues[1] == (if page <= 1024 && frame then s.queues[1] + [c] else s.queues[1])
  {
    HeadAloneIfAny(s);
  }

  // ---- semaphores

  /** The caller may use semaphore id: it exists and was created under the caller's PID. */
  predicate Owner(s: Sys, id: int) {
    Shape(s) && 0 <= id < 10 && s.sems[id].semid == id && s.sems[id].pid == s.tasks[s.current].pid
  }

  /** semCreate takes the first semaphore not in use, for the caller's PID, and touches nothing else. */
  lemma CreateLaw(s: Sys, value: int)
    requires Inv(s)
    ensures (forall i :: 0 <= i < 10 ==> s.sems[i].semid != -1) ==> SemCreateStep(s, value) == (s, -1)
    ensures (exists i :: 0 <= i < 10 && s.sems[i].semid == -1) ==>
              var s', id := SemCreateStep(s, value).0, SemCreateStep(s, value).1;
              && 0 <= id < 10 && s.sems[id].semid == -1 && (forall j :: 0 <= j < id ==> s.sems[j].semid != -1)
              && s' == s.(sems := s.sems[id := Sem(id, value, s.tasks[s.current].pid)])
  {
    var id := FirstUnused(s.sems, 0);
    if id < 10 {
      assert SemOk(s, id);
      assert s.queues[2 + id := []] == s.queues;
    }
  }

  /** Whoever is not the owner gets -1 from wait, signal and destroy, and nothing happens. */
  lemma StrangerLaw(s: Sys, id: int)
    requires Shape(s) && id != 10 && !Owner(s, id)
    ensures SemWaitStep(s, id) == (s, -1) && SemDestroyStep(s, id) == (s, -1)
    ensures SignalDefined(s, id) && SemSignalStep(s, id) == (s, -1)
  {
  }

  /** semWait by the owner returns 0: it takes a permit, or the caller blocks in front of the ring and the next task runs. */
  lemma WaitLaw(s: Sys, id: int)
    requires Inv(s) && s.current != s.idle && Owner(s, id)
    ensures SemWaitStep(s, id).1 == 0
    ensures var sem := s.sems[id];
            var s' := SemWaitStep(s, id).0;
            if sem.count > 0 then s' == s.(sems := s.sems[id := Sem(id, sem.count - 1, sem.pid)])
            else
              && OnlyThese(s, s', [s.current, s'.current], [1, 2 + id], [id]) && SameNumbers(s, s')
              && s'.sems[id] == Sem(id, sem.count - 1, sem.pid)
              && s'.queues[2 + id] == [s.current] + s.queues[2 + id]
              && NowIn(s, s', s.current, Blocked)
              && CpuTo(s, s', s.queues[1]) && s'.current != s.current
  {
    ReadyNotFree(s);
    assert s.queues[1] != [] ==> s.queues[1][0] in s.queues[1];
  }

  /** semSignal by the owner returns 0: it gives a permit back, or wakes the first waiter to the ready head. */
  lemma SignalLaw(s: Sys, id: int)
    requires Inv(s) && s.current != s.idle && Owner(s, id)
    ensures SignalDefined(s, id) && SemSignalStep(s, id).1 == 0
    ensures var sem := s.sems[id];
            var s' := SemSignalStep(s, id).0;
            if sem.count >= 0 then s' == s.(sems := s.sems[id := Sem(id, sem.count + 1, sem.pid)])
            else
              && s.queues[2 + id] != []
              && var w := s.queues[2 + id][0];
              && OnlyThese(s, s', [w], [1, 2 + id], [id]) && SameNumbers(s, s') && SameCpu(s, s')
              && s'.sems[id] == Sem(id, sem.count + 1, sem.pid)
              && s'.queues[2 + id] == s.queues[2 + id][1..] && s'.queues[1] == [w] + s.queues[1]
              && NowIn(s, s', w, Ready)
  {
    assert SemOk(s, id);
  }

  /** semDestroy by the owner returns 0: all waiters are ready, newest first, and the semaphore is blank. */
  lemma DestroyLaw(s: Sys, id: int)
    requires Inv(s) && s.current != s.idle && Owner(s, id)
    ensures SemDestroyStep(s, id).1 == 0
    ensures var s' := SemDestroyStep(s, id).0;
            && OnlyThese(s, s', s.queues[2 + id], [1, 2 + id], [id])
            && SameNumbers(s, s') && SameCpu(s, s')
            && s'.sems[id] == NO_SEM
            && s'.queues[2 + id] == [] && s'.queues[1] == s.queues[1] + s.queues[2 + id]
            && (forall t :: t in s.queues[2 + id] ==> NowIn(s, s', t, Ready))
  {
    DrainExact(s, id);
  }

  // ---- the start

  /** idle is PID 0 in slot 0, init is PID 1 in slot 1 with ten ticks, and numbers start at 1000. */
  lemma BootLaw()
    ensures var s := Boot();
            && s.current == 1 && s.idle == 0 && s.remaining == 10 && s.lastPid == 1000 && s.lastTid == 1000
            && s.tasks[0] == Task(0, 0, Run, 10) && s.tasks[1] == Task(1, 1, Run, 10)
            && (forall t :: 2 <= t < 10 ==> s.tasks[t].pid == -1)
            && s.queues[0] == [2, 3, 4, 5, 6, 7, 8, 9] && s.queues[1] == []
            && (forall i :: 0 <= i < 10 ==> s.sems[i] == NO_SEM && s.queues[2 + i] == [])
  {
    assert forall t :: 2 <= t < 10 ==> Boot().tasks[t].pid == -1;
  }
}
