/**
  The scheduler's task slots as a state machine over values.

  One `Sys` value is the kernel's scheduling state between two kernel entries; each
  function below is one kernel entry up to and including its `task_switch`.
  The twelve intrusive rings are numbered: ring 0 is `freequeue`, ring 1 is
  `readyqueue`, ring 2 + i is the `blocked` ring of semaphore i.
 */
module Tasks {
  import opened Errno
  import Paging

  const NR_TASKS := 10
  const NUM_SEM := 10
  const NUM_QUEUES := 12
  const DEFAULT_QUANTUM := 10
  const FREE := 0
  const READY := 1

  datatype TaskState = Run | Ready | Blocked

  /** The scheduling part of a `task_struct`. */
  datatype Task = Task(pid: int, tid: int, state: TaskState, quantum: int)

  /** A `sem_t` without its ring; the semaphore is in use when `semid` is its own index. */
  datatype Sem = Sem(semid: int, count: int, pid: int)

  datatype Sys = Sys(
    current: nat,
    idle: nat,
    tasks: seq<Task>,
    queues: seq<seq<nat>>,
    sems: seq<Sem>,
    remaining: int,
    lastPid: int,
    lastTid: int)

  /**
    A kernel entry, with what it meets in memory: `Fork(frames)` says whether the twenty data frames
    could be allocated; for a threadCreate, whether the pointers pass access_ok, the page of the
    caller's heap pointer, and whether a frame is left.
   */
  datatype Event =
    | Tick
    | Yield
    | Fork(frames: bool)
    | Exit
    | ThreadCreate(accessOk: bool, page: int, frame: bool)
    | ThreadExit
    | SemCreate(value: int)
    | SemWait(id: int)
    | SemSignal(id: int)
    | SemDestroy(id: int)

  /** The ring of semaphore i. */
  function SemQueue(i: nat): nat {
    2 + i
  }

  /** Every index that the steps use is in range. */
  predicate Shape(s: Sys) {
    && |s.tasks| == NR_TASKS
    && |s.queues| == NUM_QUEUES
    && |s.sems| == NUM_SEM
    && s.current < NR_TASKS
    && s.idle < NR_TASKS
    && forall k, i :: 0 <= k < NUM_QUEUES && 0 <= i < |s.queues[k]| ==> s.queues[k][i] < NR_TASKS
  }

  // ---- building blocks

  function SetState(s: Sys, t: nat, state: TaskState): Sys
    requires t < |s.tasks|
  {
    s.(tasks := s.tasks[t := s.tasks[t].(state := state)])
  }

  function SetQueue(s: Sys, k: nat, q: seq<nat>): Sys
    requires k < |s.queues|
  {
    s.(queues := s.queues[k := q])
  }

  function PushBack(s: Sys, k: nat, t: nat): Sys
    requires k < |s.queues|
  {
    SetQueue(s, k, s.queues[k] + [t])
  }

  function PushFront(s: Sys, k: nat, t: nat): Sys
    requires k < |s.queues|
  {
    SetQueue(s, k, [t] + s.queues[k])
  }

  function PopFront(s: Sys, k: nat): Sys
    requires k < |s.queues| && s.queues[k] != []
  {
    SetQueue(s, k, s.queues[k][1..])
  }

  /** Hands the CPU to `t` with a full quantum. */
  function Start(s: Sys, t: nat): Sys
    requires t < |s.tasks|
  {
    SetState(s, t, Run).(current := t, remaining := s.tasks[t].quantum)
  }

  /** sched_next_rr: the head of the ready ring, or the idle task when there is none. */
  function Dispatch(s: Sys): Sys
    requires Shape(s)
  {
    if s.queues[READY] != [] then
      Start(PopFront(s, READY), s.queues[READY][0])
    else
      Start(s, s.idle)
  }

  /** Does the next dispatch fall back on the idle task? */
  predicate FallsBack(s: Sys)
    requires Shape(s)
  {
    s.queues[READY] == []
  }

  function Without(q: seq<nat>, t: nat): seq<nat> {
    if q == [] then []
    else if q[0] == t then Without(q[1..], t)
    else [q[0]] + Without(q[1..], t)
  }

  /** list_del of t's node: t leaves whatever ring it is linked in. */
  function Unlink(s: Sys, t: nat): Sys {
    s.(queues := seq(|s.queues|, k requires 0 <= k < |s.queues| => Without(s.queues[k], t)))
  }

  /** update_process_state_rr(t, &readyqueue): a task that is not running is first unlinked. */
  function Requeue(s: Sys, t: nat): Sys
    requires |s.queues| == NUM_QUEUES && t < |s.tasks|
  {
    var s1 := if s.tasks[t].state != Run then Unlink(s, t) else s;
    SetState(PushBack(s1, READY, t), t, Ready)
  }

  // ---- kernel entries

  /** The state in which the tick or yield dispatches: the running task is back in the ready ring. */
  function Preempted(s: Sys): Sys
    requires Shape(s)
  {
    Requeue(s, s.current)
  }

  /** schedule(), called once per clock interrupt. */
  function Schedule(s: Sys): Sys
    requires Shape(s) && s.tasks[s.current].state == Run
  {
    var s1 := s.(remaining := s.remaining - 1);
    if s1.remaining == 0 && s1.queues[READY] != [] then Dispatch(Preempted(s1))
    else if s1.remaining == 0 then s1.(remaining := s1.tasks[s1.current].quantum)
    else s1
  }

  /** force_task_switch(). */
  function YieldStep(s: Sys): Sys
    requires Shape(s) && s.tasks[s.current].state == Run
  {
    Dispatch(Preempted(s))
  }

  /** The two exits differ in whether the slot forgets its PID. */
  function Retired(s: Sys, forgetPid: bool): Sys
    requires Shape(s)
  {
    var t := s.tasks[s.current];
    PushBack(s, FREE, s.current).(tasks := s.tasks[s.current := if forgetPid then t.(pid := -1) else t])
  }

  function ExitStep(s: Sys, forgetPid: bool): Sys
    requires Shape(s)
  {
    Dispatch(Retired(s, forgetPid))
  }

  /** All ten semaphores as sys_fork and init_task1 leave them. */
  function ResetSems(s: Sys): Sys
    requires |s.queues| == NUM_QUEUES
  {
    s.(sems := seq(NUM_SEM, _ => Sem(-1, 0, -1)),
       queues := [s.queues[FREE], s.queues[READY]] + seq(NUM_SEM, _ => []))
  }

  /** sys_fork up to the page allocation: slot taken, struct copied, semaphores reset. */
  function ForkBegin(s: Sys): Sys
    requires Shape(s) && s.queues[FREE] != []
  {
    var c := s.queues[FREE][0];
    ResetSems(PopFront(s, FREE).(tasks := s.tasks[c := s.tasks[s.current]]))
  }

  function ForkCommit(s: Sys, c: nat): Sys
    requires Shape(s) && c < NR_TASKS
  {
    PushBack(s, READY, c).(
    tasks := s.tasks[c := s.tasks[c].(pid := s.lastPid + 1, state := Ready)],
    lastPid := s.lastPid + 1)
  }

  function ForkStep(s: Sys, frames: bool): (Sys, int)
    requires Shape(s)
  {
    if s.queues[FREE] == [] then (s, -ENOMEM)
    else
      var c := s.queues[FREE][0];
      if frames then (ForkCommit(ForkBegin(s), c), s.lastPid + 1)
      else (PushBack(ForkBegin(s), FREE, c), -EAGAIN)
  }

  /** sys_threadCreate up to the stack page: slot taken, struct copied, thread named. */
  function ThreadBegin(s: Sys): Sys
    requires Shape(s) && s.queues[FREE] != []
  {
    var c := s.queues[FREE][0];
    PopFront(s, FREE).(
    tasks := s.tasks[c := s.tasks[s.current].(tid := s.lastTid + 1, state := Ready)],
    lastTid := s.lastTid + 1)
  }

  /** The guard that sys_threadCreate puts on the page of the new stack. */
  predicate PastLimit(page: int) {
    page > Paging.TOTAL_PAGES
  }

  function ThreadCreateStep(s: Sys, accessOk: bool, page: int, frame: bool): (Sys, int)
    requires Shape(s)
  {
    if !accessOk then (s, -EFAULT)
    else if s.queues[FREE] == [] then (s, -ENOMEM)
    else
      var c := s.queues[FREE][0];
      var s1 := ThreadBegin(s);
      if PastLimit(page) then (s1, -1)
      else if !frame then (PushBack(s1, FREE, c), -EAGAIN)
      else (PushBack(s1, READY, c), s.lastTid + 1)
  }

  /** The guard lets page 1024 pass, which no table maps: the first store to that stack faults. */
  predicate StackFaults(s: Sys, accessOk: bool, page: int, frame: bool)
    requires Shape(s)
  {
    accessOk && s.queues[FREE] != [] && frame && page == Paging.TOTAL_PAGES
  }

  /** The first semaphore not in use, or NUM_SEM. */
  function FirstUnused(sems: seq<Sem>, i: nat): (r: nat)
    requires i <= |sems|
    ensures i <= r <= |sems|
    ensures r < |sems| ==> sems[r].semid == -1
    ensures forall j :: i <= j < r ==> sems[j].semid != -1
    decreases |sems| - i
  {
    if i == |sems| || sems[i].semid == -1 then i else FirstUnused(sems, i + 1)
  }

  function SemCreateStep(s: Sys, value: int): (Sys, int)
    requires Shape(s)
  {
    var i := FirstUnused(s.sems, 0);
    if i == NUM_SEM then (s, -1)
    else
      (SetQueue(s, SemQueue(i), []).(sems := s.sems[i := Sem(i, value, s.tasks[s.current].pid)]), i as int)
  }

  /** The three guards shared by wait, signal and destroy. */
  predicate Accepted(s: Sys, id: int)
    requires Shape(s) && id != NUM_SEM
  {
    && 0 <= id < NUM_SEM
    && s.sems[id].pid == s.tasks[s.current].pid
    && s.sems[id].semid == id
  }

  function SetCount(s: Sys, id: nat, count: int): Sys
    requires id < |s.sems|
  {
    s.(sems := s.sems[id := s.sems[id].(count := count)])
  }

  /** The running task joins the front of a semaphore's ring, just before the dispatch. */
  function Parked(s: Sys, id: nat): Sys
    requires Shape(s) && id < NUM_SEM
  {
    SetState(PushFront(SetCount(s, id, s.sems[id].count - 1), SemQueue(id), s.current), s.current, Blocked)
  }

  function SemWaitStep(s: Sys, id: int): (Sys, int)
    requires Shape(s) && id != NUM_SEM
  {
    if !Accepted(s, id) then (s, -1)
    else if s.sems[id].count - 1 < 0 then (Dispatch(Parked(s, id)), 0)
    else (SetCount(s, id, s.sems[id].count - 1), 0)
  }

  /** A signal that finds count < 0 takes the first node of the ring, so there must be one. */
  predicate SignalDefined(s: Sys, id: int)
    requires Shape(s) && id != NUM_SEM
  {
    Accepted(s, id) && s.sems[id].count < 0 ==> s.queues[SemQueue(id)] != []
  }

  function SemSignalStep(s: Sys, id: int): (Sys, int)
    requires Shape(s) && id != NUM_SEM && SignalDefined(s, id)
  {
    if !Accepted(s, id) then (s, -1)
    else
      var s1 := SetCount(s, id, s.sems[id].count + 1);
      if s1.sems[id].count <= 0 then
        var l := s.queues[SemQueue(id)][0];
        (PushFront(SetState(PopFront(s1, SemQueue(id)), l, Ready), READY, l), 0)
      else (s1, 0)
  }

  /** The drain loop of sys_semDestroy: first waiter to the ready tail until none is left. */
  function Drain(s: Sys, id: nat): (r: Sys)
    requires Shape(s) && id < NUM_SEM
    decreases |s.queues[SemQueue(id)]|
  {
    if s.queues[SemQueue(id)] == [] then s
    else
      var l := s.queues[SemQueue(id)][0];
      var s1 := PushBack(SetState(PopFront(s, SemQueue(id)), l, Ready), READY, l);
      assert Shape(s1);
      Drain(s1, id)
  }

  function SemDestroyStep(s: Sys, id: int): (Sys, int)
    requires Shape(s) && id != NUM_SEM
  {
    if !Accepted(s, id) then (s, -1)
    else
      var s1 := Drain(s, id);
      (s1.(sems := s.sems[id := Sem(-1, 0, -1)]), 0)
  }

  // ---- the transition system

  /** The entry returns or switches. The idle task never leaves its loop, so only the clock enters from it. */
  predicate Enabled(s: Sys, e: Event) {
    && Shape(s)
    && s.tasks[s.current].state == Run
    && (s.current == s.idle ==> e.Tick?)
    && match e
       case ThreadCreate(accessOk, page, frame) => !StackFaults(s, accessOk, page, frame)
       case SemWait(id) => id != NUM_SEM
       case SemSignal(id) => id != NUM_SEM && SignalDefined(s, id)
       case SemDestroy(id) => id != NUM_SEM
       case _ => true
  }

  function Step(s: Sys, e: Event): Sys
    requires Enabled(s, e)
  {
    match e
    case Tick => Schedule(s)
    case Yield => YieldStep(s)
    case Fork(frames) => ForkStep(s, frames).0
    case Exit => ExitStep(s, true)
    case ThreadCreate(accessOk, page, frame) => ThreadCreateStep(s, accessOk, page, frame).0
    case ThreadExit => ExitStep(s, false)
    case SemCreate(value) => SemCreateStep(s, value).0
    case SemWait(id) => SemWaitStep(s, id).0
    case SemSignal(id) => SemSignalStep(s, id).0
    case SemDestroy(id) => SemDestroyStep(s, id).0
  }

  /** The state `main` reaches: idle in slot 0, init running in slot 1, the rest free. */
  function Boot(): (s: Sys)
    ensures Shape(s)
  {
    Sys(1, 0,
        [Task(0, 0, Run, DEFAULT_QUANTUM), Task(1, 1, Run, DEFAULT_QUANTUM)] + seq(8, _ => Task(-1, 0, Run, 0)),
        [[2, 3, 4, 5, 6, 7, 8, 9], []] + seq(NUM_SEM, _ => []),
        seq(NUM_SEM, _ => Sem(-1, 0, -1)),
        DEFAULT_QUANTUM, 1000, 1000)
  }
}
