/**
  A run of the kernel is a run of the task machine: sbrk is invisible to it, and every other call is the
  entry that its memory decides. So what is proved about whole runs of tasks holds for the kernel.
 */
module KernelTasks {
  import opened Tasks
  import opened TaskInvariant
  import opened TaskRuns
  import opened Semaphores
  import opened KernelSteps
  import opened KernelSafety
  import Runs

  /** The entry of the task machine that a call amounts to. */
  function EventOf(k: Kern, call: Call): Event
    requires KernOk(k) && !call.SbrkCall?
  {
    match call
    case Plain(e) => e
    case ForkCall => Fork(Frames(k))
    case ExitCall => Exit
    case ThreadCreateCall(accessOk, _, _) => ThreadCreate(accessOk, HeapPage(k.m, k.s.current), FrameLeft(k.m))
    case ThreadExitCall => ThreadExit
  }

  /** Each call is a safe step of the task machine, or no step at all. */
  lemma StepProjects(k: Kern, k': Kern, call: Call)
    requires GeneralInv(k) && k' in Next(k, call)
    ensures call.SbrkCall? ==> k'.s == k.s
    ensures !call.SbrkCall? ==>
              && Enabled(k.s, EventOf(k, call)) && Safe(k.s, EventOf(k, call))
              && k'.s == Step(k.s, EventOf(k, call))
  {
    if call.ThreadCreateCall? {
      GuardIsFalse(k);
    }
  }

  ghost predicate GoodRun(ks: seq<Kern>, calls: seq<Call>) {
    KernelRun(ks, calls) && forall i :: 0 <= i < |ks| ==> GeneralInv(ks[i])
  }

  /** Every run from a good state, boot in particular, is good. */
  lemma RunIsGood(ks: seq<Kern>, calls: seq<Call>)
    requires KernelRun(ks, calls) && GeneralInv(ks[0])
    ensures GoodRun(ks, calls)
  {
    forall i | 0 <= i < |ks|
      ensures GeneralInv(ks[i])
    {
      KernelSafety.RunKeeps(ks, calls, i);
    }
  }

  lemma GoodTail(ks: seq<Kern>, calls: seq<Call>)
    requires GoodRun(ks, calls) && calls != []
    ensures GoodRun(ks[1..], calls[1..]) && GeneralInv(ks[0]) && ks[1] in Next(ks[0], calls[0])
  {
    Runs.RunTail(Next, ks, calls);
    RunStep(ks, calls, 0);
  }

  /** The entries of a run, without its sbrk calls: a legal run of the task machine between the same task states. */
  ghost function Events(ks: seq<Kern>, calls: seq<Call>): (es: seq<Event>)
    requires GoodRun(ks, calls)
    ensures Legal(ks[0].s, es) && Final(ks[0].s, es) == ks[|calls|].s
    decreases |calls|
  {
    if calls == [] then []
    else
      GoodTail(ks, calls);
      StepProjects(ks[0], ks[1], calls[0]);
      var rest := Events(ks[1..], calls[1..]);
      if calls[0].SbrkCall? then rest
      else
        RunOn(ks[0].s, EventOf(ks[0], calls[0]), rest);
        [EventOf(ks[0], calls[0])] + rest
  }

  lemma RunOn(s: Sys, e: Event, es: seq<Event>)
    requires Enabled(s, e) && Safe(s, e) && Legal(Step(s, e), es)
    ensures Legal(s, [e] + es) && Final(s, [e] + es) == Final(Step(s, e), es)
  {
    assert ([e] + es)[0] == e && ([e] + es)[1..] == es;
  }

  lemma EventsTail(ks: seq<Kern>, calls: seq<Call>)
    requires GoodRun(ks, calls) && calls != []
    ensures GoodRun(ks[1..], calls[1..]) && KernOk(ks[0])
    ensures var es, rest := Events(ks, calls), Events(ks[1..], calls[1..]);
            if calls[0].SbrkCall? then es == rest && ks[1].s == ks[0].s
            else
              var e := EventOf(ks[0], calls[0]);
              es == [e] + rest && es[0] == e && es[1..] == rest && Enabled(ks[0].s, e) && ks[1].s == Step(ks[0].s, e)
  {
    GoodTail(ks, calls);
    StepProjects(ks[0], ks[1], calls[0]);
  }

  // ---- what follows

  /** The idle fallback happens at most once in a run of the kernel. */
  lemma KernelFallbackOnce(ks: seq<Kern>, calls: seq<Call>)
    requires GoodRun(ks, calls)
    ensures Fallbacks(ks[0].s, Events(ks, calls)) <= 1
  {
    FallbackAtMostOnce(ks[0].s, Events(ks, calls));
  }

  function ClockTicks(calls: seq<Call>): nat {
    if calls == [] then 0 else (if calls[0] == Plain(Tick) then 1 else 0) + ClockTicks(calls[1..])
  }

  lemma {:induction false} TicksProject(ks: seq<Kern>, calls: seq<Call>)
    requires GoodRun(ks, calls)
    ensures Ticks(Events(ks, calls)) == ClockTicks(calls)
    decreases |calls|
  {
    if calls != [] {
      EventsTail(ks, calls);
      var es, rest := Events(ks, calls), Events(ks[1..], calls[1..]);
      TicksProject(ks[1..], calls[1..]);
      TicksTail(ks[0], calls[0], es, rest);
    }
  }

  lemma TicksTail(k: Kern, call: Call, es: seq<Event>, rest: seq<Event>)
    requires KernOk(k) && if call.SbrkCall? then es == rest else es == [EventOf(k, call)] + rest
    ensures Ticks(es) == (if call == Plain(Tick) then 1 else 0) + Ticks(rest)
  {
    if !call.SbrkCall? {
      assert es[1..] == rest;
    }
  }

  /** A task that runs in the projection runs in the kernel. */
  lemma {:induction false} RunsInKernel(ks: seq<Kern>, calls: seq<Call>, t: nat) returns (i: nat)
    requires GoodRun(ks, calls) && HasRun(ks[0].s, Events(ks, calls), t)
    ensures i < |ks| && ks[i].s.current == t
    decreases |calls|
  {
    if ks[0].s.current == t {
      i := 0;
    } else {
      EventsTail(ks, calls);
      i := RunsInKernel(ks[1..], calls[1..], t);
      i := i + 1;
    }
  }

  /**
    Bounded waiting in the kernel: a task with k tasks ahead of it in the ready ring has the CPU in some
    state of the run once 10 * (k + 1 + w) clock interrupts have passed, w being the wake-ups meanwhile.
   */
  lemma KernelBoundedWaiting(ks: seq<Kern>, calls: seq<Call>, t: nat, k: nat) returns (i: nat)
    requires GoodRun(ks, calls) && AtPosition(ks[0].s, t, k)
    requires ClockTicks(calls) >= 10 * (k + 1 + WakeUps(ks[0].s, Events(ks, calls)))
    ensures i < |ks| && ks[i].s.current == t
  {
    TicksProject(ks, calls);
    BoundedWaiting(ks[0].s, Events(ks, calls), t, k);
    i := RunsInKernel(ks, calls, t);
  }

  /** Semaphore accounting in the kernel: what has become of a semaphore created with value v before the run. */
  lemma KernelSemaphores(k0: Kern, ks: seq<Kern>, calls: seq<Call>, v: nat, id: nat)
    requires GeneralInv(k0) && GoodRun(ks, calls) && ks[0] in Next(k0, Plain(SemCreate(v)))
    requires SemCreateStep(k0.s, v).1 == id && id < NUM_SEM && Lasting(ks[0].s, Events(ks, calls), id)
    ensures var s' := ks[|calls|].s;
            var l := Account(ks[0].s, Events(ks, calls), id, EMPTY);
            && |s'.sems| == NUM_SEM && |s'.queues| == NUM_QUEUES
            && var blocked := |s'.queues[SemQueue(id)]|;
            && s'.sems[id].count == v + l.signals - l.waits
            && blocked == Waiters(s'.sems[id].count)
            && l.waits - blocked <= v + l.signals
            && (blocked > 0 ==> l.waits - blocked == v + l.signals)
  {
    StepProjects(k0, ks[0], Plain(SemCreate(v)));
    SemaphoreSafety(k0.s, v, id, Events(ks, calls));
  }
}
