/**
  Plain runs: fork, exit, the clock and the semaphore calls, without threads and heaps. Ownership of
  frames follows the task slots, memory never runs out, and nothing faults.
 */
module KernelRuns {
  import opened Errno
  import opened Tasks
  import opened TaskInvariant
  import opened Paging
  import opened Cloning
  import opened Ownership
  import opened KernelSteps
  import opened KernelSafety
  import opened NewTasks
  import Runs

  ghost predicate PlainInv(k: Kern) {
    GeneralInv(k) && Owned(k.m, Live(k.s))
  }

  predicate PlainCall(call: Call) {
    call.Plain? || call.ForkCall? || call.ExitCall?
  }

  /** With a free slot there are at most eight user processes. */
  lemma LiveBound(s: Sys)
    requires Inv(s)
    ensures |Live(s)| <= 9 && (s.queues[FREE] != [] ==> |Live(s)| <= 8)
  {
    SlotCount(NR_TASKS);
    var others := Slots(NR_TASKS) - {s.idle as int};
    SubsetCount(Live(s), others);
    if s.queues[FREE] != [] {
      var c := s.queues[FREE][0];
      assert c in s.queues[FREE];
      SubsetCount(Live(s), others - {c as int});
    }
  }

  predicate Below(t: int, n: int) {
    0 <= t < n
  }

  ghost function Slots(n: int): set<int> {
    set t | 0 <= t < n && Below(t, n)
  }

  lemma {:induction false} SlotCount(n: nat)
    ensures |Slots(n)| == n
  {
    if n > 0 {
      SlotCount(n - 1);
      assert Slots(n) == Slots(n - 1) + {n - 1};
    } else {
      assert Slots(n) == {};
    }
  }

  // ---- the theorem

  /** With a free slot there are always at least 216 available frames. */
  lemma FramesAtHand(k: Kern)
    requires PlainInv(k) && k.s.queues[FREE] != []
    ensures |AvailableSet(k.m.used)| >= 216 && Frames(k)
  {
    LiveBound(k.s);
    Capacity(k.m, Live(k.s));
    EnoughFrames(k.m.used, k.m.tables[k.s.queues[FREE][0]]);
  }

  /** No call of a plain run faults. */
  lemma PlainNeverFaults(k: Kern, call: Call)
    requires PlainInv(k) && Admissible(k, call) && PlainCall(call)
    ensures !Faults(k, call)
  {
    if call.ForkCall? && k.s.queues[FREE] != [] {
      LiveFork(k.s, true);
      OwnedForks(k.m, Live(k.s), k.s.current, k.s.queues[FREE][0]);
    }
  }

  lemma PlainForkKeeps(k: Kern, k': Kern)
    requires PlainInv(k) && k' in Next(k, ForkCall)
    ensures PlainInv(k') && ForkReturn(k) == if k.s.queues[FREE] == [] then -12 else k.s.lastPid + 1
  {
    StepKeeps(k, k', ForkCall);
    if k.s.queues[FREE] != [] {
      FramesAtHand(k);
      LiveFork(k.s, true);
      CloneKeepsOwned(k.m, k'.m, Live(k.s), k.s.current, k.s.queues[FREE][0]);
    }
  }

  lemma PlainStepKeeps(k: Kern, k': Kern, call: Call)
    requires PlainInv(k) && k' in Next(k, call) && PlainCall(call)
    ensures PlainInv(k')
    ensures call.ForkCall? ==> ForkReturn(k) == if k.s.queues[FREE] == [] then -12 else k.s.lastPid + 1
  {
    match call
    case ForkCall => PlainForkKeeps(k, k');
    case ExitCall =>
      StepKeeps(k, k', call);
      LiveExit(k.s, true);
      ReleaseKeepsOwned(k.m, k'.m, Live(k.s), k.s.current);
    case Plain(e) =>
      StepKeeps(k, k', call);
      FreeKept(k.s, e);
      assert Live(k'.s) == Live(k.s);
  }

  ghost predicate PlainRun(ks: seq<Kern>, calls: seq<Call>) {
    KernelRun(ks, calls) && Booted(ks[0]) && forall i {:trigger calls[i]} :: 0 <= i < |calls| ==> PlainCall(calls[i])
  }

  lemma BootPlain(k: Kern)
    requires Booted(k)
    ensures PlainInv(k)
  {
    BootGeneral(k);
    BootOwned(k.m, 1);
    BootFree();
  }

  lemma PlainRunKeeps(ks: seq<Kern>, calls: seq<Call>, n: nat)
    requires PlainRun(ks, calls) && n < |ks|
    ensures PlainInv(ks[n])
  {
    forall k, k', c | PlainInv(k) && PlainCall(c) && k' in Next(k, c)
      ensures PlainInv(k')
    {
      PlainStepKeeps(k, k', c);
    }
    BootPlain(ks[0]);
    Runs.RunInvariant(Next, PlainInv, (k, c) => PlainCall(c), ks, calls, n);
  }

  /**
    In every plain run from boot every frame has its one owner, free even frames number
    384 - 8 - 20 * processes, and a fork fails only with -ENOMEM, when all slots are taken.
   */
  lemma PlainRunOwned(ks: seq<Kern>, calls: seq<Call>, n: nat)
    requires PlainRun(ks, calls) && n < |ks|
    ensures PlainInv(ks[n])
    ensures |AvailableSet(ks[n].m.used)| == 384 - 8 - 20 * |Live(ks[n].s)|
    ensures n < |calls| && calls[n] == ForkCall ==>
              ForkReturn(ks[n]) == if ks[n].s.queues[FREE] == [] then -12 else ks[n].s.lastPid + 1
  {
    PlainRunKeeps(ks, calls, n);
    Capacity(ks[n].m, Live(ks[n].s));
    if n < |calls| {
      RunStep(ks, calls, n);
      PlainStepKeeps(ks[n], ks[n + 1], calls[n]);
    }
  }

  /** In every state of a plain run, a fork that finds a free slot succeeds and makes a perfect clone. */
  lemma PlainForkClones(k: Kern, k': Kern)
    requires PlainInv(k) && k' in Next(k, ForkCall) && k.s.queues[FREE] != []
    ensures ForkReturn(k) == k.s.lastPid + 1
    ensures PerfectClone(k.m, k'.m, k.s.current, k.s.queues[FREE][0])
  {
    PlainForkKeeps(k, k');
    LiveFork(k.s, true);
    ForkClones(k, k');
  }
}
