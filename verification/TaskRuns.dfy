/** Whole runs of the task machine: safety, the idle fallback, semaphores, bounded waiting. */
module TaskRuns {
  import opened Tasks
  import opened TaskInvariant
  import opened TaskTheorem

  /** A run: every entry is enabled and safe where it happens. */
  ghost predicate Legal(s: Sys, es: seq<Event>)
    decreases |es|
  {
    es == [] || (Enabled(s, es[0]) && Safe(s, es[0]) && Legal(Step(s, es[0]), es[1..]))
  }

  ghost function Final(s: Sys, es: seq<Event>): Sys
    requires Legal(s, es)
    decreases |es|
  {
    if es == [] then s else Final(Step(s, es[0]), es[1..])
  }

  /** Safety of whole runs. */
  lemma {:induction false} RunKeeps(s: Sys, es: seq<Event>)
    requires Inv(s) && Legal(s, es)
    ensures Inv(Final(s, es))
    decreases |es|
  {
    if es != [] {
      StepKeepsIffSafe(s, es[0]);
      RunKeeps(Step(s, es[0]), es[1..]);
    }
  }

  /** In every state reachable from boot each slot is in exactly one place with the right state. */
  lemma ReachablePartition(es: seq<Event>)
    requires Legal(Boot(), es)
    ensures var s := Final(Boot(), es);
            && Inv(s)
            && forall t: nat :: t < NR_TASKS && t != s.idle ==> Contents(s)[t] == 1
  {
    BootInv();
    RunKeeps(Boot(), es);
  }

  // ---- dispatching

  datatype Option<T> = None | Some(value: T)

  /** The state in which an entry calls sched_next_rr, if it does. */
  function DispatchFrom(s: Sys, e: Event): Option<Sys>
    requires Enabled(s, e)
  {
    match e
    case Tick =>
      if s.remaining == 1 && s.queues[READY] != [] then Some(Preempted(s.(remaining := 0))) else None
    case Yield => Some(Preempted(s))
    case Exit => Some(Retired(s, true))
    case ThreadExit => Some(Retired(s, false))
    case SemWait(id) => if Accepted(s, id) && s.sems[id].count <= 0 then Some(Parked(s, id)) else None
    case _ => None
  }

  /** Does the entry give the CPU to idle because nobody is ready? */
  predicate Fallback(s: Sys, e: Event)
    requires Enabled(s, e)
  {
    DispatchFrom(s, e).Some? && DispatchFrom(s, e).value.queues[READY] == []
  }

  /** A signal that finds somebody blocked. */
  predicate Waking(s: Sys, e: Event)
    requires Enabled(s, e)
  {
    e.SemSignal? && Accepted(s, e.id) && s.sems[e.id].count < 0
  }

  /** An entry that dispatches does so with the old ready ring in front. */
  lemma SwitchReady(s: Sys, e: Event)
    requires Inv(s) && Enabled(s, e) && DispatchFrom(s, e).Some?
    ensures var x := DispatchFrom(s, e).value;
            && Shape(x) && x.idle == s.idle && Step(s, e) == Dispatch(x)
            && s.queues[READY] <= x.queues[READY]
            && (s.current == s.idle ==> s.idle in x.queues[READY])
            && (s.idle in x.queues[READY] ==> s.idle in s.queues[READY] || s.idle == s.current)
  {
  }

  /** Any other entry keeps the CPU; it may add ready tasks behind, or at a wake-up one in front. */
  lemma QuietReady(s: Sys, e: Event)
    requires Inv(s) && Enabled(s, e) && DispatchFrom(s, e).None?
    ensures Shape(Step(s, e)) && Step(s, e).idle == s.idle && Step(s, e).current == s.current
    ensures s.idle in Step(s, e).queues[READY] ==> s.idle in s.queues[READY]
    ensures Waking(s, e) ==> Step(s, e).queues[READY] == [s.queues[SemQueue(e.id)][0]] + s.queues[READY]
    ensures !Waking(s, e) ==> s.queues[READY] <= Step(s, e).queues[READY]
  {
    if e.Fork? || e.ThreadCreate? {
      QuietCreate(s, e);
    } else if e.SemSignal? {
      if Waking(s, e) {
        assert s.queues[SemQueue(e.id)][0] in s.queues[SemQueue(e.id)];
      }
    } else if e.SemDestroy? {
      if Accepted(s, e.id) {
        DrainExact(s, e.id);
      }
    }
  }

  lemma QuietCreate(s: Sys, e: Event)
    requires Inv(s) && Enabled(s, e) && (e.Fork? || e.ThreadCreate?)
    ensures Shape(Step(s, e)) && Step(s, e).idle == s.idle && Step(s, e).current == s.current
    ensures s.idle in Step(s, e).queues[READY] ==> s.idle in s.queues[READY]
    ensures s.queues[READY] <= Step(s, e).queues[READY]
  {
    assert s.queues[FREE] != [] ==> s.queues[FREE][0] in s.queues[FREE];
  }

  predicate IdlePresent(s: Sys) {
    Shape(s) && (s.current == s.idle || s.idle in s.queues[READY])
  }

  /** Once idle has run it is always running or ready, and nothing falls back on it again. */
  lemma IdleStays(s: Sys, e: Event)
    requires Inv(s) && Enabled(s, e)
    ensures IdlePresent(s) ==> IdlePresent(Step(s, e)) && !Fallback(s, e)
    ensures !IdlePresent(s) ==> (IdlePresent(Step(s, e)) <==> Fallback(s, e))
    ensures Step(s, e).idle == s.idle
  {
    if DispatchFrom(s, e).Some? {
      SwitchReady(s, e);
      var x := DispatchFrom(s, e).value;
      if x.queues[READY] != [] {
        assert x.queues[READY] == [x.queues[READY][0]] + x.queues[READY][1..];
      }
    } else {
      QuietReady(s, e);
    }
  }

  ghost function Fallbacks(s: Sys, es: seq<Event>): nat
    requires Legal(s, es)
    decreases |es|
  {
    if es == [] then 0
    else (if Fallback(s, es[0]) then 1 else 0) + Fallbacks(Step(s, es[0]), es[1..])
  }

  /** The empty-queue branch of sched_next_rr is taken at most once in a run. */
  lemma {:induction false} FallbackAtMostOnce(s: Sys, es: seq<Event>)
    requires Inv(s) && Legal(s, es)
    ensures Fallbacks(s, es) <= 1
    ensures IdlePresent(s) ==> Fallbacks(s, es) == 0 && IdlePresent(Final(s, es))
    decreases |es|
  {
    if es != [] {
      StepKeepsIffSafe(s, es[0]);
      IdleStays(s, es[0]);
      FallbackAtMostOnce(Step(s, es[0]), es[1..]);
    }
  }

  /** Slots are conserved: a safe entry changes the contents only by bringing idle in, once. */
  lemma SlotsConserved(s: Sys, e: Event)
    requires Inv(s) && Enabled(s, e) && Safe(s, e)
    ensures Contents(Step(s, e)) == if Fallback(s, e) then Contents(s) + multiset{s.idle} else Contents(s)
  {
    var s' := Step(s, e);
    StepKeepsIffSafe(s, e);
    IdleStays(s, e);
    IdleCount(s);
    IdleCount(s');
    forall t: nat
      ensures t != s.idle ==> Contents(s')[t] == Contents(s)[t]
    {
      assert Contents(s)[t] <= 1 && Contents(s')[t] <= 1;
    }
  }

  lemma IdleCount(s: Sys)
    requires Inv(s)
    ensures Contents(s)[s.idle] == if IdlePresent(s) then 1 else 0
  {
    if IdlePresent(s) {
      if s.idle in s.queues[READY] {
        PoolHas(s.queues, READY);
        assert s.idle in multiset(s.queues[READY]);
      }
      assert Contents(s)[s.idle] >= 1;
    } else if s.idle in Pool(s.queues) {
      var k := PoolWitness(s.queues, s.idle);
      assert false;
    }
  }

  // ---- bounded waiting

  function Ticks(es: seq<Event>): nat {
    if es == [] then 0 else (if es[0].Tick? then 1 else 0) + Ticks(es[1..])
  }

  ghost function WakeUps(s: Sys, es: seq<Event>): nat
    requires Legal(s, es)
    decreases |es|
  {
    if es == [] then 0
    else (if Waking(s, es[0]) then 1 else 0) + WakeUps(Step(s, es[0]), es[1..])
  }

  /** Has `t` been on the CPU in some state of the run? */
  ghost predicate HasRun(s: Sys, es: seq<Event>, t: nat)
    requires Legal(s, es)
    decreases |es|
  {
    s.current == t || (es != [] && HasRun(Step(s, es[0]), es[1..], t))
  }

  predicate AtPosition(s: Sys, t: nat, k: int) {
    |s.queues| == NUM_QUEUES && 0 <= k < |s.queues[READY]| && s.queues[READY][k] == t
  }

  /** A ready task moves up one at each dispatch, down one only at a wake-up, and otherwise stays. */
  lemma PositionStep(s: Sys, e: Event, t: nat, k: nat)
    requires Inv(s) && Enabled(s, e) && AtPosition(s, t, k)
    ensures DispatchFrom(s, e).Some? && k == 0 ==> Step(s, e).current == t
    ensures DispatchFrom(s, e).Some? && k > 0 ==> AtPosition(Step(s, e), t, k - 1)
    ensures DispatchFrom(s, e).None? ==> AtPosition(Step(s, e), t, if Waking(s, e) then k + 1 else k)
  {
    if DispatchFrom(s, e).Some? {
      SwitchReady(s, e);
    } else {
      QuietReady(s, e);
    }
  }

  /** Ticks left before `t` must run, counting ten for each task ahead of it. */
  function Patience(s: Sys, k: nat): int {
    s.remaining + DEFAULT_QUANTUM * k
  }

  /** While `t` waits, each tick costs one unit of patience and only a wake-up gives ten back. */
  lemma {:induction false} WaitCost(s: Sys, es: seq<Event>, t: nat, k: nat)
    requires Inv(s) && Legal(s, es) && AtPosition(s, t, k)
    requires !HasRun(s, es, t)
    ensures Ticks(es) < s.remaining + 10 * k + 10 * WakeUps(s, es)
    decreases |es|
  {
    if es != [] {
      var e := es[0];
      var s' := Step(s, e);
      StepKeepsIffSafe(s, e);
      PositionStep(s, e, t, k);
      RemainingStep(s, e);
      var k' := if DispatchFrom(s, e).Some? then k - 1 else if Waking(s, e) then k + 1 else k;
      WaitCost(s', es[1..], t, k');
    }
  }

  lemma RemainingStep(s: Sys, e: Event)
    requires Inv(s) && Enabled(s, e) && Safe(s, e)
    ensures DispatchFrom(s, e).Some? ==> Step(s, e).remaining == DEFAULT_QUANTUM
    ensures DispatchFrom(s, e).None? && !e.Tick? ==> Step(s, e).remaining == s.remaining
    ensures DispatchFrom(s, e).None? && e.Tick? && s.queues[READY] != [] ==> Step(s, e).remaining == s.remaining - 1
  {
    if DispatchFrom(s, e).Some? {
      SwitchReady(s, e);
      StepKeepsIffSafe(s, e);
      FullQuantum(DispatchFrom(s, e).value);
    } else if e.SemDestroy? && Accepted(s, e.id) {
      DrainExact(s, e.id);
    }
  }

  /** Whoever is dispatched gets ten ticks. */
  lemma FullQuantum(x: Sys)
    requires Shape(x) && Inv(Dispatch(x))
    ensures Dispatch(x).remaining == DEFAULT_QUANTUM
  {
    var s' := Dispatch(x);
    assert s'.remaining == s'.tasks[s'.current].quantum;
    if s'.current in s'.queues[FREE] {
      Alone(s'.queues, multiset{s'.current}, s'.idle, FREE, s'.current);
    }
  }

  /** A task with k tasks ahead of it runs within 10 * (k + 1 + w) ticks, w being the wake-ups meanwhile. */
  lemma BoundedWaiting(s: Sys, es: seq<Event>, t: nat, k: nat)
    requires Inv(s) && Legal(s, es) && AtPosition(s, t, k)
    requires Ticks(es) >= 10 * (k + 1 + WakeUps(s, es))
    ensures HasRun(s, es, t)
  {
    if !HasRun(s, es, t) {
      WaitCost(s, es, t, k);
    }
  }

  // ---- the unsafe entries are reachable

  lemma BootFacts()
    ensures var s := Boot();
            && s.current == 1 && s.idle == 0 && s.tasks[1].state == Run
            && s.queues[FREE] == [2, 3, 4, 5, 6, 7, 8, 9] && s.queues[READY] == []
            && s.sems[0].semid == -1 && FirstUnused(s.sems, 0) == 0
  {
  }

  /** From boot a semaphore created in debt breaks the invariant at once. */
  lemma DebtAtBoot()
    ensures Enabled(Boot(), SemCreate(-1)) && !Inv(Step(Boot(), SemCreate(-1)))
  {
    BootFacts();
    BootInv();
    StepKeepsIffSafe(Boot(), SemCreate(-1));
  }

  /** A semaphore not in use has an empty ring, so creating one orphans nobody. */
  lemma CreateOrphansNobody(s: Sys, value: int)
    requires Inv(s)
    ensures SemCreateStep(s, value).0.queues == s.queues
  {
    var i := FirstUnused(s.sems, 0);
    if i < NUM_SEM {
      assert SemOk(s, i);
    }
  }

  /** Somebody who can start a thread, create semaphore 0 and wait on it. */
  ghost predicate Stage0(s: Sys) {
    && Inv(s) && s.current != s.idle && |s.queues[FREE]| >= 2 && s.queues[FREE][0] != s.idle
    && s.queues[READY] == [] && FirstUnused(s.sems, 0) == 0
  }

  ghost predicate Stage1(s: Sys) {
    && Inv(s) && s.current != s.idle && s.queues[FREE] != []
    && |s.queues[READY]| == 1 && s.queues[READY][0] != s.idle && FirstUnused(s.sems, 0) == 0
  }

  ghost predicate Stage2(s: Sys) {
    && Inv(s) && s.current != s.idle && s.queues[FREE] != []
    && |s.queues[READY]| == 1 && s.queues[READY][0] != s.idle
    && s.sems[0] == Sem(0, 0, s.tasks[s.current].pid)
  }

  ghost predicate Stage3(s: Sys) {
    Inv(s) && s.current != s.idle && s.queues[FREE] != [] && s.queues[SemQueue(0)] != []
  }

  /** A threadCreate as init makes it from boot: its heap starts at page 304 and frames are left. */
  function FirstThread(): Event {
    ThreadCreate(true, 304, true)
  }

  lemma ToStage1(s: Sys)
    requires Stage0(s)
    ensures Enabled(s, FirstThread()) && Safe(s, FirstThread()) && Stage1(Step(s, FirstThread()))
  {
    StepKeepsIffSafe(s, FirstThread());
  }

  lemma ToStage2(s: Sys)
    requires Stage1(s)
    ensures Enabled(s, SemCreate(0)) && Safe(s, SemCreate(0)) && Stage2(Step(s, SemCreate(0)))
  {
    StepKeepsIffSafe(s, SemCreate(0));
    CreateOrphansNobody(s, 0);
  }

  lemma ToStage3(s: Sys)
    requires Stage2(s)
    ensures Enabled(s, SemWait(0)) && Safe(s, SemWait(0)) && Stage3(Step(s, SemWait(0)))
    ensures s.current in Step(s, SemWait(0)).queues[SemQueue(0)]
  {
    StepKeepsIffSafe(s, SemWait(0));
    assert Step(s, SemWait(0)).queues[SemQueue(0)][0] == s.current;
  }

  lemma Stage3Orphans(s: Sys, w: nat)
    requires Stage3(s) && w in s.queues[SemQueue(0)]
    ensures Enabled(s, Fork(true)) && !Inv(Step(s, Fork(true))) && Contents(Step(s, Fork(true)))[w] == 0
  {
    StepKeepsIffSafe(s, Fork(true));
    ForkOrphans(s, true, 0, w);
  }

  lemma RunOfThree(s: Sys, a: Event, b: Event, c: Event)
    requires Enabled(s, a) && Safe(s, a)
    requires var s1 := Step(s, a); Enabled(s1, b) && Safe(s1, b)
    requires var s2 := Step(Step(s, a), b); Enabled(s2, c) && Safe(s2, c)
    ensures Legal(s, [a, b, c]) && Final(s, [a, b, c]) == Step(Step(Step(s, a), b), c)
  {
    var s1 := Step(s, a);
    var s2 := Step(s1, b);
    var s3 := Step(s2, c);
    assert [a, b, c][1..] == [b, c] && [b, c][1..] == [c] && [c][1..] == [];
    assert Legal(s3, []) && Final(s3, []) == s3;
    assert Legal(s2, [c]) && Final(s2, [c]) == s3;
    assert Legal(s1, [b, c]) && Final(s1, [b, c]) == s3;
  }

  /** init starts a thread, creates a semaphore with value 0 and waits on it; then the thread forks and init is lost. */
  lemma ForkOrphansInit()
    ensures var es := [FirstThread(), SemCreate(0), SemWait(0)];
            && Legal(Boot(), es)
            && Enabled(Final(Boot(), es), Fork(true))
            && !Inv(Step(Final(Boot(), es), Fork(true)))
            && Contents(Step(Final(Boot(), es), Fork(true)))[1] == 0
  {
    var s := Boot();
    BootFacts();
    BootInv();
    ToStage1(s);
    var s1 := Step(s, FirstThread());
    ToStage2(s1);
    var s2 := Step(s1, SemCreate(0));
    ToStage3(s2);
    assert s2.current == 1;
    Stage3Orphans(Step(s2, SemWait(0)), 1);
    RunOfThree(s, FirstThread(), SemCreate(0), SemWait(0));
  }
}
