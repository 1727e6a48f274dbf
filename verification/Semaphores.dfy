/**
  Semaphore accounting over whole runs.

  A ledger counts the accepted waits and signals on one semaphore and remembers which tasks
  hold a granted wait: the caller of a wait that did not block, and every task a signal woke.
 */
module Semaphores {
  import opened Tasks
  import opened TaskInvariant
  import opened TaskTheorem
  import opened TaskRuns

  datatype Ledger = Ledger(waits: nat, signals: nat, inside: multiset<nat>)

  const EMPTY := Ledger(0, 0, multiset{})

  /** One entry's effect on the ledger of semaphore id. */
  function Record(s: Sys, e: Event, id: nat, l: Ledger): Ledger
    requires Enabled(s, e) && id < NUM_SEM
  {
    if e == SemWait(id) && Accepted(s, id) then
      if s.sems[id].count > 0 then Ledger(l.waits + 1, l.signals, l.inside + multiset{s.current})
      else l.(waits := l.waits + 1)
    else if e == SemSignal(id) && Accepted(s, id) then
      var left := l.inside - multiset{s.current};
      if s.sems[id].count < 0 then Ledger(l.waits, l.signals + 1, left + multiset{s.queues[SemQueue(id)][0]})
      else Ledger(l.waits, l.signals + 1, left)
    else l
  }

  ghost function Account(s: Sys, es: seq<Event>, id: nat, l: Ledger): Ledger
    requires Legal(s, es) && id < NUM_SEM
    decreases |es|
  {
    if es == [] then l else Account(Step(s, es[0]), es[1..], id, Record(s, es[0], id, l))
  }

  /** The entry neither destroys semaphore id nor, as a fork with a free slot, resets them all. */
  predicate Spares(s: Sys, e: Event, id: nat)
    requires Enabled(s, e) && id < NUM_SEM
  {
    && !(e == SemDestroy(id) && Accepted(s, id))
    && (e.Fork? ==> s.queues[FREE] == [])
  }

  ghost predicate Lasting(s: Sys, es: seq<Event>, id: nat)
    requires Legal(s, es) && id < NUM_SEM
    decreases |es|
  {
    es == [] || (Spares(s, es[0], id) && Lasting(Step(s, es[0]), es[1..], id))
  }

  /** Every accepted signal comes from a task that holds a granted wait. */
  ghost predicate Disciplined(s: Sys, es: seq<Event>, id: nat, l: Ledger)
    requires Legal(s, es) && id < NUM_SEM
    decreases |es|
  {
    es == [] ||
    (&& (es[0] == SemSignal(id) && Accepted(s, id) ==> s.current in l.inside)
     && Disciplined(Step(s, es[0]), es[1..], id, Record(s, es[0], id, l)))
  }

  /** How one entry moves the counter of a lasting semaphore. */
  lemma CountStep(s: Sys, e: Event, id: nat, l: Ledger)
    requires Inv(s) && Enabled(s, e) && id < NUM_SEM && s.sems[id].semid == id && Spares(s, e, id)
    ensures var s' := Step(s, e);
            var l' := Record(s, e, id, l);
            && |s'.sems| == NUM_SEM
            && s'.sems[id].semid == id
            && s'.sems[id].count == s.sems[id].count + (l'.signals - l.signals) - (l'.waits - l.waits)
  {
    if e.SemDestroy? && Accepted(s, e.id) {
      DrainExact(s, e.id);
    }
  }

  /** count = v + signals - waits, from any state in which it is v to the end of the run. */
  lemma {:induction false} CountLaw(s: Sys, es: seq<Event>, id: nat, l: Ledger)
    requires Inv(s) && Legal(s, es) && id < NUM_SEM && s.sems[id].semid == id && Lasting(s, es, id)
    ensures var s' := Final(s, es);
            var l' := Account(s, es, id, l);
            && Inv(s') && s'.sems[id].semid == id
            && s'.sems[id].count == s.sems[id].count + (l'.signals - l.signals) - (l'.waits - l.waits)
    decreases |es|
  {
    if es != [] {
      StepKeepsIffSafe(s, es[0]);
      CountStep(s, es[0], id, l);
      CountLaw(Step(s, es[0]), es[1..], id, Record(s, es[0], id, l));
    }
  }

  /**
    No lost wake-up: after semCreate(v) returned id, and until the semaphore is destroyed or reset,
    max(0, -count) tasks are blocked, the granted waits never exceed v + signals, and they equal it
    whenever somebody is blocked.
   */
  lemma SemaphoreSafety(s0: Sys, v: nat, id: nat, es: seq<Event>)
    requires Inv(s0) && Enabled(s0, SemCreate(v)) && SemCreateStep(s0, v).1 == id
    requires var s := Step(s0, SemCreate(v)); Legal(s, es) && id < NUM_SEM && Lasting(s, es, id)
    ensures var s := Step(s0, SemCreate(v));
            var s' := Final(s, es);
            var l := Account(s, es, id, EMPTY);
            && |s'.sems| == NUM_SEM && |s'.queues| == NUM_QUEUES
            && var blocked := |s'.queues[SemQueue(id)]|;
            && s'.sems[id].count == v + l.signals - l.waits
            && blocked == Waiters(s'.sems[id].count)
            && l.waits - blocked <= v + l.signals
            && (blocked > 0 ==> l.waits - blocked == v + l.signals)
  {
    var s := Step(s0, SemCreate(v));
    StepKeepsIffSafe(s0, SemCreate(v));
    assert s.sems[id] == Sem(id, v, s0.tasks[s0.current].pid);
    CountLaw(s, es, id, EMPTY);
    assert SemOk(Final(s, es), id);
  }

  function Positive(count: int): nat {
    if count > 0 then count else 0
  }

  /** One entry moves a permit between the semaphore and its holders, or does neither. */
  lemma HoldersStep(s: Sys, e: Event, id: nat, l: Ledger)
    requires Inv(s) && Enabled(s, e) && id < NUM_SEM && s.sems[id].semid == id && Spares(s, e, id)
    requires e == SemSignal(id) && Accepted(s, id) ==> s.current in l.inside
    ensures |Step(s, e).sems| == NUM_SEM && Step(s, e).sems[id].semid == id
    ensures |Record(s, e, id, l).inside| + Positive(Step(s, e).sems[id].count) == |l.inside| + Positive(s.sems[id].count)
  {
    CountStep(s, e, id, l);
  }

  /** With the discipline, holders and spare permits always add up to the initial value. */
  lemma {:induction false} HoldersLaw(s: Sys, es: seq<Event>, id: nat, l: Ledger, v: nat)
    requires Inv(s) && Legal(s, es) && id < NUM_SEM && s.sems[id].semid == id && Lasting(s, es, id)
    requires Disciplined(s, es, id, l)
    requires |l.inside| + Positive(s.sems[id].count) == v
    ensures |Final(s, es).sems| == NUM_SEM
    ensures |Account(s, es, id, l).inside| + Positive(Final(s, es).sems[id].count) == v
    decreases |es|
  {
    if es != [] {
      StepKeepsIffSafe(s, es[0]);
      HoldersStep(s, es[0], id, l);
      HoldersLaw(Step(s, es[0]), es[1..], id, Record(s, es[0], id, l), v);
    }
  }

  /** At most v tasks are inside; v = 1 is mutual exclusion. */
  lemma MutualExclusion(s0: Sys, v: nat, id: nat, es: seq<Event>)
    requires Inv(s0) && Enabled(s0, SemCreate(v)) && SemCreateStep(s0, v).1 == id
    requires var s := Step(s0, SemCreate(v)); Legal(s, es) && id < NUM_SEM && Lasting(s, es, id)
    requires Disciplined(Step(s0, SemCreate(v)), es, id, EMPTY)
    ensures |Account(Step(s0, SemCreate(v)), es, id, EMPTY).inside| <= v
  {
    var s := Step(s0, SemCreate(v));
    StepKeepsIffSafe(s0, SemCreate(v));
    assert s.sems[id] == Sem(id, v, s0.tasks[s0.current].pid);
    HoldersLaw(s, es, id, EMPTY, v);
  }

  // ---- waiters form a stack

  /** Entries that do not touch the ring of semaphore id. */
  predicate Ignores(s: Sys, e: Event, id: nat)
    requires Enabled(s, e) && id < NUM_SEM
  {
    Spares(s, e, id) && !(e == SemWait(id) && Accepted(s, id)) && !(e == SemSignal(id) && Accepted(s, id))
  }

  ghost predicate Undisturbed(s: Sys, es: seq<Event>, id: nat)
    requires Legal(s, es) && id < NUM_SEM
    decreases |es|
  {
    es == [] || (Ignores(s, es[0], id) && Undisturbed(Step(s, es[0]), es[1..], id))
  }

  lemma RingStep(s: Sys, e: Event, id: nat)
    requires Inv(s) && Enabled(s, e) && id < NUM_SEM && s.sems[id].semid == id && Ignores(s, e, id)
    ensures var s' := Step(s, e);
            && |s'.queues| == NUM_QUEUES && |s'.sems| == NUM_SEM
            && s'.queues[SemQueue(id)] == s.queues[SemQueue(id)] && s'.sems[id] == s.sems[id]
  {
    if DispatchFrom(s, e).Some? {
      RingSwitch(s, e, id);
    } else if e.SemDestroy? && Accepted(s, e.id) {
      DrainExact(s, e.id);
    }
  }

  /** Dispatching touches no semaphore's ring. */
  lemma RingSwitch(s: Sys, e: Event, id: nat)
    requires Inv(s) && Enabled(s, e) && id < NUM_SEM && DispatchFrom(s, e).Some? && Ignores(s, e, id)
    ensures var s' := Step(s, e);
            && |s'.queues| == NUM_QUEUES && |s'.sems| == NUM_SEM
            && s'.queues[SemQueue(id)] == s.queues[SemQueue(id)] && s'.sems[id] == s.sems[id]
  {
    SwitchReady(s, e);
    var x := DispatchFrom(s, e).value;
    assert x.queues[SemQueue(id)] == s.queues[SemQueue(id)] && x.sems[id] == s.sems[id];
  }

  lemma {:induction false} RingRun(s: Sys, es: seq<Event>, id: nat)
    requires Inv(s) && Legal(s, es) && id < NUM_SEM && s.sems[id].semid == id && Undisturbed(s, es, id)
    ensures var s' := Final(s, es);
            && Inv(s')
            && s'.queues[SemQueue(id)] == s.queues[SemQueue(id)] && s'.sems[id] == s.sems[id]
    decreases |es|
  {
    if es != [] {
      StepKeepsIffSafe(s, es[0]);
      RingStep(s, es[0], id);
      RingRun(Step(s, es[0]), es[1..], id);
    }
  }

  /** The next accepted signal wakes the most recently blocked task, whatever happened in between. */
  lemma WakesNewest(s0: Sys, id: nat, es: seq<Event>)
    requires Inv(s0) && id < NUM_SEM && Enabled(s0, SemWait(id))
    requires Accepted(s0, id) && s0.sems[id].count <= 0
    requires var s := Step(s0, SemWait(id)); Legal(s, es) && Undisturbed(s, es, id)
    requires var s1 := Final(Step(s0, SemWait(id)), es); Enabled(s1, SemSignal(id)) && Accepted(s1, id)
    ensures var s1 := Final(Step(s0, SemWait(id)), es);
            var s2 := Step(s1, SemSignal(id));
            && Inv(s2)
            && s2.queues[READY] == [s0.current] + s1.queues[READY]
            && s2.queues[SemQueue(id)] == s0.queues[SemQueue(id)]
            && s2.tasks[s0.current].state == Ready
            && s2.sems[id].count == s0.sems[id].count
  {
    var s := Step(s0, SemWait(id));
    StepKeepsIffSafe(s0, SemWait(id));
    assert s.queues[SemQueue(id)] == [s0.current] + s0.queues[SemQueue(id)];
    RingRun(s, es, id);
    StepKeepsIffSafe(Final(s, es), SemSignal(id));
  }
}
