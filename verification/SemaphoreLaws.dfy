/**
  The life of a semaphore over whole runs: whose calls move it, how long its creator may use it, and that
  after its destruction nobody can until it is created again.
 */
module SemaphoreLaws {
  import opened Tasks
  import opened TaskInvariant
  import opened TaskTheorem
  import opened TaskRuns
  import opened EntryLaws

  /** The PID of the calling task. */
  function Caller(s: Sys): int
    requires Shape(s)
  {
    s.tasks[s.current].pid
  }

  /** A call on semaphore id. */
  predicate CallOn(e: Event, id: int) {
    e == SemWait(id) || e == SemSignal(id) || e == SemDestroy(id)
  }

  /** A fork that finds a free slot blanks all semaphores. */
  predicate Blanks(s: Sys, e: Event)
    requires Shape(s)
  {
    e.Fork? && s.queues[0] != []
  }

  // ---- one entry

  /** Entries other than semaphore calls and a fork with a free slot leave all semaphores and their rings alone. */
  lemma OtherEntries(s: Sys, e: Event, id: nat)
    requires Inv(s) && Enabled(s, e) && id < 10 && !Blanks(s, e)
    requires !e.SemCreate? && !e.SemWait? && !e.SemSignal? && !e.SemDestroy?
    ensures var s' := Step(s, e); Shape(s') && s'.sems[id] == s.sems[id] && s'.queues[2 + id] == s.queues[2 + id]
  {
    if e.Tick? {
      TickLaw(s);
    } else if e.Yield? {
      YieldLaw(s);
    } else if e.Exit? || e.ThreadExit? {
      ExitLaw(s, e);
    } else if e.Fork? {
      ForkLaw(s, e.frames);
    } else {
      ThreadLaw(s, e.accessOk, e.page, e.frame);
    }
  }

  /** Calls on other semaphores, and the creation of others, do too. */
  lemma OtherSemaphores(s: Sys, e: Event, id: nat)
    requires Inv(s) && Enabled(s, e) && id < 10 && !CallOn(e, id)
    requires e.SemCreate? || e.SemWait? || e.SemSignal? || e.SemDestroy?
    requires e.SemCreate? ==> SemCreateStep(s, e.value).1 != id
    ensures var s' := Step(s, e); Shape(s') && s'.sems[id] == s.sems[id] && s'.queues[2 + id] == s.queues[2 + id]
  {
    if e.SemCreate? {
      CreateLaw(s, e.value);
      assert (forall i :: 0 <= i < 10 ==> s.sems[i].semid != -1) || exists i :: 0 <= i < 10 && s.sems[i].semid == -1;
    } else if !Owner(s, e.id) {
      StrangerLaw(s, e.id);
    } else if e.SemWait? {
      WaitLaw(s, e.id);
    } else if e.SemSignal? {
      SignalLaw(s, e.id);
    } else {
      DestroyLaw(s, e.id);
    }
  }

  /** Does the entry bring semaphore id into use? */
  predicate Creates(s: Sys, e: Event, id: int)
    requires Shape(s)
  {
    e.SemCreate? && SemCreateStep(s, e.value).1 == id
  }

  /** Nobody but tasks with the creator's PID, and a fork that blanks everything, moves a semaphore in use. */
  lemma OnlyOwnerMoves(s: Sys, e: Event, id: nat)
    requires Inv(s) && Enabled(s, e) && id < 10 && s.sems[id].semid == id
    requires !Blanks(s, e) && !(CallOn(e, id) && Caller(s) == s.sems[id].pid)
    ensures var s' := Step(s, e); Shape(s') && s'.sems[id] == s.sems[id] && s'.queues[2 + id] == s.queues[2 + id]
  {
    if CallOn(e, id) {
      StrangerLaw(s, id);
    } else if e.SemCreate? || e.SemWait? || e.SemSignal? || e.SemDestroy? {
      if e.SemCreate? {
        CreateLaw(s, e.value);
      }
      OtherSemaphores(s, e, id);
    } else {
      OtherEntries(s, e, id);
    }
  }

  /** A semaphore in use keeps its number and its creator until that PID destroys it or a fork blanks it. */
  lemma OwnerStays(s: Sys, e: Event, id: nat)
    requires Inv(s) && Enabled(s, e) && id < 10 && s.sems[id].semid == id
    requires !Blanks(s, e) && !(e == SemDestroy(id) && Caller(s) == s.sems[id].pid)
    ensures var s' := Step(s, e); Shape(s') && s'.sems[id].semid == id && s'.sems[id].pid == s.sems[id].pid
  {
    if CallOn(e, id) && Caller(s) == s.sems[id].pid {
      if e.SemWait? {
        WaitLaw(s, id);
      } else {
        SignalLaw(s, id);
      }
    } else {
      OnlyOwnerMoves(s, e, id);
    }
  }

  /** A semaphore not in use comes into use only by the semCreate that returns its number. */
  lemma UnusedStays(s: Sys, e: Event, id: nat)
    requires Inv(s) && Enabled(s, e) && id < 10 && s.sems[id].semid == -1 && !Creates(s, e, id)
    ensures var s' := Step(s, e); Shape(s') && s'.sems[id].semid == -1
  {
    if Blanks(s, e) {
      ForkLaw(s, e.frames);
    } else if CallOn(e, id) {
      StrangerLaw(s, id);
    } else if e.SemCreate? || e.SemWait? || e.SemSignal? || e.SemDestroy? {
      OtherSemaphores(s, e, id);
    } else {
      OtherEntries(s, e, id);
    }
  }

  // ---- whole runs

  /** No entry of the run satisfies p where it happens. */
  ghost predicate Never(s: Sys, es: seq<Event>, p: (Sys, Event) -> bool)
    requires Legal(s, es)
    decreases |es|
  {
    es == [] || (!p(s, es[0]) && Never(Step(s, es[0]), es[1..], p))
  }

  /** The entry ends or blanks semaphore id of process pid. */
  predicate Ends(s: Sys, e: Event, id: int, pid: int) {
    Shape(s) && (Blanks(s, e) || (e == SemDestroy(id) && Caller(s) == pid))
  }

  /** The entry may move semaphore id of process pid. */
  predicate Moves(s: Sys, e: Event, id: int, pid: int) {
    Shape(s) && (Blanks(s, e) || (CallOn(e, id) && Caller(s) == pid))
  }

  predicate Begins(s: Sys, e: Event, id: int) {
    Shape(s) && Creates(s, e, id)
  }

  /**
    After semCreate has returned id, every task with the creator's PID may use the semaphore, and nobody
    else, until that PID destroys it or a fork blanks it.
   */
  lemma {:induction false} CreatorMayUse(s: Sys, es: seq<Event>, id: nat, pid: int)
    requires Inv(s) && Legal(s, es) && id < 10 && s.sems[id].semid == id && s.sems[id].pid == pid
    requires Never(s, es, (s, e) => Ends(s, e, id, pid))
    ensures var s' := Final(s, es); Inv(s') && (Owner(s', id) <==> Caller(s') == pid)
    decreases |es|
  {
    if es != [] {
      OwnerStays(s, es[0], id);
      StepKeepsIffSafe(s, es[0]);
      CreatorMayUse(Step(s, es[0]), es[1..], id, pid);
    }
  }

  /** Count and ring of a semaphore stay as they are while no task with the creator's PID calls on it. */
  lemma {:induction false} OthersCannotMove(s: Sys, es: seq<Event>, id: nat, pid: int)
    requires Inv(s) && Legal(s, es) && id < 10 && s.sems[id].semid == id && s.sems[id].pid == pid
    requires Never(s, es, (s, e) => Moves(s, e, id, pid))
    ensures var s' := Final(s, es); Inv(s') && s'.sems[id] == s.sems[id] && s'.queues[2 + id] == s.queues[2 + id]
    decreases |es|
  {
    if es != [] {
      OnlyOwnerMoves(s, es[0], id);
      StepKeepsIffSafe(s, es[0]);
      OthersCannotMove(Step(s, es[0]), es[1..], id, pid);
    }
  }

  lemma {:induction false} UnusedUntilCreated(s: Sys, es: seq<Event>, id: nat)
    requires Inv(s) && Legal(s, es) && id < 10 && s.sems[id].semid == -1
    requires Never(s, es, (s, e) => Begins(s, e, id))
    ensures var s' := Final(s, es); Inv(s') && s'.sems[id].semid == -1
    decreases |es|
  {
    if es != [] {
      UnusedStays(s, es[0], id);
      StepKeepsIffSafe(s, es[0]);
      UnusedUntilCreated(Step(s, es[0]), es[1..], id);
    }
  }

  /**
    After its owner has destroyed semaphore id, wait, signal and destroy on it return -1 and do nothing,
    whoever calls, until a semCreate returns id.
   */
  lemma DestroyedIsGone(s: Sys, id: nat, es: seq<Event>)
    requires Inv(s) && s.current != s.idle && Owner(s, id)
    requires var s1 := Step(s, SemDestroy(id)); Legal(s1, es) && Never(s1, es, (s, e) => Begins(s, e, id))
    ensures var s2 := Final(Step(s, SemDestroy(id)), es);
            && Inv(s2) && SignalDefined(s2, id)
            && SemWaitStep(s2, id) == (s2, -1) && SemSignalStep(s2, id) == (s2, -1) && SemDestroyStep(s2, id) == (s2, -1)
  {
    DestroyLaw(s, id);
    StepKeepsIffSafe(s, SemDestroy(id));
    UnusedUntilCreated(Step(s, SemDestroy(id)), es, id);
    StrangerLaw(Final(Step(s, SemDestroy(id)), es), id);
  }

  /** The number destroyed is free again: the next semCreate returns the smallest unused one, id included. */
  lemma DestroyedIsFree(s: Sys, id: nat, value: int)
    requires Inv(s) && s.current != s.idle && Owner(s, id)
    ensures var s1, r := Step(s, SemDestroy(id)), SemCreateStep(s, value).1;
            Shape(s1) && SemCreateStep(s1, value).1 == if 0 <= r < id then r else id
  {
    DestroyLaw(s, id);
    StepKeepsIffSafe(s, SemDestroy(id));
    var s1 := Step(s, SemDestroy(id));
    CreateLaw(s, value);
    assert s1.sems[id].semid == -1;
    CreateLaw(s1, value);
    assert (forall i :: 0 <= i < 10 ==> s.sems[i].semid != -1) || exists i :: 0 <= i < 10 && s.sems[i].semid == -1;
  }

  // ---- round trips

  /** semDestroy undoes semCreate: the whole state is as before. */
  lemma DestroyUndoesCreate(s: Sys, value: nat, id: nat)
    requires Inv(s) && s.current != s.idle && SemCreateStep(s, value).1 == id && s.sems[id] == NO_SEM
    ensures var s1 := SemCreateStep(s, value).0; Shape(s1) && SemDestroyStep(s1, id) == (s, 0)
  {
    CreateLaw(s, value);
    assert (forall i :: 0 <= i < 10 ==> s.sems[i].semid != -1) || exists i :: 0 <= i < 10 && s.sems[i].semid == -1;
    assert SemOk(s, id);
    var s1 := SemCreateStep(s, value).0;
    StepKeepsIffSafe(s, SemCreate(value));
    DestroyLaw(s1, id);
    var s2 := SemDestroyStep(s1, id).0;
    assert s2.tasks == s.tasks && s2.queues == s.queues && s2.sems == s.sems;
  }

  /** semSignal undoes a semWait that did not block. */
  lemma SignalUndoesWait(s: Sys, id: nat)
    requires Inv(s) && s.current != s.idle && Owner(s, id) && s.sems[id].count > 0
    ensures var s1 := SemWaitStep(s, id).0; Shape(s1) && SignalDefined(s1, id) && SemSignalStep(s1, id) == (s, 0)
  {
    WaitLaw(s, id);
    StepKeepsIffSafe(s, SemWait(id));
    SignalLaw(SemWaitStep(s, id).0, id);
    assert s.sems[id := Sem(id, s.sems[id].count - 1, s.sems[id].pid)][id := s.sems[id]] == s.sems;
  }
}
