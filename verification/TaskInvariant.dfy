/**
  The global invariant of the task machine, the entries that are safe for it, and how the pool of
  all ring members is counted.
 */
module TaskInvariant {
  import opened Tasks

  /** All members of all rings, with multiplicity. */
  ghost function Pool(qs: seq<seq<nat>>): multiset<nat> {
    if qs == [] then multiset{} else multiset(qs[0]) + Pool(qs[1..])
  }

  /** Where the slots are: on the CPU or in some ring. */
  ghost function Contents(s: Sys): multiset<nat> {
    multiset{s.current} + Pool(s.queues)
  }

  /** Everything accounted for once, save perhaps an idle task that has never run. */
  ghost predicate Complete(contents: multiset<nat>, idle: nat) {
    forall t: nat :: contents[t] <= 1 && (contents[t] == 0 ==> t >= NR_TASKS || t == idle) && (t >= NR_TASKS ==> contents[t] == 0)
  }

  /** Each of the ten slots is in exactly one place. */
  ghost predicate Partition(s: Sys) {
    Complete(Contents(s), s.idle)
  }

  ghost predicate Labels(s: Sys)
    requires Shape(s)
  {
    && (forall t :: t in s.queues[READY] ==> t < NR_TASKS && s.tasks[t].state == Ready)
    && (forall i, t :: 0 <= i < NUM_SEM && t in s.queues[SemQueue(i)] ==> t < NR_TASKS && s.tasks[t].state == Blocked)
  }

  /** The idle task runs, is ready, or has never run; it is never free and never blocked. */
  ghost predicate IdlePlace(s: Sys)
    requires Shape(s)
  {
    forall k :: 0 <= k < NUM_QUEUES && k != READY ==> s.idle !in s.queues[k]
  }

  ghost predicate Quanta(s: Sys)
    requires Shape(s)
  {
    forall t :: 0 <= t < NR_TASKS && t !in s.queues[FREE] ==> s.tasks[t].quantum == DEFAULT_QUANTUM
  }

  function Waiters(count: int): nat {
    if count < 0 then -count else 0
  }

  /** A semaphore in use holds max(0, -count) waiters, one not in use holds none. */
  ghost predicate SemOk(s: Sys, i: nat)
    requires Shape(s) && i < NUM_SEM
  {
    || (s.sems[i].semid == i && |s.queues[SemQueue(i)]| == Waiters(s.sems[i].count))
    || (s.sems[i].semid == -1 && s.queues[SemQueue(i)] == [])
  }

  ghost predicate Sems(s: Sys)
    requires Shape(s)
  {
    forall i :: 0 <= i < NUM_SEM ==> SemOk(s, i)
  }

  ghost predicate Inv(s: Sys) {
    && Shape(s)
    && Partition(s)
    && Labels(s)
    && s.tasks[s.current].state == Run
    && IdlePlace(s)
    && Quanta(s)
    && 1 <= s.remaining <= DEFAULT_QUANTUM
    && Sems(s)
  }

  /** The invariant between parking the running task in a ring and dispatching the next one. */
  ghost predicate ParkedInv(s: Sys) {
    && Shape(s)
    && Complete(Pool(s.queues), s.idle)
    && Labels(s)
    && IdlePlace(s)
    && Quanta(s)
    && Sems(s)
  }

  /** The entries that do not lose a task or create a semaphore in debt. */
  ghost predicate Safe(s: Sys, e: Event)
    requires Shape(s)
  {
    match e
    case Fork(_) => s.queues[FREE] == [] || forall i :: 0 <= i < NUM_SEM ==> s.queues[SemQueue(i)] == []
    case ThreadCreate(accessOk, page, _) => accessOk && PastLimit(page) ==> s.queues[FREE] == []
    case SemCreate(value) => value >= 0 || FirstUnused(s.sems, 0) == NUM_SEM
    case _ => true
  }

  // ---- counting lemmas

  lemma {:induction false} PoolUpdate(qs: seq<seq<nat>>, k: nat, q: seq<nat>)
    requires k < |qs|
    ensures Pool(qs[k := q]) + multiset(qs[k]) == Pool(qs) + multiset(q)
  {
    if k == 0 {
      assert qs[k := q][1..] == qs[1..];
    } else {
      PoolUpdate(qs[1..], k - 1, q);
      assert qs[k := q][1..] == qs[1..][k - 1 := q];
      calc {
        Pool(qs[k := q]) + multiset(qs[k]);
        multiset(qs[0]) + (Pool(qs[1..][k - 1 := q]) + multiset(qs[1..][k - 1]));
        multiset(qs[0]) + (Pool(qs[1..]) + multiset(q));
        Pool(qs) + multiset(q);
      }
    }
  }

  lemma {:induction false} PoolHas(qs: seq<seq<nat>>, k: nat)
    requires k < |qs|
    ensures multiset(qs[k]) <= Pool(qs)
  {
    if k > 0 {
      PoolHas(qs[1..], k - 1);
    }
  }

  lemma {:induction false} PoolHasTwo(qs: seq<seq<nat>>, k: nat, l: nat)
    requires k < l < |qs|
    ensures multiset(qs[k]) + multiset(qs[l]) <= Pool(qs)
  {
    if k == 0 {
      PoolHas(qs[1..], l - 1);
    } else {
      PoolHasTwo(qs[1..], k - 1, l - 1);
    }
  }

  lemma {:induction false} PoolWitness(qs: seq<seq<nat>>, t: nat) returns (k: nat)
    requires t in Pool(qs)
    ensures k < |qs| && t in qs[k]
  {
    if t in qs[0] {
      k := 0;
    } else {
      k := PoolWitness(qs[1..], t);
      k := k + 1;
    }
  }

  /** In a complete pool a ring member is a slot, is in no other ring, and is queued once. */
  lemma Alone(qs: seq<seq<nat>>, extra: multiset<nat>, idle: nat, k: nat, t: nat)
    requires Complete(extra + Pool(qs), idle)
    requires k < |qs| && t in qs[k]
    ensures t < NR_TASKS && t !in extra && multiset(qs[k])[t] == 1
    ensures forall l :: 0 <= l < |qs| && l != k ==> t !in qs[l]
  {
    PoolHas(qs, k);
    assert t in multiset(qs[k]);
    assert (extra + Pool(qs))[t] <= 1;
    forall l | 0 <= l < |qs| && l != k
      ensures t !in qs[l]
    {
      PoolHasTwo(qs, if k < l then k else l, if k < l then l else k);
      assert t in qs[l] <==> t in multiset(qs[l]);
    }
  }

  lemma HeadAlone(qs: seq<seq<nat>>, extra: multiset<nat>, idle: nat, k: nat)
    requires Complete(extra + Pool(qs), idle)
    requires k < |qs| && qs[k] != []
    ensures qs[k][0] < NR_TASKS && qs[k][0] !in extra && qs[k][0] !in qs[k][1..]
    ensures forall l :: 0 <= l < |qs| && l != k ==> qs[k][0] !in qs[l]
  {
    Alone(qs, extra, idle, k, qs[k][0]);
    assert qs[k] == [qs[k][0]] + qs[k][1..];
  }
}
