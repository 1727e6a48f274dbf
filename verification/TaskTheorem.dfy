/** The task machine keeps its invariant exactly under the safe kernel entries. */
module TaskTheorem {
  import opened Tasks
  import opened TaskInvariant

  lemma Cancel(a: multiset<nat>, b: multiset<nat>, c: multiset<nat>)
    requires a + b == c + b
    ensures a == c
  {
    forall x
      ensures a[x] == c[x]
    {
      assert (a + b)[x] == (c + b)[x];
    }
  }

  lemma PoolPush(qs: seq<seq<nat>>, k: nat, t: nat, q: seq<nat>)
    requires k < |qs| && (q == qs[k] + [t] || q == [t] + qs[k])
    ensures Pool(qs[k := q]) == multiset{t} + Pool(qs)
  {
    PoolUpdate(qs, k, q);
    assert Pool(qs) + multiset(q) == multiset{t} + Pool(qs) + multiset(qs[k]);
    Cancel(Pool(qs[k := q]), multiset(qs[k]), multiset{t} + Pool(qs));
  }

  lemma PoolPop(qs: seq<seq<nat>>, k: nat)
    requires k < |qs| && qs[k] != []
    ensures multiset{qs[k][0]} + Pool(qs[k := qs[k][1..]]) == Pool(qs)
  {
    var q := qs[k][1..];
    assert qs[k] == [qs[k][0]] + q;
    assert qs[k := q][k := qs[k]] == qs;
    PoolPush(qs[k := q], k, qs[k][0], qs[k]);
  }

  lemma SemsKept(s: Sys, s': Sys)
    requires Shape(s) && Shape(s') && Sems(s)
    requires s'.sems == s.sems
    requires forall i :: 0 <= i < NUM_SEM ==> s'.queues[SemQueue(i)] == s.queues[SemQueue(i)]
    ensures Sems(s')
  {
    forall i | 0 <= i < NUM_SEM
      ensures SemOk(s', i)
    {
      assert SemOk(s, i);
    }
  }

  lemma DispatchKeeps(s: Sys)
    requires ParkedInv(s)
    ensures Inv(Dispatch(s))
    ensures FallsBack(s) ==> s.idle !in Pool(s.queues)
  {
    var none: multiset<nat> := multiset{};
    assert none + Pool(s.queues) == Pool(s.queues);
    var s' := Dispatch(s);
    if s.queues[READY] != [] {
      HeadAlone(s.queues, none, s.idle, READY);
      PoolPop(s.queues, READY);
      assert Contents(s') == Pool(s.queues);
      assert s'.current in s.queues[READY];
    } else {
      if s.idle in Pool(s.queues) {
        var k := PoolWitness(s.queues, s.idle);
        assert false;
      }
      assert Contents(s') == multiset{s.idle} + Pool(s.queues);
    }
    SemsKept(s, s');
  }

  lemma PreemptedParked(s: Sys)
    requires Inv(s.(remaining := DEFAULT_QUANTUM))
    ensures ParkedInv(Preempted(s))
    ensures !FallsBack(Preempted(s))
  {
    var s' := Preempted(s);
    PoolPush(s.queues, READY, s.current, s'.queues[READY]);
    assert Contents(s.(remaining := DEFAULT_QUANTUM)) == Pool(s'.queues);
    SemsKept(s.(remaining := DEFAULT_QUANTUM), s');
  }

  lemma RetiredParked(s: Sys, forgetPid: bool)
    requires Inv(s) && s.current != s.idle
    ensures ParkedInv(Retired(s, forgetPid))
  {
    var s' := Retired(s, forgetPid);
    PoolPush(s.queues, FREE, s.current, s'.queues[FREE]);
    SemsKept(s, s');
  }

  lemma WaitParked(s: Sys, id: nat)
    requires Inv(s) && s.current != s.idle
    requires id < NUM_SEM && s.sems[id].semid == id && s.sems[id].count <= 0
    ensures ParkedInv(Parked(s, id))
  {
    var s' := Parked(s, id);
    PoolPush(s.queues, SemQueue(id), s.current, s'.queues[SemQueue(id)]);
    forall i | 0 <= i < NUM_SEM
      ensures SemOk(s', i)
    {
      assert SemOk(s, i);
    }
  }

  // ---- the entries that do not switch

  lemma ForkResult(s: Sys, frames: bool)
    requires Inv(s) && s.current != s.idle
    ensures Inv(ForkStep(s, frames).0) <==> Safe(s, Fork(frames))
  {
    if s.queues[FREE] != [] {
      var c := s.queues[FREE][0];
      if Safe(s, Fork(frames)) {
        ForkKeeps(s, frames);
      } else {
        var i :| 0 <= i < NUM_SEM && s.queues[SemQueue(i)] != [];
        ForkOrphans(s, frames, i, s.queues[SemQueue(i)][0]);
      }
    }
  }

  lemma ForkKeeps(s: Sys, frames: bool)
    requires Inv(s) && s.current != s.idle && s.queues[FREE] != []
    requires Safe(s, Fork(frames))
    ensures Inv(ForkStep(s, frames).0)
  {
    var s' := ForkStep(s, frames).0;
    var c := s.queues[FREE][0];
    HeadAlone(s.queues, multiset{s.current}, s.idle, FREE);
    ForkConserves(s, frames);
    assert c in s.queues[FREE];
    forall i | 0 <= i < NUM_SEM
      ensures SemOk(s', i) && s'.queues[SemQueue(i)] == []
    {
    }
    forall t | 0 <= t < NR_TASKS && t !in s'.queues[FREE]
      ensures s'.tasks[t].quantum == DEFAULT_QUANTUM
    {
      assert t != c ==> t !in s.queues[FREE];
      assert s.current !in s.queues[FREE] by {
        if s.current in s.queues[FREE] {
          Alone(s.queues, multiset{s.current}, s.idle, FREE, s.current);
        }
      }
    }
    assert Labels(s');
    assert s.idle in s.queues[READY] || s.idle !in s.queues[READY];
    assert c != s.idle;
    assert IdlePlace(s');
  }

  /** With no waiter, resetting the rings resets nothing. */
  lemma ForkConserves(s: Sys, frames: bool)
    requires Shape(s) && s.queues[FREE] != []
    requires forall i :: 0 <= i < NUM_SEM ==> s.queues[SemQueue(i)] == []
    ensures Contents(ForkStep(s, frames).0) == Contents(s)
  {
    var c := s.queues[FREE][0];
    var s1 := ForkBegin(s);
    forall k | 0 <= k < NUM_QUEUES
      ensures s1.queues[k] == PopFront(s, FREE).queues[k]
    {
      if k >= 2 {
        assert s.queues[SemQueue(k - 2)] == [];
      }
    }
    assert s1.queues == PopFront(s, FREE).queues;
    PoolPop(s.queues, FREE);
    var k := if frames then READY else FREE;
    PoolPush(s1.queues, k, c, s1.queues[k] + [c]);
  }

  /** A waiter that fork finds in a ring is afterwards in no ring and not running. */
  lemma ForkOrphans(s: Sys, frames: bool, i: nat, w: nat)
    requires Inv(s) && s.queues[FREE] != []
    requires i < NUM_SEM && w in s.queues[SemQueue(i)]
    ensures Contents(ForkStep(s, frames).0)[w] == 0
    ensures !Partition(ForkStep(s, frames).0)
  {
    var s' := ForkStep(s, frames).0;
    Alone(s.queues, multiset{s.current}, s.idle, SemQueue(i), w);
    assert s.queues[FREE][0] in s.queues[FREE];
    if w in Pool(s'.queues) {
      var k := PoolWitness(s'.queues, w);
      assert false;
    }
    assert Contents(s')[w] == 0;
  }

  lemma ThreadCreateResult(s: Sys, accessOk: bool, page: int, frame: bool)
    requires Inv(s) && s.current != s.idle
    ensures Inv(ThreadCreateStep(s, accessOk, page, frame).0) <==> Safe(s, ThreadCreate(accessOk, page, frame))
  {
    if accessOk && s.queues[FREE] != [] {
      if PastLimit(page) {
        ThreadLost(s, page, frame);
      } else {
        ThreadKeeps(s, page, frame);
      }
    }
  }

  /** Past the logical page limit the slot taken from the free ring is put nowhere. */
  lemma ThreadLost(s: Sys, page: int, frame: bool)
    requires Inv(s) && s.queues[FREE] != [] && PastLimit(page)
    ensures Contents(ThreadCreateStep(s, true, page, frame).0)[s.queues[FREE][0]] == 0
    ensures !Partition(ThreadCreateStep(s, true, page, frame).0)
  {
    var c := s.queues[FREE][0];
    var s' := ThreadCreateStep(s, true, page, frame).0;
    HeadAlone(s.queues, multiset{s.current}, s.idle, FREE);
    PoolPop(s.queues, FREE);
    assert c in s.queues[FREE];
    assert (multiset{s.current} + (multiset{c} + Pool(s'.queues)))[c] <= 1;
    assert Contents(s')[c] == 0;
  }

  lemma ThreadKeeps(s: Sys, page: int, frame: bool)
    requires Inv(s) && s.current != s.idle && s.queues[FREE] != [] && !PastLimit(page)
    ensures Inv(ThreadCreateStep(s, true, page, frame).0)
  {
    var c := s.queues[FREE][0];
    var s' := ThreadCreateStep(s, true, page, frame).0;
    HeadAlone(s.queues, multiset{s.current}, s.idle, FREE);
    assert c in s.queues[FREE];
    assert Contents(s') == Contents(s) by {
      PoolPop(s.queues, FREE);
      var rest := s.queues[FREE := s.queues[FREE][1..]];
      var k := if frame then READY else FREE;
      PoolPush(rest, k, c, rest[k] + [c]);
    }
    assert s.current !in s.queues[FREE] by {
      if s.current in s.queues[FREE] {
        Alone(s.queues, multiset{s.current}, s.idle, FREE, s.current);
      }
    }
    assert Labels(s');
    SemsKept(s, s');
  }

  lemma SemCreateResult(s: Sys, value: int)
    requires Inv(s) && s.current != s.idle
    ensures Inv(SemCreateStep(s, value).0) <==> Safe(s, SemCreate(value))
  {
    var i := FirstUnused(s.sems, 0);
    if i < NUM_SEM {
      assert SemOk(s, i);
      var s' := SemCreateStep(s, value).0;
      assert s'.queues == s.queues;
      assert Contents(s') == Contents(s);
      if value >= 0 {
        forall j | 0 <= j < NUM_SEM
          ensures SemOk(s', j)
        {
          assert SemOk(s, j);
        }
      } else {
        assert !SemOk(s', i);
      }
    }
  }

  /** A signal that finds a waiter moves the first one to the head of the ready ring. */
  lemma WakeKeeps(s: Sys, id: nat)
    requires Inv(s) && s.current != s.idle
    requires id < NUM_SEM && Accepted(s, id) && s.sems[id].count < 0
    ensures SignalDefined(s, id)
    ensures Inv(SemSignalStep(s, id).0)
  {
    assert SemOk(s, id);
    var s' := SemSignalStep(s, id).0;
    var k := SemQueue(id);
    var l := s.queues[k][0];
    HeadAlone(s.queues, multiset{s.current}, s.idle, k);
    assert Contents(s') == Contents(s) by {
      PoolPop(s.queues, k);
      var rest := s.queues[k := s.queues[k][1..]];
      PoolPush(rest, READY, l, [l] + rest[READY]);
    }
    assert l in s.queues[k];
    assert Quanta(s');
    assert Labels(s');
    forall j | 0 <= j < NUM_SEM
      ensures SemOk(s', j)
    {
      assert SemOk(s, j);
    }
  }

  lemma SignalKeeps(s: Sys, id: nat)
    requires Inv(s) && s.current != s.idle
    requires id < NUM_SEM && Accepted(s, id)
    ensures SignalDefined(s, id)
    ensures Inv(SemSignalStep(s, id).0)
  {
    assert SemOk(s, id);
    if s.sems[id].count < 0 {
      WakeKeeps(s, id);
    } else {
      var s' := SemSignalStep(s, id).0;
      assert Contents(s') == Contents(s);
      forall j | 0 <= j < NUM_SEM
        ensures SemOk(s', j)
      {
        assert SemOk(s, j);
      }
    }
  }

  // ---- destroying a semaphore

  /** The drain loop appends the waiters, newest first, to the ready tail and empties the ring. */
  lemma {:induction false} DrainExact(s: Sys, id: nat)
    requires Shape(s) && id < NUM_SEM
    ensures var r := Drain(s, id);
            && r.queues == s.queues[READY := s.queues[READY] + s.queues[SemQueue(id)]][SemQueue(id) := []]
            && |r.tasks| == NR_TASKS
            && (forall t :: 0 <= t < NR_TASKS ==>
                  r.tasks[t] == if t in s.queues[SemQueue(id)] then s.tasks[t].(state := Ready) else s.tasks[t])
            && r == s.(queues := r.queues, tasks := r.tasks)
    decreases |s.queues[SemQueue(id)]|
  {
    var q := s.queues[SemQueue(id)];
    if q == [] {
      assert s.queues[READY] + q == s.queues[READY];
      assert s.queues[READY := s.queues[READY]][SemQueue(id) := q] == s.queues;
    } else {
      var l := q[0];
      var s1 := PushBack(SetState(PopFront(s, SemQueue(id)), l, Ready), READY, l);
      assert Shape(s1);
      DrainExact(s1, id);
      assert q == [l] + q[1..];
      assert s1.queues[READY] + s1.queues[SemQueue(id)] == s.queues[READY] + q;
    }
  }

  lemma DestroyKeeps(s: Sys, id: nat)
    requires Inv(s) && s.current != s.idle
    requires id < NUM_SEM && Accepted(s, id)
    ensures Inv(SemDestroyStep(s, id).0)
  {
    var s' := SemDestroyStep(s, id).0;
    var k := SemQueue(id);
    var q := s.queues[k];
    DrainExact(s, id);
    var mid := s.queues[READY := s.queues[READY] + q];
    assert Contents(s') == Contents(s) by {
      PoolUpdate(s.queues, READY, s.queues[READY] + q);
      PoolUpdate(mid, k, []);
      Cancel(Pool(s'.queues) + multiset(q), multiset(s.queues[READY]), Pool(s.queues) + multiset(q));
      Cancel(Pool(s'.queues), multiset(q), Pool(s.queues));
    }
    DestroyLabels(s, id, s');
    forall j | 0 <= j < NUM_SEM
      ensures SemOk(s', j)
    {
      assert SemOk(s, j);
    }
  }

  lemma DestroyLabels(s: Sys, id: nat, s': Sys)
    requires Inv(s) && id < NUM_SEM && Accepted(s, id)
    requires s' == SemDestroyStep(s, id).0
    ensures Shape(s') && Labels(s') && s'.tasks[s'.current].state == Run && Quanta(s') && IdlePlace(s')
  {
    DrainExact(s, id);
    forall j, t | 0 <= j < NUM_SEM && t in s'.queues[SemQueue(j)]
      ensures t < NR_TASKS && s'.tasks[t].state == Blocked
    {
      if t in s.queues[SemQueue(id)] {
        Alone(s.queues, multiset{s.current}, s.idle, SemQueue(id), t);
      }
    }
  }

  // ---- the theorem

  lemma TickKeeps(s: Sys)
    requires Inv(s)
    ensures Inv(Schedule(s))
  {
    var s1 := s.(remaining := s.remaining - 1);
    assert Contents(s1) == Contents(s);
    if s1.remaining == 0 && s1.queues[READY] != [] {
      assert s1.(remaining := DEFAULT_QUANTUM) == s.(remaining := DEFAULT_QUANTUM);
      InvRemaining(s, DEFAULT_QUANTUM);
      PreemptedParked(s1);
      DispatchKeeps(Preempted(s1));
    } else {
      assert s.current !in s.queues[FREE] by {
        if s.current in s.queues[FREE] {
          Alone(s.queues, multiset{s.current}, s.idle, FREE, s.current);
        }
      }
      InvRemaining(s, Schedule(s).remaining);
    }
  }

  lemma InvRemaining(s: Sys, r: int)
    requires Inv(s) && 1 <= r <= DEFAULT_QUANTUM
    ensures Inv(s.(remaining := r))
  {
    var s' := s.(remaining := r);
    assert Contents(s') == Contents(s);
    SemsKept(s, s');
  }

  lemma WaitKeeps(s: Sys, id: nat)
    requires Inv(s) && s.current != s.idle
    requires id < NUM_SEM && Accepted(s, id)
    ensures Inv(SemWaitStep(s, id).0)
  {
    if s.sems[id].count <= 0 {
      WaitParked(s, id);
      DispatchKeeps(Parked(s, id));
    } else {
      var s' := SemWaitStep(s, id).0;
      assert Contents(s') == Contents(s);
      forall j | 0 <= j < NUM_SEM
        ensures SemOk(s', j)
      {
        assert SemOk(s, j);
      }
    }
  }

  /** The exact condition: from a good state, an enabled entry leads to a good state iff it is safe. */
  lemma StepKeepsIffSafe(s: Sys, e: Event)
    requires Inv(s) && Enabled(s, e)
    ensures Inv(Step(s, e)) <==> Safe(s, e)
  {
    match e
    case Tick => TickKeeps(s);
    case Yield =>
      InvRemaining(s, DEFAULT_QUANTUM);
      PreemptedParked(s);
      DispatchKeeps(Preempted(s));
    case Fork(frames) => ForkResult(s, frames);
    case Exit =>
      RetiredParked(s, true);
      DispatchKeeps(Retired(s, true));
    case ThreadCreate(accessOk, page, frame) => ThreadCreateResult(s, accessOk, page, frame);
    case ThreadExit =>
      RetiredParked(s, false);
      DispatchKeeps(Retired(s, false));
    case SemCreate(value) => SemCreateResult(s, value);
    case SemWait(id) => if Accepted(s, id) { WaitKeeps(s, id); }
    case SemSignal(id) => if Accepted(s, id) { SignalKeeps(s, id); }
    case SemDestroy(id) => if Accepted(s, id) { DestroyKeeps(s, id); }
  }

  /** In a good state only idle's system calls, semaphore number 10 and a faulting threadCreate are disabled. */
  lemma InvEnables(s: Sys, e: Event)
    requires Inv(s)
    requires s.current == s.idle ==> e.Tick?
    requires e.SemWait? || e.SemSignal? || e.SemDestroy? ==> e.id != NUM_SEM
    requires e.ThreadCreate? ==> !StackFaults(s, e.accessOk, e.page, e.frame)
    ensures Enabled(s, e)
  {
    if e.SemSignal? && Accepted(s, e.id) {
      assert SemOk(s, e.id);
    }
  }

  lemma BootContents()
    ensures Contents(Boot()) == multiset{1, 2, 3, 4, 5, 6, 7, 8, 9}
  {
    var q := Boot().queues;
    var rest := q[1..];
    forall k | 0 <= k < |rest|
      ensures rest[k] == []
    {
      assert rest[k] == q[k + 1];
    }
    EmptyPool(rest);
    assert q[0] == [2, 3, 4, 5, 6, 7, 8, 9];
    assert Pool(q) == multiset(q[0]);
  }

  lemma BootComplete()
    ensures Complete(multiset{1, 2, 3, 4, 5, 6, 7, 8, 9}, 0)
  {
    var c: multiset<nat> := multiset{1, 2, 3, 4, 5, 6, 7, 8, 9};
    forall t: nat
      ensures c[t] == if 1 <= t < NR_TASKS then 1 else 0
    {
    }
  }

  lemma BootQuanta()
    ensures Quanta(Boot()) && IdlePlace(Boot())
  {
    var s := Boot();
    forall t | 2 <= t < NR_TASKS
      ensures t in s.queues[FREE]
    {
      assert s.queues[FREE][t - 2] == t;
    }
  }

  lemma BootSems()
    ensures Sems(Boot()) && Labels(Boot())
  {
    var s := Boot();
    assert s.queues[READY] == [];
    forall i | 0 <= i < NUM_SEM
      ensures SemOk(s, i) && s.queues[SemQueue(i)] == []
    {
      assert s.sems[i] == Sem(-1, 0, -1);
    }
  }

  lemma BootInv()
    ensures Inv(Boot())
  {
    BootContents();
    BootComplete();
    BootQuanta();
    BootSems();
  }

  lemma {:induction false} EmptyPool(qs: seq<seq<nat>>)
    requires forall k :: 0 <= k < |qs| ==> qs[k] == []
    ensures Pool(qs) == multiset{}
  {
    if qs != [] {
      EmptyPool(qs[1..]);
    }
  }
}
