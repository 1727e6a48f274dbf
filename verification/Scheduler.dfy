/**
  sched.c and the scheduling half of sys.c on heap nodes.

  Every method works on the intrusive rings and on the fields of the task structs and
  semaphores; its contract says that the abstract state makes the corresponding step of `Tasks`.
 */
module Sched {
  import opened Errno
  import opened Tasks
  import Paging
  import opened TaskInvariant
  import opened TaskTheorem
  import opened TaskRuns
  import opened Lists

  class TaskStruct {
    const list: ListHead
    var pid: int
    var tid: int
    var state: TaskState
    var quantum: int

    /** Zeroed memory around a list node. */
    constructor (list: ListHead)
      ensures this.list == list && pid == 0 && tid == 0 && state == Run && quantum == 0
    {
      this.list := list;
      pid, tid, state, quantum := 0, 0, Run, 0;
    }

    function Abs(): Task
      reads this
    {
      Task(pid, tid, state, quantum)
    }
  }

  class SemT {
    const blocked: ListHead
    const index: nat
    var semid: int
    var count: int
    var pid: int

    constructor (index: nat, blocked: ListHead)
      ensures this.index == index && this.blocked == blocked
    {
      this.index, this.blocked := index, blocked;
      semid, count, pid := 0, 0, 0;
    }

    function Abs(): Sem
      reads this
    {
      Sem(semid, count, pid)
    }
  }

  class Scheduler {
    const task: seq<TaskStruct>
    const semafors: seq<SemT>
    const freequeue: ListHead
    const readyqueue: ListHead
    var current: nat
    var idle: nat
    var remainingQuantum: int
    var globalPid: int
    var globalTid: int
    ghost const all: set<ListHead>
    ghost var s: Sys

    // ---- representation

    function Head(k: nat): ListHead
      requires |semafors| == NUM_SEM && k < NUM_QUEUES
    {
      if k == FREE then freequeue else if k == READY then readyqueue else semafors[k - 2].blocked
    }

    /** The objects are where they belong and do not alias. */
    ghost predicate Fixed() {
      && |task| == NR_TASKS
      && |semafors| == NUM_SEM
      && (forall t :: 0 <= t < NR_TASKS ==> task[t].list in all && task[t].list.slot == t)
      && (forall k :: 0 <= k < NUM_QUEUES ==> Head(k) in all && Head(k).slot == -1)
      && (forall i :: 0 <= i < NUM_SEM ==> semafors[i].index == i)
    }

    ghost predicate HeadsApart()
      requires |semafors| == NUM_SEM
    {
      forall k, l :: 0 <= k < NUM_QUEUES && 0 <= l < NUM_QUEUES && Head(k) == Head(l) ==> k == l
    }

    ghost function Circle1(k: nat, q: seq<nat>): (c: seq<ListHead>)
      requires Fixed() && k < NUM_QUEUES && forall i :: 0 <= i < |q| ==> q[i] < NR_TASKS
      ensures |c| == |q| + 1 && c[0] == Head(k)
      ensures forall j {:trigger c[j]} :: 1 <= j < |c| ==> c[j] == task[q[j - 1]].list
    {
      [Head(k)] + seq(|q|, i requires 0 <= i < |q| => task[q[i]].list)
    }

    /** The rings that the queues of slots stand for. */
    ghost function Circles(qs: seq<seq<nat>>): (cs: seq<seq<ListHead>>)
      requires Fixed() && InRange(qs)
      ensures |cs| == NUM_QUEUES
      ensures forall k :: 0 <= k < NUM_QUEUES ==> cs[k] == Circle1(k, qs[k])
    {
      seq(NUM_QUEUES, k requires 0 <= k < NUM_QUEUES => Circle1(k, qs[k]))
    }

    static ghost predicate InRange(qs: seq<seq<nat>>) {
      |qs| == NUM_QUEUES && forall k, i :: 0 <= k < |qs| && 0 <= i < |qs[k]| ==> qs[k][i] < NR_TASKS
    }

    /** The fields hold what the abstract state says. */
    ghost predicate Matches()
      requires Fixed()
      reads this, task, semafors
    {
      && Shape(s)
      && s.current == current && s.idle == idle && s.remaining == remainingQuantum
      && s.lastPid == globalPid && s.lastTid == globalTid
      && (forall t :: 0 <= t < NR_TASKS ==> s.tasks[t] == task[t].Abs())
      && (forall i :: 0 <= i < NUM_SEM ==> s.sems[i] == semafors[i].Abs())
    }

    ghost predicate Valid()
      reads this, task, semafors, all
    {
      Fixed() && Matches() && Rings(Circles(s.queues), all)
    }

    // ---- start-up

    static function UpTo(n: nat): (q: seq<nat>)
      ensures |q| == n && forall i :: 0 <= i < n ==> q[i] == i
    {
      seq(n, i => i)
    }

    /** The kernel's static objects, then init_sched, init_idle and init_task1. */
    constructor ()
      ensures Valid() && s == Boot()
      ensures fresh(all) && fresh(task) && fresh(semafors)
    {
      var ts, sems, free, ready, nodes := AllocateObjects();
      task, semafors, freequeue, readyqueue, all := ts, sems, free, ready, nodes;
      current, idle, remainingQuantum, globalPid, globalTid := 0, 0, 0, 1000, 1000;
      s := Boot();
      new;
      InitAll();
    }

    /** init_sched, init_idle, init_task1. */
    method InitAll()
      requires Fixed() && HeadsApart() && s == Boot() && globalPid == 1000 && globalTid == 1000
      requires forall t :: 0 <= t < NR_TASKS ==> task[t].Abs() == Task(0, 0, Run, 0)
      modifies task, semafors, all, `idle, `current, `remainingQuantum
      ensures Valid()
    {
      InitSched();
      InitIdle();
      InitTask1();
    }

    /** The two queues while the kernel starts up. */
    ghost function BootRings(q: seq<nat>): seq<seq<ListHead>>
      requires Fixed() && forall i :: 0 <= i < |q| ==> q[i] < NR_TASKS
    {
      [Circle1(FREE, q), Circle1(READY, [])]
    }

    method InitSched()
      requires Fixed() && HeadsApart()
      requires forall t :: 0 <= t < NR_TASKS ==> task[t].Abs() == Task(0, 0, Run, 0)
      modifies task, all
      ensures Rings(BootRings(UpTo(NR_TASKS)), all)
      ensures forall t :: 0 <= t < NR_TASKS ==> task[t].Abs() == Task(-1, 0, Run, 0)
    {
      InitFreequeue();
      ghost var cs := [Circle1(FREE, UpTo(NR_TASKS))];
      assert Head(READY) == readyqueue && Head(FREE) == freequeue;
      assert Loose(cs, readyqueue);
      InitListHead(readyqueue, cs, all, 1);
      assert [readyqueue] == Circle1(READY, []);
      assert InsertAt(cs, 1, [readyqueue]) == BootRings(UpTo(NR_TASKS));
    }

    /** Takes the first free task struct, before the semaphores exist. */
    method TakeBootSlot(ghost q: seq<nat>) returns (t: nat)
      requires Fixed() && q != [] && forall i :: 0 <= i < |q| ==> q[i] < NR_TASKS
      requires Rings(BootRings(q), all)
      modifies all
      ensures t == q[0] && Rings(BootRings(q[1..]), all)
    {
      ghost var cs := BootRings(q);
      var l := ListFirst(freequeue, cs[FREE]);
      assert l == task[q[0]].list;
      Neighbours(cs, all, FREE, 1);
      CirclePop(FREE, q);
      ListDel(l, cs, all, FREE, 1);
      assert cs[FREE := RemoveAt(cs[FREE], 1)] == BootRings(q[1..]);
      t := l.slot;
    }

    method InitIdle()
      requires Fixed() && Rings(BootRings(UpTo(NR_TASKS)), all)
      modifies task, all, `idle
      ensures idle == 0 && Rings(BootRings(UpTo(NR_TASKS)[1..]), all)
      ensures task[0].Abs() == Task(0, 0, old(task[0].state), DEFAULT_QUANTUM)
      ensures forall t :: 1 <= t < NR_TASKS ==> task[t].Abs() == old(task[t].Abs())
    {
      var t := TakeBootSlot(UpTo(NR_TASKS));
      task[t].pid, task[t].tid, task[t].quantum := 0, 0, DEFAULT_QUANTUM;
      assert forall u :: 1 <= u < NR_TASKS ==> task[u].list.slot != task[0].list.slot;
      idle := t;
    }

    method InitTask1()
      requires Fixed() && HeadsApart() && Rings(BootRings(UpTo(NR_TASKS)[1..]), all)
      modifies task, semafors, all, `current, `remainingQuantum
      ensures Rings(Circles(Boot().queues), all)
      ensures current == 1 && remainingQuantum == DEFAULT_QUANTUM
      ensures task[1].Abs() == Task(1, 1, Run, DEFAULT_QUANTUM)
      ensures forall t :: 0 <= t < NR_TASKS && t != 1 ==> task[t].Abs() == old(task[t].Abs())
      ensures forall i :: 0 <= i < NUM_SEM ==> semafors[i].Abs() == Sem(-1, 0, -1)
    {
      var t := TakeBootSlot(UpTo(NR_TASKS)[1..]);
      NameInit(t);
      BootCircles();
      InitSemaphores(Boot().queues[FREE]);
    }

    method NameInit(t: nat)
      requires Fixed() && t == 1
      modifies task[1], `current, `remainingQuantum
      ensures current == 1 && remainingQuantum == DEFAULT_QUANTUM
      ensures task[1].Abs() == Task(1, 1, Run, DEFAULT_QUANTUM)
      ensures forall t :: 0 <= t < NR_TASKS && t != 1 ==> task[t].Abs() == old(task[t].Abs())
    {
      task[t].pid, task[t].tid, task[t].quantum, task[t].state := 1, 1, DEFAULT_QUANTUM, Run;
      assert forall u :: 0 <= u < NR_TASKS && u != 1 ==> task[u].list.slot != task[1].list.slot;
      remainingQuantum := task[t].quantum;
      current := t;
    }

    lemma BootCircles()
      requires Fixed()
      ensures UpTo(NR_TASKS)[1..][1..] == Boot().queues[FREE]
      ensures Circles(Boot().queues) == SemRings(Boot().queues[FREE], NUM_SEM)
    {
    }

    static method AllocateObjects()
      returns (ts: seq<TaskStruct>, sems: seq<SemT>, free: ListHead, ready: ListHead, ghost nodes: set<ListHead>)
      ensures fresh(ts) && fresh(sems) && fresh(nodes)
      ensures |ts| == NR_TASKS && |sems| == NUM_SEM
      ensures forall t :: 0 <= t < NR_TASKS ==> ts[t].list in nodes && ts[t].list.slot == t && ts[t].Abs() == Task(0, 0, Run, 0)
      ensures forall i :: 0 <= i < NUM_SEM ==> sems[i].blocked in nodes && sems[i].blocked.slot == -1 && sems[i].index == i
      ensures free in nodes && ready in nodes && free.slot == ready.slot == -1 && free != ready
      ensures forall i :: 0 <= i < NUM_SEM ==> sems[i].blocked != free && sems[i].blocked != ready
      ensures forall i, j :: 0 <= i < j < NUM_SEM ==> sems[i].blocked != sems[j].blocked
    {
      ts, sems := [], [];
      free := new ListHead(-1);
      ready := new ListHead(-1);
      nodes := {free, ready};
      while |ts| < NR_TASKS
        invariant |ts| <= NR_TASKS && fresh(ts) && fresh(nodes) && free in nodes && ready in nodes
        invariant forall t :: 0 <= t < |ts| ==> ts[t].list in nodes && ts[t].list.slot == t && ts[t].Abs() == Task(0, 0, Run, 0)
      {
        var l := new ListHead(|ts|);
        var t := new TaskStruct(l);
        ts, nodes := ts + [t], nodes + {l};
      }
      while |sems| < NUM_SEM
        invariant |sems| <= NUM_SEM && fresh(sems) && fresh(nodes) && free in nodes && ready in nodes
        invariant forall t :: 0 <= t < |ts| ==> ts[t].list in nodes && ts[t].Abs() == Task(0, 0, Run, 0)
        invariant forall i :: 0 <= i < |sems| ==> sems[i].blocked in nodes && sems[i].blocked.slot == -1 && sems[i].index == i
        invariant forall i :: 0 <= i < |sems| ==> sems[i].blocked != free && sems[i].blocked != ready
        invariant forall i, j :: 0 <= i < j < |sems| ==> sems[i].blocked != sems[j].blocked
      {
        var l := new ListHead(-1);
        var m := new SemT(|sems|, l);
        sems, nodes := sems + [m], nodes + {l};
      }
    }

    method InitFreequeue()
      requires Fixed()
      requires forall t :: 0 <= t < NR_TASKS ==> task[t].Abs() == Task(0, 0, Run, 0)
      modifies task, all
      ensures Rings([Circle1(FREE, UpTo(NR_TASKS))], all)
      ensures forall t :: 0 <= t < NR_TASKS ==> task[t].Abs() == Task(-1, 0, Run, 0)
    {
      InitFreeRing();
      for i := 0 to NR_TASKS
        invariant Rings([Circle1(FREE, UpTo(i))], all)
        invariant forall t :: 0 <= t < NR_TASKS ==> task[t].Abs() == Task(if t < i then -1 else 0, 0, Run, 0)
      {
        Enrol(i);
        assert forall t :: 0 <= t < NR_TASKS && t != i ==> task[t].list.slot != task[i].list.slot;
      }
    }

    method InitFreeRing()
      requires Fixed()
      modifies all
      ensures Rings([Circle1(FREE, UpTo(0))], all)
    {
      assert Head(FREE) == freequeue;
      InitListHead(freequeue, [], all, 0);
      assert [freequeue] == Circle1(FREE, UpTo(0));
      assert InsertAt([], 0, [freequeue]) == [[freequeue]];
    }

    method Enrol(i: nat)
      requires Fixed() && i < NR_TASKS && Rings([Circle1(FREE, UpTo(i))], all)
      modifies task[i], all
      ensures Rings([Circle1(FREE, UpTo(i + 1))], all)
      ensures task[i].Abs() == old(task[i].Abs()).(pid := -1)
    {
      task[i].pid := -1;
      LinkBoot(i);
    }

    method LinkBoot(i: nat)
      requires Fixed() && i < NR_TASKS && Rings([Circle1(FREE, UpTo(i))], all)
      modifies all
      ensures Rings([Circle1(FREE, UpTo(i + 1))], all)
    {
      ghost var cs := [Circle1(FREE, UpTo(i))];
      Neighbours(cs, all, FREE, 0);
      BootPush(i);
      ListAddTail(task[i].list, freequeue, cs, all, FREE);
    }

    lemma BootPush(i: nat)
      requires Fixed() && i < NR_TASKS
      ensures var cs := [Circle1(FREE, UpTo(i))];
              && Loose(cs, task[i].list)
              && cs[FREE := InsertAt(cs[FREE], |cs[FREE]|, task[i].list)] == [Circle1(FREE, UpTo(i + 1))]
    {
      var c := Circle1(FREE, UpTo(i));
      forall j | 0 <= j < |c|
        ensures c[j].slot != i
      {
      }
      assert task[i].list !in c;
      CirclePush(FREE, UpTo(i), i);
      assert UpTo(i) + [i] == UpTo(i + 1);
    }

    /** The rings after the first n semaphores have been initialised. */
    ghost function SemRings(q: seq<nat>, n: nat): (cs: seq<seq<ListHead>>)
      requires Fixed() && n <= NUM_SEM && forall i :: 0 <= i < |q| ==> q[i] < NR_TASKS
      ensures |cs| == 2 + n && cs[FREE] == Circle1(FREE, q)
      ensures forall k :: 1 <= k < 2 + n ==> cs[k] == Circle1(k, [])
    {
      BootRings(q) + seq(n, j requires 0 <= j < n => Circle1(2 + j, []))
    }

    /** The semaphore loop of init_task1, with the first two rings already in place. */
    method InitSemaphores(ghost q: seq<nat>)
      requires Fixed() && HeadsApart() && forall i :: 0 <= i < |q| ==> q[i] < NR_TASKS
      requires Rings(BootRings(q), all)
      modifies semafors, all
      ensures Rings(SemRings(q, NUM_SEM), all)
      ensures forall i :: 0 <= i < NUM_SEM ==> semafors[i].Abs() == Sem(-1, 0, -1)
    {
      assert SemRings(q, 0) == BootRings(q);
      for i := 0 to NUM_SEM
        invariant Rings(SemRings(q, i), all)
        invariant forall j :: 0 <= j < i ==> semafors[j].Abs() == Sem(-1, 0, -1)
      {
        assert forall j :: 0 <= j < i ==> semafors[j].index != semafors[i].index;
        InitSem(q, i);
      }
    }

    method InitSem(ghost q: seq<nat>, i: nat)
      requires Fixed() && HeadsApart() && i < NUM_SEM && forall i :: 0 <= i < |q| ==> q[i] < NR_TASKS
      requires Rings(SemRings(q, i), all)
      modifies semafors[i], all
      ensures Rings(SemRings(q, i + 1), all)
      ensures semafors[i].Abs() == Sem(-1, 0, -1)
    {
      semafors[i].semid, semafors[i].count, semafors[i].pid := -1, 0, -1;
      InitRing(q, i);
    }

    method InitRing(ghost q: seq<nat>, i: nat)
      requires Fixed() && HeadsApart() && i < NUM_SEM && forall i :: 0 <= i < |q| ==> q[i] < NR_TASKS
      requires Rings(SemRings(q, i), all)
      modifies all
      ensures Rings(SemRings(q, i + 1), all)
    {
      ghost var cs := SemRings(q, i);
      NextSemRing(q, i);
      assert Head(2 + i) == semafors[i].blocked;
      InitListHead(semafors[i].blocked, cs, all, |cs|);
    }

    /** A task's node is not the head of a queue. */
    lemma HeadLoose(k: nat, q: seq<nat>, h: nat)
      requires Fixed() && HeadsApart() && k < NUM_QUEUES && h < NUM_QUEUES && k != h
      requires forall i :: 0 <= i < |q| ==> q[i] < NR_TASKS
      ensures Head(h) !in Circle1(k, q)
    {
      var c := Circle1(k, q);
      forall j | 0 <= j < |c|
        ensures c[j] != Head(h)
      {
      }
    }

    lemma NextSemRing(q: seq<nat>, i: nat)
      requires Fixed() && HeadsApart() && i < NUM_SEM && forall i :: 0 <= i < |q| ==> q[i] < NR_TASKS
      ensures var cs := SemRings(q, i);
              && Loose(cs, semafors[i].blocked)
              && InsertAt(cs, |cs|, [semafors[i].blocked]) == SemRings(q, i + 1)
    {
      var cs := SemRings(q, i);
      forall k | 0 <= k < |cs|
        ensures Head(2 + i) !in cs[k]
      {
        HeadLoose(k, if k == FREE then q else [], 2 + i);
      }
      assert Head(2 + i) == semafors[i].blocked;
      assert [semafors[i].blocked] == Circle1(2 + i, []);
      assert InsertAt(cs, |cs|, Circle1(2 + i, [])) == cs + [Circle1(2 + i, [])];
      assert cs + [Circle1(2 + i, [])] == SemRings(q, i + 1);
    }

    // ---- queue primitives

    lemma CirclesSet(qs: seq<seq<nat>>, k: nat, q: seq<nat>)
      requires Fixed() && InRange(qs) && k < NUM_QUEUES && InRange(qs[k := q])
      requires forall i :: 0 <= i < |q| ==> q[i] < NR_TASKS
      ensures Circles(qs[k := q]) == Circles(qs)[k := Circle1(k, q)]
    {
    }

    lemma CirclePush(k: nat, q: seq<nat>, t: nat)
      requires Fixed() && k < NUM_QUEUES && t < NR_TASKS && forall i :: 0 <= i < |q| ==> q[i] < NR_TASKS
      ensures Circle1(k, q + [t]) == InsertAt(Circle1(k, q), |q| + 1, task[t].list)
      ensures Circle1(k, [t] + q) == InsertAt(Circle1(k, q), 1, task[t].list)
    {
      var c := Circle1(k, q);
      var a, b := Circle1(k, q + [t]), Circle1(k, [t] + q);
      forall j | 0 <= j < |a|
        ensures a[j] == InsertAt(c, |q| + 1, task[t].list)[j]
      {
      }
      forall j | 0 <= j < |b|
        ensures b[j] == InsertAt(c, 1, task[t].list)[j]
      {
      }
    }

    lemma CirclePop(k: nat, q: seq<nat>)
      requires Fixed() && k < NUM_QUEUES && q != [] && forall i :: 0 <= i < |q| ==> q[i] < NR_TASKS
      ensures Circle1(k, q[1..]) == RemoveAt(Circle1(k, q), 1)
    {
    }

    /** A slot in no queue has its node in no ring. */
    lemma LooseSlot(qs: seq<seq<nat>>, t: nat)
      requires Fixed() && InRange(qs) && t < NR_TASKS
      requires forall k :: 0 <= k < NUM_QUEUES ==> t !in qs[k]
      ensures Loose(Circles(qs), task[t].list)
    {
      forall k | 0 <= k < NUM_QUEUES
        ensures task[t].list !in Circles(qs)[k]
      {
        var c := Circle1(k, qs[k]);
        forall i | 0 <= i < |c|
          ensures c[i].slot != t
        {
        }
      }
    }

    method LinkLast(t: nat, ghost k: nat, head: ListHead, ghost qs: seq<seq<nat>>)
      requires Fixed() && InRange(qs) && Rings(Circles(qs), all)
      requires t < NR_TASKS && k < NUM_QUEUES && head == Head(k)
      requires forall l :: 0 <= l < NUM_QUEUES ==> t !in qs[l]
      modifies all
      ensures InRange(qs[k := qs[k] + [t]]) && Rings(Circles(qs[k := qs[k] + [t]]), all)
    {
      LooseSlot(qs, t);
      ghost var cs := Circles(qs);
      Neighbours(cs, all, k, 0);
      CirclesSet(qs, k, qs[k] + [t]);
      CirclePush(k, qs[k], t);
      ListAddTail(task[t].list, head, cs, all, k);
    }

    method LinkFirst(t: nat, ghost k: nat, head: ListHead, ghost qs: seq<seq<nat>>)
      requires Fixed() && InRange(qs) && Rings(Circles(qs), all)
      requires t < NR_TASKS && k < NUM_QUEUES && head == Head(k)
      requires forall l :: 0 <= l < NUM_QUEUES ==> t !in qs[l]
      modifies all
      ensures InRange(qs[k := [t] + qs[k]]) && Rings(Circles(qs[k := [t] + qs[k]]), all)
    {
      LooseSlot(qs, t);
      ghost var cs := Circles(qs);
      Neighbours(cs, all, k, 0);
      CirclesSet(qs, k, [t] + qs[k]);
      CirclePush(k, qs[k], t);
      ListAdd(task[t].list, head, cs, all, k);
    }

    method Append(t: nat, ghost k: nat, head: ListHead)
      requires Valid() && t < NR_TASKS && k < NUM_QUEUES && head == Head(k)
      requires forall l :: 0 <= l < NUM_QUEUES ==> t !in s.queues[l]
      modifies `s, all
      ensures Valid() && s == PushBack(old(s), k, t)
    {
      LinkLast(t, k, head, s.queues);
      s := PushBack(s, k, t);
    }

    method Prepend(t: nat, ghost k: nat, head: ListHead)
      requires Valid() && t < NR_TASKS && k < NUM_QUEUES && head == Head(k)
      requires forall l :: 0 <= l < NUM_QUEUES ==> t !in s.queues[l]
      modifies `s, all
      ensures Valid() && s == PushFront(old(s), k, t)
    {
      LinkFirst(t, k, head, s.queues);
      s := PushFront(s, k, t);
    }

    /** list_first, list_del and list_head_to_task_struct in a row. */
    method TakeFirst(ghost k: nat, head: ListHead) returns (t: nat)
      requires Valid() && k < NUM_QUEUES && head == Head(k) && s.queues[k] != []
      modifies `s, all
      ensures Valid() && t == old(s).queues[k][0] && s == PopFront(old(s), k)
    {
      ghost var cs := Circles(s.queues);
      var e := ListFirst(head, cs[k]);
      assert e == task[s.queues[k][0]].list;
      Neighbours(cs, all, k, 1);
      CirclesSet(s.queues, k, s.queues[k][1..]);
      CirclePop(k, s.queues[k]);
      ListDel(e, cs, all, k, 1);
      t := e.slot;
      s := PopFront(s, k);
    }

    method IsEmpty(ghost k: nat, head: ListHead) returns (empty: bool)
      requires Valid() && k < NUM_QUEUES && head == Head(k)
      ensures empty <==> s.queues[k] == []
    {
      empty := ListEmpty(head, Circles(s.queues)[k]);
    }

    method SetTaskState(t: nat, state: TaskState)
      requires Valid() && t < NR_TASKS
      modifies `s, task[t]
      ensures Valid() && s == SetState(old(s), t, state)
    {
      task[t].state := state;
      s := SetState(s, t, state);
      assert forall u :: 0 <= u < NR_TASKS && u != t ==> task[u].list.slot != task[t].list.slot;
    }

    // ---- sched.c

    method SchedNextRR()
      requires Valid()
      modifies this, task, all
      ensures Valid() && s == Dispatch(old(s))
    {
      var empty := IsEmpty(READY, readyqueue);
      if !empty {
        var t := TakeFirst(READY, readyqueue);
        StartTask(t);
      } else {
        StartTask(idle);
      }
    }

    /** The second half of sched_next_rr; task_switch makes t the running task. */
    method StartTask(t: nat)
      requires Valid() && t < NR_TASKS
      modifies this, task[t]
      ensures Valid() && s == Start(old(s), t)
    {
      SetTaskState(t, Run);
      remainingQuantum := task[t].quantum;
      current := t;
      s := s.(remaining := s.tasks[t].quantum, current := t);
    }

    /** t occurs in the queues at (k, i) and nowhere else. */
    ghost predicate QueuedAt(t: nat, k: nat, i: nat)
      reads this
    {
      && k < |s.queues| && i < |s.queues[k]| && s.queues[k][i] == t
      && (forall j :: 0 <= j < |s.queues[k]| && s.queues[k][j] == t ==> j == i)
      && (forall l :: 0 <= l < |s.queues| && l != k ==> t !in s.queues[l])
    }

    lemma {:induction false} WithoutAbsent(q: seq<nat>, t: nat)
      requires t !in q
      ensures Without(q, t) == q
    {
      if q != [] {
        WithoutAbsent(q[1..], t);
      }
    }

    lemma {:induction false} WithoutOnce(q: seq<nat>, t: nat, i: nat)
      requires i < |q| && q[i] == t && forall j :: 0 <= j < |q| && q[j] == t ==> j == i
      ensures Without(q, t) == RemoveAt(q, i)
    {
      if i == 0 {
        WithoutAbsent(q[1..], t);
        assert q[1..] == RemoveAt(q, 0);
      } else {
        WithoutOnce(q[1..], t, i - 1);
        assert RemoveAt(q, i) == [q[0]] + RemoveAt(q[1..], i - 1);
      }
    }

    lemma UnlinkOnce(t: nat, k: nat, i: nat)
      requires QueuedAt(t, k, i)
      ensures Unlink(s, t) == SetQueue(s, k, RemoveAt(s.queues[k], i))
    {
      forall l | 0 <= l < |s.queues|
        ensures Unlink(s, t).queues[l] == s.queues[k := RemoveAt(s.queues[k], i)][l]
      {
        if l == k {
          WithoutOnce(s.queues[k], t, i);
        } else {
          WithoutAbsent(s.queues[l], t);
        }
      }
    }

    lemma CircleRemove(k: nat, q: seq<nat>, i: nat)
      requires Fixed() && k < NUM_QUEUES && i < |q| && forall i :: 0 <= i < |q| ==> q[i] < NR_TASKS
      ensures Circle1(k, RemoveAt(q, i)) == RemoveAt(Circle1(k, q), i + 1)
    {
      var a, b := Circle1(k, RemoveAt(q, i)), RemoveAt(Circle1(k, q), i + 1);
      forall j | 0 <= j < |a|
        ensures a[j] == b[j]
      {
      }
    }

    /** list_del of a queued task's node. */
    method Leave(t: nat, ghost k: nat, ghost i: nat)
      requires Valid() && t < NR_TASKS && QueuedAt(t, k, i)
      modifies `s, all
      ensures Valid() && s == Unlink(old(s), t)
      ensures forall l :: 0 <= l < NUM_QUEUES ==> t !in s.queues[l]
    {
      UnlinkOnce(t, k, i);
      DelNode(t, k, i, s.queues);
      s := SetQueue(s, k, RemoveAt(s.queues[k], i));
    }

    method DelNode(t: nat, ghost k: nat, ghost i: nat, ghost qs: seq<seq<nat>>)
      requires Fixed() && InRange(qs) && Rings(Circles(qs), all)
      requires t < NR_TASKS && k < NUM_QUEUES && i < |qs[k]| && qs[k][i] == t
      modifies all
      ensures InRange(qs[k := RemoveAt(qs[k], i)]) && Rings(Circles(qs[k := RemoveAt(qs[k], i)]), all)
    {
      ghost var cs := Circles(qs);
      Neighbours(cs, all, k, i + 1);
      CirclesSet(qs, k, RemoveAt(qs[k], i));
      CircleRemove(k, qs[k], i);
      ListDel(task[t].list, cs, all, k, i + 1);
    }

    /** update_process_state_rr(t, &readyqueue); the state field decides whether t is unlinked first. */
    method UpdateProcessStateRR(t: nat, ghost k: nat, ghost i: nat)
      requires Valid() && t < NR_TASKS
      requires task[t].state == Run ==> forall l :: 0 <= l < NUM_QUEUES ==> t !in s.queues[l]
      requires task[t].state != Run ==> QueuedAt(t, k, i)
      modifies `s, task[t], all
      ensures Valid() && s == Requeue(old(s), t)
    {
      if task[t].state != Run {
        Leave(t, k, i);
      }
      Append(t, READY, readyqueue);
      SetTaskState(t, Ready);
    }

    /** The running task is in no ring. */
    lemma CurrentNowhere(s: Sys)
      requires Inv(s)
      ensures forall k :: 0 <= k < NUM_QUEUES ==> s.current !in s.queues[k]
    {
      forall k | 0 <= k < NUM_QUEUES
        ensures s.current !in s.queues[k]
      {
        if s.current in s.queues[k] {
          Alone(s.queues, multiset{s.current}, s.idle, k, s.current);
        }
      }
    }

    method NeedsSchedRR() returns (needed: bool)
      requires Valid()
      modifies `s, `remainingQuantum
      ensures Valid()
      ensures needed <==> old(s).remaining == 0 && old(s).queues[READY] != []
      ensures s == if old(s).remaining == 0 && !needed
                   then old(s).(remaining := old(s).tasks[old(s).current].quantum) else old(s)
    {
      var empty := IsEmpty(READY, readyqueue);
      if remainingQuantum == 0 && !empty {
        return true;
      }
      if remainingQuantum == 0 {
        remainingQuantum := task[current].quantum;
        s := s.(remaining := remainingQuantum);
      }
      return false;
    }

    /** schedule(), as called from the clock interrupt. */
    method ScheduleTick()
      requires Valid() && Inv(s)
      modifies this, task, all
      ensures Valid() && s == Schedule(old(s)) && Inv(s)
    {
      TickKeeps(s);
      CurrentNowhere(s);
      remainingQuantum := remainingQuantum - 1;
      s := s.(remaining := s.remaining - 1);
      var needed := NeedsSchedRR();
      if needed {
        UpdateProcessStateRR(current, 0, 0);
        SchedNextRR();
      }
    }

    /** sys_yield: force_task_switch(). */
    method ForceTaskSwitch()
      requires Valid() && Inv(s)
      modifies this, task, all
      ensures Valid() && s == YieldStep(old(s))
    {
      CurrentNowhere(s);
      UpdateProcessStateRR(current, 0, 0);
      SchedNextRR();
    }

    // ---- sys.c

    /** The queue half of sys_exit and sys_threadExit, which only differ in the PID. */
    method Retire(forgetPid: bool)
      requires Valid() && Inv(s) && s.current != s.idle
      modifies this, task, all
      ensures Valid() && s == ExitStep(old(s), forgetPid)
    {
      CurrentNowhere(s);
      Append(current, FREE, freequeue);
      if forgetPid {
        task[current].pid := -1;
        s := s.(tasks := s.tasks[current := s.tasks[current].(pid := -1)]);
        assert forall u :: 0 <= u < NR_TASKS && u != current ==> task[u].list.slot != task[current].list.slot;
      }
      assert s == Retired(old(s), forgetPid);
      SchedNextRR();
    }

    /** copy_data(current(), uchild, ...): every field, the list node included. */
    method CopyTask(c: nat)
      requires Valid() && c < NR_TASKS && c != current
      requires forall k :: 0 <= k < NUM_QUEUES ==> c !in s.queues[k]
      modifies `s, task[c], all
      ensures Valid() && s == old(s).(tasks := old(s).tasks[c := old(s).tasks[old(s).current]])
    {
      LooseSlot(s.queues, c);
      CopyNode(task[c].list, task[current].list, Circles(s.queues), all);
      assert task[c].list.slot != task[current].list.slot;
      CopyFields(c);
    }

    method CopyFields(c: nat)
      requires Valid() && c < NR_TASKS && c != current
      modifies `s, task[c]
      ensures Valid() && s == old(s).(tasks := old(s).tasks[c := old(s).tasks[old(s).current]])
    {
      assert forall u :: 0 <= u < NR_TASKS && u != c ==> task[u].list.slot != task[c].list.slot;
      task[c].pid := task[current].pid;
      task[c].tid := task[current].tid;
      task[c].state := task[current].state;
      task[c].quantum := task[current].quantum;
      s := s.(tasks := s.tasks[c := s.tasks[current]]);
    }

    /** Takes the first free slot and copies the running task's struct into it. */
    method TakeSlot() returns (c: nat)
      requires Valid() && Inv(s) && s.queues[FREE] != []
      modifies `s, task, all
      ensures Valid() && c == old(s).queues[FREE][0] && c != current
      ensures s == PopFront(old(s), FREE).(tasks := old(s).tasks[c := old(s).tasks[old(s).current]])
      ensures forall k :: 0 <= k < NUM_QUEUES ==> c !in s.queues[k]
    {
      HeadAlone(s.queues, multiset{s.current}, s.idle, FREE);
      c := TakeFirst(FREE, freequeue);
      assert c != current;
      CopyTask(c);
    }

    /** Empties ring 2 + i and sets the fields of semaphore i. */
    method SetSem(i: nat, semid: int, count: int, pid: int)
      requires Valid() && i < NUM_SEM
      modifies `s, semafors[i], all
      ensures Valid()
      ensures s == SetQueue(old(s), SemQueue(i), []).(sems := old(s).sems[i := Sem(semid, count, pid)])
    {
      SetSemFields(i, semid, count, pid);
      EmptyRing(i, s.queues);
      s := SetQueue(s, SemQueue(i), []);
    }

    method SetSemFields(i: nat, semid: int, count: int, pid: int)
      requires Valid() && i < NUM_SEM
      modifies `s, semafors[i]
      ensures Valid() && s == old(s).(sems := old(s).sems[i := Sem(semid, count, pid)])
    {
      assert forall j :: 0 <= j < NUM_SEM && j != i ==> semafors[j].index != semafors[i].index;
      semafors[i].semid, semafors[i].count, semafors[i].pid := semid, count, pid;
      s := s.(sems := s.sems[i := Sem(semid, count, pid)]);
    }

    method EmptyRing(i: nat, ghost qs: seq<seq<nat>>)
      requires Fixed() && InRange(qs) && Rings(Circles(qs), all) && i < NUM_SEM
      modifies all
      ensures InRange(qs[SemQueue(i) := []]) && Rings(Circles(qs[SemQueue(i) := []]), all)
    {
      ghost var cs := Circles(qs);
      assert Head(SemQueue(i)) == semafors[i].blocked;
      CirclesSet(qs, SemQueue(i), []);
      assert Circle1(SemQueue(i), []) == [semafors[i].blocked];
      ResetListHead(semafors[i].blocked, cs, all, SemQueue(i));
    }

    /** The first n semaphores reset. */
    static ghost function ResetUpTo(s: Sys, n: nat): (r: Sys)
      requires Shape(s) && n <= NUM_SEM
      ensures Shape(r)
    {
      if n == 0 then s
      else SetQueue(ResetUpTo(s, n - 1), SemQueue(n - 1), []).(
           sems := ResetUpTo(s, n - 1).sems[n - 1 := Sem(-1, 0, -1)])
    }

    static lemma {:induction false} ResetExact(s: Sys, n: nat)
      requires Shape(s) && n <= NUM_SEM
      ensures var r := ResetUpTo(s, n);
              && r == s.(sems := r.sems, queues := r.queues)
              && (forall i :: 0 <= i < NUM_SEM ==> r.sems[i] == if i < n then Sem(-1, 0, -1) else s.sems[i])
              && (forall k :: 0 <= k < NUM_QUEUES ==> r.queues[k] == if 2 <= k < 2 + n then [] else s.queues[k])
    {
      if n > 0 {
        ResetExact(s, n - 1);
      }
    }

    static lemma ResetAll(s: Sys)
      requires Shape(s)
      ensures ResetUpTo(s, NUM_SEM) == ResetSems(s)
    {
      ResetExact(s, NUM_SEM);
      assert ResetUpTo(s, NUM_SEM).queues == ResetSems(s).queues;
      assert ResetUpTo(s, NUM_SEM).sems == ResetSems(s).sems;
    }

    method ResetSemaphores()
      requires Valid()
      modifies `s, semafors, all
      ensures Valid() && s == ResetSems(old(s))
    {
      for i := 0 to NUM_SEM
        invariant Valid() && s == ResetUpTo(old(s), i)
      {
        SetSem(i, -1, 0, -1);
      }
      ResetAll(old(s));
    }

    /** sys_fork up to the page allocation. */
    method BeginFork() returns (c: nat)
      requires Valid() && Inv(s) && s.queues[FREE] != []
      modifies `s, task, semafors, all
      ensures Valid() && s == ForkBegin(old(s))
      ensures c == old(s).queues[FREE][0] && c != current
      ensures forall k :: 0 <= k < NUM_QUEUES ==> c !in s.queues[k]
    {
      c := TakeSlot();
      ResetSemaphores();
    }

    /** The end of a successful sys_fork. */
    method CommitFork(c: nat) returns (pid: int)
      requires Valid() && c < NR_TASKS
      requires forall k :: 0 <= k < NUM_QUEUES ==> c !in s.queues[k]
      modifies this, task[c], all
      ensures Valid() && s == ForkCommit(old(s), c) && pid == s.lastPid
    {
      globalPid := globalPid + 1;
      pid := globalPid;
      task[c].pid := globalPid;
      task[c].state := Ready;
      assert forall u :: 0 <= u < NR_TASKS && u != c ==> task[u].list.slot != task[c].list.slot;
      s := s.(tasks := s.tasks[c := s.tasks[c].(pid := globalPid, state := Ready)], lastPid := globalPid);
      Append(c, READY, readyqueue);
    }

    /** sys_threadCreate, with what it meets in memory as parameters. */
    method ThreadCreateQueues(accessOk: bool, page: int, frame: bool) returns (r: int)
      requires Valid() && Inv(s) && s.current != s.idle
      modifies this, task, all
      ensures Valid() && s == ThreadCreateStep(old(s), accessOk, page, frame).0
      ensures r == ThreadCreateStep(old(s), accessOk, page, frame).1
    {
      if !accessOk {
        return -EFAULT;
      }
      var empty := IsEmpty(FREE, freequeue);
      if empty {
        return -ENOMEM;
      }
      var c := TakeThreadSlot();
      if page > Paging.TOTAL_PAGES {
        return -1;
      }
      r := PlaceThread(c, frame);
    }

    /** The end of sys_threadCreate: the slot is ready, or free again if there was no frame. */
    method PlaceThread(c: nat, frame: bool) returns (r: int)
      requires Valid() && c < NR_TASKS && forall k :: 0 <= k < NUM_QUEUES ==> c !in s.queues[k]
      modifies `s, all
      ensures Valid() && s == PushBack(old(s), if frame then READY else FREE, c)
      ensures r == if frame then s.tasks[c].tid else -EAGAIN
    {
      if frame {
        Append(c, READY, readyqueue);
        r := task[c].tid;
      } else {
        Append(c, FREE, freequeue);
        r := -EAGAIN;
      }
    }

    method TakeThreadSlot() returns (c: nat)
      requires Valid() && Inv(s) && s.queues[FREE] != []
      modifies `s, `globalTid, task, all
      ensures Valid() && c == old(s).queues[FREE][0]
      ensures s == ThreadBegin(old(s))
      ensures forall k :: 0 <= k < NUM_QUEUES ==> c !in s.queues[k]
    {
      c := TakeSlot();
      NameThread(c);
      NamedThread(old(s), s, c);
    }

    static lemma NamedThread(s: Sys, s': Sys, c: nat)
      requires Shape(s) && s.queues[FREE] != [] && c == s.queues[FREE][0]
      requires s' == PopFront(s, FREE).(
                     tasks := s.tasks[c := s.tasks[s.current]][c := s.tasks[s.current].(tid := s.lastTid + 1, state := Ready)],
                     lastTid := s.lastTid + 1)
      ensures s' == ThreadBegin(s)
    {
      assert s'.tasks == ThreadBegin(s).tasks;
    }

    method NameThread(c: nat)
      requires Valid() && c < NR_TASKS
      modifies `s, `globalTid, task[c]
      ensures Valid()
      ensures s == old(s).(tasks := old(s).tasks[c := old(s).tasks[c].(tid := old(s).lastTid + 1, state := Ready)],
                           lastTid := old(s).lastTid + 1)
    {
      globalTid := globalTid + 1;
      task[c].tid := globalTid;
      task[c].state := Ready;
      assert forall u :: 0 <= u < NR_TASKS && u != c ==> task[u].list.slot != task[c].list.slot;
      s := s.(tasks := s.tasks[c := s.tasks[c].(tid := globalTid, state := Ready)], lastTid := globalTid);
    }

    method SemCreateCall(value: int) returns (r: int)
      requires Valid()
      modifies `s, semafors, all
      ensures Valid() && s == SemCreateStep(old(s), value).0 && r == SemCreateStep(old(s), value).1
    {
      for i := 0 to NUM_SEM
        invariant Valid() && s == old(s)
        invariant FirstUnused(s.sems, 0) == FirstUnused(s.sems, i)
      {
        if semafors[i].semid == -1 {
          SetSem(i, i, value, task[current].pid);
          return i;
        }
      }
      r := -1;
    }

    /** The guards of wait, signal and destroy. */
    method Check(semID: int) returns (ok: bool)
      requires Valid() && semID != NUM_SEM
      ensures ok <==> Accepted(s, semID)
    {
      ok := 0 <= semID <= 10 && semafors[semID].pid == task[current].pid && semafors[semID].semid == semID;
    }

    method AddCount(id: nat, d: int)
      requires Valid() && id < NUM_SEM
      modifies `s, semafors[id]
      ensures Valid() && s == SetCount(old(s), id, old(s).sems[id].count + d)
    {
      assert forall j :: 0 <= j < NUM_SEM && j != id ==> semafors[j].index != semafors[id].index;
      semafors[id].count := semafors[id].count + d;
      s := SetCount(s, id, s.sems[id].count + d);
    }

    method SemWaitCall(semID: int) returns (r: int)
      requires Valid() && Inv(s) && s.current != s.idle && semID != NUM_SEM
      modifies this, task, semafors, all
      ensures Valid() && s == SemWaitStep(old(s), semID).0 && r == SemWaitStep(old(s), semID).1
    {
      var ok := Check(semID);
      if !ok {
        return -1;
      }
      CurrentNowhere(s);
      AddCount(semID, -1);
      if semafors[semID].count < 0 {
        Block(semID);
      }
      r := 0;
    }

    method Block(id: nat)
      requires Valid() && id < NUM_SEM
      requires forall k :: 0 <= k < NUM_QUEUES ==> s.current !in s.queues[k]
      modifies this, task, all
      ensures Valid()
      ensures s == Dispatch(SetState(PushFront(old(s), SemQueue(id), old(s).current), old(s).current, Blocked))
    {
      SetTaskState(current, Blocked);
      Prepend(current, SemQueue(id), semafors[id].blocked);
      SchedNextRR();
    }

    method SemSignalCall(semID: int) returns (r: int)
      requires Valid() && Inv(s) && s.current != s.idle && semID != NUM_SEM
      modifies this, task, semafors, all
      ensures SignalDefined(old(s), semID)
      ensures Valid() && s == SemSignalStep(old(s), semID).0 && r == SemSignalStep(old(s), semID).1
    {
      var ok := Check(semID);
      if !ok {
        return -1;
      }
      assert SemOk(s, semID);
      if semafors[semID].count < 0 {
        HeadAlone(s.queues, multiset{s.current}, s.idle, SemQueue(semID));
      }
      Signal(semID);
      r := 0;
    }

    method Signal(id: nat)
      requires Valid() && id < NUM_SEM
      requires s.sems[id].count < 0 ==> s.queues[SemQueue(id)] != []
      requires s.sems[id].count < 0 ==>
                 var q := s.queues[SemQueue(id)];
                 q[0] !in q[1..] && forall k :: 0 <= k < NUM_QUEUES && k != SemQueue(id) ==> q[0] !in s.queues[k]
      modifies this, task, semafors, all
      ensures Valid()
      ensures var s1 := SetCount(old(s), id, old(s).sems[id].count + 1);
              s == if s1.sems[id].count <= 0
                   then PushFront(SetState(PopFront(s1, SemQueue(id)), s1.queues[SemQueue(id)][0], Ready), READY,
                                  s1.queues[SemQueue(id)][0])
                   else s1
    {
      AddCount(id, 1);
      if semafors[id].count <= 0 {
        Wake(id);
      }
    }

    method Wake(id: nat)
      requires Valid() && id < NUM_SEM && s.queues[SemQueue(id)] != []
      requires var q := s.queues[SemQueue(id)]; q[0] !in q[1..]
      requires forall k :: 0 <= k < NUM_QUEUES && k != SemQueue(id) ==> s.queues[SemQueue(id)][0] !in s.queues[k]
      modifies `s, task, all
      ensures Valid()
      ensures var l := old(s).queues[SemQueue(id)][0];
              s == PushFront(SetState(PopFront(old(s), SemQueue(id)), l, Ready), READY, l)
    {
      var l := TakeFirst(SemQueue(id), semafors[id].blocked);
      SetTaskState(l, Ready);
      Prepend(l, READY, readyqueue);
    }

    /** One turn of the drain loop. */
    method Release(id: nat)
      requires Valid() && id < NUM_SEM && s.queues[SemQueue(id)] != []
      requires Complete(Contents(s), s.idle)
      modifies `s, task, all
      ensures Valid() && Complete(Contents(s), s.idle)
      ensures var l := old(s).queues[SemQueue(id)][0];
              s == PushBack(SetState(PopFront(old(s), SemQueue(id)), l, Ready), READY, l)
    {
      ghost var k := SemQueue(id);
      HeadAlone(s.queues, multiset{s.current}, s.idle, k);
      PoolPop(s.queues, k);
      ghost var rest := s.queues[k := s.queues[k][1..]];
      var l := TakeFirst(k, semafors[id].blocked);
      SetTaskState(l, Ready);
      PoolPush(rest, READY, l, rest[READY] + [l]);
      Append(l, READY, readyqueue);
      assert Contents(s) == Contents(old(s));
    }

    method SemDestroyCall(semID: int) returns (r: int)
      requires Valid() && Inv(s) && s.current != s.idle && semID != NUM_SEM
      modifies this, task, semafors, all
      ensures Valid() && s == SemDestroyStep(old(s), semID).0 && r == SemDestroyStep(old(s), semID).1
    {
      var ok := Check(semID);
      if !ok {
        return -1;
      }
      ReleaseAll(semID);
      DrainExact(old(s), semID);
      SetSemFields(semID, -1, 0, -1);
      r := 0;
    }

    method ReleaseAll(id: nat)
      requires Valid() && id < NUM_SEM && Complete(Contents(s), s.idle)
      modifies `s, task, all
      ensures Valid() && s == Drain(old(s), id)
    {
      var empty := IsEmpty(SemQueue(id), semafors[id].blocked);
      while !empty
        invariant Valid() && Complete(Contents(s), s.idle)
        invariant Drain(s, id) == Drain(old(s), id)
        invariant empty <==> s.queues[SemQueue(id)] == []
        decreases |s.queues[SemQueue(id)]|
      {
        empty := ReleaseNext(id);
      }
    }

    /** The body of the drain loop and its next test. */
    method ReleaseNext(id: nat) returns (empty: bool)
      requires Valid() && id < NUM_SEM && s.queues[SemQueue(id)] != []
      requires Complete(Contents(s), s.idle)
      modifies `s, task, all
      ensures Valid() && Complete(Contents(s), s.idle)
      ensures Drain(s, id) == Drain(old(s), id)
      ensures |s.queues[SemQueue(id)]| < |old(s).queues[SemQueue(id)]|
      ensures empty <==> s.queues[SemQueue(id)] == []
    {
      Release(id);
      empty := IsEmpty(SemQueue(id), semafors[id].blocked);
    }

    // ---- whole runs on the rings

    /** sys_fork's queue effects, with the outcome of the page allocation as a parameter. */
    method ForkQueues(frames: bool) returns (r: int)
      requires Valid() && Inv(s)
      modifies this, task, semafors, all
      ensures Valid() && s == ForkStep(old(s), frames).0 && r == ForkStep(old(s), frames).1
    {
      var empty := IsEmpty(FREE, freequeue);
      if empty {
        return -ENOMEM;
      }
      var c := BeginFork();
      if frames {
        r := CommitFork(c);
      } else {
        Append(c, FREE, freequeue);
        r := -EAGAIN;
      }
    }

    method EnterSemaphore(e: Event)
      requires Valid() && Inv(s) && Enabled(s, e)
      requires e.SemCreate? || e.SemWait? || e.SemSignal? || e.SemDestroy?
      modifies this, task, semafors, all
      ensures Valid() && s == Step(old(s), e)
    {
      var r: int;
      if e.SemCreate? {
        r := SemCreateCall(e.value);
      } else if e.SemWait? {
        r := SemWaitCall(e.id);
      } else if e.SemSignal? {
        r := SemSignalCall(e.id);
      } else {
        r := SemDestroyCall(e.id);
      }
    }

    method EnterTask(e: Event)
      requires Valid() && Inv(s) && Enabled(s, e)
      requires !(e.SemCreate? || e.SemWait? || e.SemSignal? || e.SemDestroy?)
      modifies this, task, semafors, all
      ensures Valid() && s == Step(old(s), e)
    {
      var r: int;
      if e.Tick? {
        ScheduleTick();
      } else if e.Yield? {
        ForceTaskSwitch();
      } else if e.Fork? {
        r := ForkQueues(e.frames);
      } else if e.ThreadCreate? {
        r := ThreadCreateQueues(e.accessOk, e.page, e.frame);
      } else {
        Retire(e.Exit?);
      }
    }

    /** Any kernel entry on the rings is the step of the machine. */
    method Handle(e: Event)
      requires Valid() && Inv(s) && Enabled(s, e)
      modifies this, task, semafors, all
      ensures Valid() && s == Step(old(s), e)
    {
      if e.SemCreate? || e.SemWait? || e.SemSignal? || e.SemDestroy? {
        EnterSemaphore(e);
      } else {
        EnterTask(e);
      }
    }

    /** ... and the invariant survives it iff it was safe. */
    method Enter(e: Event)
      requires Valid() && Inv(s) && Enabled(s, e)
      modifies this, task, semafors, all
      ensures Valid() && s == Step(old(s), e)
      ensures Inv(s) <==> Safe(old(s), e)
    {
      StepKeepsIffSafe(s, e);
      Handle(e);
    }

    /** After any legal run the rings hold exactly the queues of the machine's final state. */
    method EnterAll(es: seq<Event>)
      requires Valid() && Inv(s) && Legal(s, es)
      modifies this, task, semafors, all
      ensures Valid() && Inv(s) && s == Final(old(s), es)
    {
      var i := 0;
      while i < |es|
        invariant 0 <= i <= |es| && Valid() && Inv(s)
        invariant Legal(s, es[i..]) && Final(s, es[i..]) == Final(old(s), es)
      {
        assert es[i..][0] == es[i] && es[i..][1..] == es[i + 1..];
        Enter(es[i]);
        i := i + 1;
      }
    }
  }
}
