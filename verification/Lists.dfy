/**
  The circular intrusive doubly linked lists of list.c.

  A family of rings is described by a ghost sequence of circles: `circles[k][0]` is the head of
  ring k and the rest of `circles[k]` are its members in order. The operations only rewrite
  pointers; their contracts say which sequence operation on the family that is.
 */
module Lists {

  class ListHead {
    var next: ListHead?
    var prev: ListHead?
    /** The number of the task page that the node's address lies in, or -1 for a queue head. */
    const slot: int

    constructor (slot: int)
      ensures this.slot == slot && next == null && prev == null
    {
      this.slot := slot;
      next, prev := null, null;
    }
  }

  function After(i: nat, n: nat): nat {
    if i + 1 == n then 0 else i + 1
  }

  function Before(i: nat, n: nat): int {
    if i == 0 then n - 1 else i - 1
  }

  ghost predicate Distinct(c: seq<ListHead>) {
    forall i, j :: 0 <= i < |c| && 0 <= j < |c| && c[i] == c[j] ==> i == j
  }

  /** next and prev lead once around the circle, in opposite directions. */
  ghost predicate Circle(c: seq<ListHead>)
    reads c
  {
    && |c| > 0
    && Distinct(c)
    && (forall i {:trigger c[i].next} :: 0 <= i < |c| ==> c[i].next == c[After(i, |c|)])
    && (forall i {:trigger c[i].prev} :: 0 <= i < |c| ==> c[i].prev == c[Before(i, |c|)])
  }

  /** Circles among the nodes `all`, no two of which share a node. */
  ghost predicate Family(circles: seq<seq<ListHead>>, all: set<ListHead>) {
    && (forall k, i :: 0 <= k < |circles| && 0 <= i < |circles[k]| ==> circles[k][i] in all)
    && (forall k, l, x :: 0 <= k < |circles| && 0 <= l < |circles| && x in circles[k] && x in circles[l] ==> k == l)
  }

  /** A family of pairwise disjoint rings among the nodes `all`. */
  ghost predicate Rings(circles: seq<seq<ListHead>>, all: set<ListHead>)
    reads all
  {
    Family(circles, all) && forall k :: 0 <= k < |circles| ==> Circle(circles[k])
  }

  /** x is linked in no ring of the family. */
  ghost predicate Loose(circles: seq<seq<ListHead>>, x: ListHead) {
    forall k :: 0 <= k < |circles| ==> x !in circles[k]
  }

  /** The neighbours that an operation on ring k may rewrite are nodes of the family. */
  lemma Neighbours(circles: seq<seq<ListHead>>, all: set<ListHead>, k: nat, i: nat)
    requires Rings(circles, all) && k < |circles| && i < |circles[k]|
    ensures circles[k][i] in all
    ensures circles[k][i].next != null && circles[k][i].next in all
    ensures circles[k][i].prev != null && circles[k][i].prev in all
  {
    assert Circle(circles[k]);
    assert circles[k][i].next == circles[k][After(i, |circles[k]|)];
    assert circles[k][i].prev == circles[k][Before(i, |circles[k]|)];
  }

  ghost function InsertAt<T>(s: seq<T>, i: nat, x: T): (r: seq<T>)
    requires i <= |s|
    ensures |r| == |s| + 1 && r[i] == x
    ensures forall j {:trigger r[j]} :: 0 <= j < i ==> r[j] == s[j]
    ensures forall j {:trigger r[j]} :: i < j < |r| ==> r[j] == s[j - 1]
    ensures forall y :: y in r ==> y in s || y == x
  {
    assert s == s[..i] + s[i..];
    s[..i] + [x] + s[i..]
  }

  ghost function RemoveAt<T>(s: seq<T>, i: nat): (r: seq<T>)
    requires i < |s|
    ensures |r| == |s| - 1
    ensures forall j {:trigger r[j]} :: 0 <= j < i ==> r[j] == s[j]
    ensures forall j {:trigger r[j]} :: i <= j < |r| ==> r[j] == s[j + 1]
    ensures forall y :: y in r ==> y in s
  {
    s[..i] + s[i + 1..]
  }

  lemma FamilyInsert(circles: seq<seq<ListHead>>, all: set<ListHead>, k: nat, i: nat, n: ListHead)
    requires Family(circles, all) && k < |circles| && i <= |circles[k]| && n in all && Loose(circles, n)
    ensures Family(circles[k := InsertAt(circles[k], i, n)], all)
    ensures Distinct(circles[k]) ==> Distinct(InsertAt(circles[k], i, n))
  {
    var c := circles[k];
    var c' := InsertAt(c, i, n);
    forall j, m | 0 <= j < |c'| && 0 <= m < |c'| && c'[j] == c'[m] && Distinct(c)
      ensures j == m
    {
      assert j != i ==> c'[j] in c;
      assert m != i ==> c'[m] in c;
    }
  }

  lemma FamilyRemove(circles: seq<seq<ListHead>>, all: set<ListHead>, k: nat, i: nat)
    requires Family(circles, all) && k < |circles| && i < |circles[k]| && Distinct(circles[k])
    ensures Family(circles[k := RemoveAt(circles[k], i)], all)
    ensures Distinct(RemoveAt(circles[k], i))
    ensures Loose(circles[k := RemoveAt(circles[k], i)], circles[k][i])
  {
    var c := circles[k];
    assert c[i] in c;
    assert c[i] !in RemoveAt(c, i);
  }

  /** INIT_LIST_HEAD on a node outside the family: an empty ring joins it as ring k. */
  method InitListHead(list: ListHead, ghost circles: seq<seq<ListHead>>, ghost all: set<ListHead>, ghost k: nat)
    requires Rings(circles, all) && k <= |circles| && list in all && Loose(circles, list)
    modifies list
    ensures Rings(InsertAt(circles, k, [list]), all)
  {
    list.next := list;
    list.prev := list;
    ghost var circles' := InsertAt(circles, k, [list]);
    forall l | 0 <= l < |circles'|
      ensures Circle(circles'[l])
    {
      if l != k {
        assert circles'[l] in circles;
        assert list !in circles'[l];
      }
    }
    forall l, m, x | 0 <= l < |circles'| && 0 <= m < |circles'| && x in circles'[l] && x in circles'[m]
      ensures l == m
    {
      assert l < k ==> circles'[l] == circles[l];
      assert l > k ==> circles'[l] == circles[l - 1];
      assert m < k ==> circles'[m] == circles[m];
      assert m > k ==> circles'[m] == circles[m - 1];
    }
  }

  /** INIT_LIST_HEAD on the head of ring k: the ring becomes empty, its members belong to no ring. */
  method ResetListHead(list: ListHead, ghost circles: seq<seq<ListHead>>, ghost all: set<ListHead>, ghost k: nat)
    requires Rings(circles, all) && k < |circles| && list == circles[k][0]
    modifies list
    ensures Rings(circles[k := [list]], all)
  {
    ghost var others := RemoveAt(circles, k);
    assert list in circles[k];
    assert Rings(others, all);
    InitListHead(list, others, all, k);
    assert InsertAt(others, k, [list]) == circles[k := [list]];
  }

  /** copy_data of a task struct overwrites the node in it, which must be in no ring. */
  method CopyNode(dest: ListHead, start: ListHead, ghost circles: seq<seq<ListHead>>, ghost all: set<ListHead>)
    requires Rings(circles, all) && dest in all && Loose(circles, dest)
    modifies dest
    ensures Rings(circles, all)
    ensures dest.next == old(start.next) && dest.prev == old(start.prev)
  {
    dest.next, dest.prev := start.next, start.prev;
    forall k | 0 <= k < |circles|
      ensures Circle(circles[k])
    {
      assert dest !in circles[k];
    }
  }

  /** Links `n` in front of the i-th node of circle k, or behind the last one. */
  method InsertBetween(n: ListHead, prev: ListHead, next: ListHead,
                       ghost circles: seq<seq<ListHead>>, ghost all: set<ListHead>, ghost k: nat, ghost i: nat)
    requires Rings(circles, all) && k < |circles| && 0 < i <= |circles[k]|
    requires n in all && Loose(circles, n)
    requires prev == circles[k][i - 1]
    requires next == circles[k][After(i - 1, |circles[k]|)]
    modifies n, prev, next
    ensures Rings(circles[k := InsertAt(circles[k], i, n)], all)
  {
    ghost var c := circles[k];
    ghost var c' := InsertAt(c, i, n);
    FamilyInsert(circles, all, k, i, n);
    next.prev := n;
    n.next := next;
    n.prev := prev;
    prev.next := n;
    assert prev in c && next in c && n !in c;
    assert Circle(c') by {
      forall j | 0 <= j < |c'|
        ensures c'[j].next == c'[After(j, |c'|)]
      {
        if j < i - 1 {
          assert c'[j] == c[j] && c[j] != prev;
        } else if j > i {
          assert c'[j] == c[j - 1] && c[j - 1] != prev;
        }
      }
      forall j | 0 <= j < |c'|
        ensures c'[j].prev == c'[Before(j, |c'|)]
      {
        if j < i {
          assert c'[j] == c[j];
        } else if j > i {
          assert c'[j] == c[j - 1];
        }
      }
    }
    forall l | 0 <= l < |circles| && l != k
      ensures Circle(circles[l])
    {
      assert prev !in circles[l] && next !in circles[l] && n !in circles[l];
    }
  }

  /** list_add: the new entry becomes the first, as on a stack. */
  method ListAdd(n: ListHead, head: ListHead, ghost circles: seq<seq<ListHead>>, ghost all: set<ListHead>, ghost k: nat)
    requires Rings(circles, all) && k < |circles| && head == circles[k][0]
    requires n in all && Loose(circles, n)
    modifies n, head, head.next
    ensures Rings(circles[k := InsertAt(circles[k], 1, n)], all)
  {
    assert circles[k][0].next == circles[k][After(0, |circles[k]|)];
    InsertBetween(n, head, head.next, circles, all, k, 1);
  }

  /** list_add_tail: the new entry becomes the last, as in a queue. */
  method ListAddTail(n: ListHead, head: ListHead, ghost circles: seq<seq<ListHead>>, ghost all: set<ListHead>, ghost k: nat)
    requires Rings(circles, all) && k < |circles| && head == circles[k][0]
    requires n in all && Loose(circles, n)
    modifies n, head, head.prev
    ensures Rings(circles[k := InsertAt(circles[k], |circles[k]|, n)], all)
  {
    assert circles[k][0].prev == circles[k][Before(0, |circles[k]|)];
    InsertBetween(n, head.prev, head, circles, all, k, |circles[k]|);
  }

  /** list_del: the entry leaves its ring wherever it stands, without being told which ring that is. */
  method ListDel(entry: ListHead, ghost circles: seq<seq<ListHead>>, ghost all: set<ListHead>, ghost k: nat, ghost i: nat)
    requires Rings(circles, all) && k < |circles| && 0 < i < |circles[k]| && entry == circles[k][i]
    modifies entry, entry.prev, entry.next
    ensures Rings(circles[k := RemoveAt(circles[k], i)], all)
    ensures Loose(circles[k := RemoveAt(circles[k], i)], entry)
    ensures entry.next == null && entry.prev == null
  {
    ghost var c := circles[k];
    ghost var c' := RemoveAt(c, i);
    FamilyRemove(circles, all, k, i);
    assert c[i].prev == c[i - 1] && c[i].next == c[After(i, |c|)];
    var prev, next := entry.prev, entry.next;
    next.prev := prev;
    prev.next := next;
    entry.next := null;
    entry.prev := null;
    assert prev in c && next in c && entry in c;
    assert Circle(c') by {
      forall j | 0 <= j < |c'|
        ensures c'[j].next == c'[After(j, |c'|)]
      {
        var o := if j < i then j else j + 1;
        assert c'[j] == c[o] && c[o] != entry;
      }
      forall j | 0 <= j < |c'|
        ensures c'[j].prev == c'[Before(j, |c'|)]
      {
        var o := if j < i then j else j + 1;
        assert c'[j] == c[o] && c[o] != entry;
      }
    }
    forall l | 0 <= l < |circles| && l != k
      ensures Circle(circles[l])
    {
      assert prev !in circles[l] && next !in circles[l] && entry !in circles[l];
    }
  }

  /** list_empty. */
  method ListEmpty(head: ListHead, ghost c: seq<ListHead>) returns (empty: bool)
    requires Circle(c) && head == c[0]
    ensures empty <==> |c| == 1
  {
    assert c[0].next == c[After(0, |c|)];
    empty := head.next == head;
  }

  /** list_first: of an empty ring it is the head itself, so callers check first. */
  method ListFirst(head: ListHead, ghost c: seq<ListHead>) returns (first: ListHead)
    requires Circle(c) && head == c[0]
    ensures first == if |c| == 1 then head else c[1]
  {
    assert c[0].next == c[After(0, |c|)];
    first := head.next;
  }
}
