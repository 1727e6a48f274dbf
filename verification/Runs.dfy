/** Runs of a transition system given by its successor function. */
module Runs {

  /** A sequence of states and the calls between them. */
  ghost predicate IsRun<S(!new), C>(next: (S, C) -> iset<S>, ks: seq<S>, calls: seq<C>) {
    |ks| == |calls| + 1 && forall i {:trigger calls[i]} :: 0 <= i < |calls| ==> ks[i + 1] in next(ks[i], calls[i])
  }

  /** The calls can lead from k to k'. */
  ghost predicate Reaches<S(!new), C>(next: (S, C) -> iset<S>, k: S, calls: seq<C>, k': S)
    decreases |calls|
  {
    if calls == [] then k' == k else exists k1 :: k1 in next(k, calls[0]) && Reaches(next, k1, calls[1..], k')
  }

  /** What every step by a permitted call keeps holds all along a run of permitted calls. */
  lemma {:induction false} RunInvariant<S(!new), C(!new)>(next: (S, C) -> iset<S>, inv: S -> bool, may: (S, C) -> bool,
                                                         ks: seq<S>, calls: seq<C>, n: nat)
    requires IsRun(next, ks, calls) && inv(ks[0]) && n < |ks|
    requires forall i {:trigger calls[i]} :: 0 <= i < |calls| ==> may(ks[i], calls[i])
    requires forall k, k', c :: inv(k) && may(k, c) && k' in next(k, c) ==> inv(k')
    ensures inv(ks[n])
  {
    if n > 0 {
      RunInvariant(next, inv, may, ks, calls, n - 1);
      var i := n - 1;
      assert ks[i + 1] in next(ks[i], calls[i]);
    }
  }

  lemma RunTail<S(!new), C>(next: (S, C) -> iset<S>, ks: seq<S>, calls: seq<C>)
    requires IsRun(next, ks, calls) && calls != []
    ensures IsRun(next, ks[1..], calls[1..])
  {
    forall i {:trigger calls[1..][i]} | 0 <= i < |calls[1..]|
      ensures ks[1..][i + 1] in next(ks[1..][i], calls[1..][i])
    {
      var j := i + 1;
      assert ks[j + 1] in next(ks[j], calls[j]);
    }
  }

  lemma RunCons<S(!new), C>(next: (S, C) -> iset<S>, k: S, ks: seq<S>, calls: seq<C>)
    requires calls != [] && IsRun(next, ks, calls[1..]) && ks[0] in next(k, calls[0])
    ensures IsRun(next, [k] + ks, calls)
  {
    var ks' := [k] + ks;
    forall i | 0 <= i < |calls|
      ensures ks'[i + 1] in next(ks'[i], calls[i])
    {
      if i > 0 {
        var j := i - 1;
        assert ks[j + 1] in next(ks[j], calls[1..][j]);
      }
    }
  }

  /** To reach a state is to make a run to it. */
  lemma {:induction false} ReachesByRun<S(!new), C>(next: (S, C) -> iset<S>, k: S, calls: seq<C>, k': S) returns (ks: seq<S>)
    requires Reaches(next, k, calls, k')
    ensures IsRun(next, ks, calls) && ks[0] == k && ks[|calls|] == k'
    decreases |calls|
  {
    if calls == [] {
      ks := [k];
    } else {
      var k1 :| k1 in next(k, calls[0]) && Reaches(next, k1, calls[1..], k');
      var rest := ReachesByRun(next, k1, calls[1..], k');
      RunCons(next, k, rest, calls);
      ks := [k] + rest;
    }
  }

  lemma {:induction false} ReachMore<S(!new), C>(next: (S, C) -> iset<S>, k: S, calls: seq<C>, k1: S, call: C, k2: S)
    requires Reaches(next, k, calls, k1) && k2 in next(k1, call)
    ensures Reaches(next, k, calls + [call], k2)
    decreases |calls|
  {
    if calls == [] {
      assert [call][1..] == [] && Reaches(next, k2, [], k2);
      assert calls + [call] == [call];
    } else {
      var k0 :| k0 in next(k, calls[0]) && Reaches(next, k0, calls[1..], k1);
      ReachMore(next, k0, calls[1..], k1, call, k2);
      assert (calls + [call])[1..] == calls[1..] + [call];
    }
  }
}
