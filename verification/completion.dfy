/**
 * LabWork/Lab7/scheduler.c, main: the order in which the processes completed.
 * Full bubble passes over two parallel arrays, names and completion times,
 * bring the times into increasing order; each name stays with its time, and
 * processes with equal times keep the order of their indices.
 */
module Completion {

  /** p lists each index below n once. */
  ghost predicate IsPermutation(p: seq<nat>, n: nat) {
    && |p| == n
    && (forall k :: 0 <= k < n ==> p[k] < n)
    && (forall k, l :: 0 <= k < l < n ==> p[k] != p[l])
    && (forall i :: 0 <= i < n ==> i in p)
  }

  /** Entry i belongs before entry j: earlier time, or the same time and the lower original index. */
  predicate Earlier(times: seq<int>, i: nat, j: nat)
    requires i < |times| && j < |times|
  {
    times[i] < times[j] || (times[i] == times[j] && i < j)
  }

  ghost predicate InOrder(times: seq<int>, p: seq<nat>)
    requires IsPermutation(p, |times|)
  {
    forall k, l :: 0 <= k < l < |p| ==> Earlier(times, p[k], p[l])
  }

  /** There is only one stable order. */
  lemma OrderUnique(times: seq<int>, p: seq<nat>, q: seq<nat>)
    requires IsPermutation(p, |times|) && IsPermutation(q, |times|)
    requires InOrder(times, p) && InOrder(times, q)
    ensures p == q
  {
    forall k | 0 <= k < |p| ensures p[k] == q[k] {
      SamePosition(times, p, q, k);
    }
  }

  lemma {:induction false} SamePosition(times: seq<int>, p: seq<nat>, q: seq<nat>, k: nat)
    requires IsPermutation(p, |times|) && IsPermutation(q, |times|) && k < |p|
    requires InOrder(times, p) && InOrder(times, q)
    ensures p[k] == q[k]
  {
    forall j | 0 <= j < k ensures p[j] == q[j] {
      SamePosition(times, p, q, j);
    }
    assert p[k] in q && q[k] in p;
    var m :| 0 <= m < |q| && q[m] == p[k];
    var l :| 0 <= l < |p| && p[l] == q[k];
  }

  /** The arrays hold the original entries in the order p, each time with its name. */
  ghost predicate Arranged(times: seq<int>, names: seq<string>, times0: seq<int>, names0: seq<string>, p: seq<nat>) {
    && |times| == |names| == |times0| == |names0|
    && IsPermutation(p, |times|)
    && forall k :: 0 <= k < |p| ==> times[k] == times0[p[k]] && names[k] == names0[p[k]]
  }

  /** Entries of equal time have kept their order. */
  ghost predicate Stable(times: seq<int>, p: seq<nat>)
    requires |p| == |times|
  {
    forall k, l :: 0 <= k < l < |p| && times[k] == times[l] ==> p[k] < p[l]
  }

  /** No entry before position l has a greater time. */
  ghost predicate Highest(times: seq<int>, l: int) {
    0 <= l < |times| ==> forall k :: 0 <= k < l ==> times[k] <= times[l]
  }

  function Swapped<T>(s: seq<T>, j: nat): seq<T>
    requires j + 1 < |s|
  {
    s[j := s[j + 1]][j + 1 := s[j]]
  }

  lemma SwapPermutation(p: seq<nat>, n: nat, j: nat)
    requires IsPermutation(p, n) && j + 1 < n
    ensures IsPermutation(Swapped(p, j), n)
  {
    forall i | 0 <= i < n ensures i in Swapped(p, j) {
      assert i in p;
      var k :| 0 <= k < |p| && p[k] == i;
      assert Swapped(p, j)[if k == j then j + 1 else if k == j + 1 then j else k] == i;
    }
  }

  /** Exchanging neighbours that are out of order keeps names with times, stability and the settled tail. */
  lemma SwapKeeps(times: seq<int>, names: seq<string>, times0: seq<int>, names0: seq<string>, p: seq<nat>, j: nat)
    requires Arranged(times, names, times0, names0, p) && j + 1 < |times| && times[j + 1] < times[j]
    ensures Arranged(Swapped(times, j), Swapped(names, j), times0, names0, Swapped(p, j))
  {
    SwapPermutation(p, |times|, j);
  }

  lemma SwapStable(times: seq<int>, p: seq<nat>, j: nat)
    requires |p| == |times| && Stable(times, p) && j + 1 < |times| && times[j + 1] < times[j]
    ensures Stable(Swapped(times, j), Swapped(p, j))
  {
    var t, q := Swapped(times, j), Swapped(p, j);
    forall k, l | 0 <= k < l < |t| && t[k] == t[l]
      ensures q[k] < q[l]
    {
      var k' := if k == j then j + 1 else if k == j + 1 then j else k;
      var l' := if l == j then j + 1 else if l == j + 1 then j else l;
      assert times[k'] == times[l'] && k' < l';
    }
  }

  lemma SwapHighest(times: seq<int>, j: nat, l: int)
    requires j + 1 < |times| && times[j + 1] < times[j] && Highest(times, l) && (l <= j || j + 1 < l)
    ensures Highest(Swapped(times, j), if l == j then j + 1 else l)
  {
  }

  /** One comparison of a bubble pass. */
  method CompareSwap(times: array<int>, names: array<string>, j: nat, ghost p: seq<nat>) returns (ghost p': seq<nat>)
    requires times.Length == names.Length && j + 1 < times.Length && |p| == times.Length
    modifies times, names
    ensures old(times[j] <= times[j + 1]) ==> times[..] == old(times[..]) && names[..] == old(names[..]) && p' == p
    ensures old(times[j] > times[j + 1]) ==>
      times[..] == Swapped(old(times[..]), j) && names[..] == Swapped(old(names[..]), j) && p' == Swapped(p, j)
  {
    p' := p;
    if times[j + 1] < times[j] {
      var tempTime, tempName := times[j], names[j];
      times[j] := times[j + 1];
      names[j] := names[j + 1];
      times[j + 1] := tempTime;
      names[j + 1] := tempName;
      p' := Swapped(p, j);
    }
  }

  /** What pass i has established when it is about to compare entries j and j + 1. */
  ghost predicate PassInv(times: seq<int>, names: seq<string>, times0: seq<int>, names0: seq<string>, p: seq<nat>,
                          i: nat, j: nat)
  {
    && Arranged(times, names, times0, names0, p) && Stable(times, p)
    && (forall l :: |times| - i <= l < |times| ==> Highest(times, l))
    && Highest(times, if j < |times| - 1 - i then j else |times| - 1 - i)
  }

  lemma PassStep(times: seq<int>, names: seq<string>, times0: seq<int>, names0: seq<string>, p: seq<nat>, i: nat,
                 j: nat)
    requires PassInv(times, names, times0, names0, p, i, j) && i + 1 < |times| && j + 1 < |times|
    ensures if times[j] <= times[j + 1] then PassInv(times, names, times0, names0, p, i, j + 1)
            else PassInv(Swapped(times, j), Swapped(names, j), times0, names0, Swapped(p, j), i, j + 1)
  {
    var n := |times|;
    assert n - 1 - i <= j ==> Highest(times, j + 1);
    if times[j + 1] < times[j] {
      SwapKeeps(times, names, times0, names0, p, j);
      SwapStable(times, p, j);
      SwapHighest(times, j, j);
      forall l | n - i <= l < n ensures Highest(Swapped(times, j), l) {
        SwapHighest(times, j, l);
      }
    }
  }

  lemma PassDone(times: seq<int>, names: seq<string>, times0: seq<int>, names0: seq<string>, p: seq<nat>, i: nat,
                 j: nat)
    requires PassInv(times, names, times0, names0, p, i, j) && i + 1 < |times| && j + 1 == |times|
    ensures PassInv(times, names, times0, names0, p, i + 1, 0)
  {
  }

  /** One full pass over the arrays. */
  method BubblePass(times: array<int>, names: array<string>, ghost times0: seq<int>, ghost names0: seq<string>,
                    ghost p: seq<nat>, ghost i: nat) returns (ghost q: seq<nat>)
    requires times.Length == names.Length && i + 1 < times.Length
    requires PassInv(times[..], names[..], times0, names0, p, i, 0)
    modifies times, names
    ensures PassInv(times[..], names[..], times0, names0, q, i + 1, 0)
  {
    q := p;
    var j := 0;
    while j < times.Length - 1
      invariant 0 <= j <= times.Length - 1
      invariant PassInv(times[..], names[..], times0, names0, q, i, j)
    {
      PassStep(times[..], names[..], times0, names0, q, i, j);
      q := CompareSwap(times, names, j, q);
      j := j + 1;
    }
    PassDone(times[..], names[..], times0, names0, q, i, j);
  }

  /**
   * After num - 1 full passes the arrays are sorted by time; every time still
   * has its own name, and equal times keep their original order.
   */
  method CompletionOrder(times: array<int>, names: array<string>) returns (ghost p: seq<nat>)
    requires times.Length == names.Length
    modifies times, names
    ensures Arranged(times[..], names[..], old(times[..]), old(names[..]), p)
    ensures InOrder(old(times[..]), p)
  {
    var num := times.Length;
    p := seq(num, i requires 0 <= i < num => i);
    forall i | 0 <= i < num ensures i in p {
      assert p[i] == i;
    }
    var i := 0;
    while i < num - 1
      invariant 0 <= i && (num > 0 ==> i <= num - 1)
      invariant PassInv(times[..], names[..], old(times[..]), old(names[..]), p, i, 0)
    {
      p := BubblePass(times, names, old(times[..]), old(names[..]), p, i);
      i := i + 1;
    }
    Sorted(times[..], names[..], old(times[..]), old(names[..]), p, i);
  }

  lemma Sorted(times: seq<int>, names: seq<string>, times0: seq<int>, names0: seq<string>, p: seq<nat>, i: nat)
    requires PassInv(times, names, times0, names0, p, i, 0) && |times| <= i + 1
    ensures InOrder(times0, p)
  {
    forall k, l | 0 <= k < l < |p| ensures Earlier(times0, p[k], p[l]) {
      assert Highest(times, l);
    }
  }
}
