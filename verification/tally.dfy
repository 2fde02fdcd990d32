/** Weighted counts over a sequence of threads.

    Every protocol below keeps its threads in a sequence and lets one thread move at a
    time, so its invariants are linear facts about sums of weights.  The lemmas here say
    how such a sum reacts to a single move, to a new thread, and to a broadcast. */
module Tally {

  function Total<T>(s: seq<T>, w: T -> nat): (n: nat) {
    if s == [] then 0 else w(s[0]) + Total(s[1..], w)
  }

  lemma {:induction false} TotalUpdate<T>(s: seq<T>, i: nat, x: T, w: T -> nat)
    requires i < |s|
    ensures Total(s[i := x], w) == Total(s, w) - w(s[i]) + w(x)
  {
    if i == 0 {
      assert s[i := x][1..] == s[1..];
    } else {
      assert s[i := x][1..] == s[1..][i - 1 := x];
      TotalUpdate(s[1..], i - 1, x, w);
    }
  }

  lemma {:induction false} TotalAppend<T>(s: seq<T>, x: T, w: T -> nat)
    ensures Total(s + [x], w) == Total(s, w) + w(x)
  {
    if s == [] {
      assert s + [x] == [x];
    } else {
      assert (s + [x])[1..] == s[1..] + [x];
      TotalAppend(s[1..], x, w);
    }
  }

  /** One element never outweighs the sum. */
  lemma {:induction false} TotalAtLeast<T>(s: seq<T>, i: nat, w: T -> nat)
    requires i < |s|
    ensures w(s[i]) <= Total(s, w)
  {
    if i > 0 {
      TotalAtLeast(s[1..], i - 1, w);
    }
  }

  /** Two different elements together never outweigh the sum. */
  lemma {:induction false} TotalAtLeastTwo<T>(s: seq<T>, i: nat, j: nat, w: T -> nat)
    requires i < j < |s|
    ensures w(s[i]) + w(s[j]) <= Total(s, w)
  {
    if i == 0 {
      TotalAtLeast(s[1..], j - 1, w);
    } else {
      TotalAtLeastTwo(s[1..], i - 1, j - 1, w);
    }
  }

  lemma {:induction false} TotalWitness<T>(s: seq<T>, w: T -> nat) returns (i: nat)
    requires Total(s, w) > 0
    ensures i < |s| && w(s[i]) > 0
  {
    if w(s[0]) > 0 {
      i := 0;
    } else {
      var k := TotalWitness(s[1..], w);
      i := k + 1;
    }
  }

  lemma {:induction false} TotalZero<T>(s: seq<T>, w: T -> nat)
    requires forall i :: 0 <= i < |s| ==> w(s[i]) == 0
    ensures Total(s, w) == 0
  {
    if s != [] {
      TotalZero(s[1..], w);
    }
  }

  /** Two weights that agree on every element have the same sum. */
  lemma {:induction false} TotalCongruent<S, T>(s: seq<S>, t: seq<T>, v: S -> nat, w: T -> nat)
    requires |s| == |t|
    requires forall i :: 0 <= i < |s| ==> v(s[i]) == w(t[i])
    ensures Total(s, v) == Total(t, w)
  {
    if s != [] {
      assert forall i :: 0 <= i < |s[1..]| ==> s[1..][i] == s[i + 1] && t[1..][i] == t[i + 1];
      TotalCongruent(s[1..], t[1..], v, w);
    }
  }

  lemma {:induction false} TotalAdd<T>(s: seq<T>, u: T -> nat, v: T -> nat, w: T -> nat)
    requires forall i :: 0 <= i < |s| ==> w(s[i]) == u(s[i]) + v(s[i])
    ensures Total(s, w) == Total(s, u) + Total(s, v)
  {
    if s != [] {
      TotalAdd(s[1..], u, v, w);
    }
  }
}
