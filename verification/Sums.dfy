/** Sums over sequences of integers, and how they change under point updates. */
module Sums {

  function Sum(s: seq<int>): (r: int) {
    if s == [] then 0 else s[0] + Sum(s[1..])
  }

  lemma {:induction false} SumUpdate(s: seq<int>, i: nat, v: int)
    requires i < |s|
    ensures Sum(s[i := v]) == Sum(s) - s[i] + v
  {
    if i == 0 {
      assert s[0 := v][1..] == s[1..];
    } else {
      assert s[i := v][1..] == s[1..][i - 1 := v];
      SumUpdate(s[1..], i - 1, v);
    }
  }

  lemma {:induction false} SumPointwise(a: seq<int>, b: seq<int>, c: seq<int>)
    requires |a| == |b| == |c|
    requires forall i :: 0 <= i < |a| ==> c[i] == a[i] + b[i]
    ensures Sum(c) == Sum(a) + Sum(b)
  {
    if a != [] {
      SumPointwise(a[1..], b[1..], c[1..]);
    }
  }

  lemma {:induction false} SumScaled(a: seq<int>, c: seq<int>, k: int)
    requires |a| == |c|
    requires forall i :: 0 <= i < |a| ==> c[i] == k * a[i]
    ensures Sum(c) == k * Sum(a)
  {
    if a != [] {
      SumScaled(a[1..], c[1..], k);
    }
  }

  lemma {:induction false} SumMono(a: seq<int>, b: seq<int>)
    requires |a| == |b|
    requires forall i :: 0 <= i < |a| ==> a[i] <= b[i]
    ensures Sum(a) <= Sum(b)
  {
    if a != [] {
      SumMono(a[1..], b[1..]);
    }
  }

  lemma {:induction false} SumZero(s: seq<int>)
    requires forall i :: 0 <= i < |s| ==> s[i] == 0
    ensures Sum(s) == 0
  {
    if s != [] {
      SumZero(s[1..]);
    }
  }

  /** A sum of non-negative terms bounds any two of its terms together. */
  lemma SumTwoTerms(s: seq<int>, i: nat, j: nat)
    requires i < |s| && j < |s| && i != j
    requires forall k :: 0 <= k < |s| ==> s[k] >= 0
    ensures s[i] + s[j] <= Sum(s)
  {
    var t := s[i := 0][j := 0];
    SumUpdate(s, i, 0);
    SumUpdate(s[i := 0], j, 0);
    SumZero(seq(|s|, _ => 0));
    SumMono(seq(|s|, _ => 0), t);
  }

  lemma SumTerm(s: seq<int>, i: nat)
    requires i < |s|
    requires forall k :: 0 <= k < |s| ==> s[k] >= 0
    ensures s[i] <= Sum(s)
  {
    SumUpdate(s, i, 0);
    SumZero(seq(|s|, _ => 0));
    SumMono(seq(|s|, _ => 0), s[i := 0]);
  }

  /** A sum with one non-zero term is that term. */
  lemma SumSingle(s: seq<int>, i: nat)
    requires i < |s|
    requires forall k :: 0 <= k < |s| && k != i ==> s[k] == 0
    ensures Sum(s) == s[i]
  {
    SumUpdate(s, i, 0);
    SumZero(s[i := 0]);
  }
}
