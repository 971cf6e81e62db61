/**
 * Binary code lengths and the Kraft sum, independent of any particular tree:
 * prefix-free codes satisfy the Kraft inequality, and lengths that satisfy it
 * can be traded for cheaper ones on one symbol fewer.
 *
 * A vector of weights `w` also says which entries take part: entry `i` is live
 * when `w[i] > 0`. Lengths of entries that are not live are ignored.
 */
module HuffmanLengths {
  import opened Binary
  import opened Sums

  /** `a` comes before `b` when its weight is smaller, or equal with a smaller index. */
  predicate Before(w: seq<int>, a: nat, b: nat)
    requires a < |w| && b < |w|
  {
    w[a] < w[b] || (w[a] == w[b] && a < b)
  }

  /** `a` and then `b` come before every other live entry. */
  ghost predicate IsTwoSmallest(w: seq<int>, a: nat, b: nat) {
    && a < |w| && b < |w| && w[a] > 0 && w[b] > 0 && a != b
    && Before(w, a, b)
    && forall i :: 0 <= i < |w| && w[i] > 0 && i != a && i != b ==> Before(w, b, i)
  }

  /** The weights once live entries `a` and `b` are replaced by an entry `j`. */
  function MergeWeights(w: seq<int>, a: nat, b: nat, j: nat): (v: seq<int>)
    requires a < |w| && b < |w| && j < |w|
  {
    w[j := w[a] + w[b]][a := 0][b := 0]
  }

  function Costs(w: seq<int>, l: seq<nat>): (r: seq<int>)
    requires |l| == |w|
  {
    seq(|w|, i requires 0 <= i < |w| => w[i] * l[i])
  }

  /** Total weighted length. */
  function Cost(w: seq<int>, l: seq<nat>): (r: int)
    requires |l| == |w|
  {
    Sum(Costs(w, l))
  }

  ghost predicate Bounded(w: seq<int>, l: seq<nat>, m: nat) {
    |l| == |w| && forall i :: 0 <= i < |w| && w[i] > 0 ==> l[i] <= m
  }

  ghost function KraftTerms(w: seq<int>, l: seq<nat>, m: nat): (r: seq<int>)
    requires Bounded(w, l, m)
  {
    seq(|w|, i requires 0 <= i < |w| => if w[i] > 0 then Pow2(m - l[i]) else 0)
  }

  /** The Kraft sum of the live entries, scaled by 2^m. */
  ghost function Kraft(w: seq<int>, l: seq<nat>, m: nat): (r: int)
    requires Bounded(w, l, m)
  {
    Sum(KraftTerms(w, l, m))
  }

  ghost predicate Feasible(w: seq<int>, l: seq<nat>, m: nat) {
    && (forall i :: 0 <= i < |w| ==> w[i] >= 0)
    && Bounded(w, l, m)
    && Kraft(w, l, m) <= Pow2(m)
  }

  // ---- merging two entries of equal length ---------------------------------

  ghost predicate Siblings(w: seq<int>, l: seq<nat>, a: nat, b: nat, j: nat) {
    && |l| == |w| && a < |w| && b < |w| && j < |w| && a != b && a != j && b != j
    && w[a] > 0 && w[b] > 0 && w[j] == 0
    && l[a] == l[b] == l[j] + 1
  }

  lemma MergeCost(w: seq<int>, l: seq<nat>, a: nat, b: nat, j: nat)
    requires Siblings(w, l, a, b, j)
    ensures Cost(w, l) == Cost(MergeWeights(w, a, b, j), l) + w[a] + w[b]
  {
    var t := Costs(w, l);
    var s := (w[a] + w[b]) * l[j];
    SumUpdate(t, j, s);
    SumUpdate(t[j := s], a, 0);
    SumUpdate(t[j := s][a := 0], b, 0);
    assert Costs(MergeWeights(w, a, b, j), l) == t[j := s][a := 0][b := 0];
    assert t[a] + t[b] == w[a] * (l[j] + 1) + w[b] * (l[j] + 1) == s + w[a] + w[b];
  }

  lemma MergeKraft(w: seq<int>, l: seq<nat>, m: nat, a: nat, b: nat, j: nat)
    requires Siblings(w, l, a, b, j) && Bounded(w, l, m)
    ensures Bounded(MergeWeights(w, a, b, j), l, m)
    ensures Kraft(w, l, m) == Kraft(MergeWeights(w, a, b, j), l, m)
  {
    var t := KraftTerms(w, l, m);
    var s := Pow2(m - l[j]);
    SumUpdate(t, j, s);
    SumUpdate(t[j := s], a, 0);
    SumUpdate(t[j := s][a := 0], b, 0);
    assert KraftTerms(MergeWeights(w, a, b, j), l, m) == t[j := s][a := 0][b := 0];
    assert t[a] == t[b] == Pow2(m - l[j] - 1);
  }

  // ---- feasible lengths can be rearranged at no extra cost -----------------

  /** Giving the lighter of two entries the longer code costs no more. */
  lemma SwapLengths(w: seq<int>, l: seq<nat>, m: nat, x: nat, y: nat) returns (l': seq<nat>)
    requires Feasible(w, l, m) && x < |w| && y < |w| && x != y
    requires 0 < w[x] <= w[y] && l[x] <= l[y]
    ensures l' == l[x := l[y]][y := l[x]]
    ensures Feasible(w, l', m) && Cost(w, l') <= Cost(w, l)
  {
    l' := l[x := l[y]][y := l[x]];
    var t := KraftTerms(w, l, m);
    SumUpdate(t, x, t[y]);
    SumUpdate(t[x := t[y]], y, t[x]);
    assert KraftTerms(w, l', m) == t[x := t[y]][y := t[x]];
    var c := Costs(w, l);
    SumUpdate(c, x, w[x] * l[y]);
    SumUpdate(c[x := w[x] * l[y]], y, w[y] * l[x]);
    assert Costs(w, l') == c[x := w[x] * l[y]][y := w[y] * l[x]];
    CrossProducts(w[x], w[y], l[x], l[y]);
  }

  lemma CrossProducts(wx: int, wy: int, lx: int, ly: int)
    requires wx <= wy && lx <= ly
    ensures wx * ly + wy * lx <= wx * lx + wy * ly
  {
    var dw, dl := wy - wx, ly - lx;
    assert dw * dl >= 0;
    assert dw * dl == wy * ly - wy * lx - wx * ly + wx * lx;
  }

  /** A live entry that alone has the greatest length can be one bit shorter. */
  lemma ShortenLongest(w: seq<int>, l: seq<nat>, m: nat, d: nat) returns (l': seq<nat>)
    requires Feasible(w, l, m) && d < |w| && w[d] > 0 && l[d] >= 1
    requires forall i :: 0 <= i < |w| && w[i] > 0 && i != d ==> l[i] < l[d]
    ensures l' == l[d := l[d] - 1]
    ensures Feasible(w, l', m) && Cost(w, l') < Cost(w, l)
  {
    l' := l[d := l[d] - 1];
    assert Kraft(w, l', m) <= Pow2(m) by {
      var t := KraftTerms(w, l, m);
      var q := Pow2(m - l[d]);
      SumUpdate(t, d, 0);
      var half := OthersAreEven(w, l, m, d);
      ParityRoom(q, Sum(half), l[d], m);
      SumUpdate(t, d, 2 * q);
      assert KraftTerms(w, l', m) == t[d := 2 * q];
    }
    assert Cost(w, l') < Cost(w, l) by {
      var c, x := Costs(w, l), w[d] * (l[d] - 1);
      SumUpdate(c, d, x);
      assert Costs(w, l') == c[d := x];
      assert x == w[d] * l[d] - w[d];
    }
  }

  /** Next to a sole longest entry, every Kraft term is a multiple of twice its own. */
  lemma OthersAreEven(w: seq<int>, l: seq<nat>, m: nat, d: nat) returns (half: seq<int>)
    requires Bounded(w, l, m) && d < |w| && w[d] > 0 && l[d] >= 1
    requires forall i :: 0 <= i < |w| && w[i] > 0 && i != d ==> l[i] < l[d]
    ensures Sum(KraftTerms(w, l, m)[d := 0]) == 2 * Pow2(m - l[d]) * Sum(half)
  {
    var rest, q := KraftTerms(w, l, m)[d := 0], Pow2(m - l[d]);
    half := seq(|w|, i requires 0 <= i < |w| =>
      if w[i] > 0 && i != d then Pow2(l[d] - 1 - l[i]) else 0);
    forall i | 0 <= i < |w| ensures rest[i] == 2 * q * half[i] {
      if w[i] > 0 && i != d {
        Pow2Add(m - l[d] + 1, l[d] - 1 - l[i]);
      }
    }
    SumScaled(half, rest, 2 * q);
  }

  /** An odd multiple of q below an even one leaves room for q more. */
  lemma ParityRoom(q: int, k: int, n: nat, m: nat)
    requires 1 <= n <= m && q == Pow2(m - n)
    requires 2 * q * k + q <= Pow2(m)
    ensures 2 * q * k + 2 * q <= Pow2(m)
  {
    Pow2Add(m - n, n);
    assert Pow2(n) == 2 * Pow2(n - 1);
    Regroup2(q, Pow2(n - 1));
    Regroup2(q, k);
    hide Pow2;
    EvenRoom(2 * q, q, k, Pow2(n - 1));
  }

  lemma Regroup2(q: int, k: int)
    ensures q * (2 * k) == 2 * q * k == (2 * q) * k
  {
  }

  lemma EvenRoom(p: int, q: int, k: int, h: int)
    requires p == 2 * q && q > 0
    requires p * k + q <= p * h
    ensures p * k + p <= p * h
  {
    var d := h - k;
    assert p * d == p * h - p * k;
    assert d >= 1;
    assert p * (d - 1) >= 0;
  }

  /** Some live entry of greatest length. */
  lemma Longest(w: seq<int>, l: seq<nat>, a: nat) returns (d: nat)
    requires |l| == |w| && a < |w| && w[a] > 0
    ensures d < |w| && w[d] > 0
    ensures forall i :: 0 <= i < |w| && w[i] > 0 ==> l[i] <= l[d]
  {
    d := a;
    var k := 0;
    while k < |w|
      invariant 0 <= k <= |w| && d < |w| && w[d] > 0
      invariant forall i :: 0 <= i < k && w[i] > 0 ==> l[i] <= l[d]
    {
      if w[k] > 0 && l[k] > l[d] {
        d := k;
      }
      k := k + 1;
    }
  }

  lemma CostNonNegative(w: seq<int>, l: seq<nat>)
    requires |l| == |w| && forall i :: 0 <= i < |w| ==> w[i] >= 0
    ensures Cost(w, l) >= 0
  {
    var z := seq(|w|, _ => 0);
    SumZero(z);
    SumMono(z, Costs(w, l));
  }

  /** The two smallest weights can be made siblings of equal, positive length. */
  lemma PairSmallest(w: seq<int>, l: seq<nat>, m: nat, a: nat, b: nat) returns (l': seq<nat>)
    requires Feasible(w, l, m) && IsTwoSmallest(w, a, b)
    ensures Feasible(w, l', m) && Cost(w, l') <= Cost(w, l)
    ensures l'[a] == l'[b] >= 1
    decreases Cost(w, l)
  {
    var d := Longest(w, l, a);
    CostNonNegative(w, l);
    if l[d] == 0 {
      var t := KraftTerms(w, l, m);
      SumTwoTerms(t, a, b);
      assert false;
    }
    if e :| 0 <= e < |w| && w[e] > 0 && e != d && l[e] == l[d] {
      var l1, x := l, if d == a then e else d;  // x: a longest entry other than a
      if a != d && a != e {
        l1 := SwapLengths(w, l, m, a, d);
        x := e;
      }
      l' := l1;
      if x != b {
        l' := SwapLengths(w, l1, m, b, x);
      }
    } else {
      var l1 := ShortenLongest(w, l, m, d);
      CostNonNegative(w, l1);
      l' := PairSmallest(w, l1, m, a, b);
    }
  }

  /**
   * The exchange step: feasible lengths for `w` give feasible lengths for the
   * weights after merging the two smallest, cheaper by the merged weight.
   */
  lemma ExchangeStep(w: seq<int>, l: seq<nat>, m: nat, a: nat, b: nat, j: nat) returns (l': seq<nat>)
    requires Feasible(w, l, m) && IsTwoSmallest(w, a, b)
    requires j < |w| && w[j] == 0
    ensures Feasible(MergeWeights(w, a, b, j), l', m)
    ensures Cost(MergeWeights(w, a, b, j), l') + w[a] + w[b] <= Cost(w, l)
  {
    var l1 := PairSmallest(w, l, m, a, b);
    l' := l1[j := l1[a] - 1];
    assert KraftTerms(w, l', m) == KraftTerms(w, l1, m);
    assert Costs(w, l') == Costs(w, l1);
    MergeCost(w, l', a, b, j);
    MergeKraft(w, l', m, a, b, j);
  }

  // ---- prefix-free codes satisfy the Kraft inequality ----------------------

  function Lengths(c: seq<Bits>): (l: seq<nat>) {
    seq(|c|, i requires 0 <= i < |c| => |c[i]|)
  }

  /** No live codeword is a prefix of another live codeword. */
  ghost predicate PrefixFree(w: seq<int>, c: seq<Bits>) {
    && |c| == |w|
    && forall i, k :: 0 <= i < |w| && 0 <= k < |w| && i != k && w[i] > 0 && w[k] > 0 ==> !(c[i] <= c[k])
  }

  /** The weights of the codewords that start with bit `v`. */
  function Starting(w: seq<int>, c: seq<Bits>, v: bool): (r: seq<int>)
    requires |c| == |w|
  {
    seq(|w|, i requires 0 <= i < |w| => if w[i] > 0 && c[i] != [] && c[i][0] == v then w[i] else 0)
  }

  function Tails(c: seq<Bits>): (r: seq<Bits>) {
    seq(|c|, i requires 0 <= i < |c| => if c[i] == [] then [] else c[i][1..])
  }

  lemma {:induction false} KraftInequality(w: seq<int>, c: seq<Bits>, m: nat)
    requires PrefixFree(w, c) && Bounded(w, Lengths(c), m)
    ensures Kraft(w, Lengths(c), m) <= Pow2(m)
    decreases m
  {
    var t := KraftTerms(w, Lengths(c), m);
    if e :| 0 <= e < |w| && w[e] > 0 && c[e] == [] {
      assert forall k :: 0 <= k < |w| && k != e && w[k] > 0 ==> c[e] <= c[k];
      SumSingle(t, e);
    } else if m == 0 {
      SumZero(t);
    } else {
      var w0, w1, c' := Starting(w, c, false), Starting(w, c, true), Tails(c);
      TailsPrefixFree(w, c, false, m);
      TailsPrefixFree(w, c, true, m);
      KraftInequality(w0, c', m - 1);
      KraftInequality(w1, c', m - 1);
      KraftSplits(w, c, m);
    }
  }

  lemma KraftSplits(w: seq<int>, c: seq<Bits>, m: nat)
    requires m >= 1 && |c| == |w| && Bounded(w, Lengths(c), m)
    requires forall i :: 0 <= i < |w| && w[i] > 0 ==> c[i] != []
    requires Bounded(Starting(w, c, false), Lengths(Tails(c)), m - 1)
    requires Bounded(Starting(w, c, true), Lengths(Tails(c)), m - 1)
    ensures Kraft(w, Lengths(c), m) == Kraft(Starting(w, c, false), Lengths(Tails(c)), m - 1)
                                     + Kraft(Starting(w, c, true), Lengths(Tails(c)), m - 1)
  {
    var l' := Lengths(Tails(c));
    SumPointwise(KraftTerms(Starting(w, c, false), l', m - 1), KraftTerms(Starting(w, c, true), l', m - 1),
                 KraftTerms(w, Lengths(c), m));
  }

  lemma TailsPrefixFree(w: seq<int>, c: seq<Bits>, v: bool, m: nat)
    requires m >= 1 && PrefixFree(w, c) && Bounded(w, Lengths(c), m)
    ensures PrefixFree(Starting(w, c, v), Tails(c))
    ensures Bounded(Starting(w, c, v), Lengths(Tails(c)), m - 1)
  {
    var w', c' := Starting(w, c, v), Tails(c);
    forall i, k | 0 <= i < |w| && 0 <= k < |w| && i != k && w'[i] > 0 && w'[k] > 0
      ensures !(c'[i] <= c'[k])
    {
      assert c[i] == [v] + c'[i] && c[k] == [v] + c'[k];
    }
    forall i | 0 <= i < |w'| && w'[i] > 0 ensures Lengths(c')[i] <= m - 1 {
      assert Lengths(c)[i] <= m;
    }
  }
}
