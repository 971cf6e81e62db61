/**
 * The tree that the 4X Movie decoder grows in flat arrays (4xm.c,
 * read_huffman_tables): nodes 0..256 are symbols, nodes 257..511 are inner
 * nodes. `freq` is the weight of a root and 0 for every other node, `up` is the
 * parent or -1, `flag` says which child of its parent a node is.
 *
 * The facts about finished trees are proved backwards along the merges, with
 * the final parents and flags fixed: undoing a merge replaces one live root by
 * its two children.
 */
module HuffmanTree {
  import opened Binary
  import opened Sums
  import opened HuffmanLengths

  const SYMBOLS: nat := 257
  const NODES: nat := 512
  /** 256 byte-sized frequencies, one of them forced to 1 for the end symbol. */
  const MAX_TOTAL: int := 255 * 256 + 1
  /** The initial value of min_freq. */
  const SENTINEL: int := 256 * 256
  const MAX_CODE: nat := 22

  datatype Forest = Forest(freq: seq<int>, up: seq<int>, flag: seq<int>)

  /** The state of the arrays before the merge that creates node `j`. */
  ghost predicate Ready(f: Forest, j: int) {
    && |f.freq| == |f.up| == |f.flag| == NODES
    && SYMBOLS <= j <= NODES
    && (forall i :: 0 <= i < NODES ==> f.freq[i] >= 0)
    && (forall i :: j <= i < NODES ==> f.freq[i] == 0)
    && (forall i :: 0 <= i < NODES ==> f.up[i] == -1 || (i < f.up[i] < j && 0 <= f.flag[i] <= 1))
    && (forall i :: 0 <= i < NODES && f.freq[i] > 0 ==> f.up[i] == -1)
    && (forall i :: j <= i < NODES ==> f.up[i] == -1)
  }

  function Merge(f: Forest, j: nat, a: nat, b: nat): (r: Forest)
    requires |f.freq| == |f.up| == |f.flag| == NODES
    requires a < NODES && b < NODES && j < NODES
  {
    Forest(MergeWeights(f.freq, a, b, j), f.up[a := j][b := j], f.flag[a := 0][b := 1])
  }

  ghost predicate HasTwo(w: seq<int>) {
    exists a, b :: IsTwoSmallest(w, a, b)
  }

  /** A run of merges, each joining `a` and `b` below `j`; `r` is a root left at the end. */
  datatype Merges = Done(r: nat) | Join(a: nat, b: nat, j: nat, rest: Merges)

  /**
   * The merge loop takes the arrays from `f` before node `j` to `z`: it joins
   * the two smallest roots until there is one root or no free node.
   */
  ghost predicate Run(f: Forest, j: nat, z: Forest, ms: Merges)
    requires Ready(f, j)
    decreases ms
  {
    match ms
    case Done(r) =>
      && z == f && r < NODES && f.freq[r] > 0
      && (HasTwo(f.freq) ==> j == NODES)
    case Join(a, b, k, rest) =>
      && k == j < NODES && IsTwoSmallest(f.freq, a, b)
      && Run(Merge(f, j, a, b), j + 1, z, rest)
  }

  lemma {:induction false} RunReady(f: Forest, j: nat, z: Forest, ms: Merges)
    requires Ready(f, j) && Run(f, j, z, ms)
    ensures Ready(z, NODES)
    decreases ms
  {
    if ms.Join? {
      RunReady(Merge(f, j, ms.a, ms.b), j + 1, z, ms.rest);
    }
  }

  /** Later merges leave nodes alone that are no longer roots. */
  lemma {:induction false} DeadNodesKept(f: Forest, j: nat, z: Forest, ms: Merges, x: nat)
    requires Ready(f, j) && Run(f, j, z, ms) && x < j && f.freq[x] == 0
    ensures Ready(z, NODES) && z.up[x] == f.up[x] && z.flag[x] == f.flag[x]
    decreases ms
  {
    if ms.Join? {
      DeadNodesKept(Merge(f, j, ms.a, ms.b), j + 1, z, ms.rest, x);
    }
  }

  // ---- codes ----------------------------------------------------------------

  ghost predicate WellLinked(f: Forest) {
    && |f.up| == |f.flag| == NODES
    && forall i :: 0 <= i < NODES ==> f.up[i] == -1 || i < f.up[i] < NODES
  }

  /** The flags on the way from the root down to node `i`. */
  ghost function Code(f: Forest, i: nat): (r: Bits)
    requires WellLinked(f) && i < NODES
    decreases NODES - i
  {
    if f.up[i] == -1 then [] else Code(f, f.up[i]) + [f.flag[i] == 1]
  }

  ghost function Codes(f: Forest): (c: seq<Bits>)
    requires WellLinked(f)
  {
    seq(NODES, i requires 0 <= i < NODES => Code(f, i))
  }

  /** In the finished tree the merged pair hangs below node `j`. */
  lemma ChildCodes(f: Forest, j: nat, z: Forest, ms: Merges)
    requires Ready(f, j) && Run(f, j, z, ms) && ms.Join?
    ensures Ready(z, NODES)
    ensures var c := Codes(z); c[ms.a] == c[j] + [false] && c[ms.b] == c[j] + [true]
  {
    hide *;
    MergedHang(f, j, z, ms);
    var g := Merge(f, j, ms.a, ms.b);
    DeadNodesKept(g, j + 1, z, ms.rest, ms.a);
    DeadNodesKept(g, j + 1, z, ms.rest, ms.b);
    ReadyLinked(z);
    ChildCode(z, ms.a, j);
    ChildCode(z, ms.b, j);
  }

  lemma MergedHang(f: Forest, j: nat, z: Forest, ms: Merges)
    requires Ready(f, j) && Run(f, j, z, ms) && ms.Join?
    ensures ms.a < j < NODES && ms.b < j && |f.freq| == |f.up| == |f.flag| == NODES
    ensures var g := Merge(f, j, ms.a, ms.b);
            && Ready(g, j + 1) && Run(g, j + 1, z, ms.rest)
            && |g.freq| == |g.up| == |g.flag| == NODES
            && g.freq[ms.a] == g.freq[ms.b] == 0 && g.up[ms.a] == g.up[ms.b] == j
            && g.flag[ms.a] == 0 && g.flag[ms.b] == 1
  {
  }

  lemma ReadyLinked(z: Forest)
    requires Ready(z, NODES)
    ensures WellLinked(z) && |z.up| == |z.flag| == NODES && |Codes(z)| == NODES
  {
  }

  lemma ChildCode(z: Forest, x: nat, j: nat)
    requires WellLinked(z) && x < j < NODES && z.up[x] == j
    ensures Codes(z)[x] == Codes(z)[j] + [z.flag[x] == 1]
  {
  }

  // ---- how many roots are left ----------------------------------------------

  function Marks(w: seq<int>): (r: seq<int>) {
    seq(|w|, i requires 0 <= i < |w| => if w[i] > 0 then 1 else 0)
  }

  /** The number of live entries. */
  function Count(w: seq<int>): (r: int) {
    Sum(Marks(w))
  }

  lemma MergeCount(w: seq<int>, a: nat, b: nat, j: nat)
    requires a < |w| && b < |w| && j < |w| && a != b && j != a && j != b
    requires w[a] > 0 && w[b] > 0 && w[j] == 0
    ensures Count(MergeWeights(w, a, b, j)) == Count(w) - 1
  {
    var t := Marks(w);
    var u := t[j := 1][a := 0][b := 0];
    assert Marks(MergeWeights(w, a, b, j)) == u;
    assert Sum(u) == Sum(t) - 1 by {
      SumUpdate(t, j, 1);
      SumUpdate(t[j := 1], a, 0);
      SumUpdate(t[j := 1][a := 0], b, 0);
    }
  }

  lemma MergeTotal(w: seq<int>, a: nat, b: nat, j: nat)
    requires a < |w| && b < |w| && j < |w| && a != b && j != a && j != b && w[j] == 0
    ensures Sum(MergeWeights(w, a, b, j)) == Sum(w)
  {
    var v := w[j := w[a] + w[b]];
    SumUpdate(w, j, w[a] + w[b]);
    SumUpdate(v, a, 0);
    SumUpdate(v[a := 0], b, 0);
  }

  /** Two live entries are enough for a next merge. */
  lemma TwoLiveGiveTwoSmallest(w: seq<int>, x: nat, y: nat)
    requires x < |w| && y < |w| && x != y && w[x] > 0 && w[y] > 0
    ensures HasTwo(w)
  {
    var a: nat, b: nat := if Before(w, x, y) then x else y, if Before(w, x, y) then y else x;
    var k := 0;
    while k < |w|
      invariant 0 <= k <= |w| && a < |w| && b < |w| && a != b && w[a] > 0 && w[b] > 0
      invariant Before(w, a, b)
      invariant forall i :: 0 <= i < k && w[i] > 0 && i != a && i != b ==> Before(w, b, i)
    {
      if w[k] > 0 && k != a && k != b {
        if Before(w, k, a) {
          a, b := k, a;
        } else if Before(w, k, b) {
          b := k;
        }
      }
      k := k + 1;
    }
    assert IsTwoSmallest(w, a, b);
  }

  /** One live entry: no merge is possible. More: there is a next merge. */
  lemma LiveCount(w: seq<int>, x: nat)
    requires x < |w| && w[x] > 0
    ensures Count(w) >= 1
    ensures Count(w) == 1 <==> !HasTwo(w)
    ensures Count(w) == 1 <==> forall i :: 0 <= i < |w| && i != x ==> w[i] <= 0
  {
    SumTerm(Marks(w), x);
    if y :| 0 <= y < |w| && y != x && w[y] > 0 {
      SumTwoTerms(Marks(w), x, y);
      TwoLiveGiveTwoSmallest(w, x, y);
    } else {
      SumSingle(Marks(w), x);
    }
  }

  /** A positive total needs a live entry. */
  lemma SomeLive(w: seq<int>) returns (x: nat)
    requires (forall i :: 0 <= i < |w| ==> w[i] >= 0) && Sum(w) > 0
    ensures x < |w| && w[x] > 0
  {
    if forall i :: 0 <= i < |w| ==> w[i] == 0 {
      SumZero(w);
    }
    x :| 0 <= x < |w| && w[x] > 0;
  }

  // ---- the merges of a finished run -------------------------------------------

  /** `w` are the weights before the merges `ms`, and `c` the codes after them. */
  ghost predicate Grown(w: seq<int>, c: seq<Bits>, ms: Merges)
    decreases ms
  {
    && |c| == |w|
    && match ms
       case Done(r) =>
         && r < |w| && w[r] > 0
         && forall i :: 0 <= i < |w| && w[i] > 0 ==> c[i] == []
       case Join(a, b, j, rest) =>
         && j < |w| && w[j] == 0 && IsTwoSmallest(w, a, b)
         && c[a] == c[j] + [false] && c[b] == c[j] + [true]
         && Grown(MergeWeights(w, a, b, j), c, rest)
  }

  /** The weights of the roots that are left in the end. */
  function Left(w: seq<int>, ms: Merges): (r: seq<int>)
    decreases ms
  {
    match ms
    case Done(_) => w
    case Join(a, b, j, rest) =>
      if a < |w| && b < |w| && j < |w| then Left(MergeWeights(w, a, b, j), rest) else w
  }

  /** A run that leaves a single root. */
  ghost predicate Single(w: seq<int>, c: seq<Bits>, ms: Merges) {
    Grown(w, c, ms) && Count(Left(w, ms)) == 1
  }

  function Joins(ms: Merges): (r: nat)
    decreases ms
  {
    match ms
    case Done(_) => 0
    case Join(_, _, _, rest) => 1 + Joins(rest)
  }

  /** The merge loop is such a run; it stops for want of roots or of nodes. */
  lemma {:induction false} RunGrows(f: Forest, j: nat, z: Forest, ms: Merges, c: seq<Bits>)
    requires Ready(f, j) && Run(f, j, z, ms) && Ready(z, NODES) && c == Codes(z)
    ensures Grown(f.freq, c, ms)
    ensures Left(f.freq, ms) == z.freq
    ensures Joins(ms) <= NODES - j && (HasTwo(z.freq) ==> Joins(ms) == NODES - j)
    decreases ms
  {
    match ms
    case Done(r) =>
      RootCodesEmpty(f, j);
    case Join(a, b, _, rest) =>
      hide *;
      ChildCodes(f, j, z, ms);
      JoinFacts(f, j, z, ms);
      ReadyLinked(z);
      RunGrows(Merge(f, j, a, b), j + 1, z, rest, c);
      JoinGrown(f.freq, c, a, b, j, rest);
  }

  lemma JoinFacts(f: Forest, j: nat, z: Forest, ms: Merges)
    requires Ready(f, j) && Run(f, j, z, ms) && ms.Join?
    ensures ms.j == j < NODES == |f.freq| == |f.up| == |f.flag| && f.freq[j] == 0
    ensures IsTwoSmallest(f.freq, ms.a, ms.b) && ms.a < NODES && ms.b < NODES
    ensures var g := Merge(f, j, ms.a, ms.b);
            Ready(g, j + 1) && Run(g, j + 1, z, ms.rest) && g.freq == MergeWeights(f.freq, ms.a, ms.b, j)
    ensures Joins(ms) == 1 + Joins(ms.rest)
  {
  }

  lemma RootCodesEmpty(f: Forest, j: nat)
    requires Ready(f, j)
    ensures forall i :: 0 <= i < NODES && f.freq[i] > 0 ==> Codes(f)[i] == []
  {
  }

  lemma JoinGrown(w: seq<int>, c: seq<Bits>, a: nat, b: nat, j: nat, rest: Merges)
    requires |c| == |w| && j < |w| && w[j] == 0 && IsTwoSmallest(w, a, b)
    requires c[a] == c[j] + [false] && c[b] == c[j] + [true]
    requires Grown(MergeWeights(w, a, b, j), c, rest)
    ensures Grown(w, c, Join(a, b, j, rest))
    ensures Left(w, Join(a, b, j, rest)) == Left(MergeWeights(w, a, b, j), rest)
  {
  }

  /** Each merge leaves one root less. */
  lemma {:induction false} RootsLeft(w: seq<int>, c: seq<Bits>, ms: Merges)
    requires Grown(w, c, ms)
    ensures Count(Left(w, ms)) == Count(w) - Joins(ms)
    ensures Count(Left(w, ms)) >= 1
    ensures Count(Left(w, ms)) == 1 <==> !HasTwo(Left(w, ms))
    decreases ms
  {
    match ms
    case Done(r) =>
      LiveCount(w, r);
    case Join(a, b, j, rest) =>
      MergeCount(w, a, b, j);
      RootsLeft(MergeWeights(w, a, b, j), c, rest);
  }

  // ---- the trees that are left: Kraft sums, prefix-freeness, completeness ------

  /** The root of the tree that a node ends up in. */
  function Root(ms: Merges, i: nat): (r: nat)
    decreases ms
  {
    match ms
    case Done(_) => i
    case Join(a, b, j, rest) => Root(rest, if i == a || i == b then j else i)
  }

  /** A live node's root is live in the end; it has the empty code, and no other node of its tree has. */
  lemma {:induction false} RootLeft(w: seq<int>, c: seq<Bits>, ms: Merges, i: nat)
    requires Grown(w, c, ms) && i < |w| && w[i] > 0
    ensures |Left(w, ms)| == |w| && Root(ms, i) < |w| && Left(w, ms)[Root(ms, i)] > 0
    ensures c[i] == [] <==> Root(ms, i) == i
    decreases ms
  {
    match ms
    case Done(_) =>
    case Join(a, b, j, rest) =>
      var i' := if i == a || i == b then j else i;
      RootLeft(MergeWeights(w, a, b, j), c, rest, i');
      if i != i' {
        RootNotBelow(MergeWeights(w, a, b, j), c, rest, j, i);
      }
  }

  /** A node with a non-empty code is no node's root. */
  lemma {:induction false} RootNotBelow(w: seq<int>, c: seq<Bits>, ms: Merges, i: nat, x: nat)
    requires Grown(w, c, ms) && i < |w| && w[i] > 0 && x < |w| && c[x] != []
    ensures Root(ms, i) != x
    decreases ms
  {
    match ms
    case Done(_) =>
    case Join(a, b, j, rest) =>
      RootNotBelow(MergeWeights(w, a, b, j), c, rest, if i == a || i == b then j else i, x);
  }

  /** The Kraft sum of the finished codes over the live nodes is the number of trees. */
  lemma {:induction false} KraftOfTrees(w: seq<int>, c: seq<Bits>, ms: Merges, m: nat)
    requires Grown(w, c, ms)
    requires forall i :: 0 <= i < |c| ==> |c[i]| <= m
    ensures Bounded(w, Lengths(c), m) && Kraft(w, Lengths(c), m) == Pow2(m) * Count(Left(w, ms))
    decreases ms
  {
    match ms
    case Done(_) =>
      SumScaled(Marks(w), KraftTerms(w, Lengths(c), m), Pow2(m));
    case Join(a, b, j, rest) =>
      KraftOfTrees(MergeWeights(w, a, b, j), c, rest, m);
      MergeKraft(w, Lengths(c), m, a, b, j);
  }

  /** Of two live nodes in one tree neither one's code is a prefix of the other's. */
  lemma {:induction false} TreePrefixFree(w: seq<int>, c: seq<Bits>, ms: Merges, x: nat, y: nat)
    requires Grown(w, c, ms) && x < |w| && y < |w| && w[x] > 0 && w[y] > 0
    requires x != y && Root(ms, x) == Root(ms, y)
    ensures !(c[x] <= c[y])
    decreases ms
  {
    match ms
    case Done(_) =>
    case Join(a, b, j, rest) =>
      // x and y stand for j, or for themselves, among the merged weights
      var v := MergeWeights(w, a, b, j);
      var x', y' := if x == a || x == b then j else x, if y == a || y == b then j else y;
      if x' != y' {
        TreePrefixFree(v, c, rest, x', y');
        TreePrefixFree(v, c, rest, y', x');
        assert c[x'] <= c[x] && c[y'] <= c[y];
        PrefixesComparable(c[x'], c[y'], c[y]);
      } else {
        assert c[x][|c[j]|] != c[y][|c[j]|];
      }
  }

  /** Every long enough bit stream starts with the code of some live node of each tree. */
  lemma {:induction false} TreeComplete(w: seq<int>, c: seq<Bits>, ms: Merges, p: nat, s: Bits) returns (x: nat)
    requires Grown(w, c, ms) && p < |Left(w, ms)| && Left(w, ms)[p] > 0
    requires forall i :: 0 <= i < |c| ==> |c[i]| <= |s|
    ensures x < |w| && w[x] > 0 && Root(ms, x) == p && c[x] <= s
    decreases ms
  {
    match ms
    case Done(_) =>
      x := p;
    case Join(a, b, j, rest) =>
      x := TreeComplete(MergeWeights(w, a, b, j), c, rest, p, s);
      if x == j {
        assert |c[a]| <= |s|;
        var v := NextBit(c[j], s);
        x := if v then b else a;
      }
  }

  /** A proper prefix of `s` can be extended by the bit of `s` that follows it. */
  lemma NextBit(p: Bits, s: Bits) returns (v: bool)
    requires p <= s && |p| < |s|
    ensures p + [v] <= s
  {
    v := s[|p|];
  }

  // ---- a single tree -----------------------------------------------------------

  /** With one root left, all live nodes are in its tree. */
  lemma OneTree(w: seq<int>, c: seq<Bits>, ms: Merges, x: nat, y: nat)
    requires Single(w, c, ms) && x < |w| && y < |w| && w[x] > 0 && w[y] > 0
    ensures Root(ms, x) == Root(ms, y)
  {
    RootLeft(w, c, ms, x);
    RootLeft(w, c, ms, y);
    LiveCount(Left(w, ms), Root(ms, x));
  }

  /** The Kraft sum of the finished codes over the live nodes is exactly 1. */
  lemma KraftEquality(w: seq<int>, c: seq<Bits>, ms: Merges, m: nat)
    requires Single(w, c, ms)
    requires forall i :: 0 <= i < |c| ==> |c[i]| <= m
    ensures Bounded(w, Lengths(c), m) && Kraft(w, Lengths(c), m) == Pow2(m)
  {
    assert Grown(w, c, ms) && Count(Left(w, ms)) == 1;
    hide *;
    KraftOfTrees(w, c, ms, m);
  }

  /** No live node's code is a prefix of another's. */
  lemma CodesPrefixFree(w: seq<int>, c: seq<Bits>, ms: Merges)
    requires Single(w, c, ms)
    ensures PrefixFree(w, c)
  {
    forall i, k | 0 <= i < |w| && 0 <= k < |w| && i != k && w[i] > 0 && w[k] > 0
      ensures !(c[i] <= c[k])
    {
      OneTree(w, c, ms, i, k);
      TreePrefixFree(w, c, ms, i, k);
    }
  }

  /** With one root left, it has the empty code and nothing else is live. */
  lemma SoleRoot(w: seq<int>, c: seq<Bits>, ms: Merges)
    requires Single(w, c, ms) && ms.Done?
    ensures ms.r < |w| && w[ms.r] > 0 && c[ms.r] == []
    ensures forall i :: 0 <= i < |w| && i != ms.r ==> w[i] <= 0
  {
    LiveCount(w, ms.r);
  }

  // ---- optimality -------------------------------------------------------------

  /** The finished code lengths cost no more than any lengths that satisfy Kraft's inequality. */
  lemma {:induction false} LengthsOptimal(w: seq<int>, c: seq<Bits>, ms: Merges, l: seq<nat>, m: nat)
    requires Single(w, c, ms) && Feasible(w, l, m)
    ensures Cost(w, Lengths(c)) <= Cost(w, l)
    decreases ms
  {
    match ms
    case Done(r) =>
      SoleRoot(w, c, ms);
      SumZero(Costs(w, Lengths(c)));
      CostNonNegative(w, l);
    case Join(a, b, j, rest) =>
      var l' := ExchangeStep(w, l, m, a, b, j);
      LengthsOptimal(MergeWeights(w, a, b, j), c, rest, l', m);
      MergeCost(w, Lengths(c), a, b, j);
  }

  /** A bound on the lengths of finitely many codewords. */
  lemma LongestCode(c: seq<Bits>) returns (m: nat)
    ensures forall i :: 0 <= i < |c| ==> |c[i]| <= m
  {
    m := 0;
    var k := 0;
    while k < |c|
      invariant 0 <= k <= |c|
      invariant forall i :: 0 <= i < k ==> |c[i]| <= m
    {
      m := if |c[k]| > m then |c[k]| else m;
      k := k + 1;
    }
  }

  /** ... and so no more than any prefix-free binary code for the live nodes. */
  lemma CodesOptimal(w: seq<int>, c: seq<Bits>, ms: Merges, other: seq<Bits>)
    requires Single(w, c, ms) && PrefixFree(w, other)
    requires forall i :: 0 <= i < |w| ==> w[i] >= 0
    ensures Cost(w, Lengths(c)) <= Cost(w, Lengths(other))
  {
    var m := LongestCode(other);
    KraftInequality(w, other, m);
    LengthsOptimal(w, c, ms, Lengths(other), m);
  }

  // ---- too many symbols --------------------------------------------------------

  /** When two trees are left, some node's code is a prefix of that of a node in the other tree. */
  lemma TwoTreesClash(w: seq<int>, c: seq<Bits>, ms: Merges) returns (x: nat, y: nat)
    requires Grown(w, c, ms) && Count(Left(w, ms)) > 1
    ensures x < |w| && y < |w| && w[x] > 0 && w[y] > 0 && Root(ms, x) != Root(ms, y) && c[x] <= c[y]
  {
    var r := SomeLeft(w, c, ms);
    LiveCount(Left(w, ms), r);
    var q :| 0 <= q < |Left(w, ms)| && q != r && Left(w, ms)[q] > 0;
    var m := LongestCode(c);
    var s: Bits := seq(m, _ => false);
    x := TreeComplete(w, c, ms, r, s);
    y := TreeComplete(w, c, ms, q, s);
    PrefixesComparable(c[x], c[y], s);
    if !(c[x] <= c[y]) {
      x, y := y, x;
    }
  }

  /** Some root is left. */
  lemma {:induction false} SomeLeft(w: seq<int>, c: seq<Bits>, ms: Merges) returns (r: nat)
    requires Grown(w, c, ms)
    ensures r < |Left(w, ms)| && Left(w, ms)[r] > 0
    decreases ms
  {
    match ms
    case Done(x) =>
      r := x;
    case Join(a, b, j, rest) =>
      r := SomeLeft(MergeWeights(w, a, b, j), c, rest);
  }

  /** A live node that is never merged although others are weighs at least a third of the total. */
  lemma {:induction false} LeftoverIsHeavy(w: seq<int>, c: seq<Bits>, ms: Merges, r: nat)
    requires Grown(w, c, ms) && ms.Join? && Count(Left(w, ms)) == 2
    requires (forall i :: 0 <= i < |w| ==> w[i] >= 0) && r < |w| && w[r] > 0 && Root(ms, r) == r && c[r] == []
    ensures 3 * w[r] >= Sum(w)
    decreases ms
  {
    var (a, b, j, rest) := (ms.a, ms.b, ms.j, ms.rest);
    var v := MergeWeights(w, a, b, j);
    MergeTotal(w, a, b, j);
    assert r != a && r != b;
    if rest.Join? {
      LeftoverIsHeavy(v, c, rest, r);
    } else {
      // r and j are left
      TwoLive(v, r, j);
      var u := v[r := 0];
      SumUpdate(v, r, 0);
      SumSingle(u, j);
    }
  }

  /** Of two live entries, with no third: everything else is zero. */
  lemma TwoLive(w: seq<int>, x: nat, y: nat)
    requires Count(w) == 2 && x < |w| && y < |w| && x != y && w[x] > 0 && w[y] > 0
    ensures forall i :: 0 <= i < |w| && i != x && i != y ==> w[i] <= 0
  {
    var u := w[x := 0];
    SumUpdate(Marks(w), x, 0);
    assert Marks(u) == Marks(w)[x := 0];
    LiveCount(u, y);
    forall i | 0 <= i < |w| && i != x && i != y ensures w[i] <= 0 {
      assert u[i] <= 0;
    }
  }

  /** Live entries other than r within a factor of two of each other. */
  ghost predicate Level(w: seq<int>, r: nat) {
    forall i, k :: 0 <= i < |w| && 0 <= k < |w| && i != r && k != r && w[i] > 0 && w[k] > 0 ==> w[i] <= 2 * w[k]
  }

  /** A node that nearly outweighs all others, which are level, is not merged while three are left. */
  lemma {:induction false} HeavyIsLeftOver(w: seq<int>, c: seq<Bits>, ms: Merges, r: nat)
    requires Grown(w, c, ms) && Count(Left(w, ms)) == 2
    requires (forall i :: 0 <= i < |w| ==> w[i] >= 0) && r < |w| && w[r] > 0
    requires Level(w, r) && 2 * Sum(w) < 5 * w[r]
    ensures Root(ms, r) == r
    decreases ms
  {
    match ms
    case Done(_) =>
    case Join(a, b, j, rest) =>
      var v := MergeWeights(w, a, b, j);
      MergeTotal(w, a, b, j);
      MergeCount(w, a, b, j);
      RootsLeft(v, c, rest);
      NotMerged(w, a, b, r);
      LevelKept(w, a, b, j, r);
      hide Level, IsTwoSmallest;
      HeavyIsLeftOver(v, c, rest, r);
  }

  lemma NotMerged(w: seq<int>, a: nat, b: nat, r: nat)
    requires IsTwoSmallest(w, a, b) && Count(w) >= 3 && r < |w| && w[r] > 0
    requires (forall i :: 0 <= i < |w| ==> w[i] >= 0) && Level(w, r) && 2 * Sum(w) < 5 * w[r]
    ensures r != a && r != b
  {
    ThirdLive(w, a, b);
    var d :| 0 <= d < |w| && d != a && d != b && w[d] > 0;
    ThreeTerms(w, a, b, d);
  }

  lemma LevelKept(w: seq<int>, a: nat, b: nat, j: nat, r: nat)
    requires IsTwoSmallest(w, a, b) && Level(w, r) && r != a && r != b && r < |w| && w[r] > 0
    requires j < |w| && w[j] == 0
    ensures Level(MergeWeights(w, a, b, j), r)
  {
    var v := MergeWeights(w, a, b, j);
    forall i, k | 0 <= i < |v| && 0 <= k < |v| && i != r && k != r && v[i] > 0 && v[k] > 0
      ensures v[i] <= 2 * v[k]
    {
      assert w[b] <= 2 * w[a];
      assert i != j ==> w[b] <= w[i] <= 2 * w[a];
      assert k != j ==> w[b] <= w[k];
    }
  }

  lemma ThreeTerms(s: seq<int>, i: nat, j: nat, k: nat)
    requires i < |s| && j < |s| && k < |s| && i != j && i != k && j != k
    requires forall n :: 0 <= n < |s| ==> s[n] >= 0
    ensures s[i] + s[j] + s[k] <= Sum(s)
  {
    SumUpdate(s, k, 0);
    SumTwoTerms(s[k := 0], i, j);
  }

  lemma ThirdLive(w: seq<int>, a: nat, b: nat)
    requires Count(w) >= 3 && a < |w| && b < |w| && a != b && w[a] > 0 && w[b] > 0
    ensures exists d :: 0 <= d < |w| && d != a && d != b && w[d] > 0
  {
    var t := Marks(w);
    SumUpdate(t, a, 0);
    SumUpdate(t[a := 0], b, 0);
    if forall d :: 0 <= d < |w| && d != a && d != b ==> w[d] <= 0 {
      SumZero(t[a := 0][b := 0]);
    }
  }

  // ---- depth ----------------------------------------------------------------------

  function Fib(n: nat): (r: nat) {
    if n < 2 then n else Fib(n - 2) + Fib(n - 1)
  }

  lemma {:induction false} FibMono(m: nat, n: nat)
    requires m <= n
    ensures Fib(m) <= Fib(n)
    decreases n
  {
    if m < n && n >= 2 {
      FibMono(m, n - 1);
    }
  }

  /** A height whose Fibonacci number fits in the total weight is at most 22. */
  lemma HeightLimit(h: nat)
    requires Fib(h + 2) <= MAX_TOTAL
    ensures h <= MAX_CODE
  {
    assert Fib(25) == 75025 by {
      assert Fib(10) == 55 && Fib(11) == 89;
      assert Fib(15) == 610 && Fib(16) == 987;
      assert Fib(20) == 6765 && Fib(21) == 10946;
    }
    if h > MAX_CODE {
      FibMono(25, h + 2);
    }
  }

  /** `h` strictly grows towards the roots and stays within the limit. */
  ghost predicate Climbs(f: Forest, h: seq<nat>) {
    && WellLinked(f) && |h| == NODES
    && (forall i :: 0 <= i < NODES ==> h[i] <= MAX_CODE)
    && (forall i {:trigger f.up[i]} :: 0 <= i < NODES && f.up[i] != -1 ==> h[f.up[i]] > h[i])
  }

  /**
   * What heights say about weights. `floor` is the larger weight of the last
   * merge: later roots weigh at least that, which is what forces a node of
   * height h to weigh at least Fib(h + 2).
   */
  ghost predicate Weighty(w: seq<int>, h: seq<nat>, floor: int) {
    && |h| == |w|
    && (forall i :: 0 <= i < |w| && w[i] > 0 ==> NodeWeighty(w[i], h[i], floor))
  }

  ghost predicate NodeWeighty(w: int, h: nat, floor: int) {
    w >= Fib(h + 2) && w >= floor && (h >= 1 ==> floor >= Fib(h + 1))
  }

  function Above(m: nat, n: nat): (r: nat) {
    1 + if m >= n then m else n
  }

  lemma {:induction false} HeightsExist(f: Forest, j: nat, z: Forest, ms: Merges, h: seq<nat>, floor: int)
    returns (h': seq<nat>)
    requires Ready(f, j) && Run(f, j, z, ms) && Climbs(f, h) && Weighty(f.freq, h, floor)
    requires Sum(f.freq) <= MAX_TOTAL
    ensures Climbs(z, h')
    decreases ms
  {
    match ms
    case Done(_) =>
      h' := h;
    case Join(a, b, _, rest) =>
      var top := HeightsStep(f, j, h, floor, a, b);
      var g, h1 := Merge(f, j, a, b), h[j := top];
      assert Run(g, j + 1, z, rest);
      h' := HeightsExist(g, j + 1, z, rest, h1, f.freq[b]);
  }

  lemma HeightsStep(f: Forest, j: nat, h: seq<nat>, floor: int, a: nat, b: nat) returns (top: nat)
    requires Ready(f, j) && j < NODES && Climbs(f, h) && Weighty(f.freq, h, floor)
    requires Sum(f.freq) <= MAX_TOTAL && IsTwoSmallest(f.freq, a, b)
    ensures Ready(Merge(f, j, a, b), j + 1)
    ensures Climbs(Merge(f, j, a, b), h[j := top])
    ensures Weighty(Merge(f, j, a, b).freq, h[j := top], f.freq[b])
    ensures Sum(Merge(f, j, a, b).freq) == Sum(f.freq)
  {
    MergeTotal(f.freq, a, b, j);
    top := Above(h[a], h[b]);
    WeightyStep(f.freq, h, floor, a, b, j);
    SumTerm(Merge(f, j, a, b).freq, j);
    HeightLimit(top);
    ClimbsStep(f, j, h, a, b);
  }

  lemma ClimbsStep(f: Forest, j: nat, h: seq<nat>, a: nat, b: nat)
    requires Ready(f, j) && j < NODES && Climbs(f, h) && a < j && b < j
    requires Above(h[a], h[b]) <= MAX_CODE
    ensures Climbs(Merge(f, j, a, b), h[j := Above(h[a], h[b])])
  {
    var g, h' := Merge(f, j, a, b), h[j := Above(h[a], h[b])];
    forall i {:trigger g.up[i]} | 0 <= i < NODES && g.up[i] != -1 ensures h'[g.up[i]] > h'[i] {
      assert i != j;
      assert i == a || i == b || (g.up[i] == f.up[i] && f.up[i] < j);
    }
  }

  lemma WeightyStep(w: seq<int>, h: seq<nat>, floor: int, a: nat, b: nat, j: nat)
    requires Weighty(w, h, floor) && IsTwoSmallest(w, a, b) && j < |w| && w[j] == 0
    ensures Weighty(MergeWeights(w, a, b, j), h[j := Above(h[a], h[b])], w[b])
    ensures w[a] + w[b] >= Fib(Above(h[a], h[b]) + 2)
  {
    var v, h' := MergeWeights(w, a, b, j), h[j := Above(h[a], h[b])];
    NodeWeightyStep(w[a], h[a], w[b], h[b], floor);
    forall i | 0 <= i < |v| && v[i] > 0 ensures NodeWeighty(v[i], h'[i], w[b]) {
      assert i == j || (NodeWeighty(w[i], h[i], floor) && NodeWeighty(w[b], h[b], floor));
    }
  }

  lemma NodeWeightyStep(wa: int, ha: nat, wb: int, hb: nat, floor: int)
    requires 0 < wa <= wb && NodeWeighty(wa, ha, floor) && NodeWeighty(wb, hb, floor)
    ensures NodeWeighty(wa + wb, Above(ha, hb), wb)
  {
    var m := if ha >= hb then ha else hb;
    assert Fib(m + 3) == Fib(m + 1) + Fib(m + 2);
    assert Fib(1) == 1;
  }

  lemma {:induction false} DepthPlusHeight(z: Forest, h: seq<nat>, i: nat)
    requires Climbs(z, h) && i < NODES
    ensures |Code(z, i)| + h[i] <= MAX_CODE
    decreases NODES - i
  {
    if z.up[i] != -1 {
      DepthPlusHeight(z, h, z.up[i]);
    }
  }

  ghost predicate NoLinks(f: Forest) {
    |f.up| == NODES && forall i :: 0 <= i < NODES ==> f.up[i] == -1
  }

  /** No code is longer than 22 bits, whatever the frequencies. */
  lemma DepthBound(f: Forest, z: Forest, ms: Merges, i: nat)
    requires Ready(f, SYMBOLS) && Run(f, SYMBOLS, z, ms) && NoLinks(f) && Sum(f.freq) <= MAX_TOTAL && i < NODES
    ensures WellLinked(z) && |Code(z, i)| <= MAX_CODE
  {
    var h := seq(NODES, _ => 0);
    assert Weighty(f.freq, h, 0) by {
      assert Fib(2) == 1;
    }
    h := HeightsExist(f, SYMBOLS, z, ms, h, 0);
    DepthPlusHeight(z, h, i);
  }

  /** Successive merges never get lighter. */
  lemma MergesGrow(f: Forest, j: nat, a: nat, b: nat, c: nat, d: nat)
    requires Ready(f, j) && j < NODES && IsTwoSmallest(f.freq, a, b)
    requires IsTwoSmallest(Merge(f, j, a, b).freq, c, d)
    ensures var g := Merge(f, j, a, b).freq; g[c] + g[d] >= f.freq[a] + f.freq[b]
    ensures j + 1 < NODES ==> Ready(Merge(f, j, a, b), j + 1)
  {
    var g := Merge(f, j, a, b).freq;
    assert g[c] >= f.freq[b] && g[d] >= f.freq[b];
  }
}
