/**
 * How init_vlc makes the tables (bitstream.c, ff_init_vlc_sparse and build_table): codes
 * that are prefix-free get tables that decode them, and codes that clash get none.
 */
module VlcBuild {
  import opened Arithmetic
  import opened Binary
  import opened Vlc
  import opened VlcTable

  // ---- the order of the codes --------------------------------------------------------------

  ghost function SetOf(codes: seq<VlcCode>): (s: set<VlcCode>) {
    set c | c in codes
  }

  predicate LexLe(a: Bits, b: Bits) {
    a == [] || (b != [] && if a[0] == b[0] then LexLe(a[1..], b[1..]) else b[0])
  }

  ghost predicate Sorted(codes: seq<VlcCode>) {
    forall x, y :: 0 <= x < y < |codes| ==> LexLe(codes[x].code, codes[y].code)
  }

  /** A code of more than b bits that goes to the table of entry j. */
  predicate InGroup(c: VlcCode, b: nat, j: nat) {
    |c.code| > b && Number(c.code, b) == j
  }

  lemma GroupLonger(c: VlcCode, b: nat, j: nat)
    requires j < Pow2(b)
    ensures InGroup(c, b, j) <==> Longer(c, BitsOf(j, b))
  {
    NumberBits(c.code, b);
    ValueOfBits(j, b);
    NumberIsValue(c.code, b);
    if |c.code| > b {
      assert Padded(c.code, b) == c.code[..b];
    }
  }

  /** As build_table wants them: codes that go to one table are together. */
  ghost predicate Contiguous(codes: seq<VlcCode>, b: nat) {
    forall x, y, z, j: nat | 0 <= x < y < z < |codes| && InGroup(codes[x], b, j) && InGroup(codes[z], b, j) ::
      InGroup(codes[y], b, j)
  }

  /** And they are so in the tables below as well. */
  ghost predicate Arranged(codes: seq<VlcCode>, b: nat) {
    && Contiguous(codes, b)
    && forall x, y :: 0 <= x < y < |codes| && |codes[x].code| > b && |codes[y].code| > b ==>
         LexLe(codes[x].code, codes[y].code)
  }

  /** What lies between two bit strings that go on after p does so as well. */
  lemma {:induction false} LexBetween(p: Bits, a: Bits, y: Bits, z: Bits)
    requires p < a && p < z && LexLe(a, y) && LexLe(y, z)
    ensures p < y
    decreases |p|
  {
    if p != [] {
      assert p[1..] < a[1..] && p[1..] < z[1..];
      LexBetween(p[1..], a[1..], y[1..], z[1..]);
      assert y == [y[0]] + y[1..] && p == [p[0]] + p[1..];
    }
  }

  lemma {:induction false} LexDrop(p: Bits, a: Bits, b: Bits)
    requires p <= a && p <= b && LexLe(a, b)
    ensures LexLe(a[|p|..], b[|p|..])
    decreases |p|
  {
    if p != [] {
      assert p[1..] <= a[1..] && p[1..] <= b[1..];
      LexDrop(p[1..], a[1..], b[1..]);
      assert a[1..][|p| - 1..] == a[|p|..] && b[1..][|p| - 1..] == b[|p|..];
    }
  }

  /** Between two codes of a group nothing else is sorted. */
  lemma SortedArranged(codes: seq<VlcCode>, b: nat)
    requires Sorted(codes)
    ensures Arranged(codes, b)
  {
    hide LexLe;
    forall x, y, z, j: nat | 0 <= x < y < z < |codes| && InGroup(codes[x], b, j) && InGroup(codes[z], b, j)
      ensures InGroup(codes[y], b, j)
    {
      BetweenInGroup(codes[x], codes[y], codes[z], b, j);
    }
  }

  lemma BetweenInGroup(a: VlcCode, c: VlcCode, d: VlcCode, b: nat, j: nat)
    requires InGroup(a, b, j) && InGroup(d, b, j) && LexLe(a.code, c.code) && LexLe(c.code, d.code)
    ensures InGroup(c, b, j)
  {
    GroupLonger(a, b, j);
    GroupLonger(c, b, j);
    GroupLonger(d, b, j);
    hide InGroup, LexLe, BitsOf;
    LexBetween(BitsOf(j, b), a.code, c.code, d.code);
  }

  // ---- one entry of a table in the making ------------------------------------------------

  /** The table when its first codes have been put in, with the symbol 0 where there is none. */
  ghost predicate Partly(t: seq<Entry>, base: nat, b: nat, s: set<VlcCode>, m: nat) {
    && b >= 1 && base + Pow2(b) <= |t|
    && forall j: nat :: j < Pow2(b) ==> CellOk(t, base, b, s, m, j, 0)
  }

  /** Is the entry free for this code, or its own? */
  predicate Vacant(e: Entry, c: VlcCode) {
    (e.len == 0 && e.symbol == 0) || e == Entry(c.symbol, |c.code|)
  }

  ghost predicate AllVacant(t: seq<Entry>, base: nat, b: nat, c: VlcCode)
    requires base + Pow2(b) <= |t|
  {
    forall j: nat :: j < Pow2(b) && c.code <= BitsOf(j, b) ==> Vacant(t[base + j], c)
  }

  /** The table with a code of at most b bits in every entry that it begins. */
  function WithCode(t: seq<Entry>, base: nat, b: nat, c: VlcCode): (r: seq<Entry>)
    ensures |r| == |t|
  {
    seq(|t|, x requires 0 <= x < |t| =>
      if base <= x < base + Pow2(b) && c.code <= BitsOf(x - base, b) then Entry(c.symbol, |c.code|) else t[x])
  }

  /** Every entry that a prefix-free code's next member begins is free for it. */
  lemma CellVacant(t: seq<Entry>, base: nat, b: nat, s: set<VlcCode>, all: set<VlcCode>, m: nat, c: VlcCode, j: nat)
    requires Partly(t, base, b, s, m) && j < Pow2(b) && c.code <= BitsOf(j, b)
    requires s <= all && c in all && Unprefixed(all)
    ensures Vacant(t[base + j], c)
  {
    var e, p := t[base + j], BitsOf(j, b);
    assert CellOk(t, base, b, s, m, j, 0);
    if e.len > 0 {
      var d :| d in s && d.code <= p && e == Entry(d.symbol, |d.code|);
      PrefixesComparable(c.code, d.code, p);
    } else if e.len < 0 {
      TableCell(t, base, b, s, m, j, 0);
      hide *;
      var d :| d in s && Longer(d, p);
      NotBeside(all, c, d, p);
    }
  }

  lemma NotBeside(all: set<VlcCode>, c: VlcCode, d: VlcCode, p: Bits)
    requires Unprefixed(all) && c in all && d in all && Longer(d, p)
    ensures !(c.code <= p)
  {
    assert c.code <= p ==> c.code <= d.code;
  }

  lemma ShortPut(t: seq<Entry>, base: nat, b: nat, s: set<VlcCode>, m: nat, c: VlcCode)
    requires Partly(t, base, b, s, m) && 1 <= |c.code| <= b
    requires AllVacant(t, base, b, c)
    ensures Partly(WithCode(t, base, b, c), base, b, s + {c}, m)
  {
    var t' := WithCode(t, base, b, c);
    forall j: nat | j < Pow2(b) ensures CellOk(t', base, b, s + {c}, m, j, 0) {
      assert CellOk(t, base, b, s, m, j, 0);
      ShortPutCell(t, base, b, s, m, c, j);
    }
  }

  lemma ShortPutCell(t: seq<Entry>, base: nat, b: nat, s: set<VlcCode>, m: nat, c: VlcCode, j: nat)
    requires b >= 1 && base + Pow2(b) <= |t| && 1 <= |c.code| <= b && j < Pow2(b)
    requires CellOk(t, base, b, s, m, j, 0)
    ensures CellOk(WithCode(t, base, b, c), base, b, s + {c}, m, j, 0)
  {
    var t', p := WithCode(t, base, b, c), BitsOf(j, b);
    if c.code <= p {
      assert c in s + {c} && t'[base + j] == Entry(c.symbol, |c.code|);
    } else {
      SubOfShort(s, c, p);
      CellKept(t, t', base, b, s, s + {c}, m, j);
    }
  }

  /** An entry that stays, with codes added that have nothing to do with it. */
  lemma CellKept(t: seq<Entry>, t': seq<Entry>, base: nat, b: nat, s: set<VlcCode>, s': set<VlcCode>, m: nat, j: nat)
    requires b >= 1 && base + Pow2(b) <= |t| <= |t'| && j < Pow2(b) && CellOk(t, base, b, s, m, j, 0)
    requires t'[base + j] == t[base + j] && forall x :: base + Pow2(b) <= x < |t| ==> t'[x] == t[x]
    requires s <= s' && Sub(s', BitsOf(j, b)) == Sub(s, BitsOf(j, b))
    requires forall c :: c in s' && c !in s ==> !Comparable(c.code, BitsOf(j, b))
    ensures CellOk(t', base, b, s', m, j, 0)
  {
    var p, e := BitsOf(j, b), t[base + j];
    if e.len < 0 {
      TableCell(t, base, b, s, m, j, 0);
      TableCellKept(t, t', base, b, s, s', m, j);
    } else {
      hide Holds, Sub;
    }
  }

  lemma TableCellKept(t: seq<Entry>, t': seq<Entry>, base: nat, b: nat, s: set<VlcCode>, s': set<VlcCode>, m: nat,
                      j: nat)
    requires b >= 1 && base + Pow2(b) <= |t| <= |t'| && j < Pow2(b) && t[base + j].len < 0
    requires t'[base + j] == t[base + j] && forall x :: base + Pow2(b) <= x < |t| ==> t'[x] == t[x]
    requires s <= s' && Sub(s', BitsOf(j, b)) == Sub(s, BitsOf(j, b))
    requires CellOk(t, base, b, s, m, j, 0)
    ensures CellOk(t', base, b, s', m, j, 0)
  {
    hide *;
    var p, e := BitsOf(j, b), t[base + j];
    TableCell(t, base, b, s, m, j, 0);
    HoldsKept(t, t', base + Pow2(b), e.symbol, -e.len, Sub(s, p), m - b);
    var d :| d in s && Longer(d, p);
    TableCellIs(t', base, b, s', m, j, 0, d);
  }

  lemma TableCellIs(t: seq<Entry>, base: nat, b: nat, s: set<VlcCode>, m: nat, j: nat, free: int, d: VlcCode)
    requires b >= 1 && base + Pow2(b) <= |t| && j < Pow2(b) && t[base + j].len < 0
    requires var e, p := t[base + j], BitsOf(j, b);
             && m > b && base + Pow2(b) <= e.symbol && d in s && Longer(d, p)
             && (-e.len == VLC_BITS || Short(Sub(s, p), -e.len))
             && Holds(t, e.symbol, -e.len, Sub(s, p), m - b)
    ensures CellOk(t, base, b, s, m, j, free)
  {
    hide Sub, Short, Longer, BitsOf, Pow2;
  }

  lemma SubOfShort(s: set<VlcCode>, c: VlcCode, p: Bits)
    requires |c.code| <= |p|
    ensures Sub(s + {c}, p) == Sub(s, p)
  {
  }

  // ---- a group of codes and its table ------------------------------------------------------

  function Rests(codes: seq<VlcCode>, b: nat): (r: seq<VlcCode>)
    ensures |r| == |codes| && forall x :: 0 <= x < |r| ==> r[x] == Rest(codes[x], b)
  {
    seq(|codes|, x requires 0 <= x < |codes| => Rest(codes[x], b))
  }

  /** codes[i..k] go to the table of entry j. */
  ghost predicate Stretch(codes: seq<VlcCode>, i: nat, k: nat, b: nat, j: nat) {
    i < k <= |codes| && j < Pow2(b) && forall x :: i <= x < k ==> InGroup(codes[x], b, j)
  }

  /** And none before them does. */
  ghost predicate Group(codes: seq<VlcCode>, i: nat, k: nat, b: nat, j: nat) {
    Stretch(codes, i, k, b, j) && forall x :: 0 <= x < i ==> !InGroup(codes[x], b, j)
  }

  /** Before the first code of a group, none of its codes has come. */
  lemma GroupBegins(codes: seq<VlcCode>, i: nat, b: nat, j: nat)
    requires Contiguous(codes, b) && i < |codes| && InGroup(codes[i], b, j)
    requires i == 0 || !InGroup(codes[i - 1], b, j)
    ensures forall x :: 0 <= x < i ==> !InGroup(codes[x], b, j)
  {
  }

  lemma SubOfGroup(codes: seq<VlcCode>, i: nat, k: nat, b: nat, j: nat)
    requires Group(codes, i, k, b, j)
    ensures Sub(SetOf(codes[..k]), BitsOf(j, b)) == SetOf(Rests(codes[i..k], b))
  {
    var p, s, r := BitsOf(j, b), SetOf(codes[..k]), Rests(codes[i..k], b);
    forall c ensures c in Sub(s, p) <==> c in r {
      if c in Sub(s, p) {
        var d :| d in s && Longer(d, p) && c == Rest(d, |p|);
        var x :| 0 <= x < k && codes[..k][x] == d;
        GroupLonger(d, b, j);
        assert codes[x] == d && r[x - i] == c;
      }
      if c in r {
        var x :| 0 <= x < |r| && r[x] == c;
        var d := codes[i + x];
        GroupLonger(d, b, j);
        assert codes[..k][i + x] == d && c == Rest(d, |p|);
      }
    }
  }

  lemma NewMember(codes: seq<VlcCode>, i: nat, k: nat, c: VlcCode) returns (x: nat)
    requires i <= k <= |codes| && c in SetOf(codes[..k]) && c !in SetOf(codes[..i])
    ensures i <= x < k && codes[x] == c
  {
    forall y | 0 <= y < i ensures codes[y] in SetOf(codes[..i]) {
      assert codes[..i][y] == codes[y];
    }
    x :| 0 <= x < k && codes[..k][x] == c;
  }

  lemma NoneTaken(codes: seq<VlcCode>, c: VlcCode)
    ensures c !in SetOf(codes[..0])
  {
  }

  lemma SubOfOthers(codes: seq<VlcCode>, i: nat, k: nat, b: nat, j: nat, j': nat)
    requires Group(codes, i, k, b, j) && j' < Pow2(b) && j' != j
    ensures SetOf(codes[..i]) <= SetOf(codes[..k])
    ensures Sub(SetOf(codes[..k]), BitsOf(j', b)) == Sub(SetOf(codes[..i]), BitsOf(j', b))
    ensures forall c :: c in SetOf(codes[..k]) && c !in SetOf(codes[..i]) ==> !Comparable(c.code, BitsOf(j', b))
  {
    var p', before, after := BitsOf(j', b), SetOf(codes[..i]), SetOf(codes[..k]);
    forall c | c in before ensures c in after {
      var x :| 0 <= x < i && codes[..i][x] == c;
      assert codes[..k][x] == c;
    }
    forall c | c in after && c !in before ensures !Comparable(c.code, p') {
      var x := NewMember(codes, i, k, c);
      OtherGroup(c, b, j, j');
    }
    assert forall c :: c in after && Longer(c, p') ==> c in before;
  }

  lemma OtherGroup(c: VlcCode, b: nat, j: nat, j': nat)
    requires InGroup(c, b, j) && j < Pow2(b) && j' < Pow2(b) && j' != j
    ensures !Comparable(c.code, BitsOf(j', b)) && !Longer(c, BitsOf(j', b))
  {
    GroupLonger(c, b, j);
    GroupLonger(c, b, j');
    hide InGroup, BitsOf;
  }

  /** The table of a group is entered, and the group with it. */
  lemma LongPut(t: seq<Entry>, t': seq<Entry>, base: nat, b: nat, codes: seq<VlcCode>, i: nat, k: nat, m: nat, j: nat,
                index: nat, bits: int)
    requires Group(codes, i, k, b, j) && Partly(t, base, b, SetOf(codes[..i]), m) && m > b
    requires |t| <= |t'| && (forall x :: 0 <= x < |t| && x != base + j ==> t'[x] == t[x])
    requires base + Pow2(b) <= index && bits >= 1 && t'[base + j] == Entry(index, -bits)
    requires Holds(t', index, bits, SetOf(Rests(codes[i..k], b)), m - b)
    requires bits == VLC_BITS || Short(SetOf(Rests(codes[i..k], b)), bits)
    ensures Partly(t', base, b, SetOf(codes[..k]), m)
  {
    forall j': nat | j' < Pow2(b) ensures CellOk(t', base, b, SetOf(codes[..k]), m, j', 0) {
      if j' != j {
        assert CellOk(t, base, b, SetOf(codes[..i]), m, j', 0);
        SubOfOthers(codes, i, k, b, j, j');
        hide SetOf, Sub, CellOk, Group, Holds;
        CellKept(t, t', base, b, SetOf(codes[..i]), SetOf(codes[..k]), m, j');
      } else {
        GroupCell(t', base, b, codes, i, k, m, j, index, bits);
      }
    }
  }

  lemma GroupCell(t: seq<Entry>, base: nat, b: nat, codes: seq<VlcCode>, i: nat, k: nat, m: nat, j: nat,
                  index: nat, bits: int)
    requires Group(codes, i, k, b, j) && m > b >= 1 && base + Pow2(b) <= |t|
    requires base + Pow2(b) <= index && bits >= 1 && t[base + j] == Entry(index, -bits)
    requires Holds(t, index, bits, SetOf(Rests(codes[i..k], b)), m - b)
    requires bits == VLC_BITS || Short(SetOf(Rests(codes[i..k], b)), bits)
    ensures CellOk(t, base, b, SetOf(codes[..k]), m, j, 0)
  {
    assert i < k <= |codes| && j < Pow2(b);
    hide *;
    SubOfGroup(codes, i, k, b, j);
    GroupFirst(codes, i, k, b, j);
    TableCellIs(t, base, b, SetOf(codes[..k]), m, j, 0, codes[i]);
  }

  lemma GroupFirst(codes: seq<VlcCode>, i: nat, k: nat, b: nat, j: nat)
    requires Group(codes, i, k, b, j)
    ensures Longer(codes[i], BitsOf(j, b)) && codes[i] in SetOf(codes[..k])
  {
    assert InGroup(codes[i], b, j);
    assert codes[..k][i] == codes[i];
    hide InGroup, Longer, BitsOf;
    GroupLonger(codes[i], b, j);
  }

  // ---- what any codes, prefix-free or not, leave in a table --------------------------------

  ghost predicate LongFirst(codes: seq<VlcCode>, b: nat) {
    forall x, y :: 0 <= x < y < |codes| && |codes[y].code| > b ==> |codes[x].code| > b
  }

  /** Each code has its entries: those that it begins, or one for a table. */
  ghost predicate Marks(t: seq<Entry>, base: nat, b: nat, s: set<VlcCode>) {
    && base + Pow2(b) <= |t|
    && (forall c :: c in s && |c.code| > b ==> t[base + Number(c.code, b)].len < 0)
    && forall c, j: nat :: c in s && |c.code| <= b && j < Pow2(b) && c.code <= BitsOf(j, b) ==>
         t[base + j] == Entry(c.symbol, |c.code|)
  }

  lemma ShortMarks(t: seq<Entry>, base: nat, b: nat, s: set<VlcCode>, c: VlcCode)
    requires Marks(t, base, b, s) && 1 <= |c.code| <= b && forall d :: d in s ==> d.code != []
    requires AllVacant(t, base, b, c)
    ensures Marks(WithCode(t, base, b, c), base, b, s + {c})
  {
    hide Number, Pow2, BitsOf;
  }

  lemma LongMarks(t: seq<Entry>, t': seq<Entry>, base: nat, b: nat, codes: seq<VlcCode>, i: nat, k: nat, j: nat)
    requires Stretch(codes, i, k, b, j) && LongFirst(codes, b) && Marks(t, base, b, SetOf(codes[..i]))
    requires |t| <= |t'| && (forall x :: 0 <= x < |t| && x != base + j ==> t'[x] == t[x]) && t'[base + j].len < 0
    ensures Marks(t', base, b, SetOf(codes[..k]))
  {
    assert base + Pow2(b) <= |t'|;
    hide *;
    forall c | c in SetOf(codes[..k]) ensures |c.code| > b && t'[base + Number(c.code, b)].len < 0 {
      NoneTaken(codes, c);
      var x := NewMember(codes, 0, k, c);
      LongMark(t, t', base, b, codes, i, k, j, x);
    }
    MarksLong(t', base, b, SetOf(codes[..k]));
  }

  lemma MarksLong(t: seq<Entry>, base: nat, b: nat, s: set<VlcCode>)
    requires base + Pow2(b) <= |t| && forall c :: c in s ==> |c.code| > b && t[base + Number(c.code, b)].len < 0
    ensures Marks(t, base, b, s)
  {
    hide Number, BitsOf, Pow2;
  }

  lemma LongMark(t: seq<Entry>, t': seq<Entry>, base: nat, b: nat, codes: seq<VlcCode>, i: nat, k: nat, j: nat, x: nat)
    requires Stretch(codes, i, k, b, j) && LongFirst(codes, b) && Marks(t, base, b, SetOf(codes[..i])) && x < k
    requires |t| <= |t'| && (forall x :: 0 <= x < |t| && x != base + j ==> t'[x] == t[x]) && t'[base + j].len < 0
    ensures |codes[x].code| > b && t'[base + Number(codes[x].code, b)].len < 0
  {
    assert InGroup(codes[i], b, j);
    if x < i {
      assert codes[..i][x] == codes[x] && codes[x] in SetOf(codes[..i]);
    } else {
      assert InGroup(codes[x], b, j);
    }
    hide Number, Pow2, BitsOf;
  }

  /** An entry for two codes of which one begins the other. */
  lemma CommonEntry(c: VlcCode, d: VlcCode, b: nat) returns (j: nat)
    requires Comparable(c.code, d.code) && |c.code| <= b
    ensures j < Pow2(b) && c.code <= BitsOf(j, b)
    ensures if |d.code| <= b then d.code <= BitsOf(j, b) else j == Number(d.code, b)
  {
    var longer := if |c.code| >= |d.code| then c.code else d.code;
    j := Number(longer, b);
    NumberBits(longer, b);
    assert c.code <= longer && d.code <= longer;
    if |d.code| <= b {
      assert c.code <= Padded(longer, b) && d.code <= Padded(longer, b);
    } else {
      assert c.code <= Padded(longer, b) == d.code[..b];
    }
  }

  /** Codes with entries of their own do not clash, where one of them is short. */
  lemma MarksApart(t: seq<Entry>, base: nat, b: nat, s: set<VlcCode>, c: VlcCode, d: VlcCode)
    requires Marks(t, base, b, s) && c in s && d in s && |c.code| <= b && c.symbol != d.symbol
    ensures !Comparable(c.code, d.code)
  {
    if Comparable(c.code, d.code) {
      var j := CommonEntry(c, d, b);
    }
  }

  /** Do the codes have entries of tables on one level? */
  predicate Alike(c: VlcCode, d: VlcCode) {
    c.code != [] && d.code != [] && Level(|c.code|) == Level(|d.code|)
  }

  /** No code with entries on one level with another begins it. */
  ghost predicate Apart(s: set<VlcCode>) {
    forall c, d :: c in s && d in s && c.symbol != d.symbol && Alike(c, d) ==> !Comparable(c.code, d.code)
  }

  /** Each code of at most b bits has the entries that it begins, except for those of tables. */
  ghost predicate Stays(t: seq<Entry>, base: nat, b: nat, s: set<VlcCode>) {
    && base + Pow2(b) <= |t|
    && forall c, j: nat :: c in s && |c.code| <= b && j < Pow2(b) && c.code <= BitsOf(j, b) ==>
         t[base + j].len < 0 || t[base + j] == Entry(c.symbol, |c.code|)
  }

  lemma ShortStays(t: seq<Entry>, base: nat, b: nat, s: set<VlcCode>, c: VlcCode)
    requires Stays(t, base, b, s) && 1 <= |c.code| <= b && forall d :: d in s ==> d.code != []
    requires AllVacant(t, base, b, c)
    ensures Stays(WithCode(t, base, b, c), base, b, s + {c})
  {
    hide Number, Pow2, BitsOf;
  }

  /** A code whose entries are vacant begins none of the others, and none of them begins it. */
  lemma ShortApart(t: seq<Entry>, base: nat, b: nat, s: set<VlcCode>, c: VlcCode)
    requires Stays(t, base, b, s) && Apart(s) && 1 <= |c.code| <= b && forall d :: d in s ==> d.code != []
    requires b == VLC_BITS || forall d :: d in s ==> |d.code| <= b
    requires AllVacant(t, base, b, c)
    ensures Apart(s + {c})
  {
    hide Pow2, BitsOf, Number, Level;
    forall d | d in s && d.symbol != c.symbol && Alike(c, d) ensures !Comparable(c.code, d.code) {
      assert |d.code| <= b;
      if Comparable(c.code, d.code) {
        var j := CommonEntry(c, d, b);
      }
    }
  }

  lemma LongStays(t: seq<Entry>, t': seq<Entry>, base: nat, b: nat, codes: seq<VlcCode>, i: nat, k: nat, j: nat)
    requires Stretch(codes, i, k, b, j) && Stays(t, base, b, SetOf(codes[..i]))
    requires |t| <= |t'| && (forall x :: 0 <= x < |t| && x != base + j ==> t'[x] == t[x]) && t'[base + j].len < 0
    ensures Stays(t', base, b, SetOf(codes[..k]))
  {
    forall c | c in SetOf(codes[..k]) && c !in SetOf(codes[..i]) ensures |c.code| > b {
      var x := NewMember(codes, i, k, c);
      assert InGroup(codes[x], b, j);
    }
    hide SetOf, Stretch, InGroup, Pow2, BitsOf;
  }

  /** A group's codes are apart from each other if what is left of them is, and always from those before. */
  lemma LongApart(codes: seq<VlcCode>, i: nat, k: nat, j: nat)
    requires Group(codes, i, k, VLC_BITS, j) && Apart(SetOf(codes[..i])) && Apart(SetOf(Rests(codes[i..k], VLC_BITS)))
    ensures Apart(SetOf(codes[..k]))
  {
    assert k <= |codes|;
    hide *;
    forall x: nat, y: nat | x < k && y < k ensures Distinct(codes, k, x, y) {
      if x < i && y < i {
        BeforeDistinct(codes, i, k, j, x, y);
      } else if x >= i && y >= i {
        WithinDistinct(codes, i, k, j, x, y);
      } else {
        OutsideDistinct(codes, i, k, j, x, y);
      }
    }
    DistinctApart(codes, k);
  }

  predicate Distinct(codes: seq<VlcCode>, k: nat, x: nat, y: nat) {
    x < k <= |codes| && y < k && codes[x].symbol != codes[y].symbol && Alike(codes[x], codes[y]) ==>
      !Comparable(codes[x].code, codes[y].code)
  }

  lemma DistinctApart(codes: seq<VlcCode>, k: nat)
    requires k <= |codes| && forall x: nat, y: nat :: x < k && y < k ==> Distinct(codes, k, x, y)
    ensures Apart(SetOf(codes[..k]))
  {
    hide Alike, Comparable;
    forall c, d | c in SetOf(codes[..k]) && d in SetOf(codes[..k]) && c.symbol != d.symbol && Alike(c, d)
      ensures !Comparable(c.code, d.code)
    {
      NoneTaken(codes, c);
      NoneTaken(codes, d);
      var x := NewMember(codes, 0, k, c);
      var y := NewMember(codes, 0, k, d);
      assert Distinct(codes, k, x, y);
    }
  }

  lemma BeforeDistinct(codes: seq<VlcCode>, i: nat, k: nat, j: nat, x: nat, y: nat)
    requires Group(codes, i, k, VLC_BITS, j) && Apart(SetOf(codes[..i])) && x < i && y < i
    ensures Distinct(codes, k, x, y)
  {
    assert codes[..i][x] == codes[x] && codes[..i][y] == codes[y];
    assert codes[x] in SetOf(codes[..i]) && codes[y] in SetOf(codes[..i]);
    hide SetOf, Alike, Comparable;
  }

  lemma WithinDistinct(codes: seq<VlcCode>, i: nat, k: nat, j: nat, x: nat, y: nat)
    requires Group(codes, i, k, VLC_BITS, j) && Apart(SetOf(Rests(codes[i..k], VLC_BITS)))
    requires i <= x < k && i <= y < k
    ensures Distinct(codes, k, x, y)
  {
    var r, c, d := Rests(codes[i..k], VLC_BITS), codes[x], codes[y];
    assert InGroup(c, VLC_BITS, j) && InGroup(d, VLC_BITS, j);
    assert r[x - i] == Rest(c, VLC_BITS) && r[y - i] == Rest(d, VLC_BITS);
    assert r[x - i] in SetOf(r) && r[y - i] in SetOf(r);
    RestAlike(c, d);
    hide SetOf, Rests, InGroup, Rest, Alike, Comparable;
  }

  lemma RestAlike(c: VlcCode, d: VlcCode)
    requires |c.code| > VLC_BITS && |d.code| > VLC_BITS
    ensures var c', d' := Rest(c, VLC_BITS), Rest(d, VLC_BITS);
            && c'.symbol == c.symbol && d'.symbol == d.symbol
            && (Alike(c, d) ==> Alike(c', d')) && (Comparable(c.code, d.code) ==> Comparable(c'.code, d'.code))
  {
  }

  lemma OutsideDistinct(codes: seq<VlcCode>, i: nat, k: nat, j: nat, x: nat, y: nat)
    requires Group(codes, i, k, VLC_BITS, j) && x < k && y < k && (x < i <==> i <= y)
    ensures Distinct(codes, k, x, y)
  {
    var c, d := codes[x], codes[y];
    assert InGroup(c, VLC_BITS, j) <==> i <= x;
    assert InGroup(d, VLC_BITS, j) <==> i <= y;
    if Alike(c, d) && Comparable(c.code, d.code) {
      ComparableTogether(c, d, j);
    }
    hide InGroup, Alike, Comparable;
  }

  lemma ComparableTogether(c: VlcCode, d: VlcCode, j: nat)
    requires Alike(c, d) && Comparable(c.code, d.code)
    ensures InGroup(c, VLC_BITS, j) <==> InGroup(d, VLC_BITS, j)
  {
    assert |c.code| > VLC_BITS <==> |d.code| > VLC_BITS;
    NumberIsValue(c.code, VLC_BITS);
    NumberIsValue(d.code, VLC_BITS);
    assert |c.code| > VLC_BITS ==> Padded(c.code, VLC_BITS) == Padded(d.code, VLC_BITS);
  }

  /** The last pass: entries that are still free get the symbol -1. */
  ghost predicate Swept(t: seq<Entry>, t': seq<Entry>, base: nat, b: nat) {
    && base + Pow2(b) <= |t| == |t'|
    && forall x :: 0 <= x < |t| ==>
         t'[x] == if base <= x < base + Pow2(b) && t[x].len == 0 then Entry(-1, 0) else t[x]
  }

  lemma SweptHolds(t: seq<Entry>, t': seq<Entry>, base: nat, b: nat, s: set<VlcCode>, m: nat)
    requires Partly(t, base, b, s, m) && Swept(t, t', base, b)
    ensures Holds(t', base, b, s, m)
  {
    forall j: nat | j < Pow2(b) ensures CellOk(t', base, b, s, m, j, -1) {
      assert CellOk(t, base, b, s, m, j, 0);
      assert t'[base + j] == if t[base + j].len == 0 then Entry(-1, 0) else t[base + j];
      SweptCell(t, t', base, b, s, m, j);
    }
  }

  lemma SweptCell(t: seq<Entry>, t': seq<Entry>, base: nat, b: nat, s: set<VlcCode>, m: nat, j: nat)
    requires b >= 1 && j < Pow2(b) && Swept(t, t', base, b) && CellOk(t, base, b, s, m, j, 0)
    ensures CellOk(t', base, b, s, m, j, -1)
  {
    var p, e := BitsOf(j, b), t[base + j];
    if e.len < 0 {
      TableCell(t, base, b, s, m, j, 0);
      assert t'[base + j] == e && forall x :: base + Pow2(b) <= x < |t| ==> t'[x] == t[x];
      hide *;
      HoldsKept(t, t', base + Pow2(b), e.symbol, -e.len, Sub(s, p), m - b);
      var d :| d in s && Longer(d, p);
      TableCellIs(t', base, b, s, m, j, -1, d);
    } else {
      hide Holds, Sub;
    }
  }

  lemma SweptMarks(t: seq<Entry>, t': seq<Entry>, base: nat, b: nat, s: set<VlcCode>)
    requires Marks(t, base, b, s) && Swept(t, t', base, b) && forall c :: c in s ==> c.code != []
    ensures Marks(t', base, b, s)
  {
    hide Number, BitsOf, Pow2;
  }

  // ---- one turn of the loop --------------------------------------------------------------

  lemma TakeOne(codes: seq<VlcCode>, i: nat)
    requires i < |codes|
    ensures SetOf(codes[..i + 1]) == SetOf(codes[..i]) + {codes[i]}
    ensures SetOf(codes[..i]) <= SetOf(codes) && codes[i] in SetOf(codes)
  {
    assert codes[..i + 1] == codes[..i] + [codes[i]];
  }

  lemma TakeAll(codes: seq<VlcCode>)
    ensures codes[..|codes|] == codes
  {
  }

  /** Codes that build_table can make a table of b bits from. */
  ghost predicate Fit(codes: seq<VlcCode>, b: nat, m: nat) {
    && 1 <= b <= VLC_BITS && Arranged(codes, b)
    && Short(SetOf(codes), m) && (b == VLC_BITS || Short(SetOf(codes), b))
  }

  ghost predicate Good(codes: seq<VlcCode>, b: nat) {
    Unprefixed(SetOf(codes)) && Arranged(codes, b)
  }

  /** Where the loop stands: the first i codes are in the table, and no group has been broken. */
  ghost predicate Building(t: seq<Entry>, base: nat, b: nat, codes: seq<VlcCode>, m: nat, i: nat) {
    && i <= |codes| && base + Pow2(b) <= |t|
    && Stays(t, base, b, SetOf(codes[..i])) && Apart(SetOf(codes[..i]))
    && (LongFirst(codes, b) ==> Marks(t, base, b, SetOf(codes[..i])))
    && (Good(codes, b) ==> Partly(t, base, b, SetOf(codes[..i]), m))
    && (0 < i < |codes| ==> forall j: nat :: InGroup(codes[i], b, j) ==> !InGroup(codes[i - 1], b, j))
  }

  lemma BuildingStarts(t: seq<Entry>, base: nat, b: nat, codes: seq<VlcCode>, m: nat)
    requires b >= 1 && |t| == base + Pow2(b) && forall x :: base <= x < |t| ==> t[x] == Entry(0, 0)
    ensures Building(t, base, b, codes, m, 0)
  {
    hide Pow2, Holds;
    assert codes[..0] == [];
  }

  lemma BuildingShort(t: seq<Entry>, base: nat, b: nat, codes: seq<VlcCode>, m: nat, i: nat)
    requires Building(t, base, b, codes, m, i) && i < |codes| && Fit(codes, b, m) && |codes[i].code| <= b
    requires AllVacant(t, base, b, codes[i])
    ensures Building(WithCode(t, base, b, codes[i]), base, b, codes, m, i + 1)
  {
    hide Marks, Partly, Pow2, BitsOf, WithCode, Number, LongFirst, Good, SetOf, AllVacant, Stays, Apart, Arranged;
    TakeOne(codes, i);
    assert 1 <= |codes[i].code| && forall d :: d in SetOf(codes[..i]) ==> d.code != [];
    assert b == VLC_BITS || forall d :: d in SetOf(codes[..i]) ==> |d.code| <= b;
    ShortStays(t, base, b, SetOf(codes[..i]), codes[i]);
    ShortApart(t, base, b, SetOf(codes[..i]), codes[i]);
    if LongFirst(codes, b) {
      ShortMarks(t, base, b, SetOf(codes[..i]), codes[i]);
    }
    if Good(codes, b) {
      ShortPut(t, base, b, SetOf(codes[..i]), m, codes[i]);
    }
  }

  /** In a prefix-free code every entry for the next code is free. */
  lemma BuildingVacant(t: seq<Entry>, base: nat, b: nat, codes: seq<VlcCode>, m: nat, i: nat)
    requires Building(t, base, b, codes, m, i) && i < |codes| && Good(codes, b)
    ensures AllVacant(t, base, b, codes[i])
  {
    hide Marks, Partly, Pow2, BitsOf, Number, SetOf, Vacant, Stays, Apart;
    TakeOne(codes, i);
    forall j: nat | j < Pow2(b) && codes[i].code <= BitsOf(j, b) ensures Vacant(t[base + j], codes[i]) {
      CellVacant(t, base, b, SetOf(codes[..i]), SetOf(codes), m, codes[i], j);
    }
  }

  lemma BuildingLong(t: seq<Entry>, t': seq<Entry>, base: nat, b: nat, codes: seq<VlcCode>, m: nat, i: nat, k: nat,
                     j: nat, index: nat, bits: int)
    requires Building(t, base, b, codes, m, i) && Stretch(codes, i, k, b, j) && m > b == VLC_BITS
    requires Arranged(codes, b) && Apart(SetOf(Rests(codes[i..k], b)))
    requires k < |codes| ==> !InGroup(codes[k], b, j)
    requires |t| <= |t'| && forall x :: 0 <= x < |t| && x != base + j ==> t'[x] == t[x]
    requires base + Pow2(b) <= index && bits >= 1 && t'[base + j] == Entry(index, -bits)
    requires Good(codes, b) ==> Holds(t', index, bits, SetOf(Rests(codes[i..k], b)), m - b)
    requires bits == VLC_BITS || Short(SetOf(Rests(codes[i..k], b)), bits)
    ensures Building(t', base, b, codes, m, k)
  {
    hide Marks, Partly, Pow2, LongFirst, Good, SetOf, Rests, Short, Holds, Stays, Apart, Arranged;
    ArrangedGroup(codes, i, k, b, j);
    LongStays(t, t', base, b, codes, i, k, j);
    LongApart(codes, i, k, j);
    if LongFirst(codes, b) {
      LongMarks(t, t', base, b, codes, i, k, j);
    }
    if Good(codes, b) {
      LongPut(t, t', base, b, codes, i, k, m, j, index, bits);
    }
    assert InGroup(codes[k - 1], b, j);
  }

  lemma ArrangedGroup(codes: seq<VlcCode>, i: nat, k: nat, b: nat, j: nat)
    requires Stretch(codes, i, k, b, j) && Arranged(codes, b)
    requires 0 < i ==> forall j: nat :: InGroup(codes[i], b, j) ==> !InGroup(codes[i - 1], b, j)
    ensures Group(codes, i, k, b, j)
  {
    assert InGroup(codes[i], b, j);
    GroupBegins(codes, i, b, j);
  }

  lemma FitMember(codes: seq<VlcCode>, b: nat, m: nat, i: nat)
    requires Fit(codes, b, m) && i < |codes|
    ensures 1 <= |codes[i].code| <= m && (|codes[i].code| > b ==> b == VLC_BITS)
  {
    assert codes[i] in SetOf(codes);
  }

  lemma BuildingGood(t: seq<Entry>, base: nat, b: nat, codes: seq<VlcCode>, m: nat, i: nat, k: nat, j: nat, bits: nat)
    requires Building(t, base, b, codes, m, i) && Stretch(codes, i, k, b, j) && Good(codes, b)
    ensures Good(Rests(codes[i..k], b), bits)
  {
    assert Arranged(codes, b);
    hide Marks, Partly, Good, Rests, LongFirst, InGroup, Arranged, Stays, Apart;
    ArrangedGroup(codes, i, k, b, j);
    GroupGood(codes, i, k, b, j, bits);
  }

  lemma BuildingEnds(t: seq<Entry>, t': seq<Entry>, base: nat, b: nat, codes: seq<VlcCode>, m: nat)
    requires Building(t, base, b, codes, m, |codes|) && Fit(codes, b, m) && Swept(t, t', base, b)
    ensures Apart(SetOf(codes)) && (LongFirst(codes, b) ==> Marks(t', base, b, SetOf(codes)))
    ensures Good(codes, b) ==> Holds(t', base, b, SetOf(codes), m)
  {
    TakeAll(codes);
    assert forall c :: c in SetOf(codes) ==> c.code != [];
    hide Marks, Partly, Good, LongFirst, SetOf, Swept, Holds, Apart, Stays, Arranged;
    if LongFirst(codes, b) {
      SweptMarks(t, t', base, b, SetOf(codes));
    }
    if Good(codes, b) {
      SweptHolds(t, t', base, b, SetOf(codes), m);
    }
  }

  /** What is left of a group's codes fits in its table. */
  lemma GroupFit(codes: seq<VlcCode>, i: nat, k: nat, b: nat, m: nat, j: nat, max: nat)
    requires Fit(codes, b, m) && Stretch(codes, i, k, b, j) && m > b
    requires 1 <= max && forall x :: i <= x < k ==> |codes[x].code| - b <= max
    requires exists x :: i <= x < k && |codes[x].code| - b == max
    ensures Min(max, b) <= m - b
    ensures b == VLC_BITS && Fit(Rests(codes[i..k], b), Min(max, b), m - b)
    ensures Min(max, b) == VLC_BITS || Short(SetOf(Rests(codes[i..k], b)), Min(max, b))
  {
    var r, bits := Rests(codes[i..k], b), Min(max, b);
    var x :| i <= x < k && |codes[x].code| - b == max;
    FitMember(codes, b, m, x);
    assert InGroup(codes[x], b, j) && b == VLC_BITS;
    forall c | c in SetOf(r) ensures 1 <= |c.code| <= m - b && (bits == VLC_BITS || |c.code| <= bits) {
      var y := RestOf(codes, i, k, b, c);
      assert InGroup(codes[y], b, j);
      FitMember(codes, b, m, y);
    }
    GroupArranged(codes, i, k, b, j, bits);
    hide InGroup, SetOf, Rests, Arranged;
  }

  lemma RestOf(codes: seq<VlcCode>, i: nat, k: nat, b: nat, c: VlcCode) returns (x: nat)
    requires i <= k <= |codes| && c in SetOf(Rests(codes[i..k], b))
    ensures i <= x < k && c == Rest(codes[x], b)
  {
    var r := Rests(codes[i..k], b);
    var y :| 0 <= y < |r| && r[y] == c;
    x := i + y;
    assert codes[i..k][y] == codes[x];
  }

  lemma GroupGood(codes: seq<VlcCode>, i: nat, k: nat, b: nat, j: nat, bits: nat)
    requires Good(codes, b) && Group(codes, i, k, b, j)
    ensures Good(Rests(codes[i..k], b), bits)
  {
    var p, r, s := BitsOf(j, b), Rests(codes[i..k], b), SetOf(codes[..k]);
    assert Unprefixed(s) by {
      assert forall c :: c in s ==> c in SetOf(codes);
    }
    SubUnprefixed(s, p);
    SubOfGroup(codes, i, k, b, j);
    hide *;
    GroupArranged(codes, i, k, b, j, bits);
    BothGood(codes, b, r, bits);
  }

  lemma BothGood(codes: seq<VlcCode>, b: nat, r: seq<VlcCode>, bits: nat)
    requires Unprefixed(SetOf(r)) && (Good(codes, b) ==> Arranged(r, bits))
    ensures Good(codes, b) ==> Good(r, bits)
  {
  }

  lemma GroupArranged(codes: seq<VlcCode>, i: nat, k: nat, b: nat, j: nat, bits: nat)
    requires Arranged(codes, b) && Stretch(codes, i, k, b, j)
    ensures Arranged(Rests(codes[i..k], b), bits)
  {
    var r := Rests(codes[i..k], b);
    forall x, y | 0 <= x < y < |r| ensures LexLe(r[x].code, r[y].code) {
      RestsSorted(codes, i, k, b, j, x, y);
    }
    hide *;
    SortedArranged(r, bits);
  }

  lemma RestsSorted(codes: seq<VlcCode>, i: nat, k: nat, b: nat, j: nat, x: nat, y: nat)
    requires Arranged(codes, b) && Stretch(codes, i, k, b, j) && x < y < k - i
    ensures LexLe(Drop(codes[i + x].code, b), Drop(codes[i + y].code, b))
  {
    GroupLonger(codes[i + x], b, j);
    GroupLonger(codes[i + y], b, j);
    assert InGroup(codes[i + x], b, j) && InGroup(codes[i + y], b, j);
    hide LexLe, BitsOf;
    LexDrop(BitsOf(j, b), codes[i + x].code, codes[i + y].code);
  }

  // ---- how large the tables grow ---------------------------------------------------------

  /** Some code comes next in every stream. */
  ghost predicate Full(s: set<VlcCode>) {
    forall stream: Bits :: Hit(s, stream)
  }

  ghost predicate Hit(s: set<VlcCode>, stream: Bits) {
    exists c :: c in s && Next(c, stream)
  }

  /** The codes below a prefix make a code of their own. */
  lemma FullSub(s: set<VlcCode>, p: Bits, d: VlcCode)
    requires Full(s) && Unprefixed(s) && d in s && Longer(d, p)
    ensures Full(Sub(s, p))
  {
    forall rest: Bits ensures Hit(Sub(s, p), rest) {
      var stream := p + rest;
      assert Hit(s, stream);
      var c :| c in s && Next(c, stream);
      assert Padded(stream, |p|) == p && Drop(stream, |p|) == rest;
      hide Full, Sub;
      LongerNext(s, c, d, stream, |p|);
      RestInSub(s, p, c);
    }
  }

  lemma RestInSub(s: set<VlcCode>, p: Bits, c: VlcCode)
    requires c in s && Longer(c, p)
    ensures Rest(c, |p|) in Sub(s, p)
  {
  }

  /** For each of the first i bits of a code, another one that has it the other way. */
  lemma {:induction false} Others(s: set<VlcCode>, d: VlcCode, i: nat) returns (t: set<VlcCode>)
    requires Full(s) && Unprefixed(s) && d in s && i <= |d.code|
    ensures t <= s && |t| == i && forall c :: c in t ==> !(d.code[..i] <= c.code)
  {
    if i == 0 {
      t := {};
    } else {
      t := Others(s, d, i - 1);
      var c := Other(s, d, i - 1);
      assert c !in t;
      forall x | x in t ensures !(d.code[..i] <= x.code) {
        PrefixBefore(d.code, x.code, i);
      }
      t := t + {c};
    }
  }

  lemma PrefixBefore(a: Bits, x: Bits, i: nat)
    requires 1 <= i <= |a|
    ensures a[..i] <= x ==> a[..i - 1] <= x
  {
    if a[..i] <= x {
      assert x[..i - 1] == x[..i][..i - 1] == a[..i - 1];
    }
  }

  lemma Other(s: set<VlcCode>, d: VlcCode, i: nat) returns (c: VlcCode)
    requires Full(s) && Unprefixed(s) && d in s && i < |d.code|
    ensures c in s && d.code[..i] <= c.code && !(d.code[..i + 1] <= c.code)
  {
    var stream := d.code[..i] + [!d.code[i]];
    assert Hit(s, stream);
    c :| c in s && Next(c, stream);
    hide Full, Hit;
    OtherWay(c, d, i);
  }

  lemma OtherWay(c: VlcCode, d: VlcCode, i: nat)
    requires i < |d.code| && Next(c, d.code[..i] + [!d.code[i]])
    ensures |c.code| <= i ==> c.code <= d.code
    ensures |c.code| > i ==> d.code[..i] <= c.code && !(d.code[..i + 1] <= c.code)
  {
    var stream := d.code[..i] + [!d.code[i]];
    if |c.code| <= i {
      assert c.code == stream[..|c.code|] == d.code[..|c.code|];
    } else {
      PaddedTake(stream, i + 1, |c.code|);
      assert c.code[..i + 1] == stream && c.code[i] != d.code[i];
    }
  }

  /** A code with a member of n bits has more than n members. */
  lemma ManyCodes(codes: seq<VlcCode>, d: VlcCode, n: nat)
    requires Full(SetOf(codes)) && Unprefixed(SetOf(codes)) && d in codes && n <= |d.code|
    ensures |codes| > n
  {
    var s := SetOf(codes);
    var t := Others(s, d, n);
    assert d !in t && t + {d} <= s;
    hide Full, Unprefixed;
    SetOfSize(codes);
    assert s == (t + {d}) + (s - (t + {d}));
  }

  lemma {:induction false} SetOfSize(codes: seq<VlcCode>)
    ensures |SetOf(codes)| <= |codes|
  {
    if codes == [] {
      assert SetOf(codes) == {};
    } else {
      SetOfSize(codes[1..]);
      assert SetOf(codes) == SetOf(codes[1..]) + {codes[0]} by {
        assert codes == [codes[0]] + codes[1..];
      }
    }
  }

  /** For a table of n bits with more than n codes: at most so many entries for each code. */
  function PerCode(n: nat): (r: nat)
    requires n <= VLC_BITS
  {
    [1, 1, 2, 2, 4, 6, 10, 16, 29, 52][n]
  }

  lemma PerCodeEnough(n: nat, k: nat)
    requires n <= VLC_BITS && k > n
    ensures Pow2(n) <= PerCode(n) * k
  {
    assert Pow2(0) == 1 && Pow2(1) == 2 && Pow2(2) == 4 && Pow2(3) == 8 && Pow2(4) == 16;
    assert Pow2(5) == 32 && Pow2(6) == 64 && Pow2(7) == 128 && Pow2(8) == 256 && Pow2(9) == 512;
    assert Pow2(n) <= PerCode(n) * (n + 1);
    hide Pow2;
    ProductMono(n + 1, k, PerCode(n));
  }

  /** The entries of the tables below, for each code with at most r bits left. */
  function Room(r: nat): (n: nat) {
    if r < VLC_BITS then PerCode(r) else PerCode(VLC_BITS) + Room(r - VLC_BITS)
  }

  lemma {:induction false} RoomMono(r: nat, n: nat)
    requires n <= r && n < VLC_BITS
    ensures PerCode(n) <= Room(r)
    decreases r
  {
  }

  /** The entries of the tables below one of b bits, for n codes of at most m bits. */
  function Extra(b: nat, m: nat, n: nat): (r: nat) {
    if b < VLC_BITS || m <= VLC_BITS then 0 else Room(m - VLC_BITS) * n
  }

  /** A group's table and those below it take no more than the group's share. */
  lemma GroupRoom(bits: nat, m: nat, i: nat, n: nat)
    requires m > VLC_BITS && bits <= VLC_BITS && bits <= m - VLC_BITS && n > bits
    ensures Extra(VLC_BITS, m, i) + Pow2(bits) + Extra(bits, m - VLC_BITS, n) <= Extra(VLC_BITS, m, i + n)
  {
    var r := m - VLC_BITS;
    PerCodeEnough(bits, n);
    assert Room(r) * (i + n) == Room(r) * i + Room(r) * n;
    hide Pow2, PerCode;
    if bits < VLC_BITS {
      RoomMono(r, bits);
      ProductMono(PerCode(bits), Room(r), n);
    } else if r == VLC_BITS {
      ProductMono(PerCode(bits), Room(r), n);
    } else {
      assert (PerCode(bits) + Room(r - VLC_BITS)) * n == PerCode(bits) * n + Room(r - VLC_BITS) * n;
    }
  }

  lemma ExtraMono(b: nat, m: nat, i: nat, n: nat)
    requires i <= n
    ensures Extra(b, m, i) <= Extra(b, m, n)
  {
    if b >= VLC_BITS && m > VLC_BITS {
      ProductMono(i, n, Room(m - VLC_BITS));
    }
  }

  lemma GroupFull(codes: seq<VlcCode>, i: nat, k: nat, b: nat, j: nat)
    requires Good(codes, b) && Group(codes, i, k, b, j) && (k < |codes| ==> !InGroup(codes[k], b, j))
    requires Full(SetOf(codes))
    ensures Full(SetOf(Rests(codes[i..k], b))) && Unprefixed(SetOf(Rests(codes[i..k], b)))
  {
    var p := BitsOf(j, b);
    SubOfGroup(codes, i, k, b, j);
    NoneAfter(codes, i, k, b, j);
    assert InGroup(codes[i], b, j) && codes[i] in SetOf(codes);
    GroupLonger(codes[i], b, j);
    hide Full, Sub, InGroup, BitsOf, Rests, Arranged;
    FullSub(SetOf(codes), p, codes[i]);
    SubUnprefixed(SetOf(codes), p);
  }

  lemma NoneAfter(codes: seq<VlcCode>, i: nat, k: nat, b: nat, j: nat)
    requires Contiguous(codes, b) && Group(codes, i, k, b, j) && (k < |codes| ==> !InGroup(codes[k], b, j))
    ensures Sub(SetOf(codes), BitsOf(j, b)) == Sub(SetOf(codes[..k]), BitsOf(j, b))
  {
    var p := BitsOf(j, b);
    assert InGroup(codes[i], b, j);
    forall x | k <= x < |codes| ensures !InGroup(codes[x], b, j) {
    }
    forall c | c in SetOf(codes) && Longer(c, p) ensures c in SetOf(codes[..k]) {
      GroupLonger(c, b, j);
      var x :| 0 <= x < |codes| && codes[x] == c;
      assert codes[..k][x] == c;
    }
    assert forall c :: c in SetOf(codes[..k]) ==> c in SetOf(codes);
  }

  lemma GroupMany(codes: seq<VlcCode>, i: nat, k: nat, b: nat, j: nat, bits: nat)
    requires Good(codes, b) && Group(codes, i, k, b, j) && (k < |codes| ==> !InGroup(codes[k], b, j))
    requires Full(SetOf(codes)) && exists x :: i <= x < k && |codes[x].code| - b >= bits
    ensures k - i > bits
  {
    var x :| i <= x < k && |codes[x].code| - b >= bits;
    var r := Rests(codes[i..k], b);
    RestIn(codes, i, k, b, x);
    hide *;
    GroupFull(codes, i, k, b, j);
    ManyCodes(r, Rest(codes[x], b), bits);
  }

  lemma RestIn(codes: seq<VlcCode>, i: nat, k: nat, b: nat, x: nat)
    requires i <= x < k <= |codes| && |codes[x].code| >= b
    ensures Rest(codes[x], b) in Rests(codes[i..k], b) && |Rest(codes[x], b).code| == |codes[x].code| - b
    ensures |Rests(codes[i..k], b)| == k - i
  {
    assert codes[i..k][x - i] == codes[x];
    assert Rests(codes[i..k], b)[x - i] == Rest(codes[x], b);
  }

  ghost predicate Whole(codes: seq<VlcCode>, b: nat) {
    Good(codes, b) && Full(SetOf(codes))
  }

  lemma WholeGroup(t: seq<Entry>, base: nat, b: nat, codes: seq<VlcCode>, m: nat, i: nat, k: nat, j: nat, bits: nat)
    requires Building(t, base, b, codes, m, i) && Stretch(codes, i, k, b, j) && Whole(codes, b)
    requires (k < |codes| ==> !InGroup(codes[k], b, j)) && exists x :: i <= x < k && |codes[x].code| - b >= bits
    ensures Whole(Rests(codes[i..k], b), bits) && k - i > bits
  {
    assert Arranged(codes, b);
    hide Marks, Partly, Good, Rests, LongFirst, InGroup, Full, SetOf, Arranged, Stays, Apart;
    ArrangedGroup(codes, i, k, b, j);
    GroupGood(codes, i, k, b, j, bits);
    GroupFull(codes, i, k, b, j);
    GroupMany(codes, i, k, b, j, bits);
  }

  lemma WholeIsGood(codes: seq<VlcCode>, b: nat)
    ensures Whole(codes, b) ==> Good(codes, b)
  {
  }

  // ---- the codes in the order of ff_init_vlc_sparse ------------------------------------------

  predicate Selected(t: CodeTable, long: bool, x: nat)
    requires t.Valid() && x < |t.lens|
  {
    if long then t.lens[x] > VLC_BITS else 0 < t.lens[x] <= VLC_BITS
  }

  predicate Fine(t: CodeTable, x: nat)
    requires t.Valid() && x < |t.lens|
  {
    t.lens[x] <= MAX_LEN && t.bits[x] < Pow2(t.lens[x])
  }

  /** The codes among those of the first n symbols that are long, or those that are short. */
  ghost predicate Copied(t: CodeTable, long: bool, codes: seq<VlcCode>, n: nat)
    requires t.Valid() && n <= |t.lens|
  {
    forall c :: c in codes <==>
      c.symbol < n && c.code == t.Codeword(c.symbol) && Selected(t, long, c.symbol)
  }

  function Chosen(t: CodeTable, long: bool, n: nat): (k: nat)
    requires t.Valid() && n <= |t.lens|
  {
    if n == 0 then 0
    else Chosen(t, long, n - 1) + if Selected(t, long, n - 1) then 1 else 0
  }

  lemma {:induction false} ChosenOnce(t: CodeTable, n: nat)
    requires t.Valid() && n <= |t.lens|
    ensures Chosen(t, true, n) + Chosen(t, false, n) <= n
  {
    if n > 0 {
      ChosenOnce(t, n - 1);
    }
  }

  /** The macro COPY; false for a length or a codeword out of range. */
  method CopyCodes(t: CodeTable, long: bool) returns (ok: bool, codes: seq<VlcCode>)
    requires t.Valid()
    ensures ok <==> forall x :: 0 <= x < |t.lens| && Selected(t, long, x) ==> Fine(t, x)
    ensures ok ==> Copied(t, long, codes, |t.lens|) && |codes| == Chosen(t, long, |t.lens|)
  {
    codes := [];
    for x := 0 to |t.lens|
      invariant Copied(t, long, codes, x) && |codes| == Chosen(t, long, x)
      invariant forall y :: 0 <= y < x && Selected(t, long, y) ==> Fine(t, y)
    {
      if Selected(t, long, x) {
        if t.lens[x] > MAX_LEN || t.bits[x] >= Pow2(t.lens[x]) {
          assert Selected(t, long, x) && !Fine(t, x);
          return false, codes;
        }
        codes := codes + [VlcCode(t.Codeword(x), x)];
      }
    }
    ok := true;
  }

  lemma AllFine(t: CodeTable)
    requires t.Valid()
    requires forall x :: 0 <= x < |t.lens| && Selected(t, true, x) ==> Fine(t, x)
    requires forall x :: 0 <= x < |t.lens| && Selected(t, false, x) ==> Fine(t, x)
    ensures t.WellFormed()
  {
    forall x | 0 <= x < |t.lens| && t.lens[x] > 0 ensures t.lens[x] <= MAX_LEN && t.bits[x] < Pow2(t.lens[x]) {
      assert Selected(t, true, x) || Selected(t, false, x);
      assert Fine(t, x);
    }
  }

  function Insert(c: VlcCode, codes: seq<VlcCode>): (r: seq<VlcCode>) {
    if codes == [] || LexLe(c.code, codes[0].code) then [c] + codes else [codes[0]] + Insert(c, codes[1..])
  }

  /** The long codes in the order of their codewords, as qsort leaves them. */
  function SortCodes(codes: seq<VlcCode>): (r: seq<VlcCode>) {
    if codes == [] then [] else Insert(codes[0], SortCodes(codes[1..]))
  }

  lemma {:induction false} LexTotal(a: Bits, b: Bits)
    ensures LexLe(a, b) || LexLe(b, a)
    decreases |a|
  {
    if a != [] && b != [] {
      LexTotal(a[1..], b[1..]);
    }
  }

  lemma {:induction false} LexTrans(a: Bits, b: Bits, c: Bits)
    requires LexLe(a, b) && LexLe(b, c)
    ensures LexLe(a, c)
    decreases |a|
  {
    if a != [] && a[0] == b[0] == c[0] {
      LexTrans(a[1..], b[1..], c[1..]);
    }
  }

  lemma {:induction false} InsertSorts(c: VlcCode, codes: seq<VlcCode>)
    requires Sorted(codes)
    ensures Sorted(Insert(c, codes)) && forall d :: d in Insert(c, codes) <==> d == c || d in codes
    ensures |Insert(c, codes)| == |codes| + 1
    decreases |codes|
  {
    hide LexLe;
    if codes == [] {
    } else if LexLe(c.code, codes[0].code) {
      forall y | 0 <= y < |codes| ensures LexLe(c.code, codes[y].code) {
        if y > 0 {
          LexTrans(c.code, codes[0].code, codes[y].code);
        }
      }
    } else {
      LexTotal(c.code, codes[0].code);
      InsertSorts(c, codes[1..]);
      var rest := Insert(c, codes[1..]);
      assert codes == [codes[0]] + codes[1..];
      forall y | 0 <= y < |rest| ensures LexLe(codes[0].code, rest[y].code) {
        assert rest[y] in rest;
      }
    }
  }

  lemma {:induction false} SortSorts(codes: seq<VlcCode>)
    ensures Sorted(SortCodes(codes)) && forall d :: d in SortCodes(codes) <==> d in codes
    ensures |SortCodes(codes)| == |codes|
    decreases |codes|
  {
    hide Sorted;
    if codes == [] {
      NoneSorted();
    } else {
      SortSorts(codes[1..]);
      InsertSorts(codes[0], SortCodes(codes[1..]));
      assert codes == [codes[0]] + codes[1..];
    }
  }

  lemma NoneSorted()
    ensures Sorted([])
  {
  }

  /** The sorted long codes, and then the short ones. */
  ghost predicate Ordered(t: CodeTable, long: seq<VlcCode>, short: seq<VlcCode>)
    requires t.Valid()
  {
    Sorted(long) && Copied(t, true, long, |t.lens|) && Copied(t, false, short, |t.lens|)
  }

  lemma OrderedCodes(t: CodeTable, long: seq<VlcCode>, short: seq<VlcCode>)
    requires t.WellFormed() && Ordered(t, long, short)
    ensures SetOf(long + short) == CodesOf(t) && LongFirst(long + short, VLC_BITS)
    ensures Fit(long + short, VLC_BITS, MAX_LEN)
  {
    forall c ensures c in SetOf(long + short) <==> c in CodesOf(t) {
      InCodesOf(t, c);
    }
    forall c | c in CodesOf(t) ensures 1 <= |c.code| <= MAX_LEN {
      InCodesOf(t, c);
    }
    assert forall x :: 0 <= x < |long| ==> long[x] in long;
    assert forall x :: 0 <= x < |short| ==> short[x] in short;
    OrderedArranged(long, short);
    hide Arranged, Sorted;
  }

  lemma OrderedArranged(long: seq<VlcCode>, short: seq<VlcCode>)
    requires Sorted(long) && forall x :: 0 <= x < |short| ==> |short[x].code| <= VLC_BITS
    ensures Arranged(long + short, VLC_BITS)
  {
    var codes := long + short;
    hide LexLe;
    forall x, y, z, j: nat | 0 <= x < y < z < |codes| &&
                             InGroup(codes[x], VLC_BITS, j) && InGroup(codes[z], VLC_BITS, j)
      ensures InGroup(codes[y], VLC_BITS, j)
    {
      assert z < |long|;
      BetweenInGroup(codes[x], codes[y], codes[z], VLC_BITS, j);
    }
  }

  lemma OrderedGood(t: CodeTable, long: seq<VlcCode>, short: seq<VlcCode>)
    requires t.WellFormed() && PrefixFreeCodes(t) && Ordered(t, long, short)
    ensures Good(long + short, VLC_BITS)
  {
    OrderedCodes(t, long, short);
    CodesOfUnprefixed(t);
    hide CodesOf, SetOf, Arranged;
  }

  // ---- what init_vlc makes of a code table ----------------------------------------------

  /** Entries of their own for all codes at the top, and below for those of one level: there is no clash. */
  lemma MarksAccept(table: seq<Entry>, t: CodeTable)
    requires t.Valid() && Marks(table, 0, VLC_BITS, CodesOf(t)) && Apart(CodesOf(t))
    ensures !Refused(t)
  {
    hide Marks, CodesOf, Level, Comparable;
    forall s: nat, x: nat ensures !Clash(t, s, x) {
      if s != x && t.Coded(s) && t.Coded(x) {
        var c, d := VlcCode(t.Codeword(s), s), VlcCode(t.Codeword(x), x);
        InCodesOf(t, c);
        InCodesOf(t, d);
        if t.lens[s] <= VLC_BITS {
          MarksApart(table, 0, VLC_BITS, CodesOf(t), c, d);
        }
      }
    }
  }

  lemma {:induction false} HoldsMore(t: seq<Entry>, base: nat, b: nat, s: set<VlcCode>, m: nat, m': nat)
    requires Holds(t, base, b, s, m) && m <= m'
    ensures Holds(t, base, b, s, m')
    decreases m
  {
    hide Sub, Pow2, Short;
    forall j: nat | j < Pow2(b) ensures CellOk(t, base, b, s, m', j, -1) {
      CellIs(t, base, b, s, m, j);
      var e := t[base + j];
      if e.len < 0 {
        TableCell(t, base, b, s, m, j, -1);
        HoldsMore(t, e.symbol, -e.len, Sub(s, BitsOf(j, b)), m - b, m' - b);
      }
    }
  }

  /** Codes of few symbols, with few bits. */
  predicate Small(t: CodeTable) {
    t.Valid() && |t.lens| <= 512 && forall x :: 0 <= x < |t.lens| ==> t.lens[x] <= 22
  }

  lemma CompleteIsFull(t: CodeTable)
    requires Sound(t) && HasCodes(t)
    ensures Full(CodesOf(t))
  {
    forall stream: Bits ensures Hit(CodesOf(t), stream) {
      var padded := stream + seq(MAX_LEN, _ => false);
      assert SomeBegins(t, padded);
      var x: nat :| Begins(t, x, padded);
      NextBegins(t, x, stream);
      InCodesOf(t, VlcCode(t.Codeword(x), x));
    }
  }

  lemma SmallFit(t: CodeTable, codes: seq<VlcCode>)
    requires Small(t) && SetOf(codes) == CodesOf(t) && Arranged(codes, VLC_BITS)
    ensures Fit(codes, VLC_BITS, 22)
  {
    forall c | c in SetOf(codes) ensures 1 <= |c.code| <= 22 {
      InCodesOf(t, c);
    }
  }

  lemma SomeCode(t: CodeTable, codes: seq<VlcCode>)
    requires t.Valid() && SetOf(codes) == CodesOf(t) && codes != []
    ensures HasCodes(t)
  {
    assert codes[0] in SetOf(codes);
    InCodesOf(t, codes[0]);
  }

  lemma SmallRoom(n: nat)
    requires n <= 512
    ensures Pow2(VLC_BITS) + Extra(VLC_BITS, 22, n) < INDICES
  {
    assert Pow2(9) == 512 && Room(4) == 4 && Room(13) == 56;
  }

  /** Indices are stored in 16 bits with a sign. */
  const INDICES: nat := 0x8000

  /** Entries from base + first up to base + j were free and hold the code now; the others are as they were. */
  ghost predicate FilledTo(was: seq<Entry>, t: seq<Entry>, base: nat, first: nat, j: nat, c: VlcCode) {
    && |t| == |was|
    && (forall x :: 0 <= x < |was| ==>
          t[x] == if base + first <= x < base + j then Entry(c.symbol, |c.code|) else was[x])
    && forall x :: base + first <= x < base + j && x < |was| ==> Vacant(was[x], c)
  }

  lemma CellsOf(code: Bits, b: nat, first: nat, nb: nat)
    requires 1 <= |code| <= b && first == Number(code, b) && nb == Pow2(b - |code|)
    ensures first + nb <= Pow2(b)
    ensures forall was: seq<Entry>, base: nat, c: VlcCode :: FilledTo(was, was, base, first, first, c)
  {
    ShortCells(code, b, first);
    hide Number, Pow2, BitsOf;
  }

  lemma StillOld(was: seq<Entry>, t: seq<Entry>, base: nat, first: nat, j: nat, c: VlcCode)
    requires FilledTo(was, t, base, first, j, c) && first <= j && base + j < |t|
    ensures |was| == |t| && t[base + j] == was[base + j]
  {
  }

  lemma StillBefore(was: seq<Entry>, t: seq<Entry>, base: nat, first: nat, j: nat, c: VlcCode)
    requires FilledTo(was, t, base, first, j, c) && base <= |t|
    ensures |was| == |t| && t[..base] == was[..base]
  {
  }

  lemma FilledOne(was: seq<Entry>, t: seq<Entry>, base: nat, first: nat, j: nat, c: VlcCode)
    requires first <= j && base + j < |was| == |t| && t[base + j] == Entry(c.symbol, |c.code|)
    requires FilledTo(was, t[base + j := was[base + j]], base, first, j, c) && Vacant(was[base + j], c)
    ensures FilledTo(was, t, base, first, j + 1, c)
  {
    hide Vacant;
    var before := t[base + j := was[base + j]];
    assert forall x :: 0 <= x < |t| && x != base + j ==> t[x] == before[x];
  }

  lemma NotVacant(was: seq<Entry>, base: nat, b: nat, c: VlcCode, j: nat)
    requires |c.code| <= b && base + Pow2(b) <= |was|
    requires Number(c.code, b) <= j < Number(c.code, b) + Pow2(b - |c.code|) && base + j < |was|
    requires !Vacant(was[base + j], c)
    ensures !AllVacant(was, base, b, c)
  {
    ShortCells(c.code, b, Number(c.code, b));
    hide Number, Pow2, BitsOf, Vacant;
    ShortCells(c.code, b, j);
  }

  lemma FilledAll(was: seq<Entry>, t: seq<Entry>, base: nat, b: nat, c: VlcCode, first: nat, nb: nat)
    requires 1 <= |c.code| <= b && base + Pow2(b) <= |was|
    requires first == Number(c.code, b) && nb == Pow2(b - |c.code|) && FilledTo(was, t, base, first, first + nb, c)
    ensures t == WithCode(was, base, b, c) && AllVacant(was, base, b, c) && t[..base] == was[..base]
  {
    hide Number, Pow2, BitsOf, Vacant;
    forall j: nat | j < Pow2(b) ensures c.code <= BitsOf(j, b) <==> first <= j < first + nb {
      ShortCells(c.code, b, j);
    }
    ShortCells(c.code, b, first);
  }

  /** The codes from i on that go to the same table, and the most bits that are left of one. */
  method GroupEnd(codes: seq<VlcCode>, i: nat, b: nat) returns (k: nat, max: nat)
    requires i < |codes| && |codes[i].code| > b
    ensures Stretch(codes, i, k, b, Number(codes[i].code, b))
    ensures k < |codes| ==> !InGroup(codes[k], b, Number(codes[i].code, b))
    ensures 1 <= max && forall x :: i <= x < k ==> |codes[x].code| - b <= max
    ensures exists x :: i <= x < k && |codes[x].code| - b == max
  {
    var j := Number(codes[i].code, b);
    max := |codes[i].code| - b;
    k := i + 1;
    while k < |codes|
      invariant Stretch(codes, i, k, b, j)
      invariant 1 <= max && forall x :: i <= x < k ==> |codes[x].code| - b <= max
      invariant exists x :: i <= x < k && |codes[x].code| - b == max
    {
      if |codes[k].code| <= b || Number(codes[k].code, b) != j {
        return;
      }
      max := Max(max, |codes[k].code| - b);
      k := k + 1;
    }
  }

  class VLC {
    var table: seq<Entry>

    /** The entries that a code of at most b bits begins; false if one of them has been taken by another. */
    method FillCells(base: nat, b: nat, c: VlcCode) returns (ok: bool)
      requires 1 <= |c.code| <= b && base + Pow2(b) <= |table|
      modifies this
      ensures |table| == |old(table)| && table[..base] == old(table)[..base]
      ensures ok <==> AllVacant(old(table), base, b, c)
      ensures ok ==> table == WithCode(old(table), base, b, c)
    {
      var first, nb := Number(c.code, b), Pow2(b - |c.code|);
      ghost var was := table;
      CellsOf(c.code, b, first, nb);
      hide *;
      for j := first to first + nb
        invariant |table| == |was| && FilledTo(was, table, base, first, j, c)
      {
        var e := table[base + j];
        StillOld(was, table, base, first, j, c);
        if (e.len != 0 || e.symbol != 0) && (e.len != |c.code| || e.symbol != c.symbol) {
          NotVacant(was, base, b, c, j);
          StillBefore(was, table, base, first, j, c);
          return false;
        }
        table := table[base + j := Entry(c.symbol, |c.code|)];
        FilledOne(was, table, base, first, j, c);
      }
      ok := true;
      FilledAll(was, table, base, b, c, first, nb);
    }

    /** Entries that are still free get the symbol -1. */
    method Sweep(base: nat, b: nat)
      requires base + Pow2(b) <= |table|
      modifies this
      ensures Swept(old(table), table, base, b)
    {
      for j := 0 to Pow2(b)
        invariant |table| == |old(table)|
        invariant forall x :: 0 <= x < |table| ==>
                    table[x] == if base <= x < base + j && old(table)[x].len == 0 then Entry(-1, 0) else old(table)[x]
      {
        if table[base + j].len == 0 {
          table := table[base + j := Entry(-1, 0)];
        }
      }
    }

    /** The part of build_table for one group of long codes: their table, below the one at base. */
    method BuildBelow(base: nat, b: nat, codes: seq<VlcCode>, i: nat, ghost m: nat) returns (ok: bool, k: nat)
      requires Fit(codes, b, m) && i < |codes| && |codes[i].code| > b && base + Pow2(b) <= |table|
      requires Building(table, base, b, codes, m, i)
      requires Whole(codes, b) ==> |table| <= base + Pow2(b) + Extra(b, m, i)
      modifies this
      ensures base + Pow2(b) <= |table| && table[..base] == old(table)[..base]
      ensures ok ==> i < k <= |codes| && Building(table, base, b, codes, m, k)
      ensures Good(codes, b) && !ok ==> |table| > INDICES
      ensures Whole(codes, b) ==> |table| <= base + Pow2(b) + Extra(b, m, if ok then k else |codes|)
      decreases m, 0
    {
      hide Building, Good, Whole, LongFirst, Marks, Holds, SetOf, Rests, InGroup, Pow2, Extra, Apart, Arranged;
      FitMember(codes, b, m, i);
      WholeIsGood(codes, b);
      var j, max := Number(codes[i].code, b), 0;
      k, max := GroupEnd(codes, i, b);
      var bits: int := Min(max, b);
      GroupFit(codes, i, k, b, m, j, max);
      ghost var was := table;
      if Good(codes, b) {
        BuildingGood(table, base, b, codes, m, i, k, j, bits);
      }
      if Whole(codes, b) {
        WholeGroup(table, base, b, codes, m, i, k, j, bits);
        GroupRoom(bits, m, i, k - i);
        ExtraMono(b, m, k, |codes|);
      }
      table := table[base + j := Entry(table[base + j].symbol, -bits)];
      var index;
      ok, index := BuildTable(bits, Rests(codes[i..k], b), m - b);
      if !ok {
        return;
      }
      ghost var made := table;
      table := table[base + j := Entry(index, -bits)];
      if index >= INDICES {
        return false, k;
      }
      if Good(codes, b) {
        HoldsKept(made, table, index, index, bits, SetOf(Rests(codes[i..k], b)), m - b);
      }
      BuildingLong(was, table, base, b, codes, m, i, k, j, index, bits);
    }

    /**
     * build_table: appends a table of b bits, and those below it. False if two codes want
     * one entry, or an index does not fit.
     */
    method BuildTable(b: nat, codes: seq<VlcCode>, ghost m: nat) returns (ok: bool, base: nat)
      requires Fit(codes, b, m)
      modifies this
      ensures base == |old(table)| && old(table) <= table
      ensures ok ==> Apart(SetOf(codes)) && (LongFirst(codes, b) ==> Marks(table, base, b, SetOf(codes)))
      ensures (ok ==> base + Pow2(b) <= |table|) && (codes == [] ==> ok)
      ensures Good(codes, b) ==> if ok then Holds(table, base, b, SetOf(codes), m) else |table| > INDICES
      ensures Whole(codes, b) ==> |table| <= base + Pow2(b) + Extra(b, m, |codes|)
      decreases m, 1
    {
      hide Building, Good, Whole, LongFirst, Marks, Holds, SetOf, Rests, InGroup, Pow2, AllVacant, Extra, Apart;
      hide Arranged;
      base := |table|;
      table := table + seq(Pow2(b), _ => Entry(0, 0));
      BuildingStarts(table, base, b, codes, m);
      var i := 0;
      while i < |codes|
        invariant i <= |codes| && base + Pow2(b) <= |table|
        invariant old(table) <= table && Building(table, base, b, codes, m, i)
        invariant Whole(codes, b) ==> |table| <= base + Pow2(b) + Extra(b, m, i)
        decreases |codes| - i
      {
        var c := codes[i];
        FitMember(codes, b, m, i);
        WholeIsGood(codes, b);
        ExtraMono(b, m, i, |codes|);
        if |c.code| <= b {
          if Good(codes, b) {
            BuildingVacant(table, base, b, codes, m, i);
          }
          ghost var was := table;
          ok := FillCells(base, b, c);
          if !ok {
            return;
          }
          BuildingShort(was, base, b, codes, m, i);
          ExtraMono(b, m, i, i + 1);
          i := i + 1;
        } else {
          ok, i := BuildBelow(base, b, codes, i, m);
          if !ok {
            return;
          }
        }
      }
      ghost var full := table;
      Sweep(base, b);
      BuildingEnds(full, table, base, b, codes, m);
      ok := true;
    }

    /** The tables are those for this code table, which is prefix-free. */
    ghost predicate Decodes(t: CodeTable)
      reads this
    {
      t.WellFormed() && PrefixFreeCodes(t) && Holds(table, 0, VLC_BITS, CodesOf(t), MAX_LEN)
    }

    /** get_vlc2: at most three lookups, of VLC_BITS bits or fewer each. */
    method GetVlc2(stream: Bits, ghost t: CodeTable) returns (code: int, rest: Bits)
      requires Decodes(t)
      ensures code == Lookup(t, stream)
      ensures code >= 0 ==> code < |t.lens| && rest == Drop(stream, t.lens[code])
    {
      ghost var s, m: nat, taken: nat := CodesOf(t), MAX_LEN, 0;
      var base: nat, nb: nat, depth := 0, VLC_BITS, 3;
      StartsAt(table, t, stream);
      hide *;
      rest := stream;
      var e := table[base + Number(rest, nb)];
      while depth > 1 && e.len < 0
        invariant 1 <= depth <= 3 && m == VLC_BITS * depth
        invariant At(table, t, stream, base, nb, s, m, rest, taken)
        invariant base + Number(rest, nb) < |table| && e == table[base + Number(rest, nb)]
        decreases depth
      {
        GoesOn(table, t, stream, base, nb, s, m, rest, taken);
        s, m, taken := Sub(s, Padded(rest, nb)), m - VLC_BITS, taken + nb;
        rest := Drop(rest, nb);
        base, nb := e.symbol, -e.len;
        e := table[base + Number(rest, nb)];
        depth := depth - 1;
      }
      Ends(table, t, stream, base, nb, s, m, rest, taken, depth);
      rest := Drop(rest, e.len);
      code := e.symbol;
    }

    /**
     * init_vlc: false for a length or codeword out of range, and for a clash. For codes that
     * are prefix-free the tables decode them, unless the index of one does not fit.
     */
    method InitVlc(t: CodeTable) returns (ok: bool)
      requires t.Valid()
      modifies this
      ensures ok ==> t.WellFormed() && !Refused(t)
      ensures t.WellFormed() && PrefixFreeCodes(t) ==> if ok then Decodes(t) else |table| > INDICES
      ensures Sound(t) && Small(t) ==> ok
    {
      table := [];
      var long, short, base;
      ok, long := CopyCodes(t, true);
      if !ok {
        return;
      }
      SortSorts(long);
      long := SortCodes(long);
      ok, short := CopyCodes(t, false);
      if !ok {
        return;
      }
      AllFine(t);
      assert Ordered(t, long, short);
      ChosenOnce(t, |t.lens|);
      assert |long| + |short| <= |t.lens|;
      hide *;
      OrderedCodes(t, long, short);
      ghost var m := if Small(t) then 22 else MAX_LEN;
      if Small(t) {
        SmallFit(t, long + short);
      }
      ok, base := BuildTable(VLC_BITS, long + short, m);
      InitEnds(table, t, long, short, m, ok);
    }
  }

  lemma InitEnds(table: seq<Entry>, t: CodeTable, long: seq<VlcCode>, short: seq<VlcCode>, m: nat, ok: bool)
    requires t.WellFormed() && Ordered(t, long, short) && m == if Small(t) then 22 else MAX_LEN
    requires |long| + |short| <= |t.lens|
    requires var codes := long + short;
             && (ok ==> Apart(SetOf(codes)) &&
                        (LongFirst(codes, VLC_BITS) ==> Marks(table, 0, VLC_BITS, SetOf(codes))))
             && (codes == [] ==> ok)
             && (Good(codes, VLC_BITS) ==> if ok then Holds(table, 0, VLC_BITS, SetOf(codes), m) else |table| > INDICES)
             && (Whole(codes, VLC_BITS) ==> |table| <= Pow2(VLC_BITS) + Extra(VLC_BITS, m, |codes|))
    ensures ok ==> !Refused(t)
    ensures PrefixFreeCodes(t) ==> if ok then Holds(table, 0, VLC_BITS, CodesOf(t), MAX_LEN) else |table| > INDICES
    ensures Sound(t) && Small(t) ==> ok
  {
    var codes := long + short;
    OrderedCodes(t, long, short);
    if ok {
      MarksAccept(table, t);
    }
    if PrefixFreeCodes(t) {
      OrderedGood(t, long, short);
      if ok {
        HoldsMore(table, 0, VLC_BITS, SetOf(codes), m, MAX_LEN);
      }
    }
    if Sound(t) && Small(t) {
      SmallSucceeds(table, t, codes);
    }
    hide PrefixFreeCodes, Complete, Marks, Holds, CodesOf, SetOf, Good, LongFirst, Refused, Small;
  }

  lemma SmallSucceeds(table: seq<Entry>, t: CodeTable, codes: seq<VlcCode>)
    requires Sound(t) && Small(t) && SetOf(codes) == CodesOf(t) && Good(codes, VLC_BITS) && |codes| <= |t.lens|
    requires Whole(codes, VLC_BITS) ==> |table| <= Pow2(VLC_BITS) + Extra(VLC_BITS, 22, |codes|)
    ensures codes == [] || |table| <= INDICES
  {
    hide Good, SetOf, CodesOf, Full, Extra, Pow2;
    if codes != [] {
      SomeCode(t, codes);
      CompleteIsFull(t);
      SmallRoom(|codes|);
    }
  }
}
