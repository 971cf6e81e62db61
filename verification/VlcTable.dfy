/**
 * The tables that init_vlc makes, one below the other (bitstream.c), and the lookup in
 * them (get_bits.h, get_vlc2): the greedy decoding of a prefix-free code, a few bits at a
 * time.
 */
module VlcTable {
  import opened Binary
  import opened Vlc

  /** What is left of a symbol's codeword in a table. */
  datatype VlcCode = VlcCode(code: Bits, symbol: nat)

  /** VLC_TYPE[2]: a symbol and the length of its code; or a table and its bits, negated; or -1 and 0. */
  datatype Entry = Entry(symbol: int, len: int)

  // ---- bits with zeros past the end -----------------------------------------------------

  function Padded(bits: Bits, n: nat): (p: Bits)
    ensures |p| == n
  {
    if n <= |bits| then bits[..n] else bits + seq(n - |bits|, _ => false)
  }

  lemma {:induction false} NumberIsValue(bits: Bits, n: nat)
    ensures Number(bits, n) == Value(Padded(bits, n))
  {
    if n > 0 {
      NumberIsValue(bits, n - 1);
      assert Padded(bits, n)[..n - 1] == Padded(bits, n - 1);
    }
  }

  lemma NumberBits(bits: Bits, n: nat)
    ensures BitsOf(Number(bits, n), n) == Padded(bits, n)
  {
    NumberIsValue(bits, n);
    BitsOfValue(Padded(bits, n));
  }

  lemma PaddedDrop(bits: Bits, b: nat, n: nat)
    requires b <= n
    ensures Padded(bits, n) == Padded(bits, b) + Padded(Drop(bits, b), n - b)
  {
  }

  lemma PaddedTake(bits: Bits, b: nat, n: nat)
    requires b <= n
    ensures Padded(bits, b) == Padded(bits, n)[..b]
  {
  }

  lemma SameBits(i: nat, j: nat, b: nat)
    requires i < Pow2(b) && j < Pow2(b) && BitsOf(i, b) == BitsOf(j, b)
    ensures i == j
  {
    ValueOfBits(i, b);
    ValueOfBits(j, b);
  }

  /** The entries for a code of at most b bits are a stretch from its first one on. */
  lemma ShortCells(code: Bits, b: nat, j: nat)
    requires |code| <= b && j < Pow2(b)
    ensures Number(code, b) + Pow2(b - |code|) <= Pow2(b)
    ensures code <= BitsOf(j, b) <==> Number(code, b) <= j < Number(code, b) + Pow2(b - |code|)
  {
    hide *;
    var v, k := Value(code), b - |code|;
    BitsOfValue(code);
    PrefixIsShift(v, |code|, j, b);
    ShiftedTo(v, k, j);
    ShiftLeftFits(v, |code|, k);
    NumberIsValue(code, b);
    ValueShifted(code, k);
  }

  lemma {:induction false} ValueShifted(code: Bits, k: nat)
    ensures Value(Padded(code, |code| + k)) == ShiftLeft(Value(code), k)
  {
    if k > 0 {
      ValueShifted(code, k - 1);
      var p := Padded(code, |code| + k);
      assert p[..|p| - 1] == Padded(code, |code| + k - 1) && !p[|p| - 1];
    } else {
      assert Padded(code, |code|) == code;
    }
  }

  predicate Longer(c: VlcCode, p: Bits) {
    p < c.code
  }

  /** A code without its first n bits. */
  function Rest(c: VlcCode, n: nat): (r: VlcCode) {
    VlcCode(Drop(c.code, n), c.symbol)
  }

  // ---- the tables -----------------------------------------------------------------------

  /** The codes of more bits than p that begin with it, without it. */
  ghost function Sub(s: set<VlcCode>, p: Bits): (r: set<VlcCode>) {
    set c | c in s && Longer(c, p) :: Rest(c, |p|)
  }

  ghost predicate Short(s: set<VlcCode>, m: nat) {
    forall c :: c in s ==> 1 <= |c.code| <= m
  }

  ghost predicate Unprefixed(s: set<VlcCode>) {
    forall c, d :: c in s && d in s && c != d ==> !(c.code <= d.code)
  }

  /** Entry j of the table at base is right for these codes, of m bits at most; without one its symbol is `free`. */
  ghost predicate CellOk(t: seq<Entry>, base: nat, b: nat, s: set<VlcCode>, m: nat, j: nat, free: int)
    requires b >= 1 && base + Pow2(b) <= |t| && j < Pow2(b)
    decreases m, 0
  {
    var e, p := t[base + j], BitsOf(j, b);
    if e.len > 0 then exists c :: c in s && c.code <= p && e == Entry(c.symbol, |c.code|)
    else if e.len == 0 then e.symbol == free && forall c :: c in s ==> !Comparable(c.code, p)
    else
      && m > b && base + Pow2(b) <= e.symbol && (exists c :: c in s && Longer(c, p))
      && (-e.len == VLC_BITS || Short(Sub(s, p), -e.len))
      && Holds(t, e.symbol, -e.len, Sub(s, p), m - b)
  }

  ghost predicate Holds(t: seq<Entry>, base: nat, b: nat, s: set<VlcCode>, m: nat)
    decreases m, 1
  {
    && b >= 1 && base + Pow2(b) <= |t|
    && forall j: nat :: j < Pow2(b) ==> CellOk(t, base, b, s, m, j, -1)
  }

  lemma CellIs(t: seq<Entry>, base: nat, b: nat, s: set<VlcCode>, m: nat, j: nat)
    requires Holds(t, base, b, s, m) && j < Pow2(b)
    ensures CellOk(t, base, b, s, m, j, -1)
  {
  }

  /** What CellOk says of an entry for a table. */
  lemma TableCell(t: seq<Entry>, base: nat, b: nat, s: set<VlcCode>, m: nat, j: nat, free: int)
    requires b >= 1 && base + Pow2(b) <= |t| && j < Pow2(b)
    requires CellOk(t, base, b, s, m, j, free) && t[base + j].len < 0
    ensures var e, p := t[base + j], BitsOf(j, b);
            && m > b && base + Pow2(b) <= e.symbol && (exists c :: c in s && Longer(c, p))
            && (-e.len == VLC_BITS || Short(Sub(s, p), -e.len))
            && Holds(t, e.symbol, -e.len, Sub(s, p), m - b)
  {
    hide Sub, Pow2, Short;
  }

  /** A table depends on nothing before it, and on nothing that comes later. */
  lemma {:induction false} HoldsKept(t: seq<Entry>, t': seq<Entry>, from: nat, base: nat, b: nat, s: set<VlcCode>,
                                     m: nat)
    requires Holds(t, base, b, s, m) && from <= base
    requires |t| <= |t'| && forall x :: from <= x < |t| ==> t'[x] == t[x]
    ensures Holds(t', base, b, s, m)
    decreases m
  {
    hide Sub, Pow2, Short;
    forall j: nat | j < Pow2(b) ensures CellOk(t', base, b, s, m, j, -1) {
      CellIs(t, base, b, s, m, j);
      var e := t[base + j];
      if e.len < 0 {
        TableCell(t, base, b, s, m, j, -1);
        HoldsKept(t, t', from, e.symbol, -e.len, Sub(s, BitsOf(j, b)), m - b);
      }
    }
  }

  // ---- the lookup ------------------------------------------------------------------------

  predicate Next(c: VlcCode, stream: Bits) {
    c.code == Padded(stream, |c.code|)
  }

  /** The entry for a stream, in one table. */
  lemma StreamCell(t: seq<Entry>, base: nat, b: nat, s: set<VlcCode>, m: nat, stream: Bits)
    requires Holds(t, base, b, s, m)
    ensures b >= 1 && base + Pow2(b) <= |t|
    ensures CellOk(t, base, b, s, m, Number(stream, b), -1) && BitsOf(Number(stream, b), b) == Padded(stream, b)
  {
    NumberBits(stream, b);
    CellIs(t, base, b, s, m, Number(stream, b));
  }

  /** A symbol is found: its code comes next. */
  lemma SymbolNext(t: seq<Entry>, base: nat, b: nat, s: set<VlcCode>, m: nat, stream: Bits) returns (c: VlcCode)
    requires Holds(t, base, b, s, m) && t[base + Number(stream, b)].len > 0
    ensures c in s && Next(c, stream) && t[base + Number(stream, b)] == Entry(c.symbol, |c.code|)
  {
    StreamCell(t, base, b, s, m, stream);
    var e, p := t[base + Number(stream, b)], Padded(stream, b);
    hide Holds, Padded, Number, Pow2;
    c :| c in s && c.code <= p && e == Entry(c.symbol, |c.code|);
    ShortNext(c, stream, b);
  }

  /** Nothing is found: no code comes next. */
  lemma NothingNext(t: seq<Entry>, base: nat, b: nat, s: set<VlcCode>, m: nat, stream: Bits)
    requires Holds(t, base, b, s, m) && t[base + Number(stream, b)].len == 0
    ensures t[base + Number(stream, b)].symbol == -1 && forall c :: c in s ==> !Next(c, stream)
  {
    StreamCell(t, base, b, s, m, stream);
    hide Holds, Padded, Number, Pow2, Next;
    forall c | c in s ensures !Next(c, stream) {
      if Next(c, stream) {
        NextComparable(c, stream, b);
      }
    }
  }

  /** Another table is found: the code that comes next is in it, with the bits after these. */
  lemma TableNext(t: seq<Entry>, base: nat, b: nat, s: set<VlcCode>, m: nat, stream: Bits)
    requires Holds(t, base, b, s, m) && Unprefixed(s) && t[base + Number(stream, b)].len < 0
    ensures var e, p := t[base + Number(stream, b)], Padded(stream, b);
            && m > b && e.symbol >= 0 && Holds(t, e.symbol, -e.len, Sub(s, p), m - b)
            && (-e.len == VLC_BITS || Short(Sub(s, p), -e.len)) && (exists c :: c in s && Longer(c, p))
            && forall c :: c in s && Next(c, stream) ==>
                 Longer(c, p) && Next(Rest(c, b), Drop(stream, b))
  {
    hide *;
    StreamCell(t, base, b, s, m, stream);
    TableCell(t, base, b, s, m, Number(stream, b), -1);
    var p := Padded(stream, b);
    var d :| d in s && Longer(d, p);
    forall c | c in s && Next(c, stream)
      ensures Longer(c, p) && Next(Rest(c, b), Drop(stream, b))
    {
      LongerNext(s, c, d, stream, b);
    }
  }

  /** Beside a longer code d no code that comes next can be short. */
  lemma LongerNext(s: set<VlcCode>, c: VlcCode, d: VlcCode, stream: Bits, b: nat)
    requires Unprefixed(s) && c in s && d in s && Longer(d, Padded(stream, b)) && Next(c, stream)
    ensures Longer(c, Padded(stream, b)) && Next(Rest(c, b), Drop(stream, b))
  {
    var p := Padded(stream, b);
    hide Padded, Next, Drop;
    NextComparable(c, stream, b);
    if c.code <= p {
      assert c.code <= d.code;
    }
    LongNext(c, stream, b);
  }

  lemma NextComparable(c: VlcCode, stream: Bits, b: nat)
    requires Next(c, stream)
    ensures Comparable(c.code, Padded(stream, b))
  {
    if |c.code| <= b {
      PaddedTake(stream, |c.code|, b);
    } else {
      PaddedTake(stream, b, |c.code|);
    }
  }

  lemma ShortNext(c: VlcCode, stream: Bits, b: nat)
    requires c.code <= Padded(stream, b)
    ensures Next(c, stream)
  {
    PaddedTake(stream, |c.code|, b);
  }

  lemma LongNext(c: VlcCode, stream: Bits, b: nat)
    requires Longer(c, Padded(stream, b)) && Next(c, stream)
    ensures Next(Rest(c, b), Drop(stream, b))
  {
    PaddedDrop(stream, b, |c.code|);
  }

  lemma SubUnprefixed(s: set<VlcCode>, p: Bits)
    requires Unprefixed(s)
    ensures Unprefixed(Sub(s, p))
  {
    forall c, d | c in Sub(s, p) && d in Sub(s, p) && c != d ensures !(c.code <= d.code) {
      assert VlcCode(p + c.code, c.symbol) in s && VlcCode(p + d.code, d.symbol) in s by {
        InSub(s, p, c);
        InSub(s, p, d);
      }
      assert c.code <= d.code ==> p + c.code <= p + d.code;
    }
  }

  lemma InSub(s: set<VlcCode>, p: Bits, c: VlcCode)
    ensures c in Sub(s, p) <==> c.code != [] && VlcCode(p + c.code, c.symbol) in s
  {
    var d := VlcCode(p + c.code, c.symbol);
    assert Drop(d.code, |p|) == c.code;
    assert c.code != [] ==> Longer(d, p) && Rest(d, |p|) == c;
    if c in Sub(s, p) {
      var d' :| d' in s && Longer(d', p) && c == Rest(d', |p|);
      assert d'.code == p + c.code;
    }
  }

  /** The symbol whose code comes next and the length of the code; -1 if there is none. */
  ghost predicate Answers(s: set<VlcCode>, stream: Bits, e: Entry) {
    if e.symbol < 0 then e.symbol == -1 && forall c :: c in s ==> !Next(c, stream)
    else exists c :: c in s && Next(c, stream) && e == Entry(c.symbol, |c.code|)
  }

  lemma CellAnswers(t: seq<Entry>, base: nat, b: nat, s: set<VlcCode>, m: nat, stream: Bits)
    requires Holds(t, base, b, s, m) && t[base + Number(stream, b)].len >= 0
    ensures Answers(s, stream, t[base + Number(stream, b)])
  {
    if t[base + Number(stream, b)].len > 0 {
      var c := SymbolNext(t, base, b, s, m, stream);
    } else {
      NothingNext(t, base, b, s, m, stream);
    }
  }

  /** The answer of the table for the bits that follow, with the bits before them. */
  lemma TableAnswers(t: seq<Entry>, base: nat, b: nat, s: set<VlcCode>, m: nat, stream: Bits, e: Entry)
    requires Holds(t, base, b, s, m) && Unprefixed(s) && t[base + Number(stream, b)].len < 0
    requires Answers(Sub(s, Padded(stream, b)), Drop(stream, b), e)
    ensures Answers(s, stream, if e.symbol < 0 then e else Entry(e.symbol, b + e.len))
  {
    hide *;
    TableNext(t, base, b, s, m, stream);
    LongAnswers(b, s, stream, e);
  }

  lemma LongAnswers(b: nat, s: set<VlcCode>, stream: Bits, e: Entry)
    requires Answers(Sub(s, Padded(stream, b)), Drop(stream, b), e)
    requires forall c :: c in s && Next(c, stream) ==> Longer(c, Padded(stream, b)) && Next(Rest(c, b), Drop(stream, b))
    ensures Answers(s, stream, if e.symbol < 0 then e else Entry(e.symbol, b + e.len))
  {
    var p, after := Padded(stream, b), Drop(stream, b);
    if e.symbol < 0 {
      forall c | c in s ensures !Next(c, stream) {
        assert Longer(c, p) ==> Rest(c, b) in Sub(s, p);
      }
    } else {
      var c :| c in Sub(s, p) && Next(c, after) && e == Entry(c.symbol, |c.code|);
      InSub(s, p, c);
      PaddedDrop(stream, b, b + |c.code|);
      var d := VlcCode(p + c.code, c.symbol);
      assert d in s && Next(d, stream) && Entry(d.symbol, |d.code|) == Entry(e.symbol, b + e.len);
    }
  }

  // ---- the codes of a code table ------------------------------------------------------------

  ghost function CodesOf(t: CodeTable): (s: set<VlcCode>)
    requires t.Valid()
  {
    set x: nat | x < |t.lens| && t.Coded(x) :: VlcCode(t.Codeword(x), x)
  }

  lemma InCodesOf(t: CodeTable, c: VlcCode)
    requires t.Valid()
    ensures c in CodesOf(t) <==> t.Coded(c.symbol) && c.code == t.Codeword(c.symbol)
  {
    if t.Coded(c.symbol) && c.code == t.Codeword(c.symbol) {
      assert c == VlcCode(t.Codeword(c.symbol), c.symbol);
    }
  }

  lemma CodesOfUnprefixed(t: CodeTable)
    requires t.Valid() && PrefixFreeCodes(t)
    ensures Unprefixed(CodesOf(t))
  {
    forall c, d | c in CodesOf(t) && d in CodesOf(t) && c != d ensures !(c.code <= d.code) {
      InCodesOf(t, c);
      InCodesOf(t, d);
    }
  }

  lemma NextBegins(t: CodeTable, x: nat, stream: Bits)
    requires t.WellFormed() && t.Coded(x)
    ensures Next(VlcCode(t.Codeword(x), x), stream) <==> Begins(t, x, stream + seq(MAX_LEN, _ => false))
  {
    var n := t.lens[x];
    assert Padded(stream, n) == (stream + seq(MAX_LEN, _ => false))[..n];
  }

  /** The answer for the codes of a code table is the greedy lookup. */
  lemma AnswersLookup(t: CodeTable, stream: Bits, e: Entry)
    requires t.WellFormed() && PrefixFreeCodes(t) && Answers(CodesOf(t), stream, e)
    ensures e.symbol == Lookup(t, stream) && (e.symbol >= 0 ==> e.len == t.lens[e.symbol])
  {
    var padded := stream + seq(MAX_LEN, _ => false);
    var r := FirstMatch(t, padded, 0);
    if r >= 0 {
      NextBegins(t, r, stream);
      InCodesOf(t, VlcCode(t.Codeword(r), r));
    }
    if e.symbol >= 0 {
      var c :| c in CodesOf(t) && Next(c, stream) && e == Entry(c.symbol, |c.code|);
      InCodesOf(t, c);
      NextBegins(t, c.symbol, stream);
      if r != c.symbol {
        PrefixesComparable(t.Codeword(r), t.Codeword(c.symbol), padded);
      }
    }
  }

  // ---- three levels --------------------------------------------------------------------------

  lemma HoldsRange(t: seq<Entry>, base: nat, b: nat, s: set<VlcCode>, m: nat, stream: Bits)
    requires Holds(t, base, b, s, m)
    ensures 1 <= b && base + Number(stream, b) < |t|
  {
  }

  /** A table of fewer than VLC_BITS bits has no other table in it. */
  lemma NarrowIsLast(t: seq<Entry>, base: nat, b: nat, s: set<VlcCode>, m: nat, stream: Bits)
    requires Holds(t, base, b, s, m) && (b == VLC_BITS || Short(s, b))
    requires base + Number(stream, b) < |t| && t[base + Number(stream, b)].len < 0
    ensures b == VLC_BITS && m > VLC_BITS
  {
    StreamCell(t, base, b, s, m, stream);
    TableCell(t, base, b, s, m, Number(stream, b), -1);
    var c :| c in s && Longer(c, BitsOf(Number(stream, b), b));
    hide *;
    LongerIsLong(c, BitsOf(Number(stream, b), b));
    ShortMember(s, b, c);
  }

  lemma LongerIsLong(c: VlcCode, p: Bits)
    requires Longer(c, p)
    ensures |c.code| > |p|
  {
  }

  lemma ShortMember(s: set<VlcCode>, m: nat, c: VlcCode)
    ensures Short(s, m) && c in s ==> 1 <= |c.code| <= m
  {
  }

  /** With the first bits taken: an answer for the rest of the stream is one for the whole. */
  ghost predicate Carries(s: set<VlcCode>, rest: Bits, all: set<VlcCode>, stream: Bits, taken: nat) {
    forall e: Entry :: Answers(s, rest, e) ==> Answers(all, stream, Later(e, taken))
  }

  function Later(e: Entry, taken: nat): (r: Entry) {
    if e.symbol < 0 then e else Entry(e.symbol, taken + e.len)
  }

  lemma CarriesAll(s: set<VlcCode>, stream: Bits)
    ensures Carries(s, stream, s, stream, 0)
  {
    forall e: Entry | Answers(s, stream, e) ensures Answers(s, stream, Later(e, 0)) {
      assert Later(e, 0) == e;
    }
  }

  lemma CarriesOn(t: seq<Entry>, base: nat, b: nat, s: set<VlcCode>, m: nat, rest: Bits,
                  all: set<VlcCode>, stream: Bits, taken: nat)
    requires Carries(s, rest, all, stream, taken) && Holds(t, base, b, s, m) && Unprefixed(s)
    requires base + Number(rest, b) < |t| && t[base + Number(rest, b)].len < 0
    ensures Carries(Sub(s, Padded(rest, b)), Drop(rest, b), all, stream, taken + b)
  {
    hide Answers, Holds, Unprefixed, Sub, Padded, Number;
    forall e: Entry | Answers(Sub(s, Padded(rest, b)), Drop(rest, b), e)
      ensures Answers(all, stream, Later(e, taken + b))
    {
      TableAnswers(t, base, b, s, m, rest, e);
      assert Answers(s, rest, Later(e, b));
      assert Later(Later(e, b), taken) == Later(e, taken + b);
    }
  }

  lemma DropDrop(bits: Bits, i: nat, j: nat)
    ensures Drop(Drop(bits, i), j) == Drop(bits, i + j)
  {
  }

  /** The lookup has taken some bits, and stands before the table for these codes. */
  ghost predicate At(table: seq<Entry>, t: CodeTable, stream: Bits, base: nat, nb: nat, s: set<VlcCode>, m: nat,
                     rest: Bits, taken: nat)
  {
    && t.WellFormed() && PrefixFreeCodes(t)
    && Holds(table, base, nb, s, m) && Unprefixed(s) && (nb == VLC_BITS || Short(s, nb))
    && rest == Drop(stream, taken) && Carries(s, rest, CodesOf(t), stream, taken)
  }

  lemma StartsAt(table: seq<Entry>, t: CodeTable, stream: Bits)
    requires t.WellFormed() && PrefixFreeCodes(t) && Holds(table, 0, VLC_BITS, CodesOf(t), MAX_LEN)
    ensures At(table, t, stream, 0, VLC_BITS, CodesOf(t), MAX_LEN, stream, 0)
    ensures Number(stream, VLC_BITS) < |table|
  {
    HoldsRange(table, 0, VLC_BITS, CodesOf(t), MAX_LEN, stream);
    hide Holds, Unprefixed, Carries, CodesOf;
    CodesOfUnprefixed(t);
    CarriesAll(CodesOf(t), stream);
    DropNone(stream);
  }

  lemma GoesOn(table: seq<Entry>, t: CodeTable, stream: Bits, base: nat, nb: nat, s: set<VlcCode>, m: nat,
               rest: Bits, taken: nat)
    requires At(table, t, stream, base, nb, s, m, rest, taken)
    requires base + Number(rest, nb) < |table| && table[base + Number(rest, nb)].len < 0
    ensures var e := table[base + Number(rest, nb)];
            && nb == VLC_BITS < m && e.symbol >= 0
            && At(table, t, stream, e.symbol, -e.len, Sub(s, Padded(rest, nb)), m - VLC_BITS, Drop(rest, nb),
                  taken + nb)
            && e.symbol + Number(Drop(rest, nb), -e.len) < |table|
  {
    hide Holds, Unprefixed, Short, Carries, Number, Padded, Sub, CodesOf;
    NarrowIsLast(table, base, nb, s, m, rest);
    TableNext(table, base, nb, s, m, rest);
    CarriesOn(table, base, nb, s, m, rest, CodesOf(t), stream, taken);
    SubUnprefixed(s, Padded(rest, nb));
    DropDrop(stream, taken, nb);
    var e := table[base + Number(rest, nb)];
    HoldsRange(table, e.symbol, -e.len, Sub(s, Padded(rest, nb)), m - nb, Drop(rest, nb));
  }

  lemma AnswersFound(t: CodeTable, s: set<VlcCode>, rest: Bits, stream: Bits, e: Entry, taken: nat)
    requires t.WellFormed() && PrefixFreeCodes(t) && Carries(s, rest, CodesOf(t), stream, taken) && Answers(s, rest, e)
    ensures e.symbol == Lookup(t, stream) && (e.symbol >= 0 ==> taken + e.len == t.lens[e.symbol])
  {
    hide Answers, CodesOf, Lookup, PrefixFreeCodes;
    AnswersLookup(t, stream, Later(e, taken));
  }

  /** There is no fourth level, and the entry is the answer. */
  lemma Ends(table: seq<Entry>, t: CodeTable, stream: Bits, base: nat, nb: nat, s: set<VlcCode>, m: nat,
             rest: Bits, taken: nat, depth: int)
    requires At(table, t, stream, base, nb, s, m, rest, taken) && base + Number(rest, nb) < |table|
    requires 1 <= depth && m == VLC_BITS * depth && (table[base + Number(rest, nb)].len < 0 ==> depth == 1)
    ensures var e := table[base + Number(rest, nb)];
            && e.len >= 0 && e.symbol == Lookup(t, stream)
            && (e.symbol >= 0 ==> e.symbol < |t.lens| && Drop(rest, e.len) == Drop(stream, t.lens[e.symbol]))
  {
    hide Holds, Unprefixed, Short, Carries, Number, CodesOf, Lookup, Answers, Drop;
    var e := table[base + Number(rest, nb)];
    if e.len < 0 {
      NarrowIsLast(table, base, nb, s, m, rest);
      assert false;
    }
    CellAnswers(table, base, nb, s, m, rest);
    AnswersFound(t, s, rest, stream, e, taken);
    DropDrop(stream, taken, e.len);
  }
}
