/**
 * Intra blocks of the 4X Movie decoder (4xm.c, decode_i_block and decode_i_mb):
 * run/size symbols from one stream, magnitude bits from another, and one DC
 * predictor for all blocks. The partner is the coder of ITU-T T.81 section F.1.2.
 */
module IBlock {
  import opened Arithmetic
  import opened Binary
  import opened Wrappers

  /** The symbols still to come from the prefix stream, and the unread magnitude bits. */
  datatype Source = Source(symbols: seq<nat>, bits: seq<bool>)

  /** What stays fixed: zigzag order, dequantiser, and what a lookup in an exhausted prefix stream yields. */
  datatype Tables = Tables(zigzag: seq<nat>, dequant: seq<int>, pad: int) {
    predicate Valid() {
      |zigzag| == |dequant| == 64 && forall k :: 0 <= k < 64 ==> zigzag[k] < 64
    }
  }

  /** The smallest entry of the decoder's dequant_table. */
  const MIN_DEQUANT: int := 8

  ghost predicate GoodTables(t: Tables) {
    && t.Valid() && t.pad >= 0
    && t.zigzag[0] == 0
    && (forall i, k :: 0 <= i < 64 && 0 <= k < 64 && i != k ==> t.zigzag[i] != t.zigzag[k])
    && (forall j :: 0 <= j < 64 ==> t.dequant[j] >= MIN_DEQUANT)
  }

  /** Storing in an int16_t. */
  function Int16(v: int): (w: int)
    ensures -32768 <= w < 32768
    ensures -32768 <= v < 32768 ==> w == v
  {
    (v + 32768) % 65536 - 32768
  }

  // ---- bits ---------------------------------------------------------------------

  /** get_xbits: the EXTEND procedure of T.81 section F.2.2.1. */
  function XBits(bits: seq<bool>, n: nat): (r: int)
    requires n >= 1
  {
    var v := Number(bits, n);
    if v >= Pow2(n - 1) then v else v - (Pow2(n) - 1)
  }

  /** The number of bits of a magnitude (T.81 table F.1). */
  function Category(v: int): (n: nat)
    ensures n == 0 <==> v == 0
    decreases if v < 0 then -v else v
  {
    if v == 0 then 0 else 1 + Category(if v < 0 then -(-v / 2) else v / 2)
  }

  lemma {:induction false} CategoryBounds(v: int)
    requires v != 0
    ensures var m := if v < 0 then -v else v; Pow2(Category(v) - 1) <= m < Pow2(Category(v))
    decreases if v < 0 then -v else v
  {
    var m := if v < 0 then -v else v;
    if m == 1 {
      assert Category(v) == 1;
    } else {
      CategoryBounds(if v < 0 then -(-v / 2) else v / 2);
    }
  }

  /** The magnitude bits of a value: itself, or its ones' complement when negative. */
  function Magnitude(v: int): (bits: seq<bool>)
    ensures |bits| == Category(v)
  {
    var n := Category(v);
    if v == 0 then []
    else
      CategoryBounds(v);
      BitsOf(if v > 0 then v else v + (Pow2(n) - 1), n)
  }

  lemma MagnitudeExtends(v: int, rest: seq<bool>)
    requires v != 0
    ensures XBits(Magnitude(v) + rest, Category(v)) == v
    ensures Drop(Magnitude(v) + rest, Category(v)) == rest
  {
    CategoryBounds(v);
    NumberOfBits(if v > 0 then v else v + (Pow2(Category(v)) - 1), Category(v), rest);
    assert Pow2(Category(v)) == 2 * Pow2(Category(v) - 1);
  }

  /** Values below 2^15 need at most 15 bits, so their category fits in half a byte. */
  lemma CategorySmall(v: int)
    requires -32768 < v < 32768
    ensures Category(v) <= 15
  {
    assert Pow2(5) == 32 && Pow2(10) == 1024 && Pow2(15) == 32768;
    if v != 0 && Category(v) > 15 {
      CategoryBounds(v);
      Pow2Mono(15, Category(v) - 1);
    }
  }

  // ---- decoding ---------------------------------------------------------------------

  /** Only a prefix code without codewords makes lookups fail, and then all of them do. */
  predicate Readable(t: Tables, src: Source) {
    t.pad < 0 ==> src.symbols == []
  }

  function NextSymbol(t: Tables, src: Source): (r: (int, Source))
    ensures t.pad >= 0 ==> r.0 >= 0
  {
    if src.symbols == [] then (t.pad, src) else (src.symbols[0], src.(symbols := src.symbols[1..]))
  }

  /** A decoded block with the sources after it, or None for malformed data. */
  type Decoded = Option<(seq<int>, Source)>

  /** The AC coefficients from zigzag position `i` on; with a failing lookup the position would not grow. */
  function DecodeAc(t: Tables, src: Source, i: nat, block: seq<int>): (r: Decoded)
    requires t.Valid() && t.pad >= 0 && |block| == 64
    decreases 64 - i
  {
    var (code, src1) := NextSymbol(t, src);
    if code == 0 then Some((block, src1))
    else if code == 0xf0 then
      if i + 16 >= 64 then Some((block, src1)) else DecodeAc(t, src1, i + 16, block)
    else if code % 16 == 0 then None
    else
      var level := XBits(src1.bits, code % 16);
      var src2 := src1.(bits := Drop(src1.bits, code % 16));
      var i' := i + code / 16;
      if i' >= 64 then Some((block, src2))
      else
        var j := t.zigzag[i'];
        var block' := block[j := Int16(level * t.dequant[j])];
        if i' + 1 >= 64 then Some((block', src2)) else DecodeAc(t, src2, i' + 1, block')
  }

  /** The new value of the DC predictor, or None. */
  function DecodeDc(t: Tables, src: Source, lastDc: int): (r: Option<(int, Source)>)
    requires |t.dequant| == 64
    ensures r.Some? && Readable(t, src) ==> t.pad >= 0
  {
    if |src.bits| < 2 then None
    else
      var (code, src1) := NextSymbol(t, src);
      if code / 16 != 0 then None
      else
        var diff := if code == 0 then 0 else XBits(src1.bits, code);
        Some((Int16(diff * t.dequant[0] + lastDc), src1.(bits := Drop(src1.bits, code))))
  }

  function Zeros(): (z: seq<int>)
    ensures |z| == 64
  {
    seq(64, _ => 0)
  }

  /** A block, the predictor after it, which is its DC coefficient, and the sources after it. */
  function DecodeBlock(t: Tables, src: Source, lastDc: int): (r: Option<(seq<int>, int, Source)>)
    requires t.Valid() && Readable(t, src)
    ensures r.Some? ==> t.pad >= 0
  {
    match DecodeDc(t, src, lastDc)
    case None => None
    case Some((dc, src1)) =>
      match DecodeAc(t, src1, 1, Zeros()[0 := dc])
      case None => None
      case Some((block, src2)) => Some((block, dc, src2))
  }

  /** `n` blocks in a row. */
  function DecodeBlocks(t: Tables, src: Source, lastDc: int, n: nat): (r: Option<(seq<seq<int>>, Source)>)
    requires t.Valid() && Readable(t, src)
    decreases n
  {
    if n == 0 then Some(([], src))
    else
      match DecodeBlock(t, src, lastDc)
      case None => None
      case Some((block, dc, src2)) =>
        match DecodeBlocks(t, src2, dc, n - 1)
        case None => None
        case Some((blocks, src3)) => Some(([block] + blocks, src3))
  }

  // ---- coding ----------------------------------------------------------------------------

  function Repeat(symbol: nat, n: nat): (r: seq<nat>) {
    if n == 0 then [] else [symbol] + Repeat(symbol, n - 1)
  }

  /** The AC coefficients from zigzag position `i` on, after `run` zeros (T.81 section F.1.2.2). */
  function EncodeAc(q: seq<int>, i: nat, run: nat): (s: Source)
    requires |q| == 64 && run <= i <= 64
    decreases 64 - i
  {
    if i == 64 then Source(if run > 0 then [0] else [], [])
    else if q[i] == 0 then EncodeAc(q, i + 1, run + 1)
    else
      var rest := EncodeAc(q, i + 1, 0);
      Source(Repeat(0xf0, run / 16) + [run % 16 * 16 + Category(q[i])] + rest.symbols, Magnitude(q[i]) + rest.bits)
  }

  /** A block in zigzag order, its DC coefficient as the difference to `pred` (T.81 section F.1.2.1). */
  function EncodeBlock(q: seq<int>, pred: int): (r: Source)
    requires |q| == 64
  {
    var ac := EncodeAc(q, 1, 0);
    Source([Category(q[0] - pred)] + ac.symbols, Magnitude(q[0] - pred) + ac.bits)
  }

  function EncodeBlocks(qs: seq<seq<int>>, pred: int): (r: Source)
    requires forall k :: 0 <= k < |qs| ==> |qs[k]| == 64
  {
    if qs == [] then Source([], [])
    else
      var b, rest := EncodeBlock(qs[0], pred), EncodeBlocks(qs[1..], qs[0][0]);
      Source(b.symbols + rest.symbols, b.bits + rest.bits)
  }

  function Append(s: Source, tail: Source): (r: Source) {
    Source(s.symbols + tail.symbols, s.bits + tail.bits)
  }

  // ---- round trip ----------------------------------------------------------------------------

  /** Every coefficient times its dequantiser entry fits in 16 bits. */
  ghost predicate Representable(t: Tables, q: seq<int>)
    requires GoodTables(t)
  {
    |q| == 64 && forall k :: 0 <= k < 64 ==> -32768 <= q[k] * t.dequant[t.zigzag[k]] < 32768
  }

  /** The block with the coefficients from zigzag position `i` on put in place. */
  function Place(t: Tables, q: seq<int>, i: nat, block: seq<int>): (r: seq<int>)
    requires t.Valid() && |q| == |block| == 64 && i <= 64
    ensures |r| == 64
    decreases 64 - i
  {
    if i == 64 then block
    else if q[i] == 0 then Place(t, q, i + 1, block)
    else Place(t, q, i + 1, block[t.zigzag[i] := Int16(q[i] * t.dequant[t.zigzag[i]])])
  }

  /** What the block should be: every coefficient times its dequantiser entry, in natural order. */
  ghost predicate Dequantised(t: Tables, q: seq<int>, block: seq<int>)
    requires GoodTables(t) && |q| == 64
  {
    |block| == 64 && forall k :: 0 <= k < 64 ==> block[t.zigzag[k]] == q[k] * t.dequant[t.zigzag[k]]
  }

  lemma ProductBound(q: int, d: int)
    requires d >= MIN_DEQUANT && -32768 <= q * d < 32768
    ensures -4096 <= q <= 4095
  {
    if q > 4095 {
      ProductMono(4096, q, d);
    } else if q < -4096 {
      ProductMono(q, -4097, d);
    }
  }

  /** A zero run of 16 goes on, if anything can follow it. */
  lemma SkipsRun(t: Tables, src: Source, rest: Source, i: nat, block: seq<int>)
    requires GoodTables(t) && |block| == 64 && i + 16 < 64 && NextSymbol(t, src) == (0xf0, rest)
    ensures DecodeAc(t, src, i, block) == DecodeAc(t, rest, i + 16, block)
  {
    hide GoodTables, NextSymbol;
  }

  lemma NextRepeated(t: Tables, symbol: nat, n: nat, src: Source)
    requires n > 0
    ensures NextSymbol(t, Source(Repeat(symbol, n) + src.symbols, src.bits)) ==
            (symbol, Source(Repeat(symbol, n - 1) + src.symbols, src.bits))
  {
    var all := Repeat(symbol, n) + src.symbols;
    assert all[1..] == Repeat(symbol, n - 1) + src.symbols;
  }

  /** Decoding `n` skips of sixteen zeros. */
  lemma {:induction false} SkipsRuns(t: Tables, src: Source, n: nat, i: nat, block: seq<int>)
    requires GoodTables(t) && |block| == 64 && i + 16 * n < 64
    ensures DecodeAc(t, Source(Repeat(0xf0, n) + src.symbols, src.bits), i, block) ==
            DecodeAc(t, src, i + 16 * n, block)
    decreases n
  {
    hide DecodeAc, NextSymbol, GoodTables;
    var s := Source(Repeat(0xf0, n) + src.symbols, src.bits);
    if n == 0 {
      assert s == src;
    } else {
      NextRepeated(t, 0xf0, n, src);
      hide *;
      SkipsRun(t, s, Source(Repeat(0xf0, n - 1) + src.symbols, src.bits), i, block);
      SkipsRuns(t, src, n - 1, i + 16, block);
    }
  }

  /** One coded coefficient: the run before it, its category and its magnitude bits. */
  lemma DecodesCoefficient(t: Tables, v: int, run: nat, i: nat, block: seq<int>, rest: Source)
    requires GoodTables(t) && |block| == 64 && i + run < 64
    requires v != 0 && Category(v) <= 15
    ensures var j := t.zigzag[i + run];
            var block' := block[j := Int16(v * t.dequant[j])];
            var s := Source(Repeat(0xf0, run / 16) + ([run % 16 * 16 + Category(v)] + rest.symbols),
                            Magnitude(v) + rest.bits);
            DecodeAc(t, s, i, block) ==
              if i + run + 1 == 64 then Some((block', rest)) else DecodeAc(t, rest, i + run + 1, block')
  {
    hide XBits, Magnitude, Category, Int16, Repeat, Drop;
    var code := run % 16 * 16 + Category(v);
    var s1 := Source([code] + rest.symbols, Magnitude(v) + rest.bits);
    SkipsRuns(t, s1, run / 16, i, block);
    assert code % 16 == Category(v) && code / 16 == run % 16;
    MagnitudeExtends(v, rest.bits);
    assert NextSymbol(t, s1) == (code, Source(rest.symbols, s1.bits)) by {
      assert s1.symbols[1..] == rest.symbols;
    }
    assert Source(rest.symbols, rest.bits) == rest;
    hide *;
    DecodesOne(t, s1, v, code, i + run / 16 * 16, block, rest);
  }

  /** A symbol that is neither the end nor a run of sixteen. */
  lemma DecodesOne(t: Tables, src: Source, v: int, code: nat, i: nat, block: seq<int>, rest: Source)
    requires GoodTables(t) && |block| == 64 && i + code / 16 < 64 && code % 16 != 0
    requires NextSymbol(t, src) == (code, Source(rest.symbols, src.bits))
    requires XBits(src.bits, code % 16) == v && Drop(src.bits, code % 16) == rest.bits
    ensures var i' := i + code / 16;
            var j := t.zigzag[i'];
            var block' := block[j := Int16(v * t.dequant[j])];
            DecodeAc(t, src, i, block) ==
              if i' + 1 == 64 then Some((block', rest)) else DecodeAc(t, rest, i' + 1, block')
  {
    hide XBits, Int16, Drop, NextSymbol;
  }

  lemma EncodesCoefficient(q: seq<int>, i: nat, run: nat, tail: Source)
    requires |q| == 64 && run <= i < 64 && q[i] != 0
    ensures var rest := Append(EncodeAc(q, i + 1, 0), tail);
            Append(EncodeAc(q, i, run), tail) ==
              Source(Repeat(0xf0, run / 16) + ([run % 16 * 16 + Category(q[i])] + rest.symbols),
                     Magnitude(q[i]) + rest.bits)
  {
    hide Repeat, Category, Magnitude;
  }

  lemma DecodesEnd(t: Tables, i: nat, block: seq<int>, tail: Source)
    requires GoodTables(t) && |block| == 64
    ensures DecodeAc(t, Source([0] + tail.symbols, tail.bits), i, block) == Some((block, tail))
  {
  }

  /** The AC loop undoes the AC coder. */
  lemma {:induction false} AcRoundTrip(t: Tables, q: seq<int>, i: nat, run: nat, block: seq<int>, tail: Source)
    requires GoodTables(t) && Representable(t, q) && |block| == 64 && run < i <= 64
    requires run == 0 ==> i < 64
    ensures DecodeAc(t, Append(EncodeAc(q, i, run), tail), i - run, block) == Some((Place(t, q, i, block), tail))
    decreases 64 - i
  {
    hide DecodeAc, Category, Magnitude, Int16, Repeat;
    var s := Append(EncodeAc(q, i, run), tail);
    if i == 64 {
      DecodesEnd(t, i - run, block, tail);
      assert s == Source([0] + tail.symbols, tail.bits);
    } else if q[i] == 0 {
      AcRoundTrip(t, q, i + 1, run + 1, block, tail);
    } else {
      var j := t.zigzag[i];
      ProductBound(q[i], t.dequant[j]);
      CategorySmall(q[i]);
      var rest := Append(EncodeAc(q, i + 1, 0), tail);
      DecodesCoefficient(t, q[i], run, i - run, block, rest);
      EncodesCoefficient(q, i, run, tail);
      if i + 1 < 64 {
        AcRoundTrip(t, q, i + 1, 0, block[j := Int16(q[i] * t.dequant[j])], tail);
      } else {
        assert rest == tail;
      }
    }
  }

  /** Placing coefficients leaves the positions alone that are none of theirs. */
  lemma {:induction false} PlaceKeeps(t: Tables, q: seq<int>, i: nat, block: seq<int>, k: nat)
    requires GoodTables(t) && |q| == |block| == 64 && k < i <= 64
    ensures Place(t, q, i, block)[t.zigzag[k]] == block[t.zigzag[k]]
    decreases 64 - i
  {
    if i < 64 {
      var j := t.zigzag[i];
      PlaceKeeps(t, q, i + 1, if q[i] == 0 then block else block[j := Int16(q[i] * t.dequant[j])], k);
    }
  }

  lemma {:induction false} PlaceSets(t: Tables, q: seq<int>, i: nat, block: seq<int>, k: nat)
    requires GoodTables(t) && Representable(t, q) && |block| == 64 && i <= k < 64
    requires forall m :: i <= m < 64 ==> block[t.zigzag[m]] == 0
    ensures Place(t, q, i, block)[t.zigzag[k]] == q[k] * t.dequant[t.zigzag[k]]
    decreases 64 - i
  {
    var j := t.zigzag[i];
    var block' := if q[i] == 0 then block else block[j := Int16(q[i] * t.dequant[j])];
    if i == k {
      PlaceKeeps(t, q, i + 1, block', k);
    } else {
      PlaceSets(t, q, i + 1, block', k);
    }
  }

  /** A coded DC difference is added to the predictor, given two bits at least. */
  lemma DcDecodes(t: Tables, v: int, lastDc: int, tail: Source)
    requires GoodTables(t) && Category(v) <= 15
    ensures var s := Append(Source([Category(v)], Magnitude(v)), tail);
            DecodeDc(t, s, lastDc) ==
              if |s.bits| < 2 then None else Some((Int16(v * t.dequant[0] + lastDc), tail))
  {
    hide Int16, XBits;
    var s := Append(Source([Category(v)], Magnitude(v)), tail);
    assert s.symbols[1..] == tail.symbols;
    assert Category(v) / 16 == 0;
    if v == 0 {
      assert s.bits == tail.bits;
    } else {
      MagnitudeExtends(v, tail.bits);
    }
  }

  /** The DC coefficient and the predictor it leaves. */
  lemma DcRoundTrip(t: Tables, q: int, pred: int, tail: Source)
    requires GoodTables(t)
    requires -32768 <= q * t.dequant[0] < 32768 && -32768 <= pred * t.dequant[0] < 32768
    ensures var s := Append(Source([Category(q - pred)], Magnitude(q - pred)), tail);
            DecodeDc(t, s, pred * t.dequant[0]) == if |s.bits| < 2 then None else Some((q * t.dequant[0], tail))
  {
    hide DecodeDc, Category, Magnitude;
    ProductBound(q, t.dequant[0]);
    ProductBound(pred, t.dequant[0]);
    CategorySmall(q - pred);
    DcDecodes(t, q - pred, pred * t.dequant[0], tail);
    assert (q - pred) * t.dequant[0] + pred * t.dequant[0] == q * t.dequant[0];
  }

  /** A whole block, given two magnitude bits at least when it starts. */
  lemma BlockRoundTrip(t: Tables, q: seq<int>, pred: int, tail: Source)
    requires GoodTables(t) && Representable(t, q) && -32768 <= pred * t.dequant[0] < 32768
    ensures var s := Append(EncodeBlock(q, pred), tail);
            var r := DecodeBlock(t, s, pred * t.dequant[0]);
            && (r.Some? <==> |s.bits| >= 2)
            && (r.Some? ==> r.value.1 == q[0] * t.dequant[0] && r.value.2 == tail && Dequantised(t, q, r.value.0))
  {
    hide *;
    BlockFacts(t, q, pred, tail);
    var src1 := Append(EncodeAc(q, 1, 0), tail);
    DcRoundTrip(t, q[0], pred, src1);
    AcRoundTrip(t, q, 1, 0, Zeros()[0 := q[0] * t.dequant[0]], tail);
    PlacedIsDequantised(t, q, q[0] * t.dequant[0]);
    BlockDecoded(t, Append(EncodeBlock(q, pred), tail), pred * t.dequant[0]);
  }

  lemma BlockFacts(t: Tables, q: seq<int>, pred: int, tail: Source)
    requires GoodTables(t) && Representable(t, q)
    ensures t.Valid() && t.pad >= 0 && |q| == 64 && -32768 <= q[0] * t.dequant[0] < 32768
    ensures Append(EncodeBlock(q, pred), tail) ==
      Append(Source([Category(q[0] - pred)], Magnitude(q[0] - pred)), Append(EncodeAc(q, 1, 0), tail))
    ensures forall s :: Readable(t, s)
  {
    assert q[0] * t.dequant[0] == q[0] * t.dequant[t.zigzag[0]];
    BlockAppended(q, pred, tail);
  }

  lemma BlockDecoded(t: Tables, s: Source, lastDc: int)
    requires t.Valid() && t.pad >= 0 && Readable(t, s)
    ensures var d := DecodeDc(t, s, lastDc);
            match d
            case None => DecodeBlock(t, s, lastDc) == None
            case Some((dc, src1)) =>
              match DecodeAc(t, src1, 1, Zeros()[0 := dc])
              case None => DecodeBlock(t, s, lastDc) == None
              case Some((block, src2)) => DecodeBlock(t, s, lastDc) == Some((block, dc, src2))
  {
    hide DecodeDc, DecodeAc;
  }

  lemma BlockAppended(q: seq<int>, pred: int, tail: Source)
    requires |q| == 64
    ensures Append(EncodeBlock(q, pred), tail) ==
      Append(Source([Category(q[0] - pred)], Magnitude(q[0] - pred)), Append(EncodeAc(q, 1, 0), tail))
  {
    hide Category, Magnitude, EncodeAc;
  }

  lemma PlacedIsDequantised(t: Tables, q: seq<int>, dc: int)
    requires GoodTables(t) && Representable(t, q) && dc == q[0] * t.dequant[0]
    ensures Dequantised(t, q, Place(t, q, 1, Zeros()[0 := dc]))
  {
    hide Place;
    var block := Zeros()[0 := dc];
    var r := Place(t, q, 1, block);
    forall k | 0 <= k < 64 ensures r[t.zigzag[k]] == q[k] * t.dequant[t.zigzag[k]] {
      if k == 0 {
        PlaceKeeps(t, q, 1, block, 0);
      } else {
        assert forall m :: 1 <= m < 64 ==> t.zigzag[m] != t.zigzag[0];
        PlaceSets(t, q, 1, block, k);
      }
    }
  }

  /** Magnitude bits from the start of the last block on. */
  function LastBits(qs: seq<seq<int>>, pred: int): (r: nat)
    requires qs != [] && forall k :: 0 <= k < |qs| ==> |qs[k]| == 64
  {
    if |qs| == 1 then |EncodeBlock(qs[0], pred).bits| else LastBits(qs[1..], qs[0][0])
  }

  lemma {:induction false} LastBitsFit(qs: seq<seq<int>>, pred: int)
    requires qs != [] && forall k :: 0 <= k < |qs| ==> |qs[k]| == 64
    ensures LastBits(qs, pred) <= |EncodeBlocks(qs, pred).bits|
  {
    if |qs| > 1 {
      LastBitsFit(qs[1..], qs[0][0]);
    }
  }

  /**
   * Any sequence of quantised blocks, coded with one predictor for all of them
   * and decoded again, gives every coefficient times its dequantiser entry and
   * leaves what follows unread. Decoding fails in exactly one case: fewer than
   * two magnitude bits are left when the last block starts.
   */
  lemma {:induction false} BlocksRoundTrip(t: Tables, qs: seq<seq<int>>, pred: int, tail: Source)
    requires GoodTables(t) && -32768 <= pred * t.dequant[0] < 32768
    requires forall k :: 0 <= k < |qs| ==> |qs[k]| == 64 && Representable(t, qs[k])
    ensures var r := DecodeBlocks(t, Append(EncodeBlocks(qs, pred), tail), pred * t.dequant[0], |qs|);
            && (r.Some? <==> (qs == [] || LastBits(qs, pred) + |tail.bits| >= 2))
            && (r.Some? ==>
                  && r.value.1 == tail && |r.value.0| == |qs|
                  && forall k :: 0 <= k < |qs| ==> Dequantised(t, qs[k], r.value.0[k]))
    decreases qs
  {
    hide DecodeBlock, EncodeBlock, Dequantised;
    if qs == [] {
      assert Append(EncodeBlocks(qs, pred), tail) == tail;
    } else {
      var q := qs[0];
      var rest := Append(EncodeBlocks(qs[1..], q[0]), tail);
      var s := Append(EncodeBlock(q, pred), rest);
      assert Append(EncodeBlocks(qs, pred), tail) == s;
      BlockRoundTrip(t, q, pred, rest);
      assert -32768 <= q[0] * t.dequant[t.zigzag[0]] < 32768;
      BlocksRoundTrip(t, qs[1..], q[0], tail);
      if |qs| > 1 {
        LastBitsFit(qs[1..], q[0]);
      }
    }
  }

  // ---- blocks one at a time -----------------------------------------------------------------------

  function Prepend(blocks: seq<seq<int>>, r: Option<(seq<seq<int>>, Source)>): (p: Option<(seq<seq<int>>, Source)>) {
    if r.None? then None else Some((blocks + r.value.0, r.value.1))
  }

  lemma PrependNothing(r: Option<(seq<seq<int>>, Source)>)
    ensures Prepend([], r) == r
  {
    if r.Some? {
      assert [] + r.value.0 == r.value.0;
    }
  }

  lemma PrependEnd(blocks: seq<seq<int>>, src: Source)
    ensures Prepend(blocks, Some(([], src))) == Some((blocks, src))
  {
    assert blocks + [] == blocks;
  }

  /** DecodeBlocks, one block at a time. */
  lemma PrependStep(t: Tables, src: Source, lastDc: int, n: nat, blocks: seq<seq<int>>)
    requires t.Valid() && Readable(t, src) && n > 0
    ensures Prepend(blocks, DecodeBlocks(t, src, lastDc, n)) ==
              match DecodeBlock(t, src, lastDc)
              case None => None
              case Some((block, dc, src2)) => Prepend(blocks + [block], DecodeBlocks(t, src2, dc, n - 1))
  {
    hide DecodeBlock;
    var b := DecodeBlock(t, src, lastDc);
    if b.Some? {
      var r := DecodeBlocks(t, b.value.2, b.value.1, n - 1);
      if r.Some? {
        assert blocks + ([b.value.0] + r.value.0) == blocks + [b.value.0] + r.value.0;
      }
    }
  }
}
