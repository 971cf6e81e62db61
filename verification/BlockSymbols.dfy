/**
 * What the symbols of an intra block mean (4xm.c, decode_i_block), whatever they are: each is
 * a skip, a level after a run, or one of the five ways in which a block can end. The partner
 * of the decoder here is not a coder but the list of positions that the symbols are at.
 */
module BlockSymbols {
  import opened Binary
  import opened IBlock
  import opened Wrappers

  /** A symbol after which the block goes on: sixteen zeros, or some zeros and a level. */
  datatype Ac = Skip | Level(run: nat, level: int)

  datatype End =
    | EndOfBlock
    | SkipPast                          // a skip past the end of the block
    | LevelPast(run: nat, level: int)   // a level past it
    | LastLevel(run: nat, level: int)   // the level at its last position
    | NoLevel(symbol: nat)              // a run without a level

  predicate Codable(run: nat, level: int) {
    run < 16 && level != 0 && Category(level) <= 15
  }

  function Width(a: Ac): (n: nat) {
    if a.Skip? then 16 else a.run + 1
  }

  /** The zigzag position after the symbols. */
  function Position(acs: seq<Ac>, i: nat): (p: nat)
    ensures p >= i + |acs|
  {
    if acs == [] then i else Position(acs[1..], i + Width(acs[0]))
  }

  predicate EndFits(end: End, i: nat) {
    match end
    case EndOfBlock => true
    case SkipPast => i + 16 >= 64
    case LevelPast(run, level) => Codable(run, level) && i + run >= 64
    case LastLevel(run, level) => Codable(run, level) && i + run == 63
    case NoLevel(symbol) => symbol % 16 == 0 && symbol != 0 && symbol != 0xf0
  }

  function LevelSource(run: nat, level: int): (r: Source) {
    Source([run * 16 + Category(level)], Magnitude(level))
  }

  function AcSource(a: Ac): (r: Source) {
    if a.Skip? then Source([0xf0], []) else LevelSource(a.run, a.level)
  }

  function AcsSource(acs: seq<Ac>): (r: Source) {
    if acs == [] then Source([], []) else Append(AcSource(acs[0]), AcsSource(acs[1..]))
  }

  function EndSource(end: End): (r: Source) {
    match end
    case EndOfBlock => Source([0], [])
    case SkipPast => Source([0xf0], [])
    case LevelPast(run, level) => LevelSource(run, level)
    case LastLevel(run, level) => LevelSource(run, level)
    case NoLevel(symbol) => Source([symbol], [])
  }

  ghost predicate AllCodable(acs: seq<Ac>) {
    forall k :: 0 <= k < |acs| && acs[k].Level? ==> Codable(acs[k].run, acs[k].level)
  }

  /** The symbols with the one that ends the block, if that is a level too. */
  function WithLast(acs: seq<Ac>, end: End): (r: seq<Ac>) {
    if end.LastLevel? then acs + [Level(end.run, end.level)] else acs
  }

  /** The position of a level is the one before that after it. */
  predicate LevelAt(acs: seq<Ac>, i: nat, k: nat, p: nat)
    requires k < |acs|
  {
    acs[k].Level? && Position(acs[..k + 1], i) == p + 1
  }

  /** The block with every level, dequantised, at its position, and the others as they were. */
  ghost predicate Levels(t: Tables, acs: seq<Ac>, i: nat, before: seq<int>, after: seq<int>)
    requires t.Valid() && |before| == 64
  {
    && |after| == 64
    && (forall k, p :: 0 <= k < |acs| && 0 <= p < 64 && LevelAt(acs, i, k, p) ==>
          after[t.zigzag[p]] == Int16(acs[k].level * t.dequant[t.zigzag[p]]))
    && (forall p :: 0 <= p < 64 && (forall k :: 0 <= k < |acs| ==> !LevelAt(acs, i, k, p)) ==>
          after[t.zigzag[p]] == before[t.zigzag[p]])
  }

  // ---- the loop ----------------------------------------------------------------------------

  function Placed(t: Tables, a: Ac, i: nat, block: seq<int>): (r: seq<int>)
    requires t.Valid() && |block| == 64 && i + Width(a) <= 64
    ensures |r| == 64
  {
    if a.Skip? then block
    else var j := t.zigzag[i + a.run]; block[j := Int16(a.level * t.dequant[j])]
  }

  lemma LevelDecodes(t: Tables, run: nat, level: int, i: nat, block: seq<int>, rest: Source)
    requires GoodTables(t) && |block| == 64 && Codable(run, level)
    ensures DecodeAc(t, Append(LevelSource(run, level), rest), i, block) ==
            if i + run >= 64 then Some((block, rest))
            else
              var block' := Placed(t, Level(run, level), i, block);
              if i + run + 1 == 64 then Some((block', rest)) else DecodeAc(t, rest, i + run + 1, block')
  {
    hide XBits, Magnitude, Category, Int16, Drop;
    var s := Append(LevelSource(run, level), rest);
    var code := run * 16 + Category(level);
    assert s.symbols[1..] == rest.symbols && Source(rest.symbols, rest.bits) == rest;
    MagnitudeExtends(level, rest.bits);
    assert code % 16 == Category(level) && code / 16 == run;
    assert NextSymbol(t, s) == (code, Source(rest.symbols, s.bits));
    hide *;
    LevelTaken(t, s, level, code, i, block, rest);
  }

  lemma LevelTaken(t: Tables, s: Source, level: int, code: nat, i: nat, block: seq<int>, rest: Source)
    requires GoodTables(t) && |block| == 64 && code % 16 != 0
    requires NextSymbol(t, s) == (code, Source(rest.symbols, s.bits))
    requires XBits(s.bits, code % 16) == level && Drop(s.bits, code % 16) == rest.bits
    ensures DecodeAc(t, s, i, block) ==
            if i + code / 16 >= 64 then Some((block, rest))
            else
              var block' := Placed(t, Level(code / 16, level), i, block);
              if i + code / 16 + 1 == 64 then Some((block', rest)) else DecodeAc(t, rest, i + code / 16 + 1, block')
  {
    hide XBits, Int16, Drop, NextSymbol;
  }

  lemma EndDecodes(t: Tables, end: End, i: nat, block: seq<int>, tail: Source)
    requires GoodTables(t) && |block| == 64 && EndFits(end, i)
    ensures DecodeAc(t, Append(EndSource(end), tail), i, block) ==
            if end.NoLevel? then None
            else if end.LastLevel? then Some((Placed(t, Level(end.run, end.level), i, block), tail))
            else Some((block, tail))
  {
    hide XBits, Magnitude, Category, Int16, Drop;
    var s := Append(EndSource(end), tail);
    if end.LevelPast? || end.LastLevel? {
      LevelDecodes(t, end.run, end.level, i, block, tail);
    } else {
      assert s.symbols[1..] == tail.symbols && s.bits == tail.bits;
    }
  }

  lemma AcDecodes(t: Tables, a: Ac, i: nat, block: seq<int>, rest: Source)
    requires GoodTables(t) && |block| == 64 && i + Width(a) < 64 && (a.Level? ==> Codable(a.run, a.level))
    ensures DecodeAc(t, Append(AcSource(a), rest), i, block) ==
            DecodeAc(t, rest, i + Width(a), Placed(t, a, i, block))
  {
    hide DecodeAc, Magnitude, Category, Codable, Int16;
    if a.Skip? {
      var s := Append(AcSource(a), rest);
      assert s.symbols[1..] == rest.symbols && s.bits == rest.bits;
      SkipsRun(t, s, rest, i, block);
    } else {
      LevelDecodes(t, a.run, a.level, i, block, rest);
    }
  }

  lemma AppendAll(a: Source, b: Source, c: Source)
    ensures Append(Append(a, b), c) == Append(a, Append(b, c))
    ensures Append(Source([], []), c) == c
  {
  }

  /** The first symbol, and then the levels of the others. */
  lemma LevelsFirst(t: Tables, acs: seq<Ac>, i: nat, before: seq<int>, after: seq<int>)
    requires GoodTables(t) && |before| == 64 && acs != [] && i + Width(acs[0]) <= 64
    requires Levels(t, acs[1..], i + Width(acs[0]), Placed(t, acs[0], i, before), after)
    ensures Levels(t, acs, i, before, after)
  {
    var a, rest, i' := acs[0], acs[1..], i + Width(acs[0]);
    var block := Placed(t, a, i, before);
    hide Position, Placed, Int16;
    forall k, p | 0 <= k < |acs| && 0 <= p < 64
      ensures LevelAt(acs, i, k, p) <==> if k == 0 then a.Level? && p == i + a.run else LevelAt(rest, i', k - 1, p)
      ensures k > 0 && LevelAt(acs, i, k, p) ==> p >= i'
    {
      LevelLater(acs, i, k, p);
    }
    forall p | 0 <= p < 64
      ensures block[t.zigzag[p]] ==
              if a.Level? && p == i + a.run then Int16(a.level * t.dequant[t.zigzag[p]]) else before[t.zigzag[p]]
    {
      PlacedAt(t, a, i, before, p);
    }
    forall k, p | 0 <= k < |acs| && 0 <= p < 64 && LevelAt(acs, i, k, p)
      ensures after[t.zigzag[p]] == Int16(acs[k].level * t.dequant[t.zigzag[p]])
    {
      if k == 0 {
        assert forall m :: 0 <= m < |rest| ==> LevelAt(acs, i, m + 1, p) == LevelAt(rest, i', m, p);
      } else {
        assert acs[k] == rest[k - 1] && LevelAt(rest, i', k - 1, p);
      }
    }
    forall p | 0 <= p < 64 && forall k :: 0 <= k < |acs| ==> !LevelAt(acs, i, k, p)
      ensures after[t.zigzag[p]] == before[t.zigzag[p]]
    {
      assert !LevelAt(acs, i, 0, p);
      assert forall m :: 0 <= m < |rest| ==> LevelAt(acs, i, m + 1, p) == LevelAt(rest, i', m, p);
    }
  }

  lemma LevelLater(acs: seq<Ac>, i: nat, k: nat, p: nat)
    requires k < |acs|
    ensures var i' := i + Width(acs[0]);
            && (LevelAt(acs, i, k, p) <==>
                if k == 0 then acs[0].Level? && p == i + acs[0].run else LevelAt(acs[1..], i', k - 1, p))
            && (k > 0 && LevelAt(acs, i, k, p) ==> p >= i')
  {
    var first := acs[..k + 1];
    assert first[1..] == acs[1..][..k];
    assert Position(first, i) == Position(first[1..], i + Width(first[0]));
    if k == 0 {
      assert first[1..] == [];
    }
  }

  lemma PlacedAt(t: Tables, a: Ac, i: nat, block: seq<int>, p: nat)
    requires GoodTables(t) && |block| == 64 && i + Width(a) <= 64 && p < 64
    ensures Placed(t, a, i, block)[t.zigzag[p]] ==
            if a.Level? && p == i + a.run then Int16(a.level * t.dequant[t.zigzag[p]]) else block[t.zigzag[p]]
  {
    hide Int16;
  }

  lemma NoLevels(t: Tables, i: nat, block: seq<int>)
    requires t.Valid() && |block| == 64
    ensures Levels(t, [], i, block, block)
  {
    hide Int16;
  }

  /** Any symbols, up to the one that ends the block, put every level at its position. */
  lemma {:induction false} AcRead(t: Tables, acs: seq<Ac>, end: End, i: nat, block: seq<int>, tail: Source)
    requires GoodTables(t) && |block| == 64 && AllCodable(acs)
    requires Position(acs, i) < 64 && EndFits(end, Position(acs, i))
    ensures var r := DecodeAc(t, Append(AcsSource(acs), Append(EndSource(end), tail)), i, block);
            && (r.None? <==> end.NoLevel?)
            && (r.Some? ==> r.value.1 == tail && Levels(t, WithLast(acs, end), i, block, r.value.0))
    decreases |acs|
  {
    hide DecodeAc, EndSource, AcSource, EndFits, Int16, Levels;
    var rest := Append(EndSource(end), tail);
    if acs == [] {
      AppendAll(rest, rest, rest);
      EndDecodes(t, end, i, block, tail);
      NoLevels(t, i, block);
      if end.LastLevel? {
        EndAt(end, i);
        NoLevels(t, 64, Placed(t, Level(end.run, end.level), i, block));
        LevelsFirst(t, WithLast([], end), i, block, Placed(t, Level(end.run, end.level), i, block));
      }
    } else {
      var a := acs[0];
      AppendAll(AcSource(a), AcsSource(acs[1..]), rest);
      AcDecodes(t, a, i, block, Append(AcsSource(acs[1..]), rest));
      AcRead(t, acs[1..], end, i + Width(a), Placed(t, a, i, block), tail);
      FirstWithLast(acs, end);
      var r := DecodeAc(t, Append(AcsSource(acs), rest), i, block);
      if r.Some? {
        LevelsFirst(t, WithLast(acs, end), i, block, r.value.0);
      }
    }
  }

  lemma EndAt(end: End, i: nat)
    requires EndFits(end, i) && end.LastLevel?
    ensures i + end.run == 63
  {
  }

  lemma FirstWithLast(acs: seq<Ac>, end: End)
    requires acs != []
    ensures WithLast(acs, end) != [] && WithLast(acs, end)[0] == acs[0]
    ensures WithLast(acs, end)[1..] == WithLast(acs[1..], end)
  {
  }

  // ---- the whole block -----------------------------------------------------------------------

  /** A block from its DC difference to the symbol that ends it. */
  function BlockSource(diff: int, acs: seq<Ac>, end: End): (r: Source) {
    Append(Source([Category(diff)], Magnitude(diff)), Append(AcsSource(acs), EndSource(end)))
  }

  /** The value in sixteen bits that differs by a multiple of 2^16. */
  ghost predicate Wraps(v: int, w: int) {
    -32768 <= w < 32768 && (v - w) % 65536 == 0
  }

  predicate StartsWith(block: seq<int>, dc: int) {
    block != [] && block[0] == dc
  }

  /**
   * Any block: it fails exactly if fewer than two magnitude bits are left at its start or a
   * run has no level. Otherwise the difference is added to the predictor, every level is at
   * its position, and nothing after the symbol that ends the block is read.
   */
  lemma BlockRead(t: Tables, diff: int, acs: seq<Ac>, end: End, lastDc: int, tail: Source)
    requires GoodTables(t) && Category(diff) <= 15 && AllCodable(acs)
    requires Position(acs, 1) < 64 && EndFits(end, Position(acs, 1))
    ensures var s := Append(BlockSource(diff, acs, end), tail);
            var r := DecodeBlock(t, s, lastDc);
            && (r.None? <==> |s.bits| < 2 || end.NoLevel?)
            && (r.Some? ==>
                  && Wraps(diff * t.dequant[0] + lastDc, r.value.1) && r.value.2 == tail
                  && Levels(t, WithLast(acs, end), 1, Zeros()[0 := r.value.1], r.value.0)
                  && StartsWith(r.value.0, r.value.1))
  {
    hide *;
    var rest := Append(AcsSource(acs), Append(EndSource(end), tail));
    var s := Append(BlockSource(diff, acs, end), tail);
    TablesReadable(t, s);
    var dc := Int16(diff * t.dequant[0] + lastDc);
    BlockParts(diff, acs, end, tail);
    DcDecodes(t, diff, lastDc, rest);
    BlockDecoded(t, s, lastDc);
    IntWraps(diff * t.dequant[0] + lastDc);
    AcRead(t, acs, end, 1, Zeros()[0 := dc], tail);
    var r := DecodeAc(t, rest, 1, Zeros()[0 := dc]);
    if r.Some? {
      FirstKept(t, WithLast(acs, end), dc, r.value.0);
    }
  }

  lemma BlockParts(diff: int, acs: seq<Ac>, end: End, tail: Source)
    ensures Append(BlockSource(diff, acs, end), tail) ==
            Append(Source([Category(diff)], Magnitude(diff)), Append(AcsSource(acs), Append(EndSource(end), tail)))
  {
    AppendAll(Source([Category(diff)], Magnitude(diff)), Append(AcsSource(acs), EndSource(end)), tail);
    AppendAll(AcsSource(acs), EndSource(end), tail);
  }

  lemma TablesReadable(t: Tables, s: Source)
    requires GoodTables(t)
    ensures t.Valid() && |t.dequant| == 64 && t.pad >= 0 && Readable(t, s)
  {
  }

  lemma IntWraps(v: int)
    ensures Wraps(v, Int16(v))
  {
    var k := (v + 32768) / 65536;
    assert v - Int16(v) == 65536 * k;
  }

  /** No level is at position 0. */
  lemma FirstKept(t: Tables, acs: seq<Ac>, dc: int, block: seq<int>)
    requires GoodTables(t) && Levels(t, acs, 1, Zeros()[0 := dc], block)
    ensures StartsWith(block, dc)
  {
    hide Position;
    forall k | 0 <= k < |acs| ensures !LevelAt(acs, 1, k, 0) {
      assert |acs[..k + 1]| == k + 1;
    }
  }

  /** A symbol of more than fifteen cannot come first. */
  lemma DcRefusedIff(t: Tables, symbol: nat, lastDc: int, tail: Source)
    requires GoodTables(t)
    ensures DecodeDc(t, Source([symbol] + tail.symbols, tail.bits), lastDc).None? <==> |tail.bits| < 2 || symbol > 15
  {
    hide Int16, XBits, Drop;
  }
}
