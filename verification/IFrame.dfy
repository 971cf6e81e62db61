/**
 * Intra frames of the 4X Movie decoder (4xm.c, decode_i_frame down to decode_i_block):
 * the prefix code of the frame's own header, read from the words of one stream, and
 * the magnitude bits of another. Every frame that is coded comes back.
 */
module IFrame {
  import opened Binary
  import opened HuffmanTables
  import opened HuffmanTree
  import opened IBlock
  import opened Vlc
  import VlcBuild
  import opened VlcTable
  import opened Wrappers

  // ---- the words of the prefix stream ------------------------------------------------------

  function ByteBits(b: byte): (bits: Bits)
    ensures |bits| == 8
  {
    BitsOf(b, 8)
  }

  /** The bits of the stream after bswap_buf: 32-bit words with their bytes reversed. */
  function WordBits(buf: seq<byte>): (bits: Bits) {
    if |buf| < 4 then []
    else ByteBits(buf[3]) + ByteBits(buf[2]) + ByteBits(buf[1]) + ByteBits(buf[0]) + WordBits(buf[4..])
  }

  /** A byte from the bits at a place, with zeros past the end. */
  function ByteFrom(bits: Bits, i: nat): (b: byte) {
    assert Pow2(8) == 256;
    Number(Drop(bits, i), 8)
  }

  /** Bits as words, the last one filled up with zeros. */
  function PrintBits(bits: Bits): (buf: seq<byte>)
    decreases |bits|
  {
    if bits == [] then []
    else [ByteFrom(bits, 24), ByteFrom(bits, 16), ByteFrom(bits, 8), ByteFrom(bits, 0)] + PrintBits(Drop(bits, 32))
  }

  /** Printed bits are read back, with zeros after them. */
  lemma {:induction false} PrintedBitsRead(bits: Bits)
    ensures bits <= WordBits(PrintBits(bits))
    decreases |bits|
  {
    if bits != [] {
      var buf, rest := PrintBits(bits), Drop(bits, 32);
      PrintedBitsRead(rest);
      assert buf[4..] == PrintBits(rest);
      var word := ByteBits(buf[3]) + ByteBits(buf[2]) + ByteBits(buf[1]) + ByteBits(buf[0]);
      WordRead(bits);
      assert WordBits(buf) == word + WordBits(PrintBits(rest));
      assert bits == if |bits| <= 32 then bits else bits[..32] + rest;
    }
  }

  lemma WordRead(bits: Bits)
    ensures var word := ByteBits(ByteFrom(bits, 0)) + ByteBits(ByteFrom(bits, 8)) +
                        ByteBits(ByteFrom(bits, 16)) + ByteBits(ByteFrom(bits, 24));
            if |bits| <= 32 then bits <= word else word == bits[..32]
  {
    ByteRead(bits, 0);
    ByteRead(bits, 8);
    ByteRead(bits, 16);
    ByteRead(bits, 24);
    hide ByteBits, ByteFrom;
  }

  lemma ByteRead(bits: Bits, i: nat)
    ensures var b := ByteBits(ByteFrom(bits, i));
            && (i + 8 <= |bits| ==> b == bits[i..i + 8])
            && (i <= |bits| < i + 8 ==> bits[i..] <= b)
  {
    NumberBits(Drop(bits, i), 8);
    hide BitsOf, Number;
  }

  // ---- a whole frame ---------------------------------------------------------------------------

  predicate GoodOrder(zigzag: seq<nat>, dequant: seq<int>) {
    |zigzag| == |dequant| == 64 && forall k :: 0 <= k < 64 ==> zigzag[k] < 64
  }

  /** The tables of a frame with this prefix code. */
  function FixedFor(zigzag: seq<nat>, dequant: seq<int>, t: CodeTable): (fixed: Tables)
    requires Sound(t)
  {
    Tables(zigzag, dequant, Lookup(t, []))
  }

  /** What is to be read: the symbols of the prefix stream, and the magnitude bits. */
  function SourceOf(t: CodeTable, pre: Bits, bits: seq<bool>): (src: Source)
    requires Sound(t)
    ensures Lookup(t, []) < 0 ==> src.symbols == []
  {
    LookupFailsIff(t, []);
    LookupFailsIff(t, pre);
    Source(Symbols(t, pre), bits)
  }

  /** The blocks of n macroblocks, and whether the symbol for the end comes next. */
  function DecodeFrame(zigzag: seq<nat>, dequant: seq<int>, t: CodeTable, pre: Bits, bits: seq<bool>, n: nat)
    : (r: Option<(seq<seq<int>>, bool)>)
    requires GoodOrder(zigzag, dequant) && Sound(t)
  {
    var fixed := FixedFor(zigzag, dequant, t);
    match DecodeBlocks(fixed, SourceOf(t, pre, bits), 0, 6 * n)
    case None => None
    case Some((blocks, rest)) => Some((blocks, NextSymbol(fixed, rest).0 == 256))
  }

  lemma FrameOf(zigzag: seq<nat>, dequant: seq<int>, t: CodeTable, pre: Bits, bits: seq<bool>, n: nat)
    requires GoodOrder(zigzag, dequant) && Sound(t)
    ensures var fixed := FixedFor(zigzag, dequant, t);
            var r := DecodeBlocks(fixed, SourceOf(t, pre, bits), 0, 6 * n);
            DecodeFrame(zigzag, dequant, t, pre, bits, n) ==
              if r.None? then None else Some((r.value.0, NextSymbol(fixed, r.value.1).0 == 256))
  {
    hide DecodeBlocks;
  }

  /**
   * Quantised blocks, coded with one predictor and the symbol for the end after them,
   * then with any accepted prefix code that has the symbols: the frame comes back with every
   * coefficient times its dequantiser entry, and ends as it should. It fails exactly if
   * fewer than two magnitude bits are left at the last block.
   */
  lemma FrameRoundTrip(zigzag: seq<nat>, dequant: seq<int>, t: CodeTable, qs: seq<seq<int>>, n: nat,
                       pre: Bits, more: seq<bool>)
    requires Sound(t) && GoodTables(FixedFor(zigzag, dequant, t)) && |qs| == 6 * n
    requires forall k :: 0 <= k < |qs| ==> |qs[k]| == 64 && Representable(FixedFor(zigzag, dequant, t), qs[k])
    requires AllCoded(t, EncodeBlocks(qs, 0).symbols + [256])
    requires Encode(t, EncodeBlocks(qs, 0).symbols + [256]) <= pre
    ensures var r := DecodeFrame(zigzag, dequant, t, pre, EncodeBlocks(qs, 0).bits + more, n);
            && (r.Some? <==> n == 0 || LastBits(qs, 0) + |more| >= 2)
            && (r.Some? ==>
                  && r.value.1 && |r.value.0| == |qs|
                  && forall k :: 0 <= k < |qs| ==> Dequantised(FixedFor(zigzag, dequant, t), qs[k], r.value.0[k]))
  {
    var fixed, coded := FixedFor(zigzag, dequant, t), EncodeBlocks(qs, 0);
    var after := SourceCoded(t, coded, pre, more);
    var tail := Source([256] + after, more);
    assert fixed.dequant == dequant && 0 * dequant[0] == 0;
    assert NextSymbol(fixed, tail).0 == 256;
    FrameOf(zigzag, dequant, t, pre, coded.bits + more, n);
    hide *;
    BlocksRoundTrip(fixed, qs, 0, tail);
  }

  /** The coded symbols, the one for the end, and whatever is decoded after them. */
  lemma SourceCoded(t: CodeTable, coded: Source, pre: Bits, more: seq<bool>) returns (after: seq<nat>)
    requires Sound(t) && AllCoded(t, coded.symbols + [256]) && Encode(t, coded.symbols + [256]) <= pre
    ensures SourceOf(t, pre, coded.bits + more) == Append(coded, Source([256] + after, more))
  {
    hide Complete, PrefixFreeCodes, Symbols, Encode, AllCoded, Lookup;
    var all := coded.symbols + [256];
    var rest := pre[|Encode(t, all)|..];
    assert pre == Encode(t, all) + rest;
    DecodeEncoded(t, all, rest);
    after := Symbols(t, rest);
    Regrouped(coded.symbols, [256], after);
  }

  lemma Regrouped(a: seq<nat>, b: seq<nat>, c: seq<nat>)
    ensures (a + b) + c == a + (b + c)
  {
  }

  /** The code of a frame: 256 frequencies, then the coded symbols in words. */
  function PrintPrestream(freqs: seq<byte>, code: Bits): (buf: seq<byte>)
    requires |freqs| == 256
  {
    PrintTable(freqs) + PrintBits(code)
  }

  function AllFrequencies(freqs: seq<byte>): (freq: seq<int>)
    requires |freqs| == 256
    ensures |freq| == NODES
  {
    freqs + [1] + seq(NODES - SYMBOLS, _ => 0)
  }

  /** A printed prefix stream is read back: the frequencies, and the code after them. */
  lemma PrestreamRead(freqs: seq<byte>, code: Bits)
    requires |freqs| == 256
    ensures var buf := PrintPrestream(freqs, code);
            var r := ParseTable(buf);
            && r.Some? && r.value.freq == AllFrequencies(freqs)
            && code <= WordBits(Drop(buf, r.value.ptr))
  {
    PrintedTableRead(freqs, PrintBits(code));
    PrintedBitsRead(code);
    var buf := PrintPrestream(freqs, code);
    assert |PrintTable(freqs)| == 260;
    assert Drop(buf, 260) == PrintBits(code);
    hide PrintBits, WordBits, PrintTable, ParseTable;
  }

  /** Every one of these symbols occurs; two to 256 symbols do. */
  predicate Occurring(freqs: seq<byte>, symbols: seq<nat>)
    requires |freqs| == 256
  {
    && 2 <= Count(SymbolFreq(AllFrequencies(freqs))) <= 256
    && forall i :: 0 <= i < |symbols| ==> symbols[i] < SYMBOLS && AllFrequencies(freqs)[symbols[i]] > 0
  }

  /** Between two and 256 symbols that occur, among them the ones to code: the table has them all. */
  lemma OccurringCoded(freqs: seq<byte>, t: CodeTable, symbols: seq<nat>)
    requires |freqs| == 256 && TableOf(AllFrequencies(freqs), t) && Occurring(freqs, symbols)
    ensures t.Valid() && !Refused(t) && AllCoded(t, symbols)
  {
    var freq := AllFrequencies(freqs);
    AcceptedIff(freq, t);
    forall i | 0 <= i < |symbols| ensures symbols[i] < |t.lens| && t.Coded(symbols[i]) {
      CodedIff(freq, t, symbols[i]);
    }
  }

  /** The prefix stream for these symbols: the header, and their codewords. */
  ghost function PrintSymbols(freqs: seq<byte>, t: CodeTable, symbols: seq<nat>): (buf: seq<byte>)
    requires |freqs| == 256 && TableOf(AllFrequencies(freqs), t) && Occurring(freqs, symbols)
  {
    OccurringCoded(freqs, t, symbols);
    PrintPrestream(freqs, Encode(t, symbols))
  }

  /**
   * The whole way of a frame: frequencies for all the symbols that the blocks need, the
   * header and codewords printed, and both streams decoded with the table that the
   * header gives.
   */
  lemma PrintedFrameRoundTrip(zigzag: seq<nat>, dequant: seq<int>, freqs: seq<byte>, t: CodeTable,
                              qs: seq<seq<int>>, n: nat, more: seq<bool>)
    requires |freqs| == 256 && TableOf(AllFrequencies(freqs), t) && Sound(t)
    requires GoodTables(FixedFor(zigzag, dequant, t)) && |qs| == 6 * n
    requires forall k :: 0 <= k < |qs| ==> |qs[k]| == 64 && Representable(FixedFor(zigzag, dequant, t), qs[k])
    requires Occurring(freqs, EncodeBlocks(qs, 0).symbols + [256])
    ensures var buf := PrintSymbols(freqs, t, EncodeBlocks(qs, 0).symbols + [256]);
            var header := ParseTable(buf);
            && header.Some? && header.value.freq == AllFrequencies(freqs) && !Refused(t)
            && var r := DecodeFrame(zigzag, dequant, t, WordBits(Drop(buf, header.value.ptr)),
                                    EncodeBlocks(qs, 0).bits + more, n);
               && (r.Some? <==> n == 0 || LastBits(qs, 0) + |more| >= 2)
               && (r.Some? ==>
                     && r.value.1 && |r.value.0| == |qs|
                     && forall k :: 0 <= k < |qs| ==> Dequantised(FixedFor(zigzag, dequant, t), qs[k], r.value.0[k]))
  {
    var symbols := EncodeBlocks(qs, 0).symbols + [256];
    assert GoodOrder(zigzag, dequant);
    hide FixedFor, GoodTables, Representable, EncodeBlocks, DecodeFrame, LastBits, Dequantised, Encode, WordBits, Sound;
    hide PrintPrestream, ParseTable, Drop, TableOf, Refused, AllCoded;
    OccurringCoded(freqs, t, symbols);
    PrestreamRead(freqs, Encode(t, symbols));
    var buf := PrintSymbols(freqs, t, symbols);
    FrameRoundTrip(zigzag, dequant, t, qs, n, WordBits(Drop(buf, ParseTable(buf).value.ptr)), more);
  }

  // ---- the decoder ---------------------------------------------------------------------------

  class IntraDecoder {
    const zigzag: seq<nat>
    const dequant: seq<int>
    const pre_vlc: VlcBuild.VLC
    var pre_gb: Bits
    var gb: seq<bool>
    var last_dc: int
    ghost var coding: CodeTable  // that pre_vlc is for

    constructor (zigzag: seq<nat>, dequant: seq<int>, pre_vlc: VlcBuild.VLC)
      ensures this.zigzag == zigzag && this.dequant == dequant && this.pre_vlc == pre_vlc
    {
      this.zigzag, this.dequant, this.pre_vlc := zigzag, dequant, pre_vlc;
      pre_gb, gb, last_dc := [], [], 0;
      coding := CodeTable([], []);
    }

    ghost function Fixed(): (t: Tables)
      reads this`coding
      requires Sound(coding)
    {
      FixedFor(zigzag, dequant, coding)
    }

    ghost function Unread(): (src: Source)
      reads this`coding, this`pre_gb, this`gb
      requires Sound(coding)
      ensures Readable(Fixed(), src)
    {
      SourceOf(coding, pre_gb, gb)
    }

    ghost predicate Valid()
      reads this`coding, pre_vlc
    {
      Sound(coding) && Fixed().Valid() && pre_vlc.Decodes(coding)
    }

    method GetVlc() returns (code: int)
      requires Valid()
      modifies this`pre_gb
      ensures (code, Unread()) == NextSymbol(Fixed(), old(Unread()))
    {
      LookupFailsIff(coding, []);
      LookupFailsIff(coding, pre_gb);
      code, pre_gb := pre_vlc.GetVlc2(pre_gb, coding);
      LookupFailsIff(coding, pre_gb);
    }

    method GetXBits(n: nat) returns (v: int)
      requires n >= 1 && Sound(coding)
      modifies this`gb
      ensures v == XBits(old(gb), n) && Unread() == old(Unread()).(bits := Drop(old(gb), n))
    {
      v := XBits(gb, n);
      gb := Drop(gb, n);
    }

    /** The DC part of decode_i_block. */
    method DecodeDcCoefficient(block: array<int>) returns (ok: bool)
      requires Valid() && block.Length == 64
      modifies this`pre_gb, this`gb, this`last_dc, block
      ensures ok ==> Fixed().pad >= 0
      ensures var r := DecodeDc(Fixed(), old(Unread()), old(last_dc));
              && (ok <==> r.Some?)
              && (ok ==> block[..] == old(block[..])[0 := r.value.0] && (last_dc, Unread()) == r.value)
    {
      hide XBits, Int16, Drop, Sound, Symbols, Lookup;
      if |gb| < 2 {
        return false;
      }
      var val: int := GetVlc();
      if val / 16 != 0 {
        return false;
      }
      if val != 0 {
        val := GetXBits(val);
      } else {
        assert Drop(gb, 0) == gb by { DropNone(gb); }
      }
      val := val * dequant[0] + last_dc;
      block[0] := Int16(val);
      last_dc := block[0];
      return true;
    }

    /** The AC loop of decode_i_block. */
    method DecodeAcCoefficients(block: array<int>) returns (ok: bool)
      requires Valid() && Fixed().pad >= 0 && block.Length == 64
      modifies this`pre_gb, this`gb, block
      ensures var r := DecodeAc(Fixed(), old(Unread()), 1, old(block[..]));
              && (ok <==> r.Some?)
              && (ok ==> block[..] == r.value.0 && Unread() == r.value.1)
    {
      hide XBits, Int16, Drop, Sound, Symbols, Lookup;
      ghost var want := DecodeAc(Fixed(), Unread(), 1, block[..]);
      var i := 1;
      while true
        invariant i < 64 && want == DecodeAc(Fixed(), Unread(), i, block[..])
        decreases 64 - i
      {
        var code := GetVlc();
        if code == 0 {
          return true;
        }
        if code == 0xf0 {
          i := i + 16;
          if i >= 64 {
            return true;
          }
        } else {
          if code % 16 == 0 {
            return false;
          }
          var level := GetXBits(code % 16);
          i := i + code / 16;
          if i >= 64 {
            return true;
          }
          var j := zigzag[i];
          block[j] := Int16(level * dequant[j]);
          i := i + 1;
          if i >= 64 {
            return true;
          }
        }
      }
    }

    /** decode_i_block; the block has been cleared. */
    method DecodeIBlock(block: array<int>) returns (ok: bool)
      requires Valid() && block.Length == 64 && block[..] == Zeros()
      modifies this`pre_gb, this`gb, this`last_dc, block
      ensures var r := DecodeBlock(Fixed(), old(Unread()), old(last_dc));
              && (ok <==> r.Some?)
              && (ok ==> (block[..], last_dc, Unread()) == r.value)
    {
      hide DecodeDc, DecodeAc, Sound, Symbols, Lookup;
      ok := DecodeDcCoefficient(block);
      if ok {
        ok := DecodeAcCoefficients(block);
      }
    }

    /** The blocks of decode_i_mb, one macroblock of six after the other; each starts cleared. */
    method DecodeMacroblocks(n: nat) returns (ok: bool, blocks: seq<seq<int>>)
      requires Valid()
      modifies this`pre_gb, this`gb, this`last_dc
      ensures var r := DecodeBlocks(Fixed(), old(Unread()), old(last_dc), 6 * n);
              && (ok <==> r.Some?)
              && (ok ==> (blocks, Unread()) == r.value)
    {
      hide DecodeBlock, Sound, Symbols, Lookup;
      blocks := [];
      ghost var want := DecodeBlocks(Fixed(), Unread(), last_dc, 6 * n);
      PrependNothing(want);
      for i := 0 to 6 * n
        invariant |blocks| == i
        invariant want == Prepend(blocks, DecodeBlocks(Fixed(), Unread(), last_dc, 6 * n - i))
      {
        var block := new int[64](_ => 0);
        assert block[..] == Zeros();
        PrependStep(Fixed(), Unread(), last_dc, 6 * n - i, blocks);
        ok := DecodeIBlock(block);
        if !ok {
          return false, blocks;
        }
        blocks := blocks + [block[..]];
      }
      PrependEnd(blocks, Unread());
      ok := true;
    }

    /** The part of decode_i_frame after the tables: both streams, read from their starts. */
    method DecodeBoth(ghost t: CodeTable, code: Bits, bits: seq<bool>, n: nat)
      returns (r: Option<(seq<seq<int>>, bool)>)
      requires GoodOrder(zigzag, dequant) && Sound(t) && pre_vlc.Decodes(t)
      modifies this
      ensures r == DecodeFrame(zigzag, dequant, t, code, bits, n)
    {
      coding, pre_gb, gb, last_dc := t, code, bits, 0;
      var ok, blocks := DecodeMacroblocks(n);
      if !ok {
        return None;
      }
      var end := GetVlc();
      r := Some((blocks, end == 256));
    }

    /** What a frame with this table gives: nothing if its codes are refused. */
    ghost predicate FrameIs(t: CodeTable, code: seq<byte>, bitstream: seq<bool>, n: nat,
                            r: Option<(seq<seq<int>>, bool)>)
      requires GoodOrder(zigzag, dequant) && t.Valid()
    {
      if Refused(t) then r.None?
      else Sound(t) && r == DecodeFrame(zigzag, dequant, t, WordBits(code), bitstream, n)
    }

    /**
     * decode_i_frame for n macroblocks: the header, the blocks, and whether the symbol
     * after the last block is the one for the end. None for a refused header or malformed
     * blocks. A mismatch at the end is only reported.
     */
    method DecodeIFrame(prestream: seq<byte>, bitstream: seq<bool>, n: nat)
      returns (r: Option<(seq<seq<int>>, bool)>)
      requires GoodOrder(zigzag, dequant)
      modifies this, pre_vlc
      ensures ParseTable(prestream).None? ==> r.None?
      ensures ParseTable(prestream).Some? ==>
                var header := ParseTable(prestream).value;
                exists t :: && TableOf(header.freq, t) && t.Valid()
                            && FrameIs(t, Drop(prestream, header.ptr), bitstream, n, r)
    {
      var ptr := ReadHuffmanTables(prestream, pre_vlc);
      ghost var t;
      if ParseTable(prestream).Some? {
        var header := ParseTable(prestream).value;
        t :| && TableOf(header.freq, t)
             && (ptr == if AllCodedOf257(header.freq, t) then None else Some(header.ptr))
             && (ptr.Some? ==> Sound(t) && pre_vlc.Decodes(t));
        TableBuilt(header.freq, t);
        assert ptr.None? ==> FrameIs(t, Drop(prestream, header.ptr), bitstream, n, None);
      }
      if ptr.None? {
        return None;
      }
      r := DecodeBoth(t, WordBits(Drop(prestream, ptr.value)), bitstream, n);
      assert FrameIs(t, Drop(prestream, ptr.value), bitstream, n, r);
    }
  }
}
