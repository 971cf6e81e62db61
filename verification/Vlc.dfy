/**
 * Variable-length codes, as init_vlc is given them (bitstream.c), and what decoding with
 * them means: the greedy lookup of a prefix-free code, one symbol after the other.
 */
module Vlc {
  import opened Binary

  /** nb_bits: the bits looked up at once. */
  const VLC_BITS: nat := 9
  /** Three levels of tables. */
  const MAX_LEN: nat := 3 * VLC_BITS

  /** The lengths and codewords of the symbols; no codeword where the length is 0. */
  datatype CodeTable = CodeTable(lens: seq<nat>, bits: seq<nat>) {
    predicate Valid() {
      |lens| == |bits|
    }

    /** No codeword is too long, or too large for its length. */
    predicate WellFormed() {
      Valid() && forall s :: 0 <= s < |lens| && lens[s] > 0 ==> lens[s] <= MAX_LEN && bits[s] < Pow2(lens[s])
    }

    predicate Coded(s: nat)
      requires Valid()
    {
      s < |lens| && lens[s] > 0
    }

    /** The codeword of a symbol, first bit first. */
    function Codeword(s: nat): (c: Bits)
      requires Valid() && s < |lens|
      ensures |c| == lens[s]
    {
      BitsOf(bits[s], lens[s])
    }
  }

  predicate Comparable(p: Bits, q: Bits) {
    p <= q || q <= p
  }

  /** The number of tables above that of a codeword. */
  function Level(len: nat): (n: nat)
    requires len > 0
    ensures n == 0 <==> len <= VLC_BITS
  {
    (len - 1) / VLC_BITS
  }

  /**
   * Two codewords of which one begins the other, both for tables of one level or the first
   * for the top level.
   */
  predicate Clash(t: CodeTable, s: nat, x: nat)
    requires t.Valid()
  {
    && s != x && t.Coded(s) && t.Coded(x) && Comparable(t.Codeword(s), t.Codeword(x))
    && (t.lens[s] <= VLC_BITS || Level(t.lens[s]) == Level(t.lens[x]))
  }

  ghost predicate Refused(t: CodeTable)
    requires t.Valid()
  {
    exists s: nat, x: nat :: Clash(t, s, x)
  }

  /** With at most two levels of tables, codes without a clash are the prefix-free ones. */
  lemma RefusedIff(t: CodeTable)
    requires t.Valid() && forall s :: 0 <= s < |t.lens| ==> t.lens[s] <= 2 * VLC_BITS
    ensures Refused(t) <==> !PrefixFreeCodes(t)
  {
    if s: nat, x: nat :| t.Coded(s) && t.Coded(x) && s != x && t.Codeword(s) <= t.Codeword(x) {
      assert Clash(t, s, x);
    }
  }

  // ---- decoding -------------------------------------------------------------------------

  predicate Begins(t: CodeTable, s: nat, stream: Bits)
    requires t.Valid()
  {
    t.Coded(s) && t.Codeword(s) <= stream
  }

  ghost predicate SomeBegins(t: CodeTable, stream: Bits)
    requires t.Valid()
  {
    exists s: nat :: Begins(t, s, stream)
  }

  predicate HasCodes(t: CodeTable)
    requires t.Valid()
  {
    exists s: nat :: s < |t.lens| && t.Coded(s)
  }

  ghost predicate PrefixFreeCodes(t: CodeTable)
    requires t.Valid()
  {
    forall s: nat, x: nat :: t.Coded(s) && t.Coded(x) && s != x ==> !(t.Codeword(s) <= t.Codeword(x))
  }

  /** Unless there are none, some codeword begins every long enough stream. */
  ghost predicate Complete(t: CodeTable)
    requires t.Valid()
  {
    HasCodes(t) ==> forall stream: Bits :: |stream| >= MAX_LEN ==> SomeBegins(t, stream)
  }

  ghost predicate Sound(t: CodeTable) {
    t.WellFormed() && PrefixFreeCodes(t) && Complete(t)
  }

  function FirstMatch(t: CodeTable, stream: Bits, s: nat): (r: int)
    requires t.Valid() && s <= |t.lens|
    ensures -1 <= r < |t.lens| && (r >= 0 ==> Begins(t, r, stream))
    ensures r == -1 ==> forall x: nat :: x >= s ==> !Begins(t, x, stream)
    decreases |t.lens| - s
  {
    if s == |t.lens| then -1 else if Begins(t, s, stream) then s else FirstMatch(t, stream, s + 1)
  }

  /** The symbol whose codeword comes next, with zeros past the end; -1 if there is none. */
  function Lookup(t: CodeTable, stream: Bits): (r: int)
    requires t.Valid()
    ensures -1 <= r < |t.lens| && (r >= 0 ==> t.Coded(r))
  {
    FirstMatch(t, stream + seq(MAX_LEN, _ => false), 0)
  }

  /** The codeword that comes next decides the symbol. */
  lemma LookupFinds(t: CodeTable, s: nat, rest: Bits)
    requires t.Valid() && PrefixFreeCodes(t) && t.Coded(s)
    ensures Lookup(t, t.Codeword(s) + rest) == s
  {
    var stream := t.Codeword(s) + rest + seq(MAX_LEN, _ => false);
    assert Begins(t, s, stream);
    var r := FirstMatch(t, stream, 0);
    assert r >= 0;
    if r != s {
      PrefixesComparable(t.Codeword(r), t.Codeword(s), stream);
    }
  }

  /** A lookup fails exactly if no symbol has a codeword. */
  lemma LookupFailsIff(t: CodeTable, stream: Bits)
    requires Sound(t)
    ensures Lookup(t, stream) == -1 <==> !HasCodes(t)
  {
    var padded := stream + seq(MAX_LEN, _ => false);
    if HasCodes(t) {
      assert SomeBegins(t, padded);
    }
  }

  /** All that a stream is decoded to before its end. */
  function Symbols(t: CodeTable, stream: Bits): (symbols: seq<nat>)
    requires t.Valid()
    decreases |stream|
  {
    var s := Lookup(t, stream);
    if stream == [] || s < 0 then [] else [s] + Symbols(t, Drop(stream, t.lens[s]))
  }

  predicate AllCoded(t: CodeTable, symbols: seq<nat>)
    requires t.Valid()
  {
    forall i :: 0 <= i < |symbols| ==> symbols[i] < |t.lens| && t.Coded(symbols[i])
  }

  function Encode(t: CodeTable, symbols: seq<nat>): (stream: Bits)
    requires t.Valid() && AllCoded(t, symbols)
  {
    if symbols == [] then [] else t.Codeword(symbols[0]) + Encode(t, symbols[1..])
  }

  lemma DecodeFirst(t: CodeTable, s: nat, rest: Bits)
    requires t.Valid() && PrefixFreeCodes(t) && t.Coded(s)
    ensures Symbols(t, t.Codeword(s) + rest) == [s] + Symbols(t, rest)
  {
    var stream := t.Codeword(s) + rest;
    LookupFinds(t, s, rest);
    hide Lookup, PrefixFreeCodes;
    assert Drop(stream, t.lens[s]) == rest;
  }

  /** Decoding a concatenation of codewords, whatever bits follow, gives the symbols that were coded. */
  lemma {:induction false} DecodeEncoded(t: CodeTable, symbols: seq<nat>, tail: Bits)
    requires t.Valid() && PrefixFreeCodes(t) && AllCoded(t, symbols)
    ensures Symbols(t, Encode(t, symbols) + tail) == symbols + Symbols(t, tail)
    decreases |symbols|
  {
    hide Symbols, PrefixFreeCodes;
    if symbols == [] {
      assert Encode(t, symbols) + tail == tail;
    } else {
      var rest := Encode(t, symbols[1..]) + tail;
      assert Encode(t, symbols) + tail == t.Codeword(symbols[0]) + rest;
      DecodeFirst(t, symbols[0], rest);
      DecodeEncoded(t, symbols[1..], tail);
      assert symbols == [symbols[0]] + symbols[1..];
    }
  }
}
