/**
 * The encoder's side of the P frames (4xm.c, decode_p_block): split trees written out as
 * codewords, bytes and words. Whatever is written is parsed back, and any picture at all
 * can be sent.
 */
module BlockCoder {
  import opened Binary
  import opened MotionCopy
  import opened Picture
  import opened PFrame
  import opened Wrappers

  /** A block as it is coded. */
  datatype Coded =
    | Halves(top: Coded, bottom: Coded)
    | Sides(left: Coded, right: Coded)
    | Same
    | Moved(vector: byte)
    | MovedPlus(vector: byte, dc: word)
    | Filled(dc: word)
    | Pair(first: word, second: word)

  /** What a coded block means; before version 2 a block that stays the same is copied. */
  function Meaning(cfg: Config, c: Coded): (b: Block)
    requires |cfg.mv| == 256
  {
    match c
    case Halves(top, bottom) => Rows(Meaning(cfg, top), Meaning(cfg, bottom))
    case Sides(left, right) => Cols(Meaning(cfg, left), Meaning(cfg, right))
    case Same => if cfg.version >= 2 then Keep else Move(0, 1, 0)
    case Moved(vector) => Move(cfg.mv[vector], 1, 0)
    case MovedPlus(vector, dc) => Move(cfg.mv[vector], 1, dc)
    case Filled(dc) => Move(0, 0, dc)
    case Pair(first, second) => Raw(first, second)
  }

  function CodeOf(c: Coded): (code: nat)
    ensures code <= 6
  {
    match c
    case Moved(_) => 0
    case Halves(_, _) => 1
    case Sides(_, _) => 2
    case Same => 3
    case MovedPlus(_, _) => 4
    case Filled(_) => 5
    case Pair(_, _) => 6
  }

  // ---- the codewords ------------------------------------------------------------------------

  /** Of version 2 on. */
  function NewWord(log2w: nat, log2h: nat, code: nat): (w: Bits) {
    if log2w + log2h == 1 then
      match code
      case 0 => [false]
      case 3 => [true, false]
      case 4 => [true, true, false]
      case 5 => [true, true, true, false]
      case _ => [true, true, true, true]
    else if log2h == 0 then
      match code
      case 0 => [false]
      case 2 => [true, false]
      case 3 => [true, true, false]
      case 4 => [true, true, true, false]
      case _ => [true, true, true, true]
    else if log2w == 0 then
      match code
      case 0 => [false]
      case 1 => [true, false]
      case 3 => [true, true, false]
      case 4 => [true, true, true, false]
      case _ => [true, true, true, true]
    else
      match code
      case 0 => [false]
      case 1 => [true, false]
      case 2 => [true, true, false]
      case 3 => [true, true, true, false]
      case 4 => [true, true, true, true, false]
      case _ => [true, true, true, true, true]
  }

  /** Before version 2. */
  function OldWord(log2w: nat, log2h: nat, code: nat): (w: Bits) {
    if code == 0 then [false, true]
    else if code == 3 then [false, false]
    else if log2w + log2h == 1 then
      match code
      case 4 => [true, false]
      case 5 => [true, true, false]
      case _ => [true, true, true]
    else if code == 4 then [true, true, false]
    else if code == 5 then [true, true, true]
    else if log2w == 0 || log2h == 0 then [true, false]
    else if code == 1 then [true, false, false]
    else [true, false, true]
  }

  function CodeWord(version: int, log2w: nat, log2h: nat, code: nat): (w: Bits) {
    if version >= 2 then NewWord(log2w, log2h, code) else OldWord(log2w, log2h, code)
  }

  /** May a block of this size have the code? */
  predicate Legal(log2w: nat, log2h: nat, code: nat) {
    && log2w <= 3 && log2h <= 3 && log2w + log2h >= 1 && code <= 6
    && (code == 1 ==> log2h >= 1 && log2w + log2h >= 2)
    && (code == 2 ==> log2w >= 1 && log2w + log2h >= 2)
    && (code == 6 ==> log2w + log2h == 1)
  }

  lemma {:induction false} NumberOfWord(w: Bits, rest: Bits)
    ensures Number(w + rest, |w|) == Value(w)
  {
    if w != [] {
      var n := |w| - 1;
      assert w + rest == w[..n] + ([w[n]] + rest);
      NumberOfWord(w[..n], [w[n]] + rest);
    }
  }

  /** The number that one bit more makes. */
  lemma ValueNext(w: Bits, b: bool)
    ensures Value(w + [b]) == 2 * Value(w) + if b then 1 else 0
  {
    assert (w + [b])[..|w|] == w;
  }

  function Bit(b: bool): (r: nat) {
    if b then 1 else 0
  }

  lemma ShortValues(a: bool, b: bool, c: bool, d: bool, e: bool)
    ensures Value([a]) == Bit(a) && Value([a, b]) == 2 * Bit(a) + Bit(b)
    ensures Value([a, b, c]) == 4 * Bit(a) + 2 * Bit(b) + Bit(c)
    ensures Value([a, b, c, d]) == 8 * Bit(a) + 4 * Bit(b) + 2 * Bit(c) + Bit(d)
    ensures Value([a, b, c, d, e]) == 16 * Bit(a) + 8 * Bit(b) + 4 * Bit(c) + 2 * Bit(d) + Bit(e)
  {
    hide Value;
    ValueOfNone();
    ValueNext([], a);
    ValueNext([a], b);
    ValueNext([a, b], c);
    ValueNext([a, b, c], d);
    ValueNext([a, b, c, d], e);
    assert [] + [a] == [a] && [a] + [b] == [a, b] && [a, b] + [c] == [a, b, c];
    assert [a, b, c] + [d] == [a, b, c, d] && [a, b, c, d] + [e] == [a, b, c, d, e];
  }

  lemma ValueOfNone()
    ensures Value([]) == 0
  {
  }

  /** The first bits of five. */
  lemma TopBitsAre(bits: Bits, len: nat)
    requires 1 <= len <= 5
    ensures TopBits(Number(bits, 5), len) == Number(bits, len)
  {
    assert Number(bits, 5) / 2 == Number(bits, 4);
    assert Number(bits, 4) / 2 == Number(bits, 3);
    assert Number(bits, 3) / 2 == Number(bits, 2);
    assert Number(bits, 2) / 2 == Number(bits, 1);
  }

  /** The codewords are those of the tables. */
  lemma WordIsEntry(version: int, log2w: nat, log2h: nat, code: nat)
    requires Legal(log2w, log2h, code)
    ensures var t := if version > 1 then 0 else 1;
            var w := CodeWord(version, log2w, log2h, code);
            1 <= |w| <= 5 && BlockTypeTab(t, Size2Index(log2h, log2w))[code] == (Value(w), |w|)
  {
    ShortValues(false, false, false, false, false);
    ShortValues(false, true, false, false, false);
    ShortValues(true, false, false, false, false);
    ShortValues(true, false, true, false, false);
    ShortValues(true, true, false, false, false);
    ShortValues(true, true, true, false, false);
    ShortValues(true, true, true, true, false);
    ShortValues(true, true, true, true, true);
    hide Value;
  }

  /** A codeword is read back, whatever follows. */
  lemma WordRead(version: int, log2w: nat, log2h: nat, code: nat, rest: Bits)
    requires Legal(log2w, log2h, code)
    ensures var w := CodeWord(version, log2w, log2h, code);
            |w| >= 1 && BlockCode(version, w + rest, log2w, log2h) == (code, |w|) && Drop(w + rest, |w|) == rest
  {
    var w, t := CodeWord(version, log2w, log2h, code), if version > 1 then 0 else 1;
    WordIsEntry(version, log2w, log2h, code);
    NumberOfWord(w, rest);
    TopBitsAre(w + rest, |w|);
    NumberBelow(w + rest);
    BlockTypesComplete(t, log2h, log2w, Number(w + rest, 5));
    hide CodeWord, Number, Value, TopBits, BlockTypeTab, Size2Index, GetVlc;
  }

  lemma NumberBelow(bits: Bits)
    ensures Number(bits, 5) < 32
  {
    assert Pow2(5) == 32;
  }

  // ---- blocks ---------------------------------------------------------------------------------

  function Append(a: Input, b: Input): (r: Input) {
    Input(a.bits + b.bits, a.bytes + b.bytes, a.words + b.words)
  }

  /** Low byte first. */
  function PrintWord(w: word): (r: seq<byte>)
    ensures |r| == 2
  {
    [w % 256, w / 256]
  }

  /** What a block has in the byte stream and the word stream. */
  function PrintLeaf(c: Coded): (r: Input) {
    match c
    case Moved(vector) => Input([], [vector], [])
    case MovedPlus(vector, dc) => Input([], [vector], PrintWord(dc))
    case Filled(dc) => Input([], [], PrintWord(dc))
    case Pair(first, second) => Input([], [], PrintWord(first) + PrintWord(second))
    case _ => Input([], [], [])
  }

  /** A block of size (log2w, log2h): its codeword, and then its halves or what the leaf needs. */
  function Print(version: int, c: Coded, log2w: nat, log2h: nat): (r: Input)
    decreases c
  {
    var word := Input(CodeWord(version, log2w, log2h, CodeOf(c)), [], []);
    match c
    case Halves(top, bottom) =>
      if log2h == 0 then word
      else Append(word, Append(Print(version, top, log2w, log2h - 1), Print(version, bottom, log2w, log2h - 1)))
    case Sides(left, right) =>
      if log2w == 0 then word
      else Append(word, Append(Print(version, left, log2w - 1, log2h), Print(version, right, log2w - 1, log2h)))
    case _ => Append(word, PrintLeaf(c))
  }

  lemma WordBack(w: word, rest: seq<byte>)
    ensures var s := PrintWord(w) + rest; |s| >= 2 && Le16(s) == w && s[2..] == rest
  {
  }

  /** What is appended to a leaf's bytes and words. */
  lemma LeafAppended(c: Coded, rest: Input)
    ensures var inp, p := Append(PrintLeaf(c), rest), PrintLeaf(c);
            && inp.bits == rest.bits
            && |inp.bytes| == |p.bytes| + |rest.bytes| && inp.bytes[|p.bytes|..] == rest.bytes
            && |inp.words| == |p.words| + |rest.words| && inp.words[|p.words|..] == rest.words
            && (c.Moved? || c.MovedPlus? ==> |p.bytes| == 1 && inp.bytes[0] == c.vector)
            && (c.MovedPlus? || c.Filled? ==> |p.words| == 2 && Le16(inp.words) == c.dc)
            && (c.Pair? ==> |p.words| == 4 && Le16(inp.words) == c.first && Le16(inp.words[2..]) == c.second)
            && (c.Same? || c.Filled? || c.Pair? ==> p.bytes == [])
            && (c.Same? || c.Moved? ==> p.words == [])
  {
    hide Le16;
    var inp := Append(PrintLeaf(c), rest);
    match c
    case Pair(first, second) =>
      assert inp.words == PrintWord(first) + (PrintWord(second) + rest.words);
      WordBack(first, PrintWord(second) + rest.words);
      WordBack(second, rest.words);
    case MovedPlus(_, dc) =>
      WordBack(dc, rest.words);
    case Filled(dc) =>
      WordBack(dc, rest.words);
    case _ =>
  }

  lemma LeafParsed(cfg: Config, c: Coded, log2w: nat, log2h: nat, y: nat, x: nat, rest: Input)
    requires |cfg.mv| == 256 && !c.Halves? && !c.Sides? && Fits(cfg, Meaning(cfg, c), log2w, log2h, y, x)
    ensures ParseLeaf(cfg, Append(PrintLeaf(c), rest), CodeOf(c), log2w, log2h, y, x) == Some((Meaning(cfg, c), rest))
  {
    LeafAppended(c, rest);
    hide InRange, Flat, Pow2, Le16, PrintLeaf, Append;
  }

  lemma AppendMany(a: Input, b: Input, c: Input)
    ensures Append(Append(a, b), c) == Append(a, Append(b, c))
  {
  }

  /** A block that fits has a code for its size. */
  lemma FitsLegal(cfg: Config, c: Coded, log2w: nat, log2h: nat, y: nat, x: nat)
    requires |cfg.mv| == 256 && log2w <= 3 && log2h <= 3 && Fits(cfg, Meaning(cfg, c), log2w, log2h, y, x)
    ensures Legal(log2w, log2h, CodeOf(c))
  {
    hide InRange, Flat;
  }

  /** Parsing begins with the codeword, and goes on as the code says. */
  lemma BlockBegins(cfg: Config, c: Coded, log2w: nat, log2h: nat, y: nat, x: nat, after: Input)
    requires |cfg.mv| == 256 && Legal(log2w, log2h, CodeOf(c))
    ensures Parse(cfg, Append(WordOf(cfg.version, c, log2w, log2h), after), log2w, log2h, y, x) ==
              match c
              case Halves(_, _) => ParseRows(cfg, after, log2w, log2h, y, x)
              case Sides(_, _) => ParseCols(cfg, after, log2w, log2h, y, x)
              case _ => ParseLeaf(cfg, after, CodeOf(c), log2w, log2h, y, x)
  {
    var code := CodeOf(c);
    var w := CodeWord(cfg.version, log2w, log2h, code);
    WordRead(cfg.version, log2w, log2h, code, after.bits);
    var inp := Append(Input(w, [], []), after);
    assert inp.bits == w + after.bits && inp.bytes == after.bytes && inp.words == after.words;
    hide CodeWord, BlockCode, ParseRows, ParseCols, ParseLeaf, Drop;
    assert inp.(bits := Drop(inp.bits, |w|)) == after;
  }

  function WordOf(version: int, c: Coded, log2w: nat, log2h: nat): (r: Input) {
    Input(CodeWord(version, log2w, log2h, CodeOf(c)), [], [])
  }

  lemma PrintIs(cfg: Config, c: Coded, log2w: nat, log2h: nat)
    requires |cfg.mv| == 256 && Legal(log2w, log2h, CodeOf(c))
    ensures var word := WordOf(cfg.version, c, log2w, log2h);
            match c
            case Halves(top, bottom) =>
              && log2h >= 1 && log2w + log2h >= 2 && Meaning(cfg, c) == Rows(Meaning(cfg, top), Meaning(cfg, bottom))
              && Print(cfg.version, c, log2w, log2h) ==
                   Append(word, Append(Print(cfg.version, top, log2w, log2h - 1),
                                       Print(cfg.version, bottom, log2w, log2h - 1)))
            case Sides(left, right) =>
              && log2w >= 1 && log2w + log2h >= 2 && Meaning(cfg, c) == Cols(Meaning(cfg, left), Meaning(cfg, right))
              && Print(cfg.version, c, log2w, log2h) ==
                   Append(word, Append(Print(cfg.version, left, log2w - 1, log2h),
                                       Print(cfg.version, right, log2w - 1, log2h)))
            case _ => Print(cfg.version, c, log2w, log2h) == Append(word, PrintLeaf(c))
  {
    hide CodeWord, Append;
  }

  lemma AppendTwo(a: Input, b: Input, c: Input, d: Input)
    ensures Append(Append(a, Append(b, c)), d) == Append(a, Append(b, Append(c, d)))
  {
    AppendMany(a, Append(b, c), d);
    AppendMany(b, c, d);
  }

  lemma RowsBoth(cfg: Config, inp: Input, log2w: nat, log2h: nat, y: nat, x: nat, mid: Input,
                 b1: Block, b2: Block, rest: Input)
    requires |cfg.mv| == 256 && log2w <= 3 && 1 <= log2h <= 3 && log2w + log2h >= 2
    requires Parse(cfg, inp, log2w, log2h - 1, y, x) == Some((b1, mid))
    requires Parse(cfg, mid, log2w, log2h - 1, y + Pow2(log2h - 1), x) == Some((b2, rest))
    ensures ParseRows(cfg, inp, log2w, log2h, y, x) == Some((Rows(b1, b2), rest))
  {
    hide Parse, Fits;
  }

  lemma ColsBoth(cfg: Config, inp: Input, log2w: nat, log2h: nat, y: nat, x: nat, mid: Input,
                 b1: Block, b2: Block, rest: Input)
    requires |cfg.mv| == 256 && 1 <= log2w <= 3 && log2h <= 3 && log2w + log2h >= 2
    requires Parse(cfg, inp, log2w - 1, log2h, y, x) == Some((b1, mid))
    requires Parse(cfg, mid, log2w - 1, log2h, y, x + Pow2(log2w - 1)) == Some((b2, rest))
    ensures ParseCols(cfg, inp, log2w, log2h, y, x) == Some((Cols(b1, b2), rest))
  {
    hide Parse, Fits;
  }

  lemma HalvesParsed(cfg: Config, c: Coded, log2w: nat, log2h: nat, y: nat, x: nat, p1: Input, p2: Input, rest: Input)
    requires |cfg.mv| == 256 && Legal(log2w, log2h, CodeOf(c)) && c.Halves?
    requires log2w <= 3 && 1 <= log2h <= 3 && log2w + log2h >= 2
    requires p1 == Print(cfg.version, c.top, log2w, log2h - 1) && p2 == Print(cfg.version, c.bottom, log2w, log2h - 1)
    requires Parse(cfg, Append(p1, Append(p2, rest)), log2w, log2h - 1, y, x)
          == Some((Meaning(cfg, c.top), Append(p2, rest)))
    requires Parse(cfg, Append(p2, rest), log2w, log2h - 1, y + Pow2(log2h - 1), x)
          == Some((Meaning(cfg, c.bottom), rest))
    ensures Parse(cfg, Append(Print(cfg.version, c, log2w, log2h), rest), log2w, log2h, y, x)
         == Some((Meaning(cfg, c), rest))
  {
    hide *;
    PrintIs(cfg, c, log2w, log2h);
    AppendTwo(WordOf(cfg.version, c, log2w, log2h), p1, p2, rest);
    BlockBegins(cfg, c, log2w, log2h, y, x, Append(p1, Append(p2, rest)));
    RowsBoth(cfg, Append(p1, Append(p2, rest)), log2w, log2h, y, x, Append(p2, rest),
             Meaning(cfg, c.top), Meaning(cfg, c.bottom), rest);
  }

  lemma SidesParsed(cfg: Config, c: Coded, log2w: nat, log2h: nat, y: nat, x: nat, p1: Input, p2: Input, rest: Input)
    requires |cfg.mv| == 256 && Legal(log2w, log2h, CodeOf(c)) && c.Sides?
    requires 1 <= log2w <= 3 && log2h <= 3 && log2w + log2h >= 2
    requires p1 == Print(cfg.version, c.left, log2w - 1, log2h) && p2 == Print(cfg.version, c.right, log2w - 1, log2h)
    requires Parse(cfg, Append(p1, Append(p2, rest)), log2w - 1, log2h, y, x)
          == Some((Meaning(cfg, c.left), Append(p2, rest)))
    requires Parse(cfg, Append(p2, rest), log2w - 1, log2h, y, x + Pow2(log2w - 1))
          == Some((Meaning(cfg, c.right), rest))
    ensures Parse(cfg, Append(Print(cfg.version, c, log2w, log2h), rest), log2w, log2h, y, x)
         == Some((Meaning(cfg, c), rest))
  {
    hide *;
    PrintIs(cfg, c, log2w, log2h);
    AppendTwo(WordOf(cfg.version, c, log2w, log2h), p1, p2, rest);
    BlockBegins(cfg, c, log2w, log2h, y, x, Append(p1, Append(p2, rest)));
    ColsBoth(cfg, Append(p1, Append(p2, rest)), log2w, log2h, y, x, Append(p2, rest),
             Meaning(cfg, c.left), Meaning(cfg, c.right), rest);
  }

  lemma SinglesParsed(cfg: Config, c: Coded, log2w: nat, log2h: nat, y: nat, x: nat, rest: Input)
    requires |cfg.mv| == 256 && Legal(log2w, log2h, CodeOf(c)) && !c.Halves? && !c.Sides?
    requires log2w <= 3 && log2h <= 3 && log2w + log2h >= 1
    requires Fits(cfg, Meaning(cfg, c), log2w, log2h, y, x)
    ensures Parse(cfg, Append(Print(cfg.version, c, log2w, log2h), rest), log2w, log2h, y, x)
         == Some((Meaning(cfg, c), rest))
  {
    PrintIs(cfg, c, log2w, log2h);
    hide *;
    AppendMany(WordOf(cfg.version, c, log2w, log2h), PrintLeaf(c), rest);
    BlockBegins(cfg, c, log2w, log2h, y, x, Append(PrintLeaf(c), rest));
    LeafParsed(cfg, c, log2w, log2h, y, x, rest);
  }

  lemma PartsFit(cfg: Config, c: Coded, log2w: nat, log2h: nat, y: nat, x: nat)
    requires |cfg.mv| == 256 && Fits(cfg, Meaning(cfg, c), log2w, log2h, y, x)
    ensures c.Halves? ==> && log2h >= 1 && log2w + log2h >= 2
                          && Fits(cfg, Meaning(cfg, c.top), log2w, log2h - 1, y, x)
                          && Fits(cfg, Meaning(cfg, c.bottom), log2w, log2h - 1, y + Pow2(log2h - 1), x)
    ensures c.Sides? ==> && log2w >= 1 && log2w + log2h >= 2
                         && Fits(cfg, Meaning(cfg, c.left), log2w - 1, log2h, y, x)
                         && Fits(cfg, Meaning(cfg, c.right), log2w - 1, log2h, y, x + Pow2(log2w - 1))
  {
    hide InRange, Flat, Pow2;
  }

  /**
   * Every split tree that fits its block, whatever its leaves are, is parsed as what it
   * means, and leaves what follows.
   */
  lemma {:induction false} PrintedParsed(cfg: Config, c: Coded, log2w: nat, log2h: nat, y: nat, x: nat, rest: Input)
    requires |cfg.mv| == 256 && log2w <= 3 && log2h <= 3 && log2w + log2h >= 1
    requires Fits(cfg, Meaning(cfg, c), log2w, log2h, y, x)
    ensures Parse(cfg, Append(Print(cfg.version, c, log2w, log2h), rest), log2w, log2h, y, x)
         == Some((Meaning(cfg, c), rest))
    decreases c
  {
    hide *;
    var v := cfg.version;
    FitsLegal(cfg, c, log2w, log2h, y, x);
    PartsFit(cfg, c, log2w, log2h, y, x);
    match c
    case Halves(top, bottom) =>
      var p1, p2 := Print(v, top, log2w, log2h - 1), Print(v, bottom, log2w, log2h - 1);
      PrintedParsed(cfg, top, log2w, log2h - 1, y, x, Append(p2, rest));
      PrintedParsed(cfg, bottom, log2w, log2h - 1, y + Pow2(log2h - 1), x, rest);
      HalvesParsed(cfg, c, log2w, log2h, y, x, p1, p2, rest);
    case Sides(left, right) =>
      var p1, p2 := Print(v, left, log2w - 1, log2h), Print(v, right, log2w - 1, log2h);
      PrintedParsed(cfg, left, log2w - 1, log2h, y, x, Append(p2, rest));
      PrintedParsed(cfg, right, log2w - 1, log2h, y, x + Pow2(log2w - 1), rest);
      SidesParsed(cfg, c, log2w, log2h, y, x, p1, p2, rest);
    case _ =>
      SinglesParsed(cfg, c, log2w, log2h, y, x, rest);
  }

  // ---- whatever is parsed was written --------------------------------------------------------

  /** The zeros that are read past the end of the bits. */
  function Zeros(n: nat): (r: Bits)
    ensures |r| == n
  {
    seq(n, _ => false)
  }

  lemma {:induction false} NumberPadded(bits: Bits, k: nat, n: nat)
    ensures Number(bits + Zeros(k), n) == Number(bits, n)
  {
    if n > 0 {
      NumberPadded(bits, k, n - 1);
    }
  }

  /** Strings of one length with one value are the same. */
  lemma SameValue(a: Bits, b: Bits)
    requires |a| == |b| && Value(a) == Value(b)
    ensures a == b
  {
    BitsOfValue(a);
    BitsOfValue(b);
  }

  function Missing(bits: Bits, len: nat): (n: nat) {
    if len > |bits| then len - |bits| else 0
  }

  lemma CodeMatches(version: int, bits: Bits, log2w: nat, log2h: nat)
    requires log2w <= 3 && log2h <= 3 && log2w + log2h >= 1
    ensures var (code, len) := BlockCode(version, bits, log2w, log2h);
            var w := CodeWord(version, log2w, log2h, code);
            Legal(log2w, log2h, code) && |w| == len >= 1 && Number(bits, len) == Value(w)
  {
    var t := if version > 1 then 0 else 1;
    var (code, len) := BlockCode(version, bits, log2w, log2h);
    NumberBelow(bits);
    BlockTypesComplete(t, log2h, log2w, Number(bits, 5));
    WordIsEntry(version, log2w, log2h, code);
    TopBitsAre(bits, len);
    hide CodeWord, Number, Value, BlockTypeTab, Size2Index, GetVlc, TopBits;
  }

  /** The bits that are taken for a code are its codeword, with zeros past the end. */
  lemma WordTaken(version: int, bits: Bits, log2w: nat, log2h: nat)
    requires log2w <= 3 && log2h <= 3 && log2w + log2h >= 1
    ensures var (code, len) := BlockCode(version, bits, log2w, log2h);
            var w := CodeWord(version, log2w, log2h, code);
            && Legal(log2w, log2h, code) && |w| == len >= 1
            && bits + Zeros(Missing(bits, len)) == w + Drop(bits, len)
  {
    var (code, len) := BlockCode(version, bits, log2w, log2h);
    CodeMatches(version, bits, log2w, log2h);
    hide *;
    NumberPadded(bits, Missing(bits, len), len);
    PaddedEnough(bits, len);
    WordFirst(bits + Zeros(Missing(bits, len)), CodeWord(version, log2w, log2h, code));
  }

  /** A string begins with the bits that have the value of its first ones. */
  lemma WordFirst(s: Bits, w: Bits)
    requires |s| >= |w| && Number(s, |w|) == Value(w)
    ensures s == w + s[|w|..]
  {
    hide *;
    assert s == s[..|w|] + s[|w|..];
    NumberOfWord(s[..|w|], s[|w|..]);
    SameValue(s[..|w|], w);
  }

  lemma PaddedEnough(bits: Bits, len: nat)
    ensures var padded := bits + Zeros(Missing(bits, len));
            |padded| >= len && padded[len..] == Drop(bits, len)
  {
  }

  /** The leaf with this code, by what comes next. */
  function LeafOf(code: nat, inp: Input): (c: Coded)
    requires code <= 6 && code != 1 && code != 2
    requires code == 0 || code == 4 ==> inp.bytes != []
    requires code == 4 || code == 5 ==> |inp.words| >= 2
    requires code == 6 ==> |inp.words| >= 4
    ensures CodeOf(c) == code
  {
    if code == 0 then Moved(inp.bytes[0])
    else if code == 3 then Same
    else if code == 4 then MovedPlus(inp.bytes[0], Le16(inp.words))
    else if code == 5 then Filled(Le16(inp.words))
    else Pair(Le16(inp.words), Le16(inp.words[2..]))
  }

  lemma WordThere(s: seq<byte>)
    requires |s| >= 2
    ensures PrintWord(Le16(s)) + s[2..] == s
  {
  }

  lemma LeafTaken(cfg: Config, inp: Input, code: nat, log2w: nat, log2h: nat, y: nat, x: nat) returns (c: Coded)
    requires |cfg.mv| == 256 && Legal(log2w, log2h, code) && code != 1 && code != 2
    requires ParseLeaf(cfg, inp, code, log2w, log2h, y, x).Some?
    ensures CodeOf(c) == code
    ensures var r := ParseLeaf(cfg, inp, code, log2w, log2h, y, x).value;
            r.0 == Meaning(cfg, c) && inp == Append(PrintLeaf(c), r.1) && r.1.bits == inp.bits
  {
    hide InRange, Flat, Pow2, Le16, PrintWord;
    c := LeafOf(code, inp);
    if code == 4 || code == 5 || code == 6 {
      WordThere(inp.words);
    }
    if code == 6 {
      WordThere(inp.words[2..]);
      PairThere(inp.words);
    }
  }

  lemma PairThere(s: seq<byte>)
    requires |s| >= 4
    ensures (PrintWord(Le16(s)) + PrintWord(Le16(s[2..]))) + s[4..] == s
  {
    WordThere(s);
    WordThere(s[2..]);
    assert s[2..][2..] == s[4..];
  }

  function Padding(n: nat): (r: Input) {
    Input(Zeros(n), [], [])
  }

  lemma NoPadding(inp: Input)
    ensures Append(inp, Padding(0)) == inp
  {
  }

  /** A block's codeword comes off, and its bits run out only with that of a leaf. */
  lemma BlockTaken(cfg: Config, inp: Input, log2w: nat, log2h: nat, y: nat, x: nat)
    returns (code: nat, after: Input, pad: nat)
    requires |cfg.mv| == 256 && log2w <= 3 && log2h <= 3 && log2w + log2h >= 1
    requires Parse(cfg, inp, log2w, log2h, y, x).Some?
    ensures Legal(log2w, log2h, code)
    ensures Append(inp, Padding(pad)) == Append(Input(CodeWord(cfg.version, log2w, log2h, code), [], []), after)
    ensures pad > 0 ==> after.bits == [] && code != 1 && code != 2
    ensures Parse(cfg, inp, log2w, log2h, y, x) ==
            if code == 1 then ParseRows(cfg, after, log2w, log2h, y, x)
            else if code == 2 then ParseCols(cfg, after, log2w, log2h, y, x)
            else ParseLeaf(cfg, after, code, log2w, log2h, y, x)
  {
    var (c, len) := BlockCode(cfg.version, inp.bits, log2w, log2h);
    code := c;
    after, pad := inp.(bits := Drop(inp.bits, len)), Missing(inp.bits, len);
    WordTaken(cfg.version, inp.bits, log2w, log2h);
    if pad > 0 && (code == 1 || code == 2) {
      NoBits(cfg, after, log2w, log2h, y, x);
    }
    hide CodeWord, BlockCode, Parse, ParseRows, ParseCols, ParseLeaf;
  }

  lemma NoBits(cfg: Config, inp: Input, log2w: nat, log2h: nat, y: nat, x: nat)
    requires |cfg.mv| == 256 && log2w <= 3 && log2h <= 3 && log2w + log2h >= 2 && inp.bits == []
    ensures log2h >= 1 ==> ParseRows(cfg, inp, log2w, log2h, y, x).None?
    ensures log2w >= 1 ==> ParseCols(cfg, inp, log2w, log2h, y, x).None?
  {
  }

  lemma HalvesTaken(cfg: Config, inp: Input, rows: bool, log2w: nat, log2h: nat, y: nat, x: nat)
    returns (b1: Block, mid: Input, b2: Block, rest: Input)
    requires |cfg.mv| == 256 && log2w <= 3 && log2h <= 3 && log2w + log2h >= 2
    requires if rows then log2h >= 1 else log2w >= 1
    requires (if rows then ParseRows(cfg, inp, log2w, log2h, y, x) else ParseCols(cfg, inp, log2w, log2h, y, x)).Some?
    ensures mid.bits != []
    ensures if rows then
              && Parse(cfg, inp, log2w, log2h - 1, y, x) == Some((b1, mid))
              && Parse(cfg, mid, log2w, log2h - 1, y + Pow2(log2h - 1), x) == Some((b2, rest))
              && ParseRows(cfg, inp, log2w, log2h, y, x) == Some((Rows(b1, b2), rest))
            else
              && Parse(cfg, inp, log2w - 1, log2h, y, x) == Some((b1, mid))
              && Parse(cfg, mid, log2w - 1, log2h, y, x + Pow2(log2w - 1)) == Some((b2, rest))
              && ParseCols(cfg, inp, log2w, log2h, y, x) == Some((Cols(b1, b2), rest))
  {
    hide BlockCode, ParseLeaf, Fits;
    var r1 := if rows then Parse(cfg, inp, log2w, log2h - 1, y, x) else Parse(cfg, inp, log2w - 1, log2h, y, x);
    b1, mid := r1.value.0, r1.value.1;
    var r2 := if rows then Parse(cfg, mid, log2w, log2h - 1, y + Pow2(log2h - 1), x)
              else Parse(cfg, mid, log2w - 1, log2h, y, x + Pow2(log2w - 1));
    b2, rest := r2.value.0, r2.value.1;
  }

  /** What is read for a block, with the zeros past the end, was written for a coded block that means it. */
  ghost predicate Written(cfg: Config, inp: Input, c: Coded, pad: nat, log2w: nat, log2h: nat, b: Block, rest: Input)
    requires |cfg.mv| == 256
  {
    && Meaning(cfg, c) == b && (pad > 0 ==> rest.bits == [])
    && Append(inp, Padding(pad)) == Append(Print(cfg.version, c, log2w, log2h), rest)
  }

  lemma LeafWritten(cfg: Config, inp: Input, code: nat, after: Input, pad: nat, log2w: nat, log2h: nat, y: nat, x: nat)
    returns (c: Coded)
    requires |cfg.mv| == 256 && log2w <= 3 && log2h <= 3 && log2w + log2h >= 1
    requires Legal(log2w, log2h, code) && code != 1 && code != 2 && (pad > 0 ==> after.bits == [])
    requires Append(inp, Padding(pad)) == Append(Input(CodeWord(cfg.version, log2w, log2h, code), [], []), after)
    requires ParseLeaf(cfg, after, code, log2w, log2h, y, x).Some?
    ensures var r := ParseLeaf(cfg, after, code, log2w, log2h, y, x).value;
            Written(cfg, inp, c, pad, log2w, log2h, r.0, r.1)
  {
    c := LeafTaken(cfg, after, code, log2w, log2h, y, x);
    var r := ParseLeaf(cfg, after, code, log2w, log2h, y, x).value;
    PrintIs(cfg, c, log2w, log2h);
    AppendMany(WordOf(cfg.version, c, log2w, log2h), PrintLeaf(c), r.1);
    hide ParseLeaf, Print, PrintLeaf, CodeWord, Append, Meaning, Padding;
  }

  lemma HalvesWritten(cfg: Config, inp: Input, after: Input, c: Coded, c1: Coded, c2: Coded,
                      log2w: nat, log2h: nat, log2w': nat, log2h': nat,
                      b1: Block, mid: Input, b2: Block, pad: nat, rest: Input)
    requires |cfg.mv| == 256 && Legal(log2w, log2h, CodeOf(c))
    requires (c == Halves(c1, c2) && log2w' == log2w && log2h' == log2h - 1)
          || (c == Sides(c1, c2) && log2w' == log2w - 1 && log2h' == log2h)
    requires inp == Append(Input(CodeWord(cfg.version, log2w, log2h, CodeOf(c)), [], []), after)
    requires Written(cfg, after, c1, 0, log2w', log2h', b1, mid)
    requires Written(cfg, mid, c2, pad, log2w', log2h', b2, rest)
    ensures Written(cfg, inp, c, pad, log2w, log2h, if c.Halves? then Rows(b1, b2) else Cols(b1, b2), rest)
  {
    var word, v := WordOf(cfg.version, c, log2w, log2h), cfg.version;
    var p1, p2 := Print(v, c1, log2w', log2h'), Print(v, c2, log2w', log2h');
    PrintIs(cfg, c, log2w, log2h);
    hide CodeWord, Append, Padding, Meaning, Print;
    NoPadding(after);
    AppendMany(word, after, Padding(pad));
    AppendMany(p1, mid, Padding(pad));
    AppendTwo(word, p1, p2, rest);
    AppendMany(p1, p2, rest);
  }

  /** Only what could have been written is parsed; the bits of the last codeword may be zeros past the end. */
  lemma {:induction false} ParsedIsWritten(cfg: Config, inp: Input, log2w: nat, log2h: nat, y: nat, x: nat)
    returns (c: Coded, pad: nat)
    requires |cfg.mv| == 256 && log2w <= 3 && log2h <= 3 && log2w + log2h >= 1
    requires Parse(cfg, inp, log2w, log2h, y, x).Some?
    ensures var r := Parse(cfg, inp, log2w, log2h, y, x).value;
            Written(cfg, inp, c, pad, log2w, log2h, r.0, r.1)
    decreases log2w + log2h
  {
    hide *;
    var code, after, pad0 := BlockTaken(cfg, inp, log2w, log2h, y, x);
    LegalSizes(log2w, log2h, code);
    if code == 1 || code == 2 {
      var b1, mid, b2, rest := HalvesTaken(cfg, after, code == 1, log2w, log2h, y, x);
      var c1, c2, pad1, pad2;
      if code == 1 {
        c1, pad1 := ParsedIsWritten(cfg, after, log2w, log2h - 1, y, x);
        c2, pad2 := ParsedIsWritten(cfg, mid, log2w, log2h - 1, y + Pow2(log2h - 1), x);
        c, pad := Halves(c1, c2), pad2;
        NonePadded(cfg, after, c1, pad1, log2w, log2h - 1, b1, mid);
        HalvesCode(c);
        NoPadding(inp);
        HalvesWritten(cfg, inp, after, c, c1, c2, log2w, log2h, log2w, log2h - 1, b1, mid, b2, pad, rest);
      } else {
        c1, pad1 := ParsedIsWritten(cfg, after, log2w - 1, log2h, y, x);
        c2, pad2 := ParsedIsWritten(cfg, mid, log2w - 1, log2h, y, x + Pow2(log2w - 1));
        c, pad := Sides(c1, c2), pad2;
        NonePadded(cfg, after, c1, pad1, log2w - 1, log2h, b1, mid);
        HalvesCode(c);
        NoPadding(inp);
        HalvesWritten(cfg, inp, after, c, c1, c2, log2w, log2h, log2w - 1, log2h, b1, mid, b2, pad, rest);
      }
    } else {
      pad := pad0;
      c := LeafWritten(cfg, inp, code, after, pad, log2w, log2h, y, x);
    }
  }

  lemma LegalSizes(log2w: nat, log2h: nat, code: nat)
    requires Legal(log2w, log2h, code)
    ensures code == 1 ==> log2h >= 1 && log2w + log2h >= 2
    ensures code == 2 ==> log2w >= 1 && log2w + log2h >= 2
  {
  }

  lemma NonePadded(cfg: Config, inp: Input, c: Coded, pad: nat, log2w: nat, log2h: nat, b: Block, rest: Input)
    requires |cfg.mv| == 256 && Written(cfg, inp, c, pad, log2w, log2h, b, rest) && rest.bits != []
    ensures pad == 0
  {
    hide Append, Print, Meaning;
  }

  lemma HalvesCode(c: Coded)
    ensures c.Halves? ==> CodeOf(c) == 1
    ensures c.Sides? ==> CodeOf(c) == 2
  {
  }

  // ---- frames -----------------------------------------------------------------------------------

  function Meanings(cfg: Config, cs: seq<Coded>): (bs: seq<Block>)
    requires |cfg.mv| == 256
    ensures |bs| == |cs| && forall k :: 0 <= k < |cs| ==> bs[k] == Meaning(cfg, cs[k])
  {
    seq(|cs|, k requires 0 <= k < |cs| => Meaning(cfg, cs[k]))
  }

  function FrameMeaning(cfg: Config, rows: seq<seq<Coded>>): (r: seq<seq<Block>>)
    requires |cfg.mv| == 256
    ensures |r| == |rows| && forall k :: 0 <= k < |rows| ==> r[k] == Meanings(cfg, rows[k])
  {
    seq(|rows|, k requires 0 <= k < |rows| => Meanings(cfg, rows[k]))
  }

  /** A row of 8x8 blocks. */
  function PrintRow(version: int, cs: seq<Coded>): (r: Input) {
    if cs == [] then Input([], [], []) else Append(Print(version, cs[0], 3, 3), PrintRow(version, cs[1..]))
  }

  function PrintFrame(version: int, rows: seq<seq<Coded>>): (r: Input) {
    if rows == [] then Input([], [], []) else Append(PrintRow(version, rows[0]), PrintFrame(version, rows[1..]))
  }

  lemma AppendNone(a: Input)
    ensures Append(Input([], [], []), a) == a
  {
  }

  lemma NoneAppended(cfg: Config, rest: Input, done: seq<Block>, rows: seq<seq<Block>>)
    requires |cfg.mv| == 256
    ensures Append(PrintRow(cfg.version, []), rest) == rest == Append(PrintFrame(cfg.version, []), rest)
    ensures done + Meanings(cfg, []) == done && rows + FrameMeaning(cfg, []) == rows
  {
    AppendNone(rest);
  }

  lemma RowAppended(cfg: Config, cs: seq<Coded>, done: seq<Block>, y: nat, rest: Input)
    requires |cfg.mv| == 256 && cs != [] && RowFits(cfg, done + Meanings(cfg, cs), y)
    ensures Append(PrintRow(cfg.version, cs), rest) ==
              Append(Print(cfg.version, cs[0], 3, 3), Append(PrintRow(cfg.version, cs[1..]), rest))
    ensures Fits(cfg, Meaning(cfg, cs[0]), 3, 3, y, 8 * |done|)
    ensures done + Meanings(cfg, cs) == (done + [Meaning(cfg, cs[0])]) + Meanings(cfg, cs[1..])
  {
    AppendMany(Print(cfg.version, cs[0], 3, 3), PrintRow(cfg.version, cs[1..]), rest);
    hide Print, Append, Fits, Meaning;
    assert (done + Meanings(cfg, cs))[|done|] == Meaning(cfg, cs[0]);
  }

  lemma ParseRowNext(cfg: Config, inp: Input, y: nat, done: seq<Block>, b: Block, after: Input)
    requires |cfg.mv| == 256 && 8 * (|done| + 1) <= cfg.width && cfg.width % 8 == 0 && RowFits(cfg, done, y)
    requires Parse(cfg, inp, 3, 3, y, 8 * |done|) == Some((b, after)) && RowFits(cfg, done + [b], y)
    ensures ParseRow(cfg, inp, y, done) == ParseRow(cfg, after, y, done + [b])
  {
    hide Parse, Fits;
  }

  lemma ParseRowEnd(cfg: Config, inp: Input, y: nat, done: seq<Block>)
    requires |cfg.mv| == 256 && 8 * |done| == cfg.width && cfg.width % 8 == 0 && RowFits(cfg, done, y)
    ensures ParseRow(cfg, inp, y, done) == Some((done, inp))
  {
  }

  lemma {:induction false} RowParsed(cfg: Config, cs: seq<Coded>, done: seq<Block>, y: nat, rest: Input)
    requires |cfg.mv| == 256 && cfg.width % 8 == 0 && 8 * (|done| + |cs|) == cfg.width
    requires RowFits(cfg, done, y) && RowFits(cfg, done + Meanings(cfg, cs), y)
    ensures ParseRow(cfg, Append(PrintRow(cfg.version, cs), rest), y, done) == Some((done + Meanings(cfg, cs), rest))
    decreases |cs|
  {
    hide *;
    if |cs| == 0 {
      assert cs == [];
      NoneAppended(cfg, rest, done, []);
      ParseRowEnd(cfg, rest, y, done);
    } else {
      var b, after := Meaning(cfg, cs[0]), Append(PrintRow(cfg.version, cs[1..]), rest);
      RowAppended(cfg, cs, done, y, rest);
      PrintedParsed(cfg, cs[0], 3, 3, y, 8 * |done|, after);
      RowFitsOneMore(cfg, done, b, y);
      ParseRowNext(cfg, Append(PrintRow(cfg.version, cs), rest), y, done, b, after);
      RowParsed(cfg, cs[1..], done + [b], y, rest);
    }
  }

  lemma FrameAppended(version: int, rows: seq<seq<Coded>>, rest: Input)
    requires rows != []
    ensures Append(PrintFrame(version, rows), rest) ==
              Append(PrintRow(version, rows[0]), Append(PrintFrame(version, rows[1..]), rest))
  {
    AppendMany(PrintRow(version, rows[0]), PrintFrame(version, rows[1..]), rest);
    hide Append, PrintRow;
  }

  lemma FirstRowFits(cfg: Config, bs: seq<Block>, done: seq<seq<Block>>, more: seq<seq<Block>>)
    requires FrameFits(cfg, done + ([bs] + more))
    ensures 8 * |bs| == cfg.width && RowFits(cfg, bs, 8 * |done|) && RowFits(cfg, [], 8 * |done|) && [] + bs == bs
    ensures done + ([bs] + more) == (done + [bs]) + more
  {
    assert RowFits(cfg, [], 8 * |done|);
    hide RowFits;
    assert (done + ([bs] + more))[|done|] == bs;
  }

  lemma FirstMeaning(cfg: Config, rows: seq<seq<Coded>>)
    requires |cfg.mv| == 256 && rows != []
    ensures FrameMeaning(cfg, rows) == [Meanings(cfg, rows[0])] + FrameMeaning(cfg, rows[1..])
  {
    hide Meanings;
  }

  lemma ParseFrameNext(cfg: Config, inp: Input, done: seq<seq<Block>>, bs: seq<Block>, after: Input)
    requires |cfg.mv| == 256 && cfg.width % 8 == 0 && cfg.height % 8 == 0
    requires 8 * (|done| + 1) <= cfg.height && FrameFits(cfg, done) && RowFits(cfg, [], 8 * |done|)
    requires ParseRow(cfg, inp, 8 * |done|, []) == Some((bs, after)) && FrameFits(cfg, done + [bs])
    ensures ParseFrame(cfg, inp, done) == ParseFrame(cfg, after, done + [bs])
  {
    hide ParseRow, RowFits;
  }

  lemma ParseFrameEnd(cfg: Config, inp: Input, done: seq<seq<Block>>)
    requires |cfg.mv| == 256 && cfg.width % 8 == 0 && cfg.height % 8 == 0 && 8 * |done| == cfg.height
    requires FrameFits(cfg, done)
    ensures ParseFrame(cfg, inp, done) == Some((done, inp))
  {
  }

  lemma {:induction false} RowsParsed(cfg: Config, rows: seq<seq<Coded>>, done: seq<seq<Block>>, rest: Input)
    requires |cfg.mv| == 256 && cfg.width % 8 == 0 && cfg.height % 8 == 0
    requires 8 * (|done| + |rows|) == cfg.height
    requires FrameFits(cfg, done) && FrameFits(cfg, done + FrameMeaning(cfg, rows))
    ensures ParseFrame(cfg, Append(PrintFrame(cfg.version, rows), rest), done)
         == Some((done + FrameMeaning(cfg, rows), rest))
    decreases |rows|
  {
    hide *;
    if |rows| == 0 {
      assert rows == [];
      NoneAppended(cfg, rest, [], done);
      ParseFrameEnd(cfg, rest, done);
    } else {
      var bs, after := Meanings(cfg, rows[0]), Append(PrintFrame(cfg.version, rows[1..]), rest);
      FrameAppended(cfg.version, rows, rest);
      FirstMeaning(cfg, rows);
      FirstRowFits(cfg, bs, done, FrameMeaning(cfg, rows[1..]));
      RowParsed(cfg, rows[0], [], 8 * |done|, after);
      FrameFitsOneMore(cfg, done, bs);
      ParseFrameNext(cfg, Append(PrintFrame(cfg.version, rows), rest), done, bs, after);
      RowsParsed(cfg, rows[1..], done + [bs], rest);
    }
  }

  /** A whole frame of split trees, printed, is parsed as what they mean. */
  lemma FrameParsed(cfg: Config, rows: seq<seq<Coded>>, rest: Input)
    requires |cfg.mv| == 256 && cfg.width % 8 == 0 && cfg.height % 8 == 0 && 8 * |rows| == cfg.height
    requires FrameFits(cfg, FrameMeaning(cfg, rows))
    ensures ParseFrame(cfg, Append(PrintFrame(cfg.version, rows), rest), []) == Some((FrameMeaning(cfg, rows), rest))
  {
    assert [] + FrameMeaning(cfg, rows) == FrameMeaning(cfg, rows);
    hide ParseFrame;
    RowsParsed(cfg, rows, [], rest);
  }

  // ---- what the leaves look like --------------------------------------------------------------

  /** Pixel (y, x) of the previous picture, moved by (dy, dx). */
  ghost function MovedAt(last: seq<word>, h: nat, w: nat, y: int, x: int, dy: int, dx: int): (r: word)
    requires IsPicture(last, h, w) && 0 <= y + dy < h && 0 <= x + dx < w
  {
    At(last, h, w, y + dy, x + dx)
  }

  lemma FlatMoved(w: nat, y: nat, r: nat, dy: int, x: nat, c: nat, dx: int)
    requires 0 <= y + r + dy
    ensures Area(y, w) + x + (dy * w + dx) + Area(r, w) + c == Area(y + r + dy, w) + (x + c + dx)
  {
    AreaIsProduct(y, w);
    AreaIsProduct(r, w);
    AreaIsProduct(y + r + dy, w);
    assert (y + r + dy) * w == y * w + r * w + dy * w;
  }

  lemma MovedRead(cfg: Config, last: seq<word>, log2w: nat, log2h: nat, y: nat, x: nat, dy: int, dx: int,
                  r: nat, c: nat)
    requires IsPicture(last, cfg.height, cfg.width) && r < Pow2(log2h) && c < Pow2(log2w)
    requires InRange(cfg.height, cfg.width, Flat(cfg, y, x) + (dy * cfg.width + dx), Pow2(log2w), Pow2(log2h))
    requires 0 <= y + r + dy < cfg.height && 0 <= x + c + dx < cfg.width
    ensures var at := Flat(cfg, y, x) + (dy * cfg.width + dx) + Area(r, cfg.width) + c;
            0 <= at < |last| && last[at] == MovedAt(last, cfg.height, cfg.width, y + r, x + c, dy, dx)
  {
    InRangeReads(last, cfg.height, cfg.width, Flat(cfg, y, x) + (dy * cfg.width + dx), Pow2(log2w), Pow2(log2h), r);
    FlatMoved(cfg.width, y, r, dy, x, c, dx);
    hide InRange;
  }

  /**
   * A moved block: each pixel is the one (dy, dx) away in the previous picture, plus dc;
   * the second pixel of a pair also gets the carry of the first.
   */
  lemma MovedPixel(cfg: Config, offset: int, dc: word, dy: int, dx: int, log2w: nat, log2h: nat, y: nat, x: nat,
                   last: seq<word>, r: nat, c: nat, was: word)
    requires IsPicture(last, cfg.height, cfg.width) && r < Pow2(log2h) && c < Pow2(log2w)
    requires Fits(cfg, Move(offset, 1, dc), log2w, log2h, y, x) && offset == dy * cfg.width + dx
    requires 0 <= y + r + dy < cfg.height && 0 <= x + c - c % 2 + dx && x + c + dx < cfg.width
    ensures Inside(y + r, x + c, y, x, Pow2(log2h), Pow2(log2w))
    ensures var v := MovedAt(last, cfg.height, cfg.width, y + r, x + c, dy, dx);
            PixelOf(cfg, Move(offset, 1, dc), log2w, log2h, y, x, last, y + r, x + c, was) ==
              if c % 2 == 0 then (v + dc) % 65536
              else (v + dc + (MovedAt(last, cfg.height, cfg.width, y + r, x + c - 1, dy, dx) + dc) / 65536) % 65536
  {
    hide *;
    MoveIsRow(cfg, offset, 1, dc, log2w, log2h, y, x, last, r, c, was);
    MovedRead(cfg, last, log2w, log2h, y, x, dy, dx, r, c);
    if c % 2 == 1 {
      MovedRead(cfg, last, log2w, log2h, y, x, dy, dx, r, c - 1);
    }
    RowMoved(last, Flat(cfg, y, x) + offset + Area(r, cfg.width), dc, c);
  }

  lemma RowMoved(last: seq<word>, src: int, dc: word, c: nat)
    requires 0 <= src && src + c < |last|
    ensures RowPixel(last, src, 1, dc, c) ==
            if c % 2 == 0 then (last[src + c] + dc) % 65536
            else (last[src + c] + dc + (last[src + c - 1] + dc) / 65536) % 65536
  {
  }

  lemma MoveIsRow(cfg: Config, offset: int, scale: int, dc: word, log2w: nat, log2h: nat, y: nat, x: nat,
                  last: seq<word>, r: nat, c: nat, was: word)
    requires IsPicture(last, cfg.height, cfg.width) && r < Pow2(log2h) && c < Pow2(log2w)
    requires Fits(cfg, Move(offset, scale, dc), log2w, log2h, y, x)
    ensures InRange(cfg.height, cfg.width, Flat(cfg, y, x) + offset, Pow2(log2w), Pow2(log2h))
    ensures Inside(y + r, x + c, y, x, Pow2(log2h), Pow2(log2w))
    ensures var src := Flat(cfg, y, x) + offset + Area(r, cfg.width);
            && 0 <= src && src + c < |last|
            && PixelOf(cfg, Move(offset, scale, dc), log2w, log2h, y, x, last, y + r, x + c, was) ==
               RowPixel(last, src, scale, dc, c)
  {
    InRangeReads(last, cfg.height, cfg.width, Flat(cfg, y, x) + offset, Pow2(log2w), Pow2(log2h), r);
    hide InRange, Flat, Area, Pow2, RowPixel, IsPicture;
  }

  /** A filled block has dc everywhere, and one that stays the same what it had. */
  lemma FilledPixel(cfg: Config, b: Block, log2w: nat, log2h: nat, y: nat, x: nat, last: seq<word>,
                    r: nat, c: nat, was: word)
    requires IsPicture(last, cfg.height, cfg.width) && r < Pow2(log2h) && c < Pow2(log2w)
    requires Fits(cfg, b, log2w, log2h, y, x) && (b.Keep? || (b.Move? && b.scale == 0))
    ensures Inside(y + r, x + c, y, x, Pow2(log2h), Pow2(log2w))
    ensures PixelOf(cfg, b, log2w, log2h, y, x, last, y + r, x + c, was) == if b.Keep? then was else b.dc
  {
    if b.Move? {
      var src := Flat(cfg, y, x) + b.offset;
      InRangeReads(last, cfg.height, cfg.width, src, Pow2(log2w), Pow2(log2h), r);
      ScaleZeroFills(last, src + Area(r, cfg.width), b.dc, c);
    }
    hide InRange, Flat, Area, Pow2, RowPixel;
  }

  // ---- any picture ------------------------------------------------------------------------------

  /** A block split down to pairs of pixels. */
  ghost function Draw(q: seq<word>, h: nat, w: nat, log2w: nat, log2h: nat, y: nat, x: nat): (c: Coded)
    requires IsPicture(q, h, w) && log2w + log2h >= 1 && y + Pow2(log2h) <= h && x + Pow2(log2w) <= w
    decreases log2w + log2h
  {
    if log2w + log2h == 1 then
      Pair(At(q, h, w, y, x), if log2w == 1 then At(q, h, w, y, x + 1) else At(q, h, w, y + 1, x))
    else if log2h >= 1 then
      Halves(Draw(q, h, w, log2w, log2h - 1, y, x), Draw(q, h, w, log2w, log2h - 1, y + Pow2(log2h - 1), x))
    else
      Sides(Draw(q, h, w, log2w - 1, log2h, y, x), Draw(q, h, w, log2w - 1, log2h, y, x + Pow2(log2w - 1)))
  }

  lemma {:induction false} DrawnFits(cfg: Config, q: seq<word>, log2w: nat, log2h: nat, y: nat, x: nat)
    requires |cfg.mv| == 256 && IsPicture(q, cfg.height, cfg.width) && log2w + log2h >= 1
    requires y + Pow2(log2h) <= cfg.height && x + Pow2(log2w) <= cfg.width
    ensures Fits(cfg, Meaning(cfg, Draw(q, cfg.height, cfg.width, log2w, log2h, y, x)), log2w, log2h, y, x)
    decreases log2w + log2h
  {
    if log2w + log2h == 1 {
    } else if log2h >= 1 {
      DrawnFits(cfg, q, log2w, log2h - 1, y, x);
      DrawnFits(cfg, q, log2w, log2h - 1, y + Pow2(log2h - 1), x);
    } else {
      DrawnFits(cfg, q, log2w - 1, log2h, y, x);
      DrawnFits(cfg, q, log2w - 1, log2h, y, x + Pow2(log2w - 1));
    }
  }

  /** Drawn pixels are those of the picture. */
  lemma {:induction false} DrawnPixel(cfg: Config, q: seq<word>, log2w: nat, log2h: nat, y: nat, x: nat,
                                      last: seq<word>, y': nat, x': nat, was: word)
    requires |cfg.mv| == 256 && IsPicture(q, cfg.height, cfg.width) && IsPicture(last, cfg.height, cfg.width)
    requires log2w + log2h >= 1 && y + Pow2(log2h) <= cfg.height && x + Pow2(log2w) <= cfg.width
    requires Inside(y', x', y, x, Pow2(log2h), Pow2(log2w))
    requires Fits(cfg, Meaning(cfg, Draw(q, cfg.height, cfg.width, log2w, log2h, y, x)), log2w, log2h, y, x)
    ensures PixelOf(cfg, Meaning(cfg, Draw(q, cfg.height, cfg.width, log2w, log2h, y, x)), log2w, log2h, y, x, last,
                    y', x', was) == At(q, cfg.height, cfg.width, y', x')
    decreases log2w + log2h
  {
    if log2w + log2h == 1 {
    } else if log2h >= 1 {
      var s := Pow2(log2h - 1);
      if y' < y + s {
        DrawnPixel(cfg, q, log2w, log2h - 1, y, x, last, y', x', was);
      } else {
        DrawnPixel(cfg, q, log2w, log2h - 1, y + s, x, last, y', x', was);
      }
    } else {
      var s := Pow2(log2w - 1);
      if x' < x + s {
        DrawnPixel(cfg, q, log2w - 1, log2h, y, x, last, y', x', was);
      } else {
        DrawnPixel(cfg, q, log2w - 1, log2h, y, x + s, last, y', x', was);
      }
    }
  }

  /** The frame that draws a picture. */
  ghost function DrawFrame(q: seq<word>, h: nat, w: nat): (rows: seq<seq<Coded>>)
    requires IsPicture(q, h, w) && h % 8 == 0 && w % 8 == 0
  {
    seq(h / 8, r requires 0 <= r < h / 8 => DrawRow(q, h, w, r))
  }

  ghost function DrawRow(q: seq<word>, h: nat, w: nat, r: nat): (cs: seq<Coded>)
    requires IsPicture(q, h, w) && h % 8 == 0 && w % 8 == 0 && r < h / 8
  {
    seq(w / 8, c requires 0 <= c < w / 8 => Draw8(q, h, w, 8 * r, 8 * c))
  }

  ghost function Draw8(q: seq<word>, h: nat, w: nat, y: nat, x: nat): (c: Coded)
    requires IsPicture(q, h, w) && y + 8 <= h && x + 8 <= w
  {
    assert Pow2(3) == 8;
    Draw(q, h, w, 3, 3, y, x)
  }

  lemma Draw8Fits(cfg: Config, q: seq<word>, y: nat, x: nat)
    requires |cfg.mv| == 256 && IsPicture(q, cfg.height, cfg.width) && y + 8 <= cfg.height && x + 8 <= cfg.width
    ensures Fits(cfg, Meaning(cfg, Draw8(q, cfg.height, cfg.width, y, x)), 3, 3, y, x)
  {
    assert Pow2(3) == 8;
    DrawnFits(cfg, q, 3, 3, y, x);
    hide Fits, Draw, Meaning;
  }

  lemma DrawFrameFits(cfg: Config, q: seq<word>)
    requires |cfg.mv| == 256 && IsPicture(q, cfg.height, cfg.width) && cfg.height % 8 == 0 && cfg.width % 8 == 0
    ensures var rows := DrawFrame(q, cfg.height, cfg.width);
            8 * |rows| == cfg.height && FrameFits(cfg, FrameMeaning(cfg, rows))
  {
    var h, w := cfg.height, cfg.width;
    var rows := DrawFrame(q, h, w);
    hide Fits, Draw8, Meaning, IsPicture;
    forall r | 0 <= r < |rows|
      ensures 8 * |Meanings(cfg, rows[r])| == w && RowFits(cfg, Meanings(cfg, rows[r]), 8 * r)
    {
      forall c | 0 <= c < w / 8 ensures Fits(cfg, Meanings(cfg, rows[r])[c], 3, 3, 8 * r, 8 * c) {
        Draw8Fits(cfg, q, 8 * r, 8 * c);
      }
    }
  }

  lemma Draw8Pixel(cfg: Config, q: seq<word>, y: nat, x: nat, last: seq<word>, y': nat, x': nat, was: word)
    requires |cfg.mv| == 256 && IsPicture(q, cfg.height, cfg.width) && IsPicture(last, cfg.height, cfg.width)
    requires y + 8 <= cfg.height && x + 8 <= cfg.width && y <= y' < y + 8 && x <= x' < x + 8
    ensures Inside(y', x', y, x, Pow2(3), Pow2(3))
    ensures Fits(cfg, Meaning(cfg, Draw8(q, cfg.height, cfg.width, y, x)), 3, 3, y, x)
    ensures PixelOf(cfg, Meaning(cfg, Draw8(q, cfg.height, cfg.width, y, x)), 3, 3, y, x, last, y', x', was)
         == At(q, cfg.height, cfg.width, y', x')
  {
    assert Pow2(3) == 8;
    Draw8Fits(cfg, q, y, x);
    DrawnPixel(cfg, q, 3, 3, y, x, last, y', x', was);
    hide Fits, Draw, Meaning, PixelOf;
  }

  /** Every picture can be sent: its frame is parsed, and painting that makes this picture of any other. */
  lemma AnyPictureSent(cfg: Config, q: seq<word>, p: seq<word>, last: seq<word>, r: seq<word>, rest: Input)
    requires |cfg.mv| == 256 && cfg.height % 8 == 0 && cfg.width % 8 == 0
    requires IsPicture(q, cfg.height, cfg.width) && IsPicture(p, cfg.height, cfg.width)
    requires IsPicture(last, cfg.height, cfg.width) && IsPicture(r, cfg.height, cfg.width)
    ensures var rows := DrawFrame(q, cfg.height, cfg.width);
            && ParseFrame(cfg, Append(PrintFrame(cfg.version, rows), rest), []) == Some((FrameMeaning(cfg, rows), rest))
            && FrameFits(cfg, FrameMeaning(cfg, rows))
            && (FramePainted(cfg, p, r, last, FrameMeaning(cfg, rows)) ==> r == q)
  {
    var h, w := cfg.height, cfg.width;
    var rows := DrawFrame(q, h, w);
    var bs := FrameMeaning(cfg, rows);
    DrawFrameFits(cfg, q);
    FrameParsed(cfg, rows, rest);
    if FramePainted(cfg, p, r, last, bs) {
      forall y', x' | 0 <= y' < h && 0 <= x' < w ensures At(r, h, w, y', x') == At(q, h, w, y', x') {
        Draw8Pixel(cfg, q, 8 * (y' / 8), 8 * (x' / 8), last, y', x', At(p, h, w, y', x'));
        hide PixelOf, Fits, Meaning, Draw8;
        assert bs[y' / 8][x' / 8] == Meaning(cfg, Draw8(q, h, w, 8 * (y' / 8), 8 * (x' / 8)));
      }
      SamePicture(q, r, h, w);
    }
    hide *;
  }

  /** Pictures with the same pixels are the same. */
  lemma SamePicture(p: seq<word>, q: seq<word>, h: nat, w: nat)
    requires IsPicture(p, h, w) && IsPicture(q, h, w)
    requires forall y, x :: 0 <= y < h && 0 <= x < w ==> At(p, h, w, y, x) == At(q, h, w, y, x)
    ensures p == q
  {
    forall k | 0 <= k < |p| ensures p[k] == q[k] {
      var y, x := PixelAt(h, w, k);
      assert At(p, h, w, y, x) == p[k] && At(q, h, w, y, x) == q[k];
    }
  }

  /** Every place in a flat picture is that of a pixel. */
  lemma {:induction false} PixelAt(h: nat, w: nat, k: nat) returns (y: nat, x: nat)
    requires k < Area(h, w)
    ensures y < h && x < w && Area(y, w) + x == k
  {
    if k < Area(h - 1, w) {
      y, x := PixelAt(h - 1, w, k);
    } else {
      y, x := h - 1, k - Area(h - 1, w);
    }
  }
}
