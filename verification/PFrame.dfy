/**
 * P frames of the 4X Movie decoder (4xm.c, decode_p_block and decode_p_frame):
 * blocks are split recursively under control of a prefix code, and the pieces
 * are painted in place. The specification parses a split tree and gives every
 * pixel the value of the one leaf that covers it.
 */
module PFrame {
  import opened Binary
  import opened MotionCopy
  import opened Picture
  import opened Wrappers

  // ---- the block type codes -----------------------------------------------------

  /** A codeword and its length; length 0 marks a symbol without code. */
  type Entry = (nat, nat)

  /** block_type_tab[t][index] */
  function BlockTypeTab(t: nat, index: nat): (tab: seq<Entry>)
    requires t < 2 && index < 4
    ensures |tab| == 7
  {
    if t == 0 then
      match index
      case 0 => [(0, 1), (2, 2), (6, 3), (14, 4), (30, 5), (31, 5), (0, 0)]
      case 1 => [(0, 1), (0, 0), (2, 2), (6, 3), (14, 4), (15, 4), (0, 0)]
      case 2 => [(0, 1), (2, 2), (0, 0), (6, 3), (14, 4), (15, 4), (0, 0)]
      case _ => [(0, 1), (0, 0), (0, 0), (2, 2), (6, 3), (14, 4), (15, 4)]
    else
      match index
      case 0 => [(1, 2), (4, 3), (5, 3), (0, 2), (6, 3), (7, 3), (0, 0)]
      case 1 => [(1, 2), (0, 0), (2, 2), (0, 2), (6, 3), (7, 3), (0, 0)]
      case 2 => [(1, 2), (2, 2), (0, 0), (0, 2), (6, 3), (7, 3), (0, 0)]
      case _ => [(1, 2), (0, 0), (0, 0), (0, 2), (2, 2), (6, 3), (7, 3)]
  }

  /** size2index[log2h][log2w]; the entry -1 for a single pixel is stored in a byte. */
  function Size2Index(log2h: nat, log2w: nat): (index: nat)
    requires log2h <= 3 && log2w <= 3
    ensures index < 4 <==> log2h + log2w >= 1
    ensures index == 3 <==> log2h + log2w == 1
  {
    if log2h == 0 then
      if log2w == 0 then 255 else if log2w == 1 then 3 else 1
    else if log2w == 0 then
      if log2h == 1 then 3 else 2
    else 0
  }

  /** The first `len` of five bits. */
  function TopBits(v: nat, len: nat): (r: nat) {
    match len
    case 1 => v / 16
    case 2 => v / 8
    case 3 => v / 4
    case 4 => v / 2
    case _ => v
  }

  predicate Match(e: Entry, v: nat) {
    e.1 > 0 && TopBits(v, e.1) == e.0
  }

  /** The first symbol from `k` on whose codeword comes next, or 7. */
  function GetVlc(tab: seq<Entry>, v: nat, k: nat): (code: nat)
    requires k <= 7 == |tab|
    ensures code <= 7
    decreases 7 - k
  {
    if k == 7 || Match(tab[k], v) then k else GetVlc(tab, v, k + 1)
  }

  lemma {:induction false} GetVlcMatches(tab: seq<Entry>, v: nat, k: nat)
    requires k <= 7 == |tab|
    ensures var code := GetVlc(tab, v, k); k <= code && (code < 7 ==> Match(tab[code], v))
    ensures forall i :: k <= i < GetVlc(tab, v, k) ==> !Match(tab[i], v)
    decreases 7 - k
  {
    if k < 7 && !Match(tab[k], v) {
      GetVlcMatches(tab, v, k + 1);
    }
  }

  /**
   * Each code is complete and prefix-free: any five bits start with exactly one
   * codeword. Sizes that cannot be halved in a direction have no code for it,
   * and raw pairs are for two pixels only.
   */
  lemma BlockTypesComplete(t: nat, log2h: nat, log2w: nat, v: nat)
    requires t < 2 && log2h <= 3 && log2w <= 3 && log2h + log2w >= 1 && v < 32
    ensures var tab := BlockTypeTab(t, Size2Index(log2h, log2w));
            var code := GetVlc(tab, v, 0);
            && code <= 6
            && (forall k :: 0 <= k < 7 ==> (Match(tab[k], v) <==> k == code))
            && (code == 1 ==> log2h >= 1 && log2h + log2w >= 2)
            && (code == 2 ==> log2w >= 1 && log2h + log2w >= 2)
            && (code == 6 ==> log2h + log2w == 1)
  {
    GetVlcMatches(BlockTypeTab(t, Size2Index(log2h, log2w)), v, 0);
    if t == 0 {
      assert v / 16 == 0 || v / 8 == 2 || v / 4 == 6 || v / 2 == 14 || v == 30 || v == 31;
    } else {
      assert v / 8 == 0 || v / 8 == 1 || v / 8 == 2 || v / 8 == 3;
    }
  }

  // ---- split trees ----------------------------------------------------------------

  /** What does not change while frames are decoded; `mv` holds flat source offsets. */
  datatype Config = Config(version: int, height: nat, width: nat, mv: seq<int>)

  /** The unread parts of the bit stream, the byte stream and the word stream. */
  datatype Input = Input(bits: seq<bool>, bytes: seq<byte>, words: seq<byte>)

  datatype Block =
    | Rows(top: Block, bottom: Block)
    | Cols(left: Block, right: Block)
    | Keep
    | Move(offset: int, scale: int, dc: word)
    | Raw(first: word, second: word)

  function Le16(w: seq<byte>): (r: word)
    requires |w| >= 2
  {
    w[0] as int + 256 * w[1] as int
  }

  /** The flat position of a pixel. */
  function Flat(cfg: Config, y: nat, x: nat): (r: nat) {
    Area(y, cfg.width) + x
  }

  /** The block of size (log2h, log2w) at (y, x) is split down to leaves it may have. */
  ghost predicate Fits(cfg: Config, b: Block, log2w: nat, log2h: nat, y: nat, x: nat)
    decreases b
  {
    && log2w + log2h >= 1
    && match b
       case Rows(top, bottom) =>
         && log2h >= 1
         && Fits(cfg, top, log2w, log2h - 1, y, x)
         && Fits(cfg, bottom, log2w, log2h - 1, y + Pow2(log2h - 1), x)
       case Cols(left, right) =>
         && log2w >= 1
         && Fits(cfg, left, log2w - 1, log2h, y, x)
         && Fits(cfg, right, log2w - 1, log2h, y, x + Pow2(log2w - 1))
       case Keep => true
       case Move(offset, scale, dc) =>
         && (scale == 0 || scale == 1)
         && InRange(cfg.height, cfg.width, Flat(cfg, y, x) + offset, Pow2(log2w), Pow2(log2h))
       case Raw(_, _) => log2w + log2h == 1
  }

  /** The next block type and the number of bits it takes. */
  function BlockCode(version: int, bits: seq<bool>, log2w: nat, log2h: nat): (r: (nat, nat))
    requires log2w <= 3 && log2h <= 3 && log2w + log2h >= 1
    ensures r.0 <= 6 && (r.0 == 6 ==> log2w + log2h == 1)
    ensures r.0 == 1 ==> log2h >= 1 && log2w + log2h >= 2
    ensures r.0 == 2 ==> log2w >= 1 && log2w + log2h >= 2
  {
    var t := if version > 1 then 0 else 1;
    var tab := BlockTypeTab(t, Size2Index(log2h, log2w));
    BlockTypesComplete(t, log2h, log2w, Number(bits, 5));
    var code := GetVlc(tab, Number(bits, 5), 0);
    (code, tab[code].1)
  }

  /** The leaf for a raw code other than a split; None for malformed data. */
  function ParseLeaf(cfg: Config, inp: Input, code: nat, log2w: nat, log2h: nat, y: nat, x: nat)
    : (r: Option<(Block, Input)>)
    requires |cfg.mv| == 256 && log2w + log2h >= 1 && (code == 6 ==> log2w + log2h == 1)
    ensures r.Some? ==> Fits(cfg, r.value.0, log2w, log2h, y, x)
  {
    if code == 6 then
      if |inp.words| < 4 then None
      else Some((Raw(Le16(inp.words), Le16(inp.words[2..])), inp.(words := inp.words[4..])))
    else if code == 3 && cfg.version >= 2 then Some((Keep, inp))
    else if (code == 0 || code == 4) && |inp.bytes| < 1 then None
    else if (code == 4 || code == 5) && |inp.words| < 2 then None
    else
      var offset := if code == 0 || code == 4 then cfg.mv[inp.bytes[0]] else 0;
      var dc := if code == 4 || code == 5 then Le16(inp.words) else 0;
      var scale := if code == 5 then 0 else 1;
      if !InRange(cfg.height, cfg.width, Flat(cfg, y, x) + offset, Pow2(log2w), Pow2(log2h)) then None
      else
        Some((Move(offset, scale, dc),
              inp.(bytes := if code == 0 || code == 4 then inp.bytes[1..] else inp.bytes,
                   words := if code == 4 || code == 5 then inp.words[2..] else inp.words)))
  }

  /** Two steps in turn, the second only after the first has succeeded. */
  function Both(rows: bool, r1: Option<(Block, Input)>, r2: Option<(Block, Input)>): (r: Option<(Block, Input)>) {
    if r1.None? || r2.None? then None
    else Some((if rows then Rows(r1.value.0, r2.value.0) else Cols(r1.value.0, r2.value.0), r2.value.1))
  }

  /** The split tree of the block at (y, x), and the input after it. */
  function Parse(cfg: Config, inp: Input, log2w: nat, log2h: nat, y: nat, x: nat): (r: Option<(Block, Input)>)
    requires |cfg.mv| == 256 && log2w <= 3 && log2h <= 3 && log2w + log2h >= 1
    ensures r.Some? ==> Fits(cfg, r.value.0, log2w, log2h, y, x)
    decreases log2w + log2h, 1
  {
    if |inp.bits| < 1 then None
    else
      var (code, len) := BlockCode(cfg.version, inp.bits, log2w, log2h);
      var rest := inp.(bits := Drop(inp.bits, len));
      if code == 1 then ParseRows(cfg, rest, log2w, log2h, y, x)
      else if code == 2 then ParseCols(cfg, rest, log2w, log2h, y, x)
      else ParseLeaf(cfg, rest, code, log2w, log2h, y, x)
  }

  /** Code 1: the upper half, then the lower half. */
  function ParseRows(cfg: Config, inp: Input, log2w: nat, log2h: nat, y: nat, x: nat): (r: Option<(Block, Input)>)
    requires |cfg.mv| == 256 && log2w <= 3 && 1 <= log2h <= 3 && log2w + log2h >= 2
    ensures r.Some? ==> Fits(cfg, r.value.0, log2w, log2h, y, x)
    decreases log2w + log2h, 0
  {
    var r1 := Parse(cfg, inp, log2w, log2h - 1, y, x);
    if r1.None? then None
    else Both(true, r1, Parse(cfg, r1.value.1, log2w, log2h - 1, y + Pow2(log2h - 1), x))
  }

  /** Code 2: the left half, then the right half. */
  function ParseCols(cfg: Config, inp: Input, log2w: nat, log2h: nat, y: nat, x: nat): (r: Option<(Block, Input)>)
    requires |cfg.mv| == 256 && 1 <= log2w <= 3 && log2h <= 3 && log2w + log2h >= 2
    ensures r.Some? ==> Fits(cfg, r.value.0, log2w, log2h, y, x)
    decreases log2w + log2h, 0
  {
    var r1 := Parse(cfg, inp, log2w - 1, log2h, y, x);
    if r1.None? then None
    else Both(false, r1, Parse(cfg, r1.value.1, log2w - 1, log2h, y, x + Pow2(log2w - 1)))
  }

  /** A block that lies in the picture passes the range test without a motion vector. */
  lemma OwnPositionInRange(ph: nat, pw: nat, y: nat, x: nat, h: nat, w: nat)
    requires y + h <= ph && x + w <= pw && h >= 1
    ensures InRange(ph, pw, Area(y, pw) + x, w, h)
  {
    AreaAdd(y + 1, ph - h - y, pw);
  }

  // ---- leaves tile the block ---------------------------------------------------------

  /** A leaf with its place and size in the picture. */
  datatype Placed = Placed(leaf: Block, log2w: nat, log2h: nat, y: nat, x: nat) {
    predicate Covers(y': int, x': int) {
      Inside(y', x', y, x, Pow2(log2h), Pow2(log2w))
    }
  }

  ghost function Leaves(b: Block, log2w: nat, log2h: nat, y: nat, x: nat): (r: seq<Placed>)
    decreases b
  {
    match b
    case Rows(top, bottom) =>
      if log2h == 0 then []
      else Leaves(top, log2w, log2h - 1, y, x) + Leaves(bottom, log2w, log2h - 1, y + Pow2(log2h - 1), x)
    case Cols(left, right) =>
      if log2w == 0 then []
      else Leaves(left, log2w - 1, log2h, y, x) + Leaves(right, log2w - 1, log2h, y, x + Pow2(log2w - 1))
    case _ => [Placed(b, log2w, log2h, y, x)]
  }

  function Hit(inside: bool): (r: nat) {
    if inside then 1 else 0
  }

  /** How many of the leaves cover a pixel. */
  ghost function Hits(ls: seq<Placed>, y: int, x: int): (r: nat) {
    if ls == [] then 0 else Hit(ls[0].Covers(y, x)) + Hits(ls[1..], y, x)
  }

  lemma {:induction false} HitsAppend(a: seq<Placed>, b: seq<Placed>, y: int, x: int)
    ensures Hits(a + b, y, x) == Hits(a, y, x) + Hits(b, y, x)
  {
    if a == [] {
      assert a + b == b;
    } else {
      assert (a + b)[1..] == a[1..] + b;
      HitsAppend(a[1..], b, y, x);
    }
  }

  /** Every pixel of the block is covered by exactly one leaf, and no other pixel by any. */
  lemma {:induction false} LeavesTile(cfg: Config, b: Block, log2w: nat, log2h: nat, y: nat, x: nat, y': int, x': int)
    requires Fits(cfg, b, log2w, log2h, y, x)
    ensures Hits(Leaves(b, log2w, log2h, y, x), y', x') == Hit(Inside(y', x', y, x, Pow2(log2h), Pow2(log2w)))
    decreases b
  {
    hide Hits, Hit, Inside;
    match b
    case Rows(top, bottom) =>
      var s := Pow2(log2h - 1);
      LeavesTile(cfg, top, log2w, log2h - 1, y, x, y', x');
      LeavesTile(cfg, bottom, log2w, log2h - 1, y + s, x, y', x');
      HitsAppend(Leaves(top, log2w, log2h - 1, y, x), Leaves(bottom, log2w, log2h - 1, y + s, x), y', x');
      HalvesRows(y', x', y, x, s, Pow2(log2w));
    case Cols(left, right) =>
      var s := Pow2(log2w - 1);
      LeavesTile(cfg, left, log2w - 1, log2h, y, x, y', x');
      LeavesTile(cfg, right, log2w - 1, log2h, y, x + s, y', x');
      HitsAppend(Leaves(left, log2w - 1, log2h, y, x), Leaves(right, log2w - 1, log2h, y, x + s), y', x');
      HalvesCols(y', x', y, x, Pow2(log2h), s);
    case _ =>
      SingleHit(Placed(b, log2w, log2h, y, x), y', x');
  }

  lemma HalvesRows(y: int, x: int, r: nat, c: nat, s: nat, w: nat)
    ensures Hit(Inside(y, x, r, c, s, w)) + Hit(Inside(y, x, r + s, c, s, w)) == Hit(Inside(y, x, r, c, 2 * s, w))
  {
  }

  lemma HalvesCols(y: int, x: int, r: nat, c: nat, h: nat, s: nat)
    ensures Hit(Inside(y, x, r, c, h, s)) + Hit(Inside(y, x, r, c + s, h, s)) == Hit(Inside(y, x, r, c, h, 2 * s))
  {
  }

  lemma SingleHit(p: Placed, y: int, x: int)
    ensures Hits([p], y, x) == Hit(p.Covers(y, x))
  {
    assert [p][1..] == [];
  }

  // ---- painting -----------------------------------------------------------------------

  /** What painting the block at (y, x) makes of the pixel (y', x'), which held `was`. */
  ghost function PixelOf(cfg: Config, b: Block, log2w: nat, log2h: nat, y: nat, x: nat, last: seq<word>,
                         y': nat, x': nat, was: word): (r: word)
    requires IsPicture(last, cfg.height, cfg.width) && Fits(cfg, b, log2w, log2h, y, x)
    requires Inside(y', x', y, x, Pow2(log2h), Pow2(log2w))
    decreases b
  {
    match b
    case Rows(top, bottom) =>
      var s := Pow2(log2h - 1);
      if y' < y + s then PixelOf(cfg, top, log2w, log2h - 1, y, x, last, y', x', was)
      else PixelOf(cfg, bottom, log2w, log2h - 1, y + s, x, last, y', x', was)
    case Cols(left, right) =>
      var s := Pow2(log2w - 1);
      if x' < x + s then PixelOf(cfg, left, log2w - 1, log2h, y, x, last, y', x', was)
      else PixelOf(cfg, right, log2w - 1, log2h, y, x + s, last, y', x', was)
    case Keep => was
    case Move(offset, scale, dc) =>
      BlockPixel(last, cfg.height, cfg.width, Flat(cfg, y, x) + offset, Pow2(log2w), Pow2(log2h), scale, dc,
                 y' - y, x' - x)
    case Raw(first, second) => if y' == y && x' == x then first else second
  }

  /** `p`, on its own, has the value `v` at the pixel (y', x'). */
  ghost predicate GivesPixel(cfg: Config, p: Placed, last: seq<word>, y': nat, x': nat, was: word, v: word)
    requires IsPicture(last, cfg.height, cfg.width)
  {
    && p.Covers(y', x') && Fits(cfg, p.leaf, p.log2w, p.log2h, p.y, p.x)
    && PixelOf(cfg, p.leaf, p.log2w, p.log2h, p.y, p.x, last, y', x', was) == v
  }

  /** The leaf that covers a pixel of the block gives it the value it has on its own. */
  lemma {:induction false} PixelOfLeaf(cfg: Config, b: Block, log2w: nat, log2h: nat, y: nat, x: nat, last: seq<word>,
                                       y': nat, x': nat, was: word) returns (p: Placed)
    requires IsPicture(last, cfg.height, cfg.width) && Fits(cfg, b, log2w, log2h, y, x)
    requires Inside(y', x', y, x, Pow2(log2h), Pow2(log2w))
    ensures p in Leaves(b, log2w, log2h, y, x) && !p.leaf.Rows? && !p.leaf.Cols?
    ensures GivesPixel(cfg, p, last, y', x', was, PixelOf(cfg, b, log2w, log2h, y, x, last, y', x', was))
    decreases b
  {
    hide PixelOf, IsPicture;
    match b
    case Rows(top, bottom) =>
      var s := Pow2(log2h - 1);
      RowsPixel(cfg, b, log2w, log2h, y, x, last, y', x', was);
      if y' < y + s {
        p := PixelOfLeaf(cfg, top, log2w, log2h - 1, y, x, last, y', x', was);
      } else {
        p := PixelOfLeaf(cfg, bottom, log2w, log2h - 1, y + s, x, last, y', x', was);
      }
    case Cols(left, right) =>
      var s := Pow2(log2w - 1);
      ColsPixel(cfg, b, log2w, log2h, y, x, last, y', x', was);
      if x' < x + s {
        p := PixelOfLeaf(cfg, left, log2w - 1, log2h, y, x, last, y', x', was);
      } else {
        p := PixelOfLeaf(cfg, right, log2w - 1, log2h, y, x + s, last, y', x', was);
      }
    case _ =>
      p := Placed(b, log2w, log2h, y, x);
      assert Leaves(b, log2w, log2h, y, x) == [p];
  }

  lemma RowsPixel(cfg: Config, b: Block, log2w: nat, log2h: nat, y: nat, x: nat, last: seq<word>,
                  y': nat, x': nat, was: word)
    requires IsPicture(last, cfg.height, cfg.width) && b.Rows? && Fits(cfg, b, log2w, log2h, y, x)
    requires Inside(y', x', y, x, Pow2(log2h), Pow2(log2w))
    ensures var s := Pow2(log2h - 1);
            PixelOf(cfg, b, log2w, log2h, y, x, last, y', x', was) ==
              if y' < y + s then PixelOf(cfg, b.top, log2w, log2h - 1, y, x, last, y', x', was)
              else PixelOf(cfg, b.bottom, log2w, log2h - 1, y + s, x, last, y', x', was)
  {
  }

  lemma ColsPixel(cfg: Config, b: Block, log2w: nat, log2h: nat, y: nat, x: nat, last: seq<word>,
                  y': nat, x': nat, was: word)
    requires IsPicture(last, cfg.height, cfg.width) && b.Cols? && Fits(cfg, b, log2w, log2h, y, x)
    requires Inside(y', x', y, x, Pow2(log2h), Pow2(log2w))
    ensures var s := Pow2(log2w - 1);
            PixelOf(cfg, b, log2w, log2h, y, x, last, y', x', was) ==
              if x' < x + s then PixelOf(cfg, b.left, log2w - 1, log2h, y, x, last, y', x', was)
              else PixelOf(cfg, b.right, log2w - 1, log2h, y, x + s, last, y', x', was)
  {
  }

  /** `q` is `p` with the block at (y, x) painted according to its split tree. */
  ghost predicate Painted(cfg: Config, p: seq<word>, q: seq<word>, last: seq<word>, b: Block,
                          log2w: nat, log2h: nat, y: nat, x: nat)
    requires IsPicture(p, cfg.height, cfg.width) && IsPicture(q, cfg.height, cfg.width)
    requires IsPicture(last, cfg.height, cfg.width) && Fits(cfg, b, log2w, log2h, y, x)
  {
    forall y', x' :: 0 <= y' < cfg.height && 0 <= x' < cfg.width ==>
      At(q, cfg.height, cfg.width, y', x') ==
        if Inside(y', x', y, x, Pow2(log2h), Pow2(log2w))
        then PixelOf(cfg, b, log2w, log2h, y, x, last, y', x', At(p, cfg.height, cfg.width, y', x'))
        else At(p, cfg.height, cfg.width, y', x')
  }

  lemma PaintedRows(cfg: Config, p: seq<word>, m: seq<word>, q: seq<word>, last: seq<word>, b: Block,
                    log2w: nat, log2h: nat, y: nat, x: nat)
    requires IsPicture(p, cfg.height, cfg.width) && IsPicture(m, cfg.height, cfg.width)
    requires IsPicture(q, cfg.height, cfg.width) && IsPicture(last, cfg.height, cfg.width)
    requires b.Rows? && Fits(cfg, b, log2w, log2h, y, x)
    requires Painted(cfg, p, m, last, b.top, log2w, log2h - 1, y, x)
    requires Painted(cfg, m, q, last, b.bottom, log2w, log2h - 1, y + Pow2(log2h - 1), x)
    ensures Painted(cfg, p, q, last, b, log2w, log2h, y, x)
  {
  }

  lemma PaintedCols(cfg: Config, p: seq<word>, m: seq<word>, q: seq<word>, last: seq<word>, b: Block,
                    log2w: nat, log2h: nat, y: nat, x: nat)
    requires IsPicture(p, cfg.height, cfg.width) && IsPicture(m, cfg.height, cfg.width)
    requires IsPicture(q, cfg.height, cfg.width) && IsPicture(last, cfg.height, cfg.width)
    requires b.Cols? && Fits(cfg, b, log2w, log2h, y, x)
    requires Painted(cfg, p, m, last, b.left, log2w - 1, log2h, y, x)
    requires Painted(cfg, m, q, last, b.right, log2w - 1, log2h, y, x + Pow2(log2w - 1))
    ensures Painted(cfg, p, q, last, b, log2w, log2h, y, x)
  {
  }

  /** A block copied by mcdc. */
  lemma PaintedMove(cfg: Config, p: seq<word>, q: seq<word>, last: seq<word>, b: Block,
                    log2w: nat, log2h: nat, y: nat, x: nat)
    requires IsPicture(p, cfg.height, cfg.width) && IsPicture(q, cfg.height, cfg.width)
    requires IsPicture(last, cfg.height, cfg.width)
    requires b.Move? && Fits(cfg, b, log2w, log2h, y, x)
    requires Copied(p, q, last, cfg.height, cfg.width, y, x, Flat(cfg, y, x) + b.offset, Pow2(log2w), Pow2(log2h),
                    b.scale, b.dc, Pow2(log2h))
    ensures Painted(cfg, p, q, last, b, log2w, log2h, y, x)
  {
    hide BlockPixel, Inside, InRange, Flat;
  }

  /** A block left as it is. */
  lemma PaintedKeep(cfg: Config, p: seq<word>, last: seq<word>, log2w: nat, log2h: nat, y: nat, x: nat)
    requires IsPicture(p, cfg.height, cfg.width) && IsPicture(last, cfg.height, cfg.width)
    requires Fits(cfg, Keep, log2w, log2h, y, x)
    ensures Painted(cfg, p, p, last, Keep, log2w, log2h, y, x)
  {
    hide Inside;
  }

  /** Two pixels side by side or one above the other. */
  lemma PaintedRaw(cfg: Config, p: seq<word>, last: seq<word>, b: Block, log2w: nat, log2h: nat, y: nat, x: nat)
    requires IsPicture(p, cfg.height, cfg.width) && IsPicture(last, cfg.height, cfg.width)
    requires b.Raw? && Fits(cfg, b, log2w, log2h, y, x)
    requires y + Pow2(log2h) <= cfg.height && x + Pow2(log2w) <= cfg.width
    ensures var pos := Flat(cfg, y, x); var pos' := if log2w > 0 then pos + 1 else pos + cfg.width;
            && pos < |p| && pos' < |p|
            && var q := p[pos := b.first][pos' := b.second];
               IsPicture(q, cfg.height, cfg.width) && Painted(cfg, p, q, last, b, log2w, log2h, y, x)
  {
    var pos := Flat(cfg, y, x);
    WritePixel(p, cfg.height, cfg.width, y, x, b.first);
    var m := p[pos := b.first];
    if log2w > 0 {
      WritePixel(m, cfg.height, cfg.width, y, x + 1, b.second);
    } else {
      WritePixel(m, cfg.height, cfg.width, y + 1, x, b.second);
    }
  }

  /** A decoding step succeeds exactly when parsing does, reads as much and paints the tree. */
  ghost predicate Decoded(cfg: Config, r: Option<(Block, Input)>, ok: bool, unread: Input,
                          p: seq<word>, q: seq<word>, last: seq<word>, log2w: nat, log2h: nat, y: nat, x: nat)
    requires IsPicture(p, cfg.height, cfg.width) && IsPicture(q, cfg.height, cfg.width)
    requires IsPicture(last, cfg.height, cfg.width)
  {
    && (ok <==> r.Some?)
    && (ok ==> && unread == r.value.1
               && Fits(cfg, r.value.0, log2w, log2h, y, x)
               && Painted(cfg, p, q, last, r.value.0, log2w, log2h, y, x))
  }

  /** When the first of two steps fails, nothing more is decoded. */
  lemma DecodedNone(cfg: Config, r1: Option<(Block, Input)>, inp: Input, p: seq<word>, q: seq<word>, last: seq<word>,
                    log2w1: nat, log2h1: nat, log2w: nat, log2h: nat, y: nat, x: nat)
    requires IsPicture(p, cfg.height, cfg.width) && IsPicture(q, cfg.height, cfg.width)
    requires IsPicture(last, cfg.height, cfg.width)
    requires Decoded(cfg, r1, false, inp, p, q, last, log2w1, log2h1, y, x)
    ensures r1.None? && Decoded(cfg, None, false, inp, p, q, last, log2w, log2h, y, x)
  {
  }

  lemma DecodedRows(cfg: Config, r1: Option<(Block, Input)>, r2: Option<(Block, Input)>, ok: bool,
                    inp1: Input, inp2: Input, p: seq<word>, m: seq<word>, q: seq<word>, last: seq<word>,
                    log2w: nat, log2h: nat, y: nat, x: nat)
    requires IsPicture(p, cfg.height, cfg.width) && IsPicture(m, cfg.height, cfg.width)
    requires IsPicture(q, cfg.height, cfg.width) && IsPicture(last, cfg.height, cfg.width)
    requires log2h >= 1 && log2w + log2h >= 2
    requires Decoded(cfg, r1, true, inp1, p, m, last, log2w, log2h - 1, y, x)
    requires Decoded(cfg, r2, ok, inp2, m, q, last, log2w, log2h - 1, y + Pow2(log2h - 1), x)
    ensures Decoded(cfg, Both(true, r1, r2), ok, inp2, p, q, last, log2w, log2h, y, x)
  {
    if ok {
      PaintedRows(cfg, p, m, q, last, Rows(r1.value.0, r2.value.0), log2w, log2h, y, x);
    }
  }

  lemma DecodedCols(cfg: Config, r1: Option<(Block, Input)>, r2: Option<(Block, Input)>, ok: bool,
                    inp1: Input, inp2: Input, p: seq<word>, m: seq<word>, q: seq<word>, last: seq<word>,
                    log2w: nat, log2h: nat, y: nat, x: nat)
    requires IsPicture(p, cfg.height, cfg.width) && IsPicture(m, cfg.height, cfg.width)
    requires IsPicture(q, cfg.height, cfg.width) && IsPicture(last, cfg.height, cfg.width)
    requires log2w >= 1 && log2w + log2h >= 2
    requires Decoded(cfg, r1, true, inp1, p, m, last, log2w - 1, log2h, y, x)
    requires Decoded(cfg, r2, ok, inp2, m, q, last, log2w - 1, log2h, y, x + Pow2(log2w - 1))
    ensures Decoded(cfg, Both(false, r1, r2), ok, inp2, p, q, last, log2w, log2h, y, x)
  {
    if ok {
      PaintedCols(cfg, p, m, q, last, Cols(r1.value.0, r2.value.0), log2w, log2h, y, x);
    }
  }

  // ---- whole frames -----------------------------------------------------------------------

  ghost predicate RowFits(cfg: Config, bs: seq<Block>, y: nat) {
    forall k :: 0 <= k < |bs| ==> Fits(cfg, bs[k], 3, 3, y, 8 * k)
  }

  lemma RowFitsOneMore(cfg: Config, bs: seq<Block>, b: Block, y: nat)
    requires RowFits(cfg, bs, y) && Fits(cfg, b, 3, 3, y, 8 * |bs|)
    ensures RowFits(cfg, bs + [b], y)
  {
    hide Fits;
  }

  /** The 8x8 blocks of the block row at `y`, after the ones in `done`. */
  function ParseRow(cfg: Config, inp: Input, y: nat, done: seq<Block>): (r: Option<(seq<Block>, Input)>)
    requires |cfg.mv| == 256 && 8 * |done| <= cfg.width && cfg.width % 8 == 0 && RowFits(cfg, done, y)
    ensures r.Some? ==> 8 * |r.value.0| == cfg.width && RowFits(cfg, r.value.0, y)
    decreases cfg.width - 8 * |done|
  {
    if 8 * |done| == cfg.width then Some((done, inp))
    else
      var r := Parse(cfg, inp, 3, 3, y, 8 * |done|);
      if r.None? then None
      else
        RowFitsOneMore(cfg, done, r.value.0, y);
        ParseRow(cfg, r.value.1, y, done + [r.value.0])
  }

  ghost predicate FrameFits(cfg: Config, rows: seq<seq<Block>>) {
    forall k :: 0 <= k < |rows| ==> 8 * |rows[k]| == cfg.width && RowFits(cfg, rows[k], 8 * k)
  }

  lemma FrameFitsOneMore(cfg: Config, rows: seq<seq<Block>>, bs: seq<Block>)
    requires FrameFits(cfg, rows) && 8 * |bs| == cfg.width && RowFits(cfg, bs, 8 * |rows|)
    ensures FrameFits(cfg, rows + [bs])
  {
    hide RowFits;
  }

  /** All block rows, after the ones in `done`. */
  function ParseFrame(cfg: Config, inp: Input, done: seq<seq<Block>>): (r: Option<(seq<seq<Block>>, Input)>)
    requires |cfg.mv| == 256 && cfg.width % 8 == 0 && cfg.height % 8 == 0
    requires 8 * |done| <= cfg.height && FrameFits(cfg, done)
    ensures r.Some? ==> 8 * |r.value.0| == cfg.height && FrameFits(cfg, r.value.0)
    decreases cfg.height - 8 * |done|
  {
    if 8 * |done| == cfg.height then Some((done, inp))
    else
      var r := ParseRow(cfg, inp, 8 * |done|, []);
      if r.None? then None
      else
        FrameFitsOneMore(cfg, done, r.value.0);
        ParseFrame(cfg, r.value.1, done + [r.value.0])
  }

  /** `q` is `p` with the first blocks of the block row at `y` painted. */
  ghost predicate RowPainted(cfg: Config, p: seq<word>, q: seq<word>, last: seq<word>, bs: seq<Block>, y: nat)
    requires IsPicture(p, cfg.height, cfg.width) && IsPicture(q, cfg.height, cfg.width)
    requires IsPicture(last, cfg.height, cfg.width) && RowFits(cfg, bs, y)
  {
    forall y', x' :: 0 <= y' < cfg.height && 0 <= x' < cfg.width ==>
      At(q, cfg.height, cfg.width, y', x') ==
        if y <= y' < y + 8 && x' < 8 * |bs|
        then PixelOf(cfg, bs[x' / 8], 3, 3, y, 8 * (x' / 8), last, y', x', At(p, cfg.height, cfg.width, y', x'))
        else At(p, cfg.height, cfg.width, y', x')
  }

  /** `q` is `p` with the first block rows painted: every pixel from the one block it lies in. */
  ghost predicate FramePainted(cfg: Config, p: seq<word>, q: seq<word>, last: seq<word>, rows: seq<seq<Block>>)
    requires IsPicture(p, cfg.height, cfg.width) && IsPicture(q, cfg.height, cfg.width)
    requires IsPicture(last, cfg.height, cfg.width) && FrameFits(cfg, rows)
  {
    forall y', x' :: 0 <= y' < cfg.height && 0 <= x' < cfg.width ==>
      At(q, cfg.height, cfg.width, y', x') ==
        if y' < 8 * |rows|
        then PixelOf(cfg, rows[y' / 8][x' / 8], 3, 3, 8 * (y' / 8), 8 * (x' / 8), last, y', x',
                     At(p, cfg.height, cfg.width, y', x'))
        else At(p, cfg.height, cfg.width, y', x')
  }

  lemma BlockRowExtended(cfg: Config, p: seq<word>, m: seq<word>, q: seq<word>, last: seq<word>, bs: seq<Block>,
                         b: Block, y: nat)
    requires IsPicture(p, cfg.height, cfg.width) && IsPicture(m, cfg.height, cfg.width)
    requires IsPicture(q, cfg.height, cfg.width) && IsPicture(last, cfg.height, cfg.width)
    requires RowFits(cfg, bs, y) && Fits(cfg, b, 3, 3, y, 8 * |bs|)
    requires RowPainted(cfg, p, m, last, bs, y) && Painted(cfg, m, q, last, b, 3, 3, y, 8 * |bs|)
    ensures RowFits(cfg, bs + [b], y) && RowPainted(cfg, p, q, last, bs + [b], y)
  {
    hide Fits, PixelOf;
    var h, w, bs' := cfg.height, cfg.width, bs + [b];
    forall y', x' | 0 <= y' < h && 0 <= x' < w
      ensures At(q, h, w, y', x') ==
        if y <= y' < y + 8 && x' < 8 * |bs'|
        then PixelOf(cfg, bs'[x' / 8], 3, 3, y, 8 * (x' / 8), last, y', x', At(p, h, w, y', x'))
        else At(p, h, w, y', x')
    {
      assert Pow2(3) == 8;
      if 8 * |bs| <= x' < 8 * |bs'| {
        assert x' / 8 == |bs|;
      }
    }
  }

  lemma BlockRowsExtended(cfg: Config, p: seq<word>, m: seq<word>, q: seq<word>, last: seq<word>,
                          rows: seq<seq<Block>>, row: seq<Block>)
    requires IsPicture(p, cfg.height, cfg.width) && IsPicture(m, cfg.height, cfg.width)
    requires IsPicture(q, cfg.height, cfg.width) && IsPicture(last, cfg.height, cfg.width)
    requires FrameFits(cfg, rows) && RowFits(cfg, row, 8 * |rows|) && 8 * |row| == cfg.width
    requires FramePainted(cfg, p, m, last, rows) && RowPainted(cfg, m, q, last, row, 8 * |rows|)
    ensures FrameFits(cfg, rows + [row]) && FramePainted(cfg, p, q, last, rows + [row])
  {
    hide Fits, PixelOf;
    var h, w, rows' := cfg.height, cfg.width, rows + [row];
    forall y', x' | 0 <= y' < h && 0 <= x' < w
      ensures At(q, h, w, y', x') ==
        if y' < 8 * |rows'|
        then PixelOf(cfg, rows'[y' / 8][x' / 8], 3, 3, 8 * (y' / 8), 8 * (x' / 8), last, y', x', At(p, h, w, y', x'))
        else At(p, h, w, y', x')
    {
      if 8 * |rows| <= y' < 8 * |rows'| {
        assert y' / 8 == |rows|;
      }
    }
  }

  // ---- the decoder ----------------------------------------------------------------------

  class FourXContext {
    const cfg: Config
    var frame_buffer: array<word>
    var last_frame_buffer: array<word>
    var gb: seq<bool>
    var g: seq<byte>
    var g2: seq<byte>

    constructor (cfg: Config, frame: array<word>, last: array<word>, gb: seq<bool>, g: seq<byte>, g2: seq<byte>)
      ensures this.cfg == cfg && frame_buffer == frame && last_frame_buffer == last && Unread() == Input(gb, g, g2)
    {
      this.cfg := cfg;
      frame_buffer, last_frame_buffer := frame, last;
      this.gb, this.g, this.g2 := gb, g, g2;
    }

    ghost predicate Valid()
      reads this, frame_buffer, last_frame_buffer
    {
      && frame_buffer != last_frame_buffer && |cfg.mv| == 256
      && IsPicture(frame_buffer[..], cfg.height, cfg.width)
      && IsPicture(last_frame_buffer[..], cfg.height, cfg.width)
    }

    function Unread(): (r: Input)
      reads this
    {
      Input(gb, g, g2)
    }

    ghost predicate KeepsBuffers(frame: array<word>, last: array<word>, was: seq<word>)
      reads this, frame_buffer, last_frame_buffer
    {
      Valid() && frame_buffer == frame && last_frame_buffer == last && last[..] == was
    }

    /** Code 6: two pixels from the word stream. */
    method DecodeRaw(log2w: nat, log2h: nat, y: nat, x: nat) returns (ok: bool)
      requires Valid() && log2w + log2h == 1
      requires y + Pow2(log2h) <= cfg.height && x + Pow2(log2w) <= cfg.width
      modifies this`g2, frame_buffer
      ensures KeepsBuffers(old(frame_buffer), old(last_frame_buffer), old(last_frame_buffer[..]))
      ensures Decoded(cfg, ParseLeaf(cfg, old(Unread()), 6, log2w, log2h, y, x), ok, Unread(),
                      old(frame_buffer[..]), frame_buffer[..], old(last_frame_buffer[..]), log2w, log2h, y, x)
    {
      if |g2| < 4 {
        return false;
      }
      var first, second, pos := Le16(g2), Le16(g2[2..]), Flat(cfg, y, x);
      PaintedRaw(cfg, frame_buffer[..], last_frame_buffer[..], Raw(first, second), log2w, log2h, y, x);
      frame_buffer[pos] := first;
      if log2w != 0 {
        frame_buffer[pos + 1] := second;
      } else {
        frame_buffer[pos + cfg.width] := second;
      }
      g2 := g2[4..];
      return true;
    }

    /** The statements after the block type: what to copy, from where. */
    method ReadMotion(code: nat, log2w: nat, log2h: nat, y: nat, x: nat)
      returns (ok: bool, src: int, scale: int, dc: word)
      requires |cfg.mv| == 256 && log2w + log2h >= 1 && code in {0, 3, 4, 5} && (code == 3 ==> cfg.version < 2)
      requires y + Pow2(log2h) <= cfg.height && x + Pow2(log2w) <= cfg.width
      modifies this`g, this`g2
      ensures var r := ParseLeaf(cfg, old(Unread()), code, log2w, log2h, y, x);
              && (ok && InRange(cfg.height, cfg.width, src, Pow2(log2w), Pow2(log2h)) <==> r.Some?)
              && (r.Some? ==> r.value == (Move(src - Flat(cfg, y, x), scale, dc), Unread()))
      ensures scale == 0 || scale == 1
    {
      src, scale, dc := Flat(cfg, y, x), 1, 0;
      if (code == 0 || code == 4) && |g| < 1 {
        return false, src, scale, dc;
      }
      if code == 0 {
        src := src + cfg.mv[g[0]];
        g := g[1..];
      } else if code == 4 {
        src := src + cfg.mv[g[0]];
        g := g[1..];
        if |g2| < 2 {
          return false, src, scale, dc;
        }
        dc := Le16(g2);
        g2 := g2[2..];
      } else if code == 5 {
        if |g2| < 2 {
          return false, src, scale, dc;
        }
        OwnPositionInRange(cfg.height, cfg.width, y, x, Pow2(log2h), Pow2(log2w));
        assert InRange(cfg.height, cfg.width, src, Pow2(log2w), Pow2(log2h));  // av_assert0
        scale := 0;
        dc := Le16(g2);
        g2 := g2[2..];
      }
      ok := true;
    }

    /** A leaf, once its block type is known. */
    method DecodeLeaf(code: nat, log2w: nat, log2h: nat, y: nat, x: nat) returns (ok: bool)
      requires Valid() && log2w <= 3 && log2h <= 3 && log2w + log2h >= 1
      requires code <= 6 && code != 1 && code != 2 && (code == 6 ==> log2w + log2h == 1)
      requires y + Pow2(log2h) <= cfg.height && x + Pow2(log2w) <= cfg.width
      modifies this`g, this`g2, frame_buffer
      ensures KeepsBuffers(old(frame_buffer), old(last_frame_buffer), old(last_frame_buffer[..]))
      ensures Decoded(cfg, ParseLeaf(cfg, old(Unread()), code, log2w, log2h, y, x), ok, Unread(),
                      old(frame_buffer[..]), frame_buffer[..], old(last_frame_buffer[..]), log2w, log2h, y, x)
    {
      hide Painted, Copied, IsPicture;
      if code == 6 {
        ok := DecodeRaw(log2w, log2h, y, x);
      } else if code == 3 && cfg.version >= 2 {
        PaintedKeep(cfg, frame_buffer[..], last_frame_buffer[..], log2w, log2h, y, x);
        ok := true;
      } else {
        var src, scale, dc;
        ok, src, scale, dc := ReadMotion(code, log2w, log2h, y, x);
        if ok {
          ok := InRange(cfg.height, cfg.width, src, Pow2(log2w), Pow2(log2h));
        }
        if ok {
          ghost var leaf := Move(src - Flat(cfg, y, x), scale, dc);
          ghost var p, last := frame_buffer[..], last_frame_buffer[..];
          Mcdc(frame_buffer, Flat(cfg, y, x), last_frame_buffer, src, log2w, Pow2(log2h), cfg.width, scale, dc,
               cfg.height, y, x);
          PaintedMove(cfg, p, frame_buffer[..], last, leaf, log2w, log2h, y, x);
        }
      }
    }

    /** decode_p_block: the pointers dst and src both stand at pixel (y, x) of their buffers. */
    method DecodeBlock(log2w: nat, log2h: nat, y: nat, x: nat) returns (ok: bool)
      requires Valid() && log2w <= 3 && log2h <= 3 && log2w + log2h >= 1
      requires y + Pow2(log2h) <= cfg.height && x + Pow2(log2w) <= cfg.width
      modifies this`gb, this`g, this`g2, frame_buffer
      ensures KeepsBuffers(old(frame_buffer), old(last_frame_buffer), old(last_frame_buffer[..]))
      ensures Decoded(cfg, Parse(cfg, old(Unread()), log2w, log2h, y, x), ok, Unread(),
                      old(frame_buffer[..]), frame_buffer[..], old(last_frame_buffer[..]), log2w, log2h, y, x)
      decreases log2w + log2h, 1
    {
      if |gb| < 1 {
        return false;
      }
      var (code, len) := BlockCode(cfg.version, gb, log2w, log2h);
      gb := Drop(gb, len);
      if code == 1 {
        ok := DecodeRows(log2w, log2h, y, x);
      } else if code == 2 {
        ok := DecodeCols(log2w, log2h, y, x);
      } else {
        ok := DecodeLeaf(code, log2w, log2h, y, x);
      }
    }

    /** The branch for code 1 of decode_p_block. */
    method DecodeRows(log2w: nat, log2h: nat, y: nat, x: nat) returns (ok: bool)
      requires Valid() && log2w <= 3 && 1 <= log2h <= 3 && log2w + log2h >= 2
      requires y + Pow2(log2h) <= cfg.height && x + Pow2(log2w) <= cfg.width
      modifies this`gb, this`g, this`g2, frame_buffer
      ensures KeepsBuffers(old(frame_buffer), old(last_frame_buffer), old(last_frame_buffer[..]))
      ensures Decoded(cfg, ParseRows(cfg, old(Unread()), log2w, log2h, y, x), ok, Unread(),
                      old(frame_buffer[..]), frame_buffer[..], old(last_frame_buffer[..]), log2w, log2h, y, x)
      decreases log2w + log2h, 0
    {
      hide Parse, Fits, PixelOf, Painted, Decoded;
      ghost var p, last := frame_buffer[..], last_frame_buffer[..];
      ghost var r1 := Parse(cfg, Unread(), log2w, log2h - 1, y, x);
      ok := DecodeBlock(log2w, log2h - 1, y, x);
      if ok {
        ghost var m, inp1 := frame_buffer[..], Unread();
        assert Decoded(cfg, r1, true, inp1, p, m, last, log2w, log2h - 1, y, x);
        ghost var r2 := Parse(cfg, inp1, log2w, log2h - 1, y + Pow2(log2h - 1), x);
        ok := DecodeBlock(log2w, log2h - 1, y + Pow2(log2h - 1), x);
        ghost var q, inp2 := frame_buffer[..], Unread();
        assert Decoded(cfg, r2, ok, inp2, m, q, last, log2w, log2h - 1, y + Pow2(log2h - 1), x);
        DecodedRows(cfg, r1, r2, ok, inp1, inp2, p, m, q, last, log2w, log2h, y, x);
      } else {
        DecodedNone(cfg, r1, Unread(), p, frame_buffer[..], last, log2w, log2h - 1, log2w, log2h, y, x);
      }
    }

    /** The branch for code 2 of decode_p_block. */
    method DecodeCols(log2w: nat, log2h: nat, y: nat, x: nat) returns (ok: bool)
      requires Valid() && 1 <= log2w <= 3 && log2h <= 3 && log2w + log2h >= 2
      requires y + Pow2(log2h) <= cfg.height && x + Pow2(log2w) <= cfg.width
      modifies this`gb, this`g, this`g2, frame_buffer
      ensures KeepsBuffers(old(frame_buffer), old(last_frame_buffer), old(last_frame_buffer[..]))
      ensures Decoded(cfg, ParseCols(cfg, old(Unread()), log2w, log2h, y, x), ok, Unread(),
                      old(frame_buffer[..]), frame_buffer[..], old(last_frame_buffer[..]), log2w, log2h, y, x)
      decreases log2w + log2h, 0
    {
      hide Parse, Fits, PixelOf, Painted, Decoded;
      ghost var p, last := frame_buffer[..], last_frame_buffer[..];
      ghost var r1 := Parse(cfg, Unread(), log2w - 1, log2h, y, x);
      ok := DecodeBlock(log2w - 1, log2h, y, x);
      if ok {
        ghost var m, inp1 := frame_buffer[..], Unread();
        assert Decoded(cfg, r1, true, inp1, p, m, last, log2w - 1, log2h, y, x);
        ghost var r2 := Parse(cfg, inp1, log2w - 1, log2h, y, x + Pow2(log2w - 1));
        ok := DecodeBlock(log2w - 1, log2h, y, x + Pow2(log2w - 1));
        ghost var q, inp2 := frame_buffer[..], Unread();
        assert Decoded(cfg, r2, ok, inp2, m, q, last, log2w - 1, log2h, y, x + Pow2(log2w - 1));
        DecodedCols(cfg, r1, r2, ok, inp1, inp2, p, m, q, last, log2w, log2h, y, x);
      } else {
        DecodedNone(cfg, r1, Unread(), p, frame_buffer[..], last, log2w - 1, log2h, log2w, log2h, y, x);
      }
    }

    /** The inner loop of decode_p_frame: one row of 8x8 blocks. */
    method DecodeRow(y: nat) returns (ok: bool)
      requires Valid() && cfg.width % 8 == 0 && y + 8 <= cfg.height
      modifies this`gb, this`g, this`g2, frame_buffer
      ensures KeepsBuffers(old(frame_buffer), old(last_frame_buffer), old(last_frame_buffer[..]))
      ensures var r := ParseRow(cfg, old(Unread()), y, []);
              && (ok <==> r.Some?)
              && (ok ==> Unread() == r.value.1 &&
                         RowPainted(cfg, old(frame_buffer[..]), frame_buffer[..], old(last_frame_buffer[..]),
                                    r.value.0, y))
    {
      hide Parse, Fits, PixelOf, Painted, IsPicture;
      ghost var frame, buf, p, last := frame_buffer, last_frame_buffer, frame_buffer[..], last_frame_buffer[..];
      ghost var done: seq<Block> := [];
      var x := 0;
      while x < cfg.width
        invariant x == 8 * |done| <= cfg.width && RowFits(cfg, done, y)
        invariant KeepsBuffers(frame, buf, last)
        invariant ParseRow(cfg, Unread(), y, done) == ParseRow(cfg, old(Unread()), y, [])
        invariant RowPainted(cfg, p, frame_buffer[..], last, done, y)
      {
        ghost var m, r := frame_buffer[..], Parse(cfg, Unread(), 3, 3, y, x);
        assert Pow2(3) == 8;
        ok := DecodeBlock(3, 3, y, x);
        if !ok {
          return false;
        }
        BlockRowExtended(cfg, p, m, frame_buffer[..], last, done, r.value.0, y);
        done := done + [r.value.0];
        x := x + 8;
      }
      return true;
    }

    /** The outer loop of decode_p_frame. */
    method DecodeFrame() returns (ok: bool)
      requires Valid() && cfg.width % 8 == 0 && cfg.height % 8 == 0
      modifies this`gb, this`g, this`g2, frame_buffer
      ensures KeepsBuffers(old(frame_buffer), old(last_frame_buffer), old(last_frame_buffer[..]))
      ensures var r := ParseFrame(cfg, old(Unread()), []);
              && (ok <==> r.Some?)
              && (ok ==> Unread() == r.value.1 &&
                         FramePainted(cfg, old(frame_buffer[..]), frame_buffer[..], old(last_frame_buffer[..]),
                                      r.value.0))
    {
      hide ParseRow, Fits, PixelOf, RowPainted;
      ghost var frame, buf, p, last := frame_buffer, last_frame_buffer, frame_buffer[..], last_frame_buffer[..];
      ghost var done: seq<seq<Block>> := [];
      var y := 0;
      while y < cfg.height
        invariant y == 8 * |done| <= cfg.height && FrameFits(cfg, done)
        invariant KeepsBuffers(frame, buf, last)
        invariant ParseFrame(cfg, Unread(), done) == ParseFrame(cfg, old(Unread()), [])
        invariant FramePainted(cfg, p, frame_buffer[..], last, done)
      {
        ghost var m, r := frame_buffer[..], ParseRow(cfg, Unread(), y, []);
        ok := DecodeRow(y);
        if !ok {
          return false;
        }
        BlockRowsExtended(cfg, p, m, frame_buffer[..], last, done, r.value.0);
        done := done + [r.value.0];
        y := y + 8;
      }
      return true;
    }
  }
}
