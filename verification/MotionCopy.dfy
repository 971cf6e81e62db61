/**
 * mcdc of 4xm.c: copying or filling a block of pixels, two pixels at a time in
 * 32-bit arithmetic, so that the first pixel of a pair carries into the second.
 */
module MotionCopy {
  import opened Binary
  import opened Picture

  // ---- one pair of pixels -----------------------------------------------------

  /** scale * s + dc, without its carry. */
  function First(s: word, scale: int, dc: word): (r: word) {
    (scale * s + dc) % 65536
  }

  /** The second pixel of a pair also receives the carry of the first. */
  function Second(s0: word, s1: word, scale: int, dc: word): (r: word) {
    (scale * s1 + dc + (scale * s0 + dc) / 65536) % 65536
  }

  const TWO_32: int := 0x1_0000_0000

  type unsigned = x: int | 0 <= x < TWO_32

  /** Two 16-bit halves of a 32-bit number, and back. */
  function Join(hi: word, lo: word): (r: unsigned)
    ensures High(r) == hi && Low(r) == lo
  {
    hi * 65536 + lo
  }

  function High(t: unsigned): (r: word) {
    t / 65536
  }

  function Low(t: unsigned): (r: word) {
    t % 65536
  }

  /** (t << 16) | (t >> 16) */
  function Swap(t: unsigned): (r: unsigned)
    ensures High(r) == Low(t) && Low(r) == High(t)
  {
    Join(Low(t), High(t))
  }

  /** t * scale + dc in 32 bits, where dc has been spread to both halves. */
  function MulAdd(t: unsigned, scale: int, dc: word): (r: unsigned) {
    (t * scale + dc * 0x10001) % TWO_32
  }

  /** The macro on a little-endian machine: the first pixel is the low half. */
  function LittleEndianMul(s0: word, s1: word, scale: int, dc: word): (r: (word, word)) {
    var t := MulAdd(Join(s1, s0), scale, dc);
    (Low(t), High(t))
  }

  /** The macro on a big-endian machine: the first pixel is the high half. */
  function BigEndianMul(s0: word, s1: word, scale: int, dc: word): (r: (word, word)) {
    var t := Swap(MulAdd(Swap(Join(s0, s1)), scale, dc));
    (High(t), Low(t))
  }

  /** The packed arithmetic computes the two pixels. */
  lemma LittleEndianPixels(s0: word, s1: word, scale: int, dc: word)
    requires scale == 0 || scale == 1
    ensures LittleEndianMul(s0, s1, scale, dc) == (First(s0, scale, dc), Second(s0, s1, scale, dc))
  {
    MulAddHalves(s0, s1, scale, dc);
    CarryIntoHigh(scale * s1 + dc, scale * s0 + dc);
  }

  lemma MulAddHalves(s0: word, s1: word, scale: int, dc: word)
    requires scale == 0 || scale == 1
    ensures MulAdd(Join(s1, s0), scale, dc) == ((scale * s1 + dc) * 65536 + (scale * s0 + dc)) % TWO_32
  {
    var a, b := Join(s1, s0) * scale + dc * 0x10001, (scale * s1 + dc) * 65536 + (scale * s0 + dc);
    assert a == b by {
      if scale == 0 {
        assert Join(s1, s0) * scale == 0 && scale * s1 == 0 && scale * s0 == 0;
      } else {
        assert Join(s1, s0) * scale == s1 * 65536 + s0 && scale * s1 == s1 && scale * s0 == s0;
      }
    }
  }

  lemma CarryIntoHigh(hi: nat, lo: nat)
    ensures var t: unsigned := (hi * 65536 + lo) % TWO_32;
            Low(t) == lo % 65536 && High(t) == (hi + lo / 65536) % 65536
  {
    var h := hi + lo / 65536;
    Remainder(hi * 65536 + lo, h / 65536, Join(h % 65536, lo % 65536));
  }

  lemma Remainder(x: int, q: int, r: unsigned)
    requires x == q * TWO_32 + r
    ensures x % TWO_32 == r
  {
  }

  /** Both byte orders store the same two pixels. */
  lemma EndiannessAgrees(s0: word, s1: word, scale: int, dc: word)
    ensures BigEndianMul(s0, s1, scale, dc) == LittleEndianMul(s0, s1, scale, dc)
  {
    assert Swap(Join(s0, s1)) == Join(s1, s0);
    hide *;
  }

  // ---- a block of pixels ---------------------------------------------------------

  /** Pixel `c` of a row that mcdc writes from source position `src` on. */
  function RowPixel(last: seq<word>, src: int, scale: int, dc: word, c: nat): (r: word)
    requires 0 <= src && src + c < |last|
  {
    if c % 2 == 0 then First(last[src + c], scale, dc) else Second(last[src + c - 1], last[src + c], scale, dc)
  }

  /** With scale 0 the block is filled with dc exactly. */
  lemma ScaleZeroFills(last: seq<word>, src: int, dc: word, c: nat)
    requires 0 <= src && src + c < |last|
    ensures RowPixel(last, src, 0, dc, c) == dc
  {
  }

  /** With scale 1 and dc 0 the block is copied exactly. */
  lemma DcZeroCopies(last: seq<word>, src: int, c: nat)
    requires 0 <= src && src + c < |last|
    ensures RowPixel(last, src, 1, 0, c) == last[src + c]
  {
  }

  /** The range test of decode_p_block: between the picture's first pixel and `end`. */
  predicate InRange(ph: nat, pw: nat, src: int, w: nat, h: nat) {
    h <= ph && 0 <= src <= Area(ph - h + 1, pw) - w
  }

  /** A source position in range has all its rows inside the picture. */
  lemma InRangeReads(last: seq<word>, ph: nat, pw: nat, src: int, w: nat, h: nat, r: nat)
    requires IsPicture(last, ph, pw) && InRange(ph, pw, src, w, h) && r < h
    ensures 0 <= src + Area(r, pw) && src + Area(r, pw) + w <= |last|
  {
    AreaAdd(ph - h + 1, h - 1, pw);
    AreaAdd(r, h - 1 - r, pw);
  }

  /** Pixel (r, c) of a block of width `w` and height `h` that mcdc writes. */
  ghost function BlockPixel(last: seq<word>, ph: nat, pw: nat, src: int, w: nat, h: nat, scale: int, dc: word,
                            r: nat, c: nat): (out: word)
    requires IsPicture(last, ph, pw) && InRange(ph, pw, src, w, h) && r < h && c < w
  {
    InRangeReads(last, ph, pw, src, w, h, r);
    RowPixel(last, src + Area(r, pw), scale, dc, c)
  }

  /** Whether a pixel lies in the rectangle at (top, left). */
  predicate Inside(y: int, x: int, top: nat, left: nat, h: nat, w: nat) {
    top <= y < top + h && left <= x < left + w
  }

  /** `q` is `p` with the first `n` rows of the block at (top, left) copied from `src`. */
  ghost predicate Copied(p: seq<word>, q: seq<word>, last: seq<word>, ph: nat, pw: nat, top: nat, left: nat,
                         src: int, w: nat, h: nat, scale: int, dc: word, n: nat)
    requires IsPicture(p, ph, pw) && IsPicture(q, ph, pw) && IsPicture(last, ph, pw)
    requires InRange(ph, pw, src, w, h) && n <= h
  {
    forall y, x :: 0 <= y < ph && 0 <= x < pw ==>
      At(q, ph, pw, y, x) ==
        if Inside(y, x, top, left, n, w) then BlockPixel(last, ph, pw, src, w, h, scale, dc, y - top, x - left)
        else At(p, ph, pw, y, x)
  }

  /** Positions dst..dst + w of a flat picture are the pixels left..left + w of row `y`. */
  lemma RowPositions(ph: nat, pw: nat, y: nat, left: nat, w: nat, y': nat, x': nat)
    requires y < ph && y' < ph && x' < pw && left + w <= pw
    ensures 0 <= Area(y', pw) + x' < Area(ph, pw)
    ensures var dst := Area(y, pw) + left;
            dst <= Area(y', pw) + x' < dst + w <==> y' == y && left <= x' < left + w
  {
    EarlierRow(pw, y', x', ph);
    if y' < y {
      EarlierRow(pw, y', x', y);
    } else if y < y' && w > 0 {
      EarlierRow(pw, y, left + w - 1, y');
    }
  }

  lemma NothingCopied(p: seq<word>, last: seq<word>, ph: nat, pw: nat, top: nat, left: nat,
                      src: int, w: nat, h: nat, scale: int, dc: word)
    requires IsPicture(p, ph, pw) && IsPicture(last, ph, pw) && InRange(ph, pw, src, w, h)
    ensures Copied(p, p, last, ph, pw, top, left, src, w, h, scale, dc, 0)
  {
  }

  /** A row that is copied is read where the block says; one that is filled may be read anywhere. */
  lemma SamePixel(last: seq<word>, ph: nat, pw: nat, src: int, w: nat, h: nat, scale: int, dc: word,
                  n: nat, from: int, c: nat)
    requires IsPicture(last, ph, pw) && InRange(ph, pw, src, w, h) && n < h && c < w
    requires 0 <= from && from + w <= |last|
    requires scale == 0 || (scale == 1 && from == src + Area(n, pw))
    ensures RowPixel(last, from, scale, dc, c) == BlockPixel(last, ph, pw, src, w, h, scale, dc, n, c)
  {
    InRangeReads(last, ph, pw, src, w, h, n);
    hide RowPixel, InRange, Area;
    if scale == 0 {
      ScaleZeroFills(last, from, dc, c);
      ScaleZeroFills(last, src + Area(n, pw), dc, c);
    }
  }

  /** One row written in the flat array extends the copied rows by one. */
  lemma RowCopied(p: seq<word>, q: seq<word>, q': seq<word>, last: seq<word>, ph: nat, pw: nat, top: nat, left: nat,
                  src: int, w: nat, h: nat, scale: int, dc: word, n: nat, from: int)
    requires IsPicture(p, ph, pw) && IsPicture(q, ph, pw) && IsPicture(q', ph, pw) && IsPicture(last, ph, pw)
    requires InRange(ph, pw, src, w, h) && n < h && top + h <= ph && left + w <= pw
    requires Copied(p, q, last, ph, pw, top, left, src, w, h, scale, dc, n)
    requires 0 <= from && from + w <= |last|
    requires RowWritten(q, q', last, Area(top + n, pw) + left, from, w, scale, dc)
    requires scale == 0 || (scale == 1 && from == src + Area(n, pw))
    ensures Copied(p, q', last, ph, pw, top, left, src, w, h, scale, dc, n + 1)
  {
    InRangeReads(last, ph, pw, src, w, h, n);
    hide RowPixel, BlockPixel, InRange, Area;
    forall y, x | 0 <= y < ph && 0 <= x < pw
      ensures At(q', ph, pw, y, x) ==
        if Inside(y, x, top, left, n + 1, w) then BlockPixel(last, ph, pw, src, w, h, scale, dc, y - top, x - left)
        else At(p, ph, pw, y, x)
    {
      RowPositions(ph, pw, top + n, left, w, y, x);
      if y == top + n && left <= x < left + w {
        SamePixel(last, ph, pw, src, w, h, scale, dc, n, from, x - left);
      } else {
        assert At(q', ph, pw, y, x) == At(q, ph, pw, y, x);
      }
    }
  }

  // ---- the code ---------------------------------------------------------------------

  /** `q` is `p` with `w` pixels from `dst` on written as one row. */
  ghost predicate RowWritten(p: seq<word>, q: seq<word>, last: seq<word>, dst: nat, src: nat, w: nat,
                             scale: int, dc: word)
    requires src + w <= |last|
  {
    && |q| == |p|
    && forall k :: 0 <= k < |p| ==>
         q[k] == if dst <= k < dst + w then RowPixel(last, src, scale, dc, k - dst) else p[k]
  }

  lemma RowExtended(p: seq<word>, q: seq<word>, q': seq<word>, last: seq<word>, dst: nat, src: nat, w: nat,
                    scale: int, dc: word)
    requires w % 2 == 0 && src + w + 2 <= |last|
    requires RowWritten(p, q, last, dst, src, w, scale, dc)
    requires RowWritten(q, q', last, dst + w, src + w, 2, scale, dc)
    ensures RowWritten(p, q', last, dst, src, w + 2, scale, dc)
  {
    forall k | 0 <= k < |p|
      ensures q'[k] == if dst <= k < dst + w + 2 then RowPixel(last, src, scale, dc, k - dst) else p[k]
    {
      if dst + w <= k < dst + w + 2 {
        PixelShift(last, src, w, scale, dc, k - dst - w);
      }
    }
  }

  lemma PixelShift(last: seq<word>, src: nat, w: nat, scale: int, dc: word, c: nat)
    requires w % 2 == 0 && src + w + c < |last|
    ensures RowPixel(last, src + w, scale, dc, c) == RowPixel(last, src, scale, dc, w + c)
  {
    assert c % 2 == (w + c) % 2;
  }

  /** dst[0] = scale * src[0] + dc, where dc has been multiplied by 0x10001. */
  lemma SinglePixel(s: word, scale: int, dc: word)
    ensures (scale * s + dc * 0x10001) % 65536 == First(s, scale, dc)
  {
  }

  lemma SingleWritten(p: seq<word>, last: seq<word>, dst: nat, src: nat, scale: int, dc: word)
    requires dst < |p| && src < |last|
    ensures RowWritten(p, p[dst := First(last[src], scale, dc)], last, dst, src, 1, scale, dc)
  {
  }

  lemma PairWritten(p: seq<word>, last: seq<word>, dst: nat, src: nat, scale: int, dc: word)
    requires dst + 2 <= |p| && src + 2 <= |last|
    ensures RowWritten(p, p[dst := First(last[src], scale, dc)][dst + 1 := Second(last[src], last[src + 1], scale, dc)],
                       last, dst, src, 2, scale, dc)
  {
    hide First, Second;
  }

  /** LE_CENTRIC_MUL: two pixels at once. */
  method MulPair(frame: array<word>, dst: nat, last: array<word>, src: nat, scale: int, dc: word)
    requires frame != last && dst + 2 <= frame.Length && src + 2 <= last.Length
    requires scale == 0 || scale == 1
    modifies frame
    ensures RowWritten(old(frame[..]), frame[..], last[..], dst, src, 2, scale, dc)
  {
    hide *;
    LittleEndianPixels(last[src], last[src + 1], scale, dc);
    PairWritten(frame[..], last[..], dst, src, scale, dc);
    ghost var p: seq<word> := frame[..];
    var (p0, p1) := LittleEndianMul(last[src], last[src + 1], scale, dc);
    frame[dst] := p0;
    frame[dst + 1] := p1;
    assert frame[..] == p[dst := frame[dst]][dst + 1 := frame[dst + 1]];
  }

  /** The statements for one row; the switch on the width stands around the row loop in the source. */
  method CopyRow(frame: array<word>, dst: nat, last: array<word>, src: nat, log2w: nat, scale: int, dc: word)
    requires frame != last && log2w <= 3
    requires dst + Pow2(log2w) <= frame.Length && src + Pow2(log2w) <= last.Length
    requires scale == 0 || scale == 1
    modifies frame
    ensures RowWritten(old(frame[..]), frame[..], last[..], dst, src, Pow2(log2w), scale, dc)
  {
    hide RowWritten, First;
    ghost var p, from := frame[..], last[..];
    if log2w == 0 {
      SinglePixel(last[src], scale, dc);
      frame[dst] := (scale * last[src] + dc * 0x10001) % 65536;
      SingleWritten(p, from, dst, src, scale, dc);
      assert frame[..] == p[dst := First(from[src], scale, dc)];
    } else {
      MulPair(frame, dst, last, src, scale, dc);
      ghost var q2 := frame[..];
      if log2w >= 2 {
        MulPair(frame, dst + 2, last, src + 2, scale, dc);
        ghost var q4 := frame[..];
        RowExtended(p, q2, q4, from, dst, src, 2, scale, dc);
        if log2w == 3 {
          MulPair(frame, dst + 4, last, src + 4, scale, dc);
          ghost var q6 := frame[..];
          RowExtended(p, q4, q6, from, dst, src, 4, scale, dc);
          MulPair(frame, dst + 6, last, src + 6, scale, dc);
          RowExtended(p, q6, frame[..], from, dst, src, 6, scale, dc);
        }
      }
    }
  }

  /** What Mcdc needs of its pointers before row `i`. */
  lemma RowBounds(last: seq<word>, ph: nat, pw: nat, top: nat, left: nat, src: nat, w: nat, h: nat, i: nat)
    requires IsPicture(last, ph, pw) && InRange(ph, pw, src, w, h) && i < h
    requires top + h <= ph && left + w <= pw && w >= 1
    ensures Area(top + i, pw) + left + w <= Area(ph, pw)
    ensures src + w <= |last| && src + Area(i, pw) + w <= |last|
  {
    InRangeReads(last, ph, pw, src, w, h, 0);
    InRangeReads(last, ph, pw, src, w, h, i);
    EarlierRow(pw, top + i, left + w - 1, ph);
  }

  /** `dst` is the flat position of (top, left); a fill (scale 0) reads the same row over and over. */
  method Mcdc(frame: array<word>, dst: nat, last: array<word>, src: nat, log2w: nat, h: nat, stride: nat,
              scale: int, dc: word, ghost ph: nat, ghost top: nat, ghost left: nat)
    requires frame != last && log2w <= 3 && (scale == 0 || scale == 1)
    requires IsPicture(frame[..], ph, stride) && IsPicture(last[..], ph, stride)
    requires top + h <= ph && left + Pow2(log2w) <= stride && dst == Area(top, stride) + left
    requires InRange(ph, stride, src, Pow2(log2w), h)
    modifies frame
    ensures IsPicture(frame[..], ph, stride)
    ensures Copied(old(frame[..]), frame[..], last[..], ph, stride, top, left, src, Pow2(log2w), h, scale, dc, h)
  {
    hide Copied, RowWritten, InRange;
    var d, s := dst, src;
    ghost var w, was, from := Pow2(log2w), frame[..], last[..];
    NothingCopied(was, from, ph, stride, top, left, src, w, h, scale, dc);
    for i := 0 to h
      invariant last[..] == from && frame.Length == |was|
      invariant d == Area(top + i, stride) + left && s == if scale != 0 then src + Area(i, stride) else src
      invariant Copied(was, frame[..], from, ph, stride, top, left, src, w, h, scale, dc, i)
    {
      RowBounds(from, ph, stride, top, left, src, w, h, i);
      ghost var before := frame[..];
      CopyRow(frame, d, last, s, log2w, scale, dc);
      RowCopied(was, before, frame[..], from, ph, stride, top, left, src, w, h, scale, dc, i, s);
      if scale != 0 {
        s := s + stride;
      }
      d := d + stride;
    }
  }
}
