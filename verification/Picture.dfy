/**
 * Pictures of 16-bit pixels in flat arrays, as the 4X Movie decoder keeps them:
 * pixel (y, x) of a picture of width w is element y * w + x.
 */
module Picture {
  type word = x: int | 0 <= x < 65536

  /** The size of `h` rows of width `w`: the product h * w, without multiplication. */
  function Area(h: nat, w: nat): (r: nat) {
    if h == 0 then 0 else Area(h - 1, w) + w
  }

  lemma {:induction false} AreaIsProduct(h: nat, w: nat)
    ensures Area(h, w) == h * w
  {
    if h > 0 {
      AreaIsProduct(h - 1, w);
    }
  }

  lemma {:induction false} AreaAdd(h: nat, k: nat, w: nat)
    ensures Area(h + k, w) == Area(h, w) + Area(k, w)
  {
    if k > 0 {
      AreaAdd(h, k - 1, w);
    }
  }

  lemma EarlierRow(w: nat, y: nat, x: nat, y': nat)
    requires x < w && y < y'
    ensures Area(y, w) + x < Area(y', w)
  {
    AreaAdd(y + 1, y' - y - 1, w);
  }

  lemma OffsetInjective(w: nat, y: nat, x: nat, y': nat, x': nat)
    requires x < w && x' < w
    requires Area(y, w) + x == Area(y', w) + x'
    ensures y == y' && x == x'
  {
    if y < y' {
      EarlierRow(w, y, x, y');
    } else if y' < y {
      EarlierRow(w, y', x', y);
    }
  }

  ghost predicate IsPicture(p: seq<word>, h: nat, w: nat) {
    |p| == Area(h, w)
  }

  /** Pixel (y, x) of a picture of width `w`. */
  ghost function At(p: seq<word>, h: nat, w: nat, y: nat, x: nat): (r: word)
    requires IsPicture(p, h, w) && y < h && x < w
  {
    EarlierRow(w, y, x, h);
    p[Area(y, w) + x]
  }

  /** Writing one pixel changes that pixel only. */
  lemma WritePixel(p: seq<word>, h: nat, w: nat, y: nat, x: nat, v: word)
    requires IsPicture(p, h, w) && y < h && x < w
    ensures Area(y, w) + x < |p|
    ensures var q := p[Area(y, w) + x := v];
            IsPicture(q, h, w) && forall y', x' :: 0 <= y' < h && 0 <= x' < w ==>
              At(q, h, w, y', x') == if y' == y && x' == x then v else At(p, h, w, y', x')
  {
    EarlierRow(w, y, x, h);
    var q := p[Area(y, w) + x := v];
    forall y', x' | 0 <= y' < h && 0 <= x' < w
      ensures At(q, h, w, y', x') == if y' == y && x' == x then v else At(p, h, w, y', x')
    {
      EarlierRow(w, y', x', h);
      if Area(y', w) + x' == Area(y, w) + x {
        OffsetInjective(w, y, x, y', x');
      }
    }
  }
}
