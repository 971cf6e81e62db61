/** Bytes and strings of bits, most significant bit first. */
module Binary {
  type byte = x: int | 0 <= x < 256

  type Bits = seq<bool>

  function Pow2(n: nat): (p: nat)
    ensures p >= 1
  {
    if n == 0 then 1 else 2 * Pow2(n - 1)
  }

  lemma {:induction false} Pow2Add(m: nat, n: nat)
    ensures Pow2(m + n) == Pow2(m) * Pow2(n)
  {
    if m > 0 {
      Pow2Add(m - 1, n);
    }
  }

  lemma {:induction false} Pow2Mono(m: nat, n: nat)
    requires m <= n
    ensures Pow2(m) <= Pow2(n)
    decreases n - m
  {
    if m < n {
      Pow2Mono(m + 1, n);
    }
  }

  // ---- a whole string as a number -------------------------------------------------

  function Value(s: Bits): (v: nat)
    ensures v < Pow2(|s|)
  {
    if s == [] then 0 else 2 * Value(s[..|s| - 1]) + if s[|s| - 1] then 1 else 0
  }

  function BitsOf(v: nat, n: nat): (s: Bits)
    ensures |s| == n
  {
    if n == 0 then [] else BitsOf(v / 2, n - 1) + [v % 2 == 1]
  }

  lemma {:induction false} BitsOfValue(s: Bits)
    ensures BitsOf(Value(s), |s|) == s
  {
    if s != [] {
      BitsOfValue(s[..|s| - 1]);
      assert s == s[..|s| - 1] + [s[|s| - 1]];
    }
  }

  lemma {:induction false} ValuePrepend(v: bool, s: Bits)
    ensures Value([v] + s) == (if v then Pow2(|s|) else 0) + Value(s)
  {
    if s != [] {
      var t := s[..|s| - 1];
      assert ([v] + s)[..|s|] == [v] + t;
      ValuePrepend(v, t);
    } else {
      assert [v] + s == [v] && [v][..0] == [];
    }
  }

  lemma {:induction false} ValueOfBits(v: nat, n: nat)
    requires v < Pow2(n)
    ensures Value(BitsOf(v, n)) == v
  {
    if n > 0 {
      ValueOfBits(v / 2, n - 1);
      assert BitsOf(v, n)[..n - 1] == BitsOf(v / 2, n - 1);
    }
  }

  // ---- shifts ---------------------------------------------------------------------

  function ShiftRight(v: nat, n: nat): (w: nat) {
    if n == 0 then v else ShiftRight(v / 2, n - 1)
  }

  function ShiftLeft(v: nat, n: nat): (w: nat) {
    if n == 0 then v else 2 * ShiftLeft(v, n - 1)
  }

  /** The numbers that a shift to the right makes v. */
  lemma {:induction false} ShiftedTo(v: nat, n: nat, w: nat)
    ensures ShiftRight(w, n) == v <==> ShiftLeft(v, n) <= w < ShiftLeft(v, n) + Pow2(n)
    decreases n
  {
    if n > 0 {
      ShiftedTo(v, n - 1, w / 2);
    }
  }

  lemma {:induction false} ShiftLeftFits(v: nat, k: nat, n: nat)
    requires v < Pow2(k)
    ensures ShiftLeft(v, n) + Pow2(n) <= Pow2(k + n)
  {
    if n > 0 {
      ShiftLeftFits(v, k, n - 1);
    }
  }

  /** The first bits of a number are those of the number shifted. */
  lemma {:induction false} BitsOfTake(v: nat, n: nat, k: nat)
    requires k <= n && v < Pow2(n)
    ensures BitsOf(v, n)[..k] == BitsOf(ShiftRight(v, n - k), k) && ShiftRight(v, n - k) < Pow2(k)
    decreases n
  {
    if k < n {
      BitsOfTake(v / 2, n - 1, k);
      assert BitsOf(v, n)[..k] == BitsOf(v / 2, n - 1)[..k];
    }
  }

  /** One number's bits begin those of another exactly when the other shifts to it. */
  lemma PrefixIsShift(u: nat, k: nat, v: nat, n: nat)
    requires k <= n && u < Pow2(k) && v < Pow2(n)
    ensures BitsOf(u, k) <= BitsOf(v, n) <==> ShiftRight(v, n - k) == u
  {
    var d := ShiftRight(v, n - k);
    BitsOfTake(v, n, k);
    ValueOfBits(u, k);
    ValueOfBits(d, k);
    hide BitsOf, Value, Pow2;
    assert BitsOf(u, k) <= BitsOf(v, n) <==> BitsOf(u, k) == BitsOf(v, n)[..k];
  }

  lemma PrefixesComparable(p: Bits, q: Bits, s: Bits)
    requires q <= s
    ensures p <= s ==> p <= q || q <= p
  {
    if p <= s && |p| <= |q| {
      assert p == s[..|p|] == q[..|p|];
    }
  }

  // ---- a prefix as a number, with zeros past the end ------------------------------

  /** The first `n` bits as a number, most significant first; zeros past the end. */
  function Number(bits: Bits, n: nat): (v: nat)
    ensures v < Pow2(n)
  {
    if n == 0 then 0 else 2 * Number(bits, n - 1) + if n <= |bits| && bits[n - 1] then 1 else 0
  }

  lemma {:induction false} NumberOfBits(v: nat, n: nat, rest: Bits)
    requires v < Pow2(n)
    ensures Number(BitsOf(v, n) + rest, n) == v
  {
    if n > 0 {
      var last := [v % 2 == 1];
      assert BitsOf(v, n) + rest == BitsOf(v / 2, n - 1) + (last + rest);
      NumberOfBits(v / 2, n - 1, last + rest);
      assert (BitsOf(v, n) + rest)[n - 1] == (v % 2 == 1);
    }
  }

  function Drop<T>(s: seq<T>, n: nat): (r: seq<T>) {
    if n <= |s| then s[n..] else []
  }

  lemma DropNone(bits: Bits)
    ensures Drop(bits, 0) == bits
  {
  }
}
