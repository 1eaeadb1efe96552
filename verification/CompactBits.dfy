/** The compact format: a byte length, a sign and a 23-bit mantissa in 32 bits. */
module CompactBits {
  import opened Numerals

  const SIGN: nat := 0x800000

  function Size(c: uint32): nat {
    c as int / 0x1000000
  }

  function Mantissa(c: uint32): nat {
    c as int % SIGN
  }

  function SignBit(c: uint32): bool {
    c as int / SIGN % 2 == 1
  }

  /** The mantissa as far as the size leaves room for it. */
  ghost function Word(c: uint32): nat {
    PowPositive(256, if Size(c) <= 3 then 3 - Size(c) else 0);
    if Size(c) <= 3 then Mantissa(c) / Pow(256, 3 - Size(c)) else Mantissa(c)
  }

  /** The magnitude, before it is cut to 256 bits. */
  ghost function Expand(c: uint32): nat {
    if Size(c) <= 3 then Word(c) else Word(c) * Pow(256, Size(c) - 3)
  }

  ghost function ByteLength(v: nat): nat {
    if v == 0 then 0 else 1 + ByteLength(v / 256)
  }

  /** The leading bytes of a number of s bytes: three, or two if the first bit of three is set. */
  ghost function Leading(v: nat, s: nat): nat {
    PowPositive(256, if s <= 3 then 0 else s - 3);
    if s <= 3 then v * Pow(256, 3 - s) else v / Pow(256, s - 3)
  }

  ghost function CompactSize(v: nat): nat {
    var s := ByteLength(v);
    if Leading(v, s) >= SIGN then s + 1 else s
  }

  ghost function CompactMantissa(v: nat): nat {
    var s := ByteLength(v);
    if Leading(v, s) >= SIGN then Leading(v, s) / 256 else Leading(v, s)
  }

  // ---------------------------------------------------------------- byte lengths

  lemma {:induction false} ByteLengthBounds(v: nat)
    ensures v < Pow(256, ByteLength(v)) && (v > 0 ==> ByteLength(v) > 0 && Pow(256, ByteLength(v) - 1) <= v)
  {
    if v > 0 {
      ByteLengthBounds(v / 256);
      var n := ByteLength(v / 256);
      assert v == v / 256 * 256 + v % 256;
    }
  }

  lemma ByteLengthUnique(v: nat, n: nat)
    requires v < Pow(256, n) && (n > 0 ==> Pow(256, n - 1) <= v)
    ensures ByteLength(v) == n
  {
    hide Pow, ByteLength;
    ByteLengthBounds(v);
    var m := ByteLength(v);
    if m < n {
      if m < n - 1 {
        PowExponent(256, m, n - 1);
      }
    } else if m > n {
      if n < m - 1 {
        PowExponent(256, n, m - 1);
      }
      ByteLengthPositive(v);
    }
  }

  lemma ByteLengthPositive(v: nat)
    ensures ByteLength(v) > 0 <==> v > 0
  {
  }

  lemma Pow256()
    ensures Pow(256, 0) == 1 && Pow(256, 1) == 256 && Pow(256, 2) == 0x10000 && Pow(256, 3) == 0x1000000
  {
    assert Pow(256, 1) == 256;
    assert Pow(256, 2) == 0x10000;
  }

  /** The leading three bytes of a number of s bytes. */
  lemma LeadingBounds(v: nat)
    requires v > 0
    ensures 0x10000 <= Leading(v, ByteLength(v)) < 0x1000000
  {
    hide Pow, ByteLength;
    ByteLengthBounds(v);
    Pow256();
    var s := ByteLength(v);
    if s <= 3 {
      PowPlus(256, s - 1, 3 - s);
      PowPlus(256, s, 3 - s);
      PowPositive(256, 3 - s);
      MulMono(Pow(256, s - 1), Pow(256, 3 - s), v, Pow(256, 3 - s));
      MulMono(v + 1, Pow(256, 3 - s), Pow(256, s), Pow(256, 3 - s));
      assert (v + 1) * Pow(256, 3 - s) == v * Pow(256, 3 - s) + Pow(256, 3 - s);
    } else {
      PowPlus(256, 2, s - 3);
      PowPlus(256, 3, s - 3);
      PowPositive(256, s - 3);
      QuotientBounds(v, Pow(256, s - 3), 0x10000, 0x1000000);
    }
  }

  lemma QuotientBounds(v: nat, p: nat, lo: nat, hi: nat)
    requires p > 0 && lo * p <= v < hi * p
    ensures lo <= v / p < hi
  {
    var q := v / p;
    assert v == q * p + v % p;
    AtLeastOnce(q - hi, p);
    AtLeastOnce(lo - q, p);
    assert (q - hi) * p == q * p - hi * p && (lo - q) * p == lo * p - q * p;
  }

  /** The mantissa fits its 23 bits and is normalised. */
  lemma CompactFits(v: nat)
    ensures CompactMantissa(v) < SIGN && (v > 0 ==> CompactMantissa(v) >= 0x8000)
    ensures CompactSize(v) <= ByteLength(v) + 1
  {
    hide Pow, ByteLength, Leading;
    if v > 0 {
      LeadingBounds(v);
    } else {
      LeadingZero();
    }
  }

  lemma LeadingZero()
    ensures ByteLength(0) == 0 && Leading(0, 0) == 0
  {
  }

  // ---------------------------------------------------------------- what the compact form stands for

  /** The value of a mantissa and a size. */
  ghost function Scale(m: nat, s: nat): nat {
    PowPositive(256, if s <= 3 then 3 - s else 0);
    if s <= 3 then m / Pow(256, 3 - s) else m * Pow(256, s - 3)
  }

  lemma ExpandScale(c: uint32)
    ensures Expand(c) == Scale(Mantissa(c), Size(c))
  {
  }

  /** What of v the compact form keeps. */
  ghost function Kept(v: nat): nat {
    Scale(CompactMantissa(v), CompactSize(v))
  }

  /** Numbers of at most three bytes lose nothing unless the first bit of three bytes is set. */
  lemma KeptSmall(v: nat)
    requires CompactSize(v) <= 3
    ensures Kept(v) == v
  {
    hide ByteLength;
    Pow256();
    var s := ByteLength(v);
    ByteLengthBounds(v);
    if s == 3 {
    } else if s == 2 {
    } else if s == 1 {
    } else {
    }
  }

  /** Larger ones keep the multiple of a power of 256 below them. */
  lemma KeptLarge(v: nat)
    requires CompactSize(v) > 3
    ensures var p := Pow(256, CompactSize(v) - 3);
            p > 0 && CompactMantissa(v) == v / p && Kept(v) == v / p * p && v >= 0x8000 * p
  {
    hide Pow, ByteLength;
    var s := ByteLength(v);
    var p := Pow(256, CompactSize(v) - 3);
    PowPositive(256, CompactSize(v) - 3);
    Pow256();
    LeadingZero();
    LeadingBounds(v);
    if Leading(v, s) >= SIGN {
      if s == 3 {
        assert v * 1 == v;
      } else {
        PowPlus(256, 1, s - 3);
        DivTwice(v, Pow(256, s - 3), 256);
      }
    }
    CompactFits(v);
    var q := v / p;
    assert v == q * p + v % p;
    MulMono(0x8000, p, q, p);
  }

  lemma DivTwice(v: nat, p: nat, k: nat)
    requires p > 0 && k > 0
    ensures k * p > 0 && v / p / k == v / (k * p)
  {
    var q, r := v / p, v % p;
    var a, b := q / k, q % k;
    assert v == q * p + r && q == a * k + b;
    assert (a * k + b) * p == a * (k * p) + b * p;
    MulMono(b + 1, p, k, p);
    assert (b + 1) * p == b * p + p;
    QuotRem(a, b * p + r, k * p);
  }

  /** The compact form never exceeds the number, and is off by less than one part in 2^15. */
  lemma KeptError(v: nat)
    ensures Kept(v) <= v && (v - Kept(v)) * 0x8000 <= v
  {
    hide Pow, Kept, CompactSize;
    if CompactSize(v) <= 3 {
      KeptSmall(v);
    } else {
      KeptLarge(v);
      var p := Pow(256, CompactSize(v) - 3);
      assert v == v / p * p + v % p;
    }
  }

  /** It is the largest number with a compact form that does not exceed it. */
  lemma KeptBest(v: nat, c: uint32)
    ensures Expand(c) <= v ==> Expand(c) <= Kept(v)
  {
    hide Pow, Kept, CompactSize, Scale;
    ExpandScale(c);
    if CompactSize(v) <= 3 {
      KeptSmall(v);
    } else {
      KeptLarge(v);
      ScaleBest(v, Mantissa(c), Size(c), CompactSize(v));
    }
  }

  lemma ScaleBest(v: nat, m: nat, s: nat, t: nat)
    requires m < SIGN && t > 3 && Pow(256, t - 3) > 0 && v >= 0x8000 * Pow(256, t - 3)
    ensures Scale(m, s) <= v ==> Scale(m, s) <= v / Pow(256, t - 3) * Pow(256, t - 3)
  {
    hide Pow;
    var p := Pow(256, t - 3);
    if s >= t {
      PowPlus(256, s - t, t - 3);
      assert Scale(m, s) == m * (Pow(256, s - t) * p) == m * Pow(256, s - t) * p;
      MultipleBelow(m * Pow(256, s - t), p, v);
    } else {
      ScaleSmall(m, s, t);
      QuotientAtLeast(v, p, 0x8000);
    }
  }

  lemma MultipleBelow(k: nat, p: nat, v: nat)
    requires p > 0
    ensures k * p <= v ==> k * p <= v / p * p
  {
    var q := v / p;
    assert v == q * p + v % p;
    AtLeastOnce(k - q, p);
    assert (k - q) * p == k * p - q * p;
  }

  lemma QuotientAtLeast(v: nat, p: nat, k: nat)
    requires p > 0 && v >= k * p
    ensures v / p * p >= k * p
  {
    MultipleBelow(k, p, v);
  }

  /** A smaller size with any mantissa stays below the smallest normalised mantissa of a larger size. */
  lemma ScaleSmall(m: nat, s: nat, t: nat)
    requires m < SIGN && s < t && t > 3
    ensures Scale(m, s) <= 0x8000 * Pow(256, t - 3)
  {
    hide Pow;
    Pow256();
    PowPositive(256, t - 4);
    PowPlus(256, 1, t - 4);
    if s <= 3 {
      PowPositive(256, 3 - s);
      var q := m / Pow(256, 3 - s);
      assert m == q * Pow(256, 3 - s) + m % Pow(256, 3 - s);
      MulMono(q, 1, q, Pow(256, 3 - s));
      MulMono(SIGN, 1, SIGN, Pow(256, t - 4));
    } else {
      PowPlus(256, t - 1 - s, s - 3);
      PowPositive(256, t - 1 - s);
      PowPositive(256, s - 3);
      MulMono(1, Pow(256, s - 3), Pow(256, t - 1 - s), Pow(256, s - 3));
      MulMono(m, Pow(256, s - 3), SIGN, Pow(256, t - 4));
    }
  }

  /** Encoding again what the compact form keeps changes nothing. */
  lemma KeptFixed(v: nat)
    ensures CompactSize(Kept(v)) == CompactSize(v) && CompactMantissa(Kept(v)) == CompactMantissa(v)
  {
    hide Pow, Kept, CompactSize, CompactMantissa;
    if CompactSize(v) <= 3 {
      KeptSmall(v);
    } else {
      KeptLarge(v);
      CompactFits(v);
      QuotientAtLeast(v, Pow(256, CompactSize(v) - 3), 0x8000);
      MantissaAtLeast(v, Pow(256, CompactSize(v) - 3));
      Normalised(CompactMantissa(v), CompactSize(v));
    }
  }

  lemma MantissaAtLeast(v: nat, p: nat)
    requires p > 0 && v >= 0x8000 * p
    ensures v / p >= 0x8000
  {
    var q := v / p;
    assert v == q * p + v % p;
    AtLeastOnce(0x8000 - q, p);
    assert (0x8000 - q) * p == 0x8000 * p - q * p;
  }

  lemma Normalised(m: nat, s: nat)
    requires s > 3 && 0x8000 <= m < SIGN
    ensures CompactSize(m * Pow(256, s - 3)) == s && CompactMantissa(m * Pow(256, s - 3)) == m
  {
    hide Pow, ByteLength;
    var p := Pow(256, s - 3);
    var w := m * p;
    PowPositive(256, s - 3);
    Pow256();
    if m >= 0x10000 {
      PowPlus(256, 2, s - 3);
      PowPlus(256, 3, s - 3);
      MulMono(0x10000, p, m, p);
      MulMono(m + 1, p, 0x1000000, p);
      assert (m + 1) * p == m * p + p;
      ByteLengthUnique(w, s);
      QuotRem(m, 0, p);
    } else {
      NormalisedShort(m, s);
    }
  }

  lemma NormalisedShort(m: nat, s: nat)
    requires s > 3 && 0x8000 <= m < 0x10000
    ensures ByteLength(m * Pow(256, s - 3)) == s - 1 && Leading(m * Pow(256, s - 3), s - 1) == 256 * m
  {
    hide Pow, ByteLength;
    var p, r := Pow(256, s - 3), Pow(256, s - 4);
    var w := m * p;
    PowPositive(256, s - 4);
    Pow256();
    PowPlus(256, 1, s - 4);
    PowPlus(256, 1, s - 3);
    PowPlus(256, 2, s - 3);
    MulMono(256, p, m, p);
    MulMono(m + 1, p, 0x10000, p);
    assert (m + 1) * p == m * p + p;
    ByteLengthUnique(w, s - 1);
    assert m * (256 * r) == 256 * m * r;
    QuotRem(256 * m, 0, r);
  }

  // ---------------------------------------------------------------- overflow

  /** The flag says exactly whether the number does not fit 256 bits. */
  lemma OverflowIff(c: uint32)
    ensures Word(c) != 0 && (Size(c) > 34 || (Word(c) > 0xff && Size(c) > 33) || (Word(c) > 0xffff && Size(c) > 32))
       <==> Expand(c) >= Pow(256, 32)
  {
    hide Pow;
    var w, s := Word(c), Size(c);
    Pow256();
    if s <= 3 {
      WordSmall(c);
      PowPlus(256, 3, 29);
      PowPositive(256, 29);
      MulMono(0x1000000, 1, 0x1000000, Pow(256, 29));
    } else if s >= 35 {
      PowPlus(256, s - 35, 32);
      PowPositive(256, s - 35);
      PowPositive(256, 32);
      MulMono(1, Pow(256, 32), Pow(256, s - 35), Pow(256, 32));
      if w > 0 {
        MulMono(1, Pow(256, s - 3), w, Pow(256, s - 3));
      }
    } else {
      PowPlus(256, 35 - s, s - 3);
      PowPositive(256, s - 3);
      OverflowAt(w, Pow(256, 35 - s), Pow(256, s - 3));
      OverflowCases(w, s);
    }
  }

  lemma WordSmall(c: uint32)
    ensures Word(c) < SIGN
  {
    hide Pow;
    if Size(c) <= 3 {
      PowPositive(256, 3 - Size(c));
      var q := Mantissa(c) / Pow(256, 3 - Size(c));
      assert Mantissa(c) == q * Pow(256, 3 - Size(c)) + Mantissa(c) % Pow(256, 3 - Size(c));
      MulMono(q, 1, q, Pow(256, 3 - Size(c)));
    }
  }

  lemma OverflowAt(w: nat, a: nat, b: nat)
    requires b > 0
    ensures w * b >= a * b <==> w >= a
  {
    AtLeastOnce(w - a, b);
    assert (w - a) * b == w * b - a * b;
  }

  lemma OverflowCases(w: nat, s: nat)
    requires w < SIGN && 3 < s < 35
    ensures w >= Pow(256, 35 - s) <==> w != 0 && ((w > 0xff && s > 33) || (w > 0xffff && s > 32))
  {
    hide Pow;
    Pow256();
    if s < 32 {
      PowPlus(256, 3, 32 - s);
      PowPositive(256, 32 - s);
      MulMono(0x1000000, 1, 0x1000000, Pow(256, 32 - s));
    }
  }
}
