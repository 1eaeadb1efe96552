/** Difficulty targets: 256-bit limb arrays, their compact form and the proof of work they stand for. */
module Targets {
  import opened Numerals
  import opened Limbs
  import opened LimbShifts
  import opened LimbDivision
  import opened CompactBits

  lemma Top256()
    ensures Top(8) == Pow(256, 32)
  {
    hide Pow;
    TopIsPow(8);
    BytesOfLimb();
    PowTimes(256, 4, 8);
  }

  lemma BytesOfLimb()
    ensures Pow(256, 4) == B
  {
    assert Pow(256, 2) == 0x10000;
    PowPlus(256, 2, 2);
  }

  lemma EightBits(k: nat)
    ensures Pow(2, 8 * k) == Pow(256, k)
  {
    assert Pow(2, 4) == 16;
    PowPlus(2, 4, 4);
    PowTimes(2, 8, k);
  }

  /** Bits count up to bytes. */
  lemma BytesOfBits(v: nat, n: nat)
    requires BitLength(v, n)
    ensures ByteLength(v) == (n + 7) / 8
  {
    hide Pow, ByteLength;
    var s := (n + 7) / 8;
    EightBits(s);
    if n < 8 * s {
      PowExponent(2, n, 8 * s);
    }
    if s > 0 {
      EightBits(s - 1);
      if 8 * (s - 1) < n - 1 {
        PowExponent(2, 8 * (s - 1), n - 1);
      }
    }
    ByteLengthUnique(v, s);
  }

  // ---------------------------------------------------------------- small values

  /** The two lowest limbs of a small number. */
  lemma ValLow(s: seq<uint32>)
    requires |s| >= 2
    ensures Val(s) == s[0] as int + s[1] as int * B + Val(s[2..]) * Pow(B, 2)
  {
    hide Val;
    ValSplit(s, 2);
    ValNext(s, 0);
    ValNext(s, 1);
    ValZeros(s[..0]);
    assert Pow(B, 0) == 1 && Pow(B, 1) == B;
  }

  /** = from a 64-bit value. */
  method Assign(pn: array<uint32>, b: uint64)
    requires pn.Length >= 2
    modifies pn
    ensures Val(pn[..]) == b
  {
    hide Val, Pow;
    Clear(pn);
    pn[0] := b as int % B;
    pn[1] := b as int / B;
    ValLow(pn[..]);
    ValZeros(pn[..][2..]);
  }

  /** The low 64 bits. */
  method GetLow64(pn: array<uint32>) returns (r: uint64)
    requires pn.Length >= 2
    ensures r as int == Val(pn[..]) % (B * B) && (Val(pn[..]) < B * B ==> r as int == Val(pn[..]))
  {
    hide Val;
    ValLow(pn[..]);
    assert Pow(B, 2) == B * B;
    r := pn[0] as int + pn[1] as int * B;
    ModTop(r, Val(pn[..][2..]), B * B, Val(pn[..]));
    if Val(pn[..]) < B * B {
      WithinTop(Val(pn[..]), B * B);
    }
  }

  // ---------------------------------------------------------------- compact form

  /** Bit t of x is clear: setting it adds 2^t. */
  lemma {:induction false} OrBit(x: nat, t: nat)
    requires Pow(2, t) > 0 && x / Pow(2, t) % 2 == 0
    ensures Or(x, Pow(2, t)) == x + Pow(2, t)
  {
    if t == 0 {
      OrZero(x / 2);
      assert Or(x, 1) == 2 * Or(x / 2, 0) + 1;
    } else {
      var p := Pow(2, t - 1);
      PowPositive(2, t - 1);
      assert Pow(2, t) == 2 * p;
      DivTwice2(x, p);
      OrBit(x / 2, t - 1);
      OrSwap(x, 2 * p);
      OrSwap(x / 2, p);
      OrHalves(p, x);
    }
  }

  lemma DivTwice2(x: nat, p: nat)
    requires p > 0
    ensures x / 2 / p == x / (2 * p)
  {
    DivTwice(x, 2, p);
    Commute(p, 2);
  }

  /** Sets the number; says whether it stands for a negative one and whether it overflows. */
  method SetCompact(pn: array<uint32>, c: uint32) returns (negative: bool, overflow: bool)
    requires pn.Length == 8
    modifies pn
    ensures Val(pn[..]) == Expand(c) % Top(8)
    ensures negative == (Word(c) != 0 && SignBit(c))
    ensures overflow == (Expand(c) >= Top(8))
  {
    hide Val, Pow, Top;
    var size := Size(c);
    var word: nat := Mantissa(c);
    WordSmall(c);
    OverflowIff(c);
    Top256();
    if size <= 3 {
      PowPositive(256, 3 - size);
      EightBits(3 - size);
      word := word / Pow(2, 8 * (3 - size));
      SmallWord(word);
      Assign(pn, word);
      ValBound(pn[..]);
      WithinTop(word, Top(8));
    } else {
      Assign(pn, word);
      EightBits(size - 3);
      ShlAssign(pn, 8 * (size - 3));
    }
    negative := word != 0 && SignBit(c);
    overflow := word != 0 && (size > 34 || (word > 0xff && size > 33) || (word > 0xffff && size > 32));
  }

  lemma SmallWord(w: nat)
    requires w < SIGN
    ensures w < B
  {
  }

  /** The compact form of the number, rounded down to its leading bytes. */
  method GetCompact(pn: array<uint32>, negative: bool) returns (c: uint32)
    requires pn.Length == 8
    ensures Size(c) == CompactSize(Val(pn[..])) && Mantissa(c) == CompactMantissa(Val(pn[..]))
    ensures SignBit(c) == (negative && Mantissa(c) != 0)
  {
    hide Val, Pow, Top, Or, ByteLength, Leading;
    ghost var v := Val(pn[..]);
    var bits := Bits(pn);
    BytesOfBits(v, bits);
    var size := (bits + 7) / 8;
    CompactFits(v);
    LeadingAny(v);
    ValBound(pn[..]);
    var compact: nat := LeadingBytes(pn, size);
    if compact / SIGN % 2 == 1 {
      compact := compact / 256;
      size := size + 1;
    }
    SizeFits(v);
    assert compact < SIGN && size < 256;
    c := Pack(compact, size, negative);
  }

  /** A number of 256 bits has at most 33 for its compact size. */
  lemma SizeFits(v: nat)
    requires v < Top(8)
    ensures CompactSize(v) <= 33
  {
    hide Pow, ByteLength, CompactSize, Top;
    CompactFits(v);
    ByteLengthBounds(v);
    Top256();
    if ByteLength(v) > 33 - 1 {
      ByteLengthPositive(v);
      if ByteLength(v) - 1 > 32 {
        PowExponent(256, 32, ByteLength(v) - 1);
      }
    }
  }

  /** Puts size, sign and mantissa together. */
  method Pack(mantissa: nat, size: nat, negative: bool) returns (c: uint32)
    requires mantissa < SIGN && size < 256
    ensures Size(c) == size && Mantissa(c) == mantissa && SignBit(c) == (negative && mantissa != 0)
  {
    hide Pow, Or;
    Pow24();
    OrDisjoint(size, mantissa, 24);
    OrSwap(size * Pow(2, 24), mantissa);
    Fields(mantissa, size);
    c := Or(mantissa, size * Pow(2, 24));
    if negative && Mantissa(c) != 0 {
      OrBit(c, 23);
      FieldsSigned(mantissa, size);
      c := Or(c, SIGN);
    }
  }

  lemma Pow24()
    ensures Pow(2, 23) == SIGN && Pow(2, 24) == 0x1000000
  {
    assert Pow(2, 4) == 16;
    PowPlus(2, 4, 4);
    PowPlus(2, 8, 8);
    PowPlus(2, 8, 16);
    assert Pow(2, 24) == 2 * Pow(2, 23);
  }

  lemma LeadingAny(v: nat)
    ensures Leading(v, ByteLength(v)) < 0x1000000
  {
    hide ByteLength, Leading;
    if v > 0 {
      LeadingBounds(v);
    } else {
      LeadingZero();
    }
  }

  lemma Fields(m: nat, s: nat)
    requires m < SIGN && s < 256
    ensures var c := m + s * 0x1000000; c < B && Size(c) == s && Mantissa(c) == m && !SignBit(c) && c / SIGN % 2 == 0
  {
  }

  lemma FieldsSigned(m: nat, s: nat)
    requires m < SIGN && s < 256
    ensures var c := m + s * 0x1000000 + SIGN; c < B && Size(c) == s && Mantissa(c) == m && SignBit(c)
  {
  }

  /** The three leading bytes, through the low 64 bits of the number shifted into place. */
  method LeadingBytes(pn: array<uint32>, size: nat) returns (r: nat)
    requires pn.Length == 8 && size == ByteLength(Val(pn[..]))
    ensures r == Leading(Val(pn[..]), size)
  {
    hide Val, Pow, ByteLength;
    ghost var v := Val(pn[..]);
    ByteLengthBounds(v);
    LeadingAny(v);
    Pow256();
    if size <= 3 {
      LowPower(size);
      var low := GetLow64(pn);
      EightBits(3 - size);
      r := low as int * Pow(2, 8 * (3 - size)) % B;
    } else {
      var bn := Copy(pn);
      EightBits(size - 3);
      ShrAssign(bn, 8 * (size - 3));
      var low := GetLow64(bn);
      r := low as int % B;
    }
  }

  lemma LowPower(s: nat)
    requires s <= 3
    ensures Pow(256, s) <= 0x1000000
  {
    Pow256();
  }

  // ---------------------------------------------------------------- round trip

  /** Expanding the compact form of a number gives the largest number with a compact form that does
      not exceed it, off by less than one part in 2^15, and with the same compact form. */
  lemma CompactRoundTrip(v: nat, c: uint32)
    requires v < Pow(256, 32) && Size(c) == CompactSize(v) && Mantissa(c) == CompactMantissa(v) && !SignBit(c)
    ensures Expand(c) <= v && (v - Expand(c)) * 0x8000 <= v && Expand(c) < Pow(256, 32)
    ensures forall d: uint32 :: Expand(d) <= v ==> Expand(d) <= Expand(c)
    ensures forall d: uint32 | Size(d) == CompactSize(Expand(c)) && Mantissa(d) == CompactMantissa(Expand(c))
            && !SignBit(d) :: d == c
  {
    hide Pow, CompactSize, CompactMantissa, Scale, Expand;
    ExpandScale(c);
    KeptError(v);
    forall d: uint32
      ensures Expand(d) <= v ==> Expand(d) <= Expand(c)
    {
      KeptBest(v, d);
    }
    KeptFixed(v);
    forall d: uint32 | Size(d) == CompactSize(Expand(c)) && Mantissa(d) == CompactMantissa(Expand(c)) && !SignBit(d)
      ensures d == c
    {
      SameFields(c, d);
    }
  }

  lemma SameFields(c: uint32, d: uint32)
    requires Size(c) == Size(d) && Mantissa(c) == Mantissa(d) && SignBit(c) == SignBit(d)
    ensures c == d
  {
  }

  // ---------------------------------------------------------------- proof of work

  /** Whether a compact target is one a block can have. */
  ghost predicate ValidTarget(c: uint32) {
    !(Word(c) != 0 && SignBit(c)) && 0 < Expand(c) < Top(8)
  }

  lemma ProofQuotient(t: nat, n: nat)
    requires 0 < t < n - 1
    ensures (n - 1 - t) / (t + 1) + 1 == n / (t + 1) && 0 < n / (t + 1) < n
  {
    var q, r := (n - 1 - t) / (t + 1), (n - 1 - t) % (t + 1);
    assert n - 1 - t == q * (t + 1) + r;
    assert (q + 1) * (t + 1) == q * (t + 1) + (t + 1);
    QuotRem(q + 1, r, t + 1);
    MulMono(q + 1, 2, q + 1, t + 1);
  }

  /** A zero result is raised to one. */
  method AtLeastOne(pn: array<uint32>)
    requires pn.Length >= 2
    modifies pn
    ensures Val(pn[..]) == if Val(old(pn[..])) == 0 then 1 else Val(old(pn[..]))
  {
    hide Val;
    var n := Bits(pn);
    NoBits(Val(pn[..]), n);
    if n == 0 {
      Assign(pn, 1);
    }
  }

  /** (~target / (target + 1)) + 1. */
  method ProofOf(target: array<uint32>) returns (r: array<uint32>)
    requires target.Length == 8 && 0 < Val(target[..]) < Top(8) - 1
    ensures fresh(r) && r.Length == 8 && Val(r[..]) == Top(8) / (Val(target[..]) + 1)
  {
    hide Val, Pow, Top;
    ghost var t := Val(target[..]);
    ProofQuotient(t, Top(8));
    r := Complement(target);
    var next := Copy(target);
    Increment(next);
    WithinTop(t + 1, Top(8));
    var divided := DivAssign(r, next);
    WithinTop(Top(8) / (t + 1), Top(8));
    Increment(r);
    AtLeastOne(r);
  }

  /** The expected number of hashes for a target: 2^256 / (target + 1) rounded down. */
  method GetBitsProof(c: uint32) returns (r: array<uint32>)
    ensures r.Length == 8 && Val(r[..]) == if ValidTarget(c) then Top(8) / (Expand(c) + 1) else 0
  {
    hide Val, Pow, Top, BitLength, Expand, Word, SignBit;
    r := new uint32[8](i => 0);
    ValZeros(r[..]);
    var target := new uint32[8](i => 0);
    var negative, overflow := SetCompact(target, c);
    var bits := Bits(target);
    NoBits(Val(target[..]), bits);
    if negative || overflow {
      return;
    }
    WithinTop(Expand(c), Top(8));
    if bits == 0 {
      return;
    }
    var largest := Complement(r);
    var order := CompareTo(target, largest);
    if order >= 0 {
      ValBound(target[..]);
      Assign(r, 1);
      QuotRem(1, 0, Top(8));
    } else {
      r := ProofOf(target);
    }
  }
}
