/** Division of limb arrays by shifting and subtracting. */
module LimbDivision {
  import opened Numerals
  import opened Limbs
  import opened LimbShifts

  ghost predicate Multiple(x: nat, n: nat) {
    exists q: nat :: x == q * Pow(2, n)
  }

  /** The lowest m bits are clear. */
  ghost predicate LowClear(s: seq<uint32>, m: nat) {
    (forall j | 0 <= j < m / 32 && j < |s| :: s[j] == 0) && (m / 32 < |s| ==> Multiple(s[m / 32], m % 32))
  }

  lemma ValUpdate(s: seq<uint32>, k: nat, x: uint32)
    requires k < |s|
    ensures Val(s[k := x]) + s[k] as int * Pow(B, k) == Val(s) + x as int * Pow(B, k)
  {
    hide Val, Pow;
    var t := s[k := x];
    ValSplit(s, k + 1);
    ValSplit(t, k + 1);
    assert t[k + 1..] == s[k + 1..];
    ValNext(s, k);
    ValNext(t, k);
    assert t[..k] == s[..k];
  }

  lemma MultipleWeaker(x: nat, n: nat)
    requires Multiple(x, n + 1)
    ensures Multiple(x, n)
  {
    var q: nat :| x == q * Pow(2, n + 1);
    assert x == (2 * q) * Pow(2, n);
  }

  lemma MultipleZero(n: nat)
    ensures Multiple(0, n)
  {
    assert 0 == 0 * Pow(2, n);
  }

  lemma BelowLimb(t: nat)
    requires t < 32
    ensures 0 < Pow(2, t) < Pow(2, t + 1) <= B
  {
    hide Pow;
    PowPositive(2, t);
    PowExponent(2, t, t + 1);
    Pow32();
    if t < 31 {
      PowExponent(2, t + 1, 32);
    }
  }

  /** In a number whose lowest t + 1 bits are clear, setting bit t adds 2^t and leaves t bits clear. */
  lemma SetBitValue(s: seq<uint32>, t: nat)
    requires t / 32 < |s| && LowClear(s, t + 1)
    ensures var k := t / 32;
            var x := Or(s[k], Pow(2, t % 32));
            x == s[k] as int + Pow(2, t % 32) < B && Val(s[k := x]) == Val(s) + Pow(2, t) && LowClear(s[k := x], t)
  {
    hide Pow, Val, Or;
    var k, r := t / 32, t % 32;
    BelowLimb(r);
    LimbClear(s, t);
    var q: nat :| s[k] as int == q * Pow(2, r + 1);
    OrDisjoint(q, Pow(2, r), r + 1);
    RoomBelow(q, r);
    var x := s[k] as int + Pow(2, r);
    ValUpdate(s, k, x);
    TwoPower(t);
    PowStep(r);
    SetBitAlgebra(s[k], q, Pow(2, r), Pow(B, k));
    assert Multiple(x, r) by {
      assert x == (2 * q + 1) * Pow(2, r);
    }
  }

  lemma SetBitAlgebra(y: nat, q: nat, e: nat, p: nat)
    requires y == q * (2 * e)
    ensures y + e == (2 * q + 1) * e && (y + e) * p == y * p + e * p
  {
    assert (2 * q + 1) * e == q * (2 * e) + e;
  }

  lemma PowStep(r: nat)
    ensures Pow(2, r + 1) == 2 * Pow(2, r)
  {
  }

  lemma LimbClear(s: seq<uint32>, t: nat)
    requires t / 32 < |s| && LowClear(s, t + 1)
    ensures Multiple(s[t / 32], t % 32 + 1)
  {
    hide Pow, Multiple;
    if t % 32 == 31 {
      MultipleZero(32);
    }
  }

  /** A multiple of a larger power of two below 2^32 leaves room for the smaller one. */
  lemma RoomBelow(q: nat, r: nat)
    requires r < 32 && q * Pow(2, r + 1) < B
    ensures q * Pow(2, r + 1) + Pow(2, r) < B
  {
    hide Pow;
    BelowLimb(r);
    Pow32();
    PowPlus(2, 31 - r, r + 1);
    var p, m := Pow(2, r + 1), Pow(2, 31 - r);
    if q >= m {
      MulMono(m, p, q, p);
    } else {
      MulMono(q + 1, p, m, p);
      assert (q + 1) * p == q * p + p;
    }
  }

  // ---------------------------------------------------------------- the loop

  /** Quotient so far, remainder and shifted divisor, when the bits below shift + 1 are still to come. */
  ghost predicate Dividing(n: nat, d: nat, q: nat, r: nat, div: nat, shift: int)
    requires shift >= -1
  {
    q * d + r == n && r < d * Pow(2, shift + 1) && (shift >= 0 ==> div == d * Pow(2, shift))
  }

  lemma DividingStart(n: nat, d: nat, nb: nat, db: nat)
    requires BitLength(n, nb) && BitLength(d, db) && 0 < db <= nb
    ensures Dividing(n, d, 0, n, d * Pow(2, nb - db), nb - db) && d * Pow(2, nb - db) < Pow(2, nb)
  {
    hide Pow;
    var s := nb - db;
    PowPlus(2, db - 1, s + 1);
    PowPlus(2, db, s);
    PowPositive(2, s);
    MulMono(Pow(2, db - 1), Pow(2, s + 1), d, Pow(2, s + 1));
    MulMono(d + 1, Pow(2, s), Pow(2, db), Pow(2, s));
    assert (d + 1) * Pow(2, s) == d * Pow(2, s) + Pow(2, s);
  }

  lemma DividingSubtract(n: nat, d: nat, q: nat, r: nat, div: nat, shift: nat)
    requires Dividing(n, d, q, r, div, shift) && r >= div
    ensures (q + Pow(2, shift)) * d + (r - div) == n && r - div < d * Pow(2, shift)
  {
    PowStep(shift);
    assert (q + Pow(2, shift)) * d == q * d + d * Pow(2, shift);
    assert d * (2 * Pow(2, shift)) == d * Pow(2, shift) + d * Pow(2, shift);
  }

  lemma DividingHalve(d: nat, shift: nat)
    requires shift > 0
    ensures d * Pow(2, shift) / 2 == d * Pow(2, shift - 1)
  {
    assert d * Pow(2, shift) == 2 * (d * Pow(2, shift - 1));
  }

  lemma DividingEnd(n: nat, d: nat, q: nat, r: nat, div: nat)
    requires Dividing(n, d, q, r, div, -1) && d > 0
    ensures q == n / d && r == n % d
  {
    assert Pow(2, 0) == 1;
    QuotRem(q, r, d);
  }

  lemma TooSmall(n: nat, d: nat, nb: nat, db: nat)
    requires BitLength(n, nb) && BitLength(d, db) && db > nb
    ensures d > 0 && n / d == 0
  {
    hide Pow;
    PowPositive(2, db - 1);
    if nb < db - 1 {
      PowExponent(2, nb, db - 1);
    }
    QuotRem(0, n, d);
  }

  lemma TopTwo(width: nat, n: nat)
    requires n <= 32 * width
    ensures Pow(2, n) <= Top(width)
  {
    hide Pow;
    PowLimbs(width);
    TopIsPow(width);
    if n < 32 * width {
      PowExponent(2, n, 32 * width);
    }
  }

  lemma NoBits(v: nat, n: nat)
    requires BitLength(v, n)
    ensures v == 0 <==> n == 0
  {
    if n > 0 {
      PowPositive(2, n - 1);
    }
  }

  lemma ClearNumber(s: seq<uint32>, m: nat)
    requires forall j | 0 <= j < |s| :: s[j] == 0
    ensures LowClear(s, m)
  {
    MultipleZero(m % 32);
  }

  lemma LowClearWeaker(s: seq<uint32>, m: nat)
    requires LowClear(s, m + 1)
    ensures LowClear(s, m)
  {
    hide Pow, Multiple;
    if m / 32 < |s| {
      LimbClear(s, m);
      MultipleWeaker(s[m / 32], m % 32);
    }
  }

  /** One step: subtracts the shifted divisor if it fits, and sets the bit of the quotient. */
  method DivStep(pn: array<uint32>, num: array<uint32>, div: array<uint32>, shift: nat, ghost n: nat, ghost d: nat)
    requires pn.Length == num.Length == div.Length && pn != num && pn != div && num != div && shift / 32 < pn.Length
    requires LowClear(pn[..], shift + 1) && Dividing(n, d, Val(pn[..]), Val(num[..]), Val(div[..]), shift)
    modifies pn, num, div
    ensures LowClear(pn[..], shift) && Dividing(n, d, Val(pn[..]), Val(num[..]), Val(div[..]), shift - 1)
  {
    hide Val, Pow, Top, LowClear, Or;
    ghost var q, r, v := Val(pn[..]), Val(num[..]), Val(div[..]);
    ghost var limbs := pn[..];
    LowClearWeaker(limbs, shift);
    var c := CompareTo(num, div);
    if c >= 0 {
      ghost var was := num[..];
      SubAssign(num, div);
      ValBound(was);
      WithinTop(r - v, Top(num.Length));
      SetBitValue(limbs, shift);
      pn[shift / 32] := Or(pn[shift / 32], Pow(2, shift % 32));
      assert pn[..] == limbs[shift / 32 := pn[shift / 32]];
      DividingSubtract(n, d, q, r, v, shift);
    }
    ShrAssign(div, 1);
    PowOne();
    if shift > 0 {
      DividingHalve(d, shift);
    }
  }

  /** /=: floor division; refuses a zero divisor, with the number already cleared. */
  method DivAssign(pn: array<uint32>, b: array<uint32>) returns (ok: bool)
    requires pn.Length == b.Length
    modifies pn
    ensures ok <==> Val(old(b[..])) != 0
    ensures Val(pn[..]) == if ok then Val(old(pn[..])) / Val(old(b[..])) else 0
  {
    hide Val, Pow, Top, LowClear, Dividing, BitLength;
    ghost var n, d := Val(pn[..]), Val(b[..]);
    var div := Copy(b);
    var num := Copy(pn);
    Clear(pn);
    var numBits := Bits(num);
    var divBits := Bits(div);
    NoBits(d, divBits);
    ValZeros(pn[..]);
    if divBits == 0 {
      return false;
    }
    if divBits > numBits {
      TooSmall(n, d, numBits, divBits);
      return true;
    }
    var shift := numBits - divBits;
    ClearNumber(pn[..], shift + 1);
    DividingStart(n, d, numBits, divBits);
    TopTwo(pn.Length, numBits);
    WithinTop(d * Pow(2, shift), Top(pn.Length));
    ShlAssign(div, shift);
    while shift >= 0
      invariant -1 <= shift < 32 * pn.Length && LowClear(pn[..], shift + 1)
      invariant Dividing(n, d, Val(pn[..]), Val(num[..]), Val(div[..]), shift)
    {
      DivStep(pn, num, div, shift, n, d);
      shift := shift - 1;
    }
    DividingEnd(n, d, Val(pn[..]), Val(num[..]), Val(div[..]));
    ok := true;
  }
}
