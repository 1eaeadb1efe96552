/** Unsigned integers as arrays of 32-bit limbs, least significant first, of any fixed width. */
module Limbs {
  import opened Numerals

  const B: nat := 0x1_0000_0000

  /** The number a limb sequence stands for. */
  ghost function Val(s: seq<uint32>): nat {
    if s == [] then 0 else Val(s[..|s| - 1]) + s[|s| - 1] * Pow(B, |s| - 1)
  }

  /** One more than the largest number of a width. */
  ghost function Top(width: nat): (t: nat)
    ensures t > 0
  {
    PowPositive(B, width);
    Pow(B, width)
  }

  lemma {:induction false} ValBound(s: seq<uint32>)
    ensures Val(s) < Top(|s|)
  {
    if s != [] {
      var m := |s| - 1;
      ValBound(s[..m]);
      var x: int := s[m];
      MulMono(x + 1, Pow(B, m), B, Pow(B, m));
      assert (x + 1) * Pow(B, m) == s[m] * Pow(B, m) + Pow(B, m);
    }
  }

  lemma ValAppend(s: seq<uint32>, x: uint32)
    ensures Val(s + [x]) == Val(s) + x * Pow(B, |s|)
  {
    assert (s + [x])[..|s|] == s;
  }

  lemma ValNext(s: seq<uint32>, i: nat)
    requires i < |s|
    ensures Val(s[..i + 1]) == Val(s[..i]) + s[i] * Pow(B, i)
  {
    assert s[..i + 1] == s[..i] + [s[i]];
    ValAppend(s[..i], s[i]);
  }

  lemma {:induction false} ValSplit(s: seq<uint32>, k: nat)
    requires k <= |s|
    ensures Val(s) == Val(s[..k]) + Val(s[k..]) * Pow(B, k)
  {
    if k == |s| {
      assert s[..k] == s && s[k..] == [];
    } else {
      var m := |s| - 1;
      ValSplit(s[..m], k);
      assert s[..m][..k] == s[..k];
      assert s[..m][k..] == s[k..][..m - k];
      PowPlus(B, m - k, k);
      SplitStep(Val(s[k..][..m - k]), s[m], Pow(B, m - k), Pow(B, k));
    }
  }

  lemma SplitStep(v: nat, x: nat, p: nat, q: nat)
    ensures (v + x * p) * q == v * q + x * (p * q)
  {
    assert (v + x * p) * q == v * q + (x * p) * q;
    assert (x * p) * q == x * (p * q);
  }

  lemma {:induction false} ValZeros(s: seq<uint32>)
    requires forall i | 0 <= i < |s| :: s[i] == 0
    ensures Val(s) == 0
  {
    if s != [] {
      ValZeros(s[..|s| - 1]);
    }
  }

  /** What is below the top and differs from a number by a multiple of it is its remainder. */
  lemma ModTop(v: nat, k: int, t: nat, x: int)
    requires 0 <= v < t && v + k * t == x
    ensures v == x % t
  {
    var q, r := x / t, x % t;
    assert x == q * t + r;
    assert (q - k) * t == q * t - k * t;
    Between(q - k, t, v - r);
    assert v - r == (q - k) * t;
  }

  // ---------------------------------------------------------------- addition

  ghost predicate Summed(s: seq<uint32>, a: seq<uint32>, b: seq<uint32>, i: nat, carry: nat)
    requires i <= |s| && i <= |a| && i <= |b|
  {
    Val(s[..i]) + carry * Pow(B, i) == Val(a[..i]) + Val(b[..i])
  }

  lemma SummedNext(s: seq<uint32>, t: seq<uint32>, a: seq<uint32>, b: seq<uint32>, i: nat, carry: nat, next: nat)
    requires i < |s| == |t| && i < |a| && i < |b| && t[..i] == s[..i]
    requires Summed(s, a, b, i, carry) && carry + a[i] as int + b[i] as int == t[i] as int + next * B
    ensures Summed(t, a, b, i + 1, next)
  {
    hide Val, Pow;
    ValNext(t, i);
    ValNext(a, i);
    ValNext(b, i);
    PowNext(i);
    LimbSums(carry, a[i], b[i], t[i], next, Pow(B, i));
  }

  lemma LimbSums(c: nat, x: nat, y: nat, z: nat, next: nat, p: nat)
    requires c + x + y == z + next * B
    ensures c * p + x * p + y * p == z * p + next * (B * p)
  {
    assert (c + x + y) * p == c * p + x * p + y * p;
    assert (z + next * B) * p == z * p + next * (B * p);
  }

  lemma PowNext(i: nat)
    ensures Pow(B, i + 1) == B * Pow(B, i)
  {
  }

  lemma SummedStart(s: seq<uint32>, a: seq<uint32>, b: seq<uint32>)
    ensures Summed(s, a, b, 0, 0)
  {
  }

  /** += modulo the width; the operand may be the array itself. */
  method AddAssign(pn: array<uint32>, b: array<uint32>)
    requires pn.Length == b.Length
    modifies pn
    ensures Val(pn[..]) == (Val(old(pn[..])) + Val(old(b[..]))) % Top(pn.Length)
  {
    hide Val, Pow, Top, Summed;
    ghost var was, other := pn[..], b[..];
    var carry: uint64 := 0;
    var i := 0;
    SummedStart(pn[..], was, other);
    while i < pn.Length
      invariant i <= pn.Length && carry <= 1 && Summed(pn[..], was, other, i, carry)
      invariant forall j | i <= j < pn.Length :: pn[j] == was[j] && b[j] == other[j]
    {
      ghost var before := pn[..];
      var n: uint64 := carry as int + pn[i] as int + b[i] as int;
      pn[i] := n % B;
      carry := n / B;
      assert pn[..][..i] == before[..i];
      SummedNext(before, pn[..], was, other, i, n as int - was[i] as int - other[i] as int, carry);
      i := i + 1;
    }
    SummedAll(pn[..], was, other, carry);
  }

  lemma SummedAll(s: seq<uint32>, a: seq<uint32>, b: seq<uint32>, carry: nat)
    requires |s| == |a| == |b| && Summed(s, a, b, |s|, carry)
    ensures Val(s) == (Val(a) + Val(b)) % Top(|s|)
  {
    hide Val, Pow;
    assert s[..|s|] == s && a[..|s|] == a && b[..|s|] == b;
    ValBound(s);
    ModTop(Val(s), carry, Top(|s|), Val(a) + Val(b));
  }

  // ---------------------------------------------------------------- increment, complement, subtraction

  lemma {:induction false} Complementary(a: seq<uint32>, b: seq<uint32>)
    requires |a| == |b| && forall i | 0 <= i < |a| :: a[i] as int + b[i] == B - 1
    ensures Val(a) + Val(b) + 1 == Top(|a|)
  {
    if a != [] {
      var m := |a| - 1;
      Complementary(a[..m], b[..m]);
      LimbSums(0, a[m], b[m], B - 1, 0, Pow(B, m));
    }
  }

  /** The lower limbs are all ones on one side and zeros on the other, the limb above them is one more. */
  ghost predicate Carries(s: seq<uint32>, t: seq<uint32>, i: nat) {
    && i < |s| == |t| && (forall j | 0 <= j < i :: s[j] == B - 1 && t[j] == 0)
    && t[i] == s[i] as int + 1 && (forall j | i < j < |s| :: t[j] == s[j])
  }

  lemma CarriesValue(s: seq<uint32>, t: seq<uint32>, i: nat)
    requires Carries(s, t, i)
    ensures Val(t) == Val(s) + 1
  {
    hide Val, Pow;
    ValSplit(s, i + 1);
    ValSplit(t, i + 1);
    assert s[i + 1..] == t[i + 1..];
    ValNext(s, i);
    ValNext(t, i);
    Complementary(s[..i], t[..i]);
    ValZeros(t[..i]);
    LimbSums(1, s[i], 0, t[i], 0, Pow(B, i));
  }

  lemma WrapsAround(s: seq<uint32>, t: seq<uint32>)
    requires |s| == |t| && forall j | 0 <= j < |s| :: s[j] == B - 1 && t[j] == 0
    ensures Val(t) == 0 && Val(s) + 1 == Top(|s|)
  {
    Complementary(s, t);
    ValZeros(t);
  }

  lemma TopPositive(n: nat)
    ensures Top(n) > 0
  {
    PowPositive(B, n);
  }

  lemma TopIsPow(n: nat)
    ensures Top(n) == Pow(B, n)
  {
  }

  lemma WithinTop(v: nat, t: nat)
    requires v < t
    ensures v % t == v
  {
  }

  /** ++: limbs that wrap around to zero carry into the next. */
  method Increment(pn: array<uint32>)
    modifies pn
    ensures Val(pn[..]) == (Val(old(pn[..])) + 1) % Top(pn.Length)
  {
    hide Val, Pow, Top;
    ghost var was := pn[..];
    var i := 0;
    TopPositive(pn.Length);
    while i < pn.Length
      invariant i <= pn.Length && forall j | 0 <= j < pn.Length :: if j < i then was[j] == B - 1
                                                                   && pn[j] == 0 else pn[j] == was[j]
    {
      pn[i] := (pn[i] as int + 1) % B;
      if pn[i] != 0 {
        CarriesValue(was, pn[..], i);
        ValBound(pn[..]);
        WithinTop(Val(pn[..]), Top(pn.Length));
        return;
      }
      i := i + 1;
    }
    WrapsAround(was, pn[..]);
  }

  /** --: limbs that wrap around borrow from the next. */
  method Decrement(pn: array<uint32>)
    modifies pn
    ensures Val(pn[..]) == (Val(old(pn[..])) - 1) % Top(pn.Length)
  {
    hide Val, Pow, Top;
    ghost var was := pn[..];
    var i := 0;
    TopPositive(pn.Length);
    while i < pn.Length
      invariant i <= pn.Length && forall j | 0 <= j < pn.Length :: if j < i then pn[j] == B - 1
                                                                   && was[j] == 0 else pn[j] == was[j]
    {
      pn[i] := (pn[i] as int - 1) % B;
      if pn[i] != B - 1 {
        CarriesValue(pn[..], was, i);
        ValBound(pn[..]);
        WithinTop(Val(pn[..]), Top(pn.Length));
        return;
      }
      i := i + 1;
    }
    WrapsAround(pn[..], was);
    ModTop(Val(pn[..]), -1, Top(pn.Length), -1);
  }

  /** ~ */
  method Complement(b: array<uint32>) returns (r: array<uint32>)
    ensures fresh(r) && r.Length == b.Length && Val(r[..]) == Top(b.Length) - 1 - Val(b[..])
  {
    hide Val, Pow, Top;
    r := new uint32[b.Length](i => 0);
    var i := 0;
    while i < b.Length
      invariant i <= b.Length && forall j | 0 <= j < i :: r[j] as int + b[j] == B - 1
    {
      r[i] := B - 1 - b[i];
      i := i + 1;
    }
    Complementary(r[..], b[..]);
  }

  /** Unary minus: complement and add one. */
  method Negate(b: array<uint32>) returns (r: array<uint32>)
    ensures fresh(r) && r.Length == b.Length && Val(r[..]) == -(Val(b[..]) as int) % Top(b.Length)
  {
    hide Val, Pow, Top;
    r := Complement(b);
    Increment(r);
    TopPositive(b.Length);
    NegateValue(Val(b[..]), Top(b.Length));
  }

  lemma NegateValue(v: nat, t: nat)
    requires t > 0
    ensures (t - v) % t == -(v as int) % t
  {
    ModPlus(-(v as int), 1, t);
  }

  lemma ModPlus(x: int, k: int, t: nat)
    requires t > 0
    ensures (x + k * t) % t == x % t
  {
    var r := x % t;
    var q := x / t;
    assert x == q * t + r;
    assert (q + k) * t == q * t + k * t;
    ModTop(r, q + k, t, x + k * t);
  }

  lemma ModSum(x: int, y: int, t: nat)
    requires t > 0
    ensures (x + y % t) % t == (x + y) % t
  {
    var q := y / t;
    assert y == q * t + y % t;
    ModPlus(x + y % t, q, t);
  }

  /** -= modulo the width; the operand may be the array itself. */
  method SubAssign(pn: array<uint32>, b: array<uint32>)
    requires pn.Length == b.Length
    modifies pn
    ensures Val(pn[..]) == (Val(old(pn[..])) - Val(old(b[..]))) % Top(pn.Length)
  {
    hide Val, Pow, Top;
    ghost var was, other := pn[..], b[..];
    var minus := Negate(b);
    AddAssign(pn, minus);
    TopPositive(pn.Length);
    ModSum(Val(was), -(Val(other) as int), Top(pn.Length));
  }

  // ---------------------------------------------------------------- order and bit length

  lemma CompareLimbs(a: seq<uint32>, b: seq<uint32>, i: nat)
    requires i < |a| == |b| && (forall j | i < j < |a| :: a[j] == b[j]) && a[i] < b[i]
    ensures Val(a) < Val(b)
  {
    hide Val, Pow;
    ValSplit(a, i + 1);
    ValSplit(b, i + 1);
    assert a[i + 1..] == b[i + 1..];
    ValNext(a, i);
    ValNext(b, i);
    ValBound(a[..i]);
    var x: int := a[i];
    MulMono(x + 1, Pow(B, i), b[i], Pow(B, i));
    assert (x + 1) * Pow(B, i) == a[i] * Pow(B, i) + Pow(B, i);
  }

  method CompareTo(a: array<uint32>, b: array<uint32>) returns (r: int)
    requires a.Length == b.Length
    ensures r == if Val(a[..]) < Val(b[..]) then -1 else if Val(a[..]) > Val(b[..]) then 1 else 0
  {
    hide Val;
    var i := a.Length - 1;
    while i >= 0
      invariant -1 <= i < a.Length && forall j | i < j < a.Length :: a[j] == b[j]
    {
      if a[i] < b[i] {
        CompareLimbs(a[..], b[..], i);
        return -1;
      }
      if a[i] > b[i] {
        CompareLimbs(b[..], a[..], i);
        return 1;
      }
      i := i - 1;
    }
    assert a[..] == b[..];
    r := 0;
  }

  /** The number of bits of v. */
  ghost predicate BitLength(v: nat, n: nat) {
    v < Pow(2, n) && (n > 0 ==> Pow(2, n - 1) <= v)
  }

  lemma Pow32()
    ensures Pow(2, 32) == B
  {
    PowPlus(2, 4, 4);
    PowPlus(2, 8, 8);
    PowPlus(2, 16, 16);
    assert Pow(2, 4) == 16;
  }

  lemma PowLimbs(k: nat)
    ensures Pow(2, 32 * k) == Pow(B, k)
  {
    Pow32();
    PowTimes(2, 32, k);
  }

  /** A limb with n bits below zeros: the whole number has 32 bits more for each limb below it. */
  lemma BitLengthAt(s: seq<uint32>, k: nat, n: nat)
    requires k < |s| && (forall j | k < j < |s| :: s[j] == 0) && n > 0 && BitLength(s[k], n)
    ensures BitLength(Val(s), 32 * k + n)
  {
    hide Val, Pow;
    ValSplit(s, k + 1);
    ValZeros(s[k + 1..]);
    ValNext(s, k);
    ValBound(s[..k]);
    PowLimbs(k);
    PowPlus(2, n, 32 * k);
    PowPlus(2, n - 1, 32 * k);
    var x: int := s[k];
    MulMono(x + 1, Pow(B, k), Pow(2, n), Pow(B, k));
    MulMono(Pow(2, n - 1), Pow(B, k), s[k], Pow(B, k));
    assert (x + 1) * Pow(B, k) == s[k] * Pow(B, k) + Pow(B, k);
  }

  /** Bit t of a limb. */
  predicate Bit(x: uint32, t: nat) {
    PowPositive(2, t);
    x as int / Pow(2, t) % 2 == 1
  }

  lemma TopBit(x: uint32, t: nat)
    requires x < Pow(2, t + 1)
    ensures Bit(x, t) <==> Pow(2, t) <= x
  {
    PowPositive(2, t);
    var p := Pow(2, t);
    HalfQuotient(x, p);
  }

  lemma HalfQuotient(x: nat, p: nat)
    requires p > 0 && x < 2 * p
    ensures x / p == if x >= p then 1 else 0
  {
    if x >= p {
      ModTop(x - p, 1, p, x);
      assert x == x / p * p + x % p;
      Between(x / p - 1, p, 0);
    }
  }

  /** The position of the highest bit set plus one, or zero. */
  method Bits(pn: array<uint32>) returns (n: nat)
    ensures BitLength(Val(pn[..]), n) && n <= 32 * pn.Length
  {
    hide Val, Pow, Bit;
    var pos := pn.Length - 1;
    while pos >= 0
      invariant -1 <= pos < pn.Length && forall j | pos < j < pn.Length :: pn[j] == 0
    {
      if pn[pos] != 0 {
        Pow32();
        var nbits := 31;
        while nbits > 0
          invariant 0 <= nbits <= 31 && pn[pos] < Pow(2, nbits + 1)
        {
          TopBit(pn[pos], nbits);
          if Bit(pn[pos], nbits) {
            BitLengthAt(pn[..], pos, nbits + 1);
            return 32 * pos + nbits + 1;
          }
          nbits := nbits - 1;
        }
        PowOne();
        BitLengthAt(pn[..], pos, 1);
        return 32 * pos + 1;
      }
      pos := pos - 1;
    }
    ValZeros(pn[..]);
    PowOne();
    n := 0;
  }

  lemma PowOne()
    ensures Pow(2, 0) == 1 && Pow(2, 1) == 2
  {
  }
}
