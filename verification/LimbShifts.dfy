/** Shifts of limb arrays by any number of bits. */
module LimbShifts {
  import opened Numerals
  import opened Limbs

  // ---------------------------------------------------------------- bits of one limb

  /** Bitwise or. */
  function Or(x: nat, y: nat): nat {
    if x == 0 && y == 0 then 0 else 2 * Or(x / 2, y / 2) + (if x % 2 == 1 || y % 2 == 1 then 1 else 0)
  }

  lemma {:induction false} OrZero(x: nat)
    ensures Or(x, 0) == x && Or(0, x) == x
  {
    if x > 0 {
      OrZero(x / 2);
    }
  }

  lemma {:induction false} OrSwap(x: nat, y: nat)
    ensures Or(x, y) == Or(y, x)
  {
    if x > 0 || y > 0 {
      OrSwap(x / 2, y / 2);
    }
  }

  /** Numbers without a common bit: the one is a multiple of a power of two, the other below it. */
  lemma {:induction false} OrDisjoint(q: nat, y: nat, s: nat)
    requires y < Pow(2, s)
    ensures Or(q * Pow(2, s), y) == q * Pow(2, s) + y
  {
    hide Or;
    if s == 0 {
      OrZero(q);
    } else {
      var p := Pow(2, s - 1);
      assert Pow(2, s) == 2 * p;
      OrDisjoint(q, y / 2, s - 1);
      assert q * (2 * p) == 2 * (q * p);
      OrHalves(q * p, y);
    }
  }

  lemma OrHalves(x: nat, y: nat)
    ensures Or(2 * x, y) == 2 * Or(x, y / 2) + y % 2
  {
    if x == 0 && y == 0 {
    } else {
      assert 2 * x / 2 == x && 2 * x % 2 == 0;
    }
  }

  function Shl32(x: uint32, s: nat): uint32 {
    x as int * Pow(2, s) % B
  }

  function Shr32(x: uint32, s: nat): uint32 {
    PowPositive(2, s);
    Quotient(x, Pow(2, s));
    x as int / Pow(2, s)
  }

  lemma Quotient(x: nat, p: nat)
    requires p > 0
    ensures 0 <= x / p <= x
  {
    var q := x / p;
    assert x == q * p + x % p;
    MulMono(q, 1, q, p);
  }

  /** Shifting a limb left by s: what stays and what goes over into the next limb. */
  lemma LimbSplit(x: uint32, s: nat)
    requires s <= 32
    ensures Pow(2, 32 - s) > 0
    ensures var lo := x as int % Pow(2, 32 - s);
            Shl32(x, s) == lo * Pow(2, s) && 0 <= lo
            && Shr32(x, 32 - s) < Pow(2, s) && Shl32(x, s) as int + Shr32(x, 32 - s) as int * B == x as int * Pow(2, s)
  {
    hide Pow;
    PowPositive(2, 32 - s);
    PowPositive(2, s);
    Pow32();
    PowPlus(2, 32 - s, s);
    var p, q := Pow(2, 32 - s), Pow(2, s);
    var hi, lo := x as int / p, x as int % p;
    assert x as int == hi * p + lo;
    SplitAlgebra(x, hi, lo, p, q);
    ModTop(lo * q, hi, B, x as int * q);
    if hi >= q {
      MulMono(q, p, hi, p);
      assert false;
    }
  }

  lemma SplitAlgebra(x: nat, hi: nat, lo: nat, p: nat, q: nat)
    requires x == hi * p + lo && lo < p && q > 0
    ensures lo * q + hi * (p * q) == x * q && lo * q < p * q
  {
    assert (hi * p + lo) * q == hi * (p * q) + lo * q;
  }

  // ---------------------------------------------------------------- left

  /** Limb j after i steps of the left shift by k limbs and s bits. */
  ghost function ShlLimb(a: seq<uint32>, k: nat, s: nat, i: nat, j: nat): nat
    requires s < 32 && i <= |a| && j < |a|
  {
    (if k <= j < k + i then Shl32(a[j - k], s) as int else 0)
    + (if k < j <= k + i then Shr32(a[j - k - 1], 32 - s) as int else 0)
  }

  lemma ShrWhole(x: uint32)
    ensures Shr32(x, 32) == 0
  {
    Pow32();
    HalfQuotient(x, B);
  }

  /** Joining the part that stays with the part carried in. */
  lemma ShlJoin(x: uint32, y: uint32, s: nat)
    requires s < 32
    ensures Or(Shr32(y, 32 - s), Shl32(x, s)) == Shr32(y, 32 - s) as int + Shl32(x, s) as int < B
  {
    hide Pow, Or, Shl32, Shr32;
    LimbSplit(x, s);
    LimbSplit(y, s);
    Pow32();
    PowPlus(2, 32 - s, s);
    var lo := x as int % Pow(2, 32 - s);
    OrSwap(Shr32(y, 32 - s), Shl32(x, s));
    OrDisjoint(lo, Shr32(y, 32 - s), s);
    MulMono(lo + 1, Pow(2, s), Pow(2, 32 - s), Pow(2, s));
    assert (lo + 1) * Pow(2, s) == lo * Pow(2, s) + Pow(2, s);
  }

  lemma ShlStep(a: seq<uint32>, k: nat, s: nat, i: nat, j: nat)
    requires s < 32 && i < |a| && j < |a|
    ensures ShlLimb(a, k, s, i + 1, j)
         == if j == i + k then Or(ShlLimb(a, k, s, i, j), Shl32(a[i], s))
            else if j == i + k + 1 then Or(ShlLimb(a, k, s, i, j), if s == 0 then 0 else Shr32(a[i], 32 - s))
            else ShlLimb(a, k, s, i, j)
    ensures ShlLimb(a, k, s, i + 1, j) < B
  {
    hide Pow, Or, Shl32, Shr32;
    if j == i + k {
      if i == 0 {
        OrZero(Shl32(a[i], s));
      } else {
        ShlJoin(a[i], a[i - 1], s);
      }
    } else if j == i + k + 1 {
      ShrWhole(a[i]);
      OrZero(Shr32(a[i], 32 - s));
    } else if k < j < k + i {
      ShlJoin(a[j - k], a[j - k - 1], s);
    }
  }

  lemma ShlLow(a: seq<uint32>, k: nat, s: nat, j: nat)
    requires s < 32 && j < |a|
    ensures ShlLimb(a, k, s, 0, j) == 0
  {
  }

  lemma LimbSum(x: uint32, s: nat)
    requires s <= 32
    ensures Shl32(x, s) as int + Shr32(x, 32 - s) as int * B == x as int * Pow(2, s)
  {
    LimbSplit(x, s);
  }

  /** What is carried into limb m of the shifted number. */
  ghost function CarryIn(a: seq<uint32>, s: nat, m: nat): nat
    requires s < 32 && m <= |a|
  {
    if m == 0 then 0 else Shr32(a[m - 1], 32 - s)
  }

  lemma ShlFinal(a: seq<uint32>, k: nat, s: nat, m: nat)
    requires s < 32 && k + m < |a|
    ensures ShlLimb(a, k, s, |a|, k + m) == CarryIn(a, s, m) + Shl32(a[m], s) as int
    ensures CarryIn(a, s, m + 1) == Shr32(a[m], 32 - s)
    ensures forall j: nat | j < k :: ShlLimb(a, k, s, |a|, j) == 0
  {
  }

  /** The limbs below k + m after the whole shift, with what is carried out of them. */
  lemma {:induction false} ShlValue(a: seq<uint32>, t: seq<uint32>, k: nat, s: nat, m: nat)
    requires s < 32 && k < |a| == |t| && k + m <= |a| && forall j | 0 <= j < |a| ::
                                                           t[j] as int == ShlLimb(a, k, s, |a|, j)
    ensures Val(t[..k + m]) + CarryIn(a, s, m) * Pow(B, k + m) == Val(a[..m]) * Pow(2, s) * Pow(B, k)
  {
    hide Val, Pow, Shl32, Shr32, ShlLimb, CarryIn;
    if m == 0 {
      ShlFinal(a, k, s, 0);
      ValZeros(t[..k]);
      ValZeros(a[..0]);
      CarryNone(a, s);
    } else {
      var n := m - 1;
      ShlValue(a, t, k, s, n);
      ShlFinal(a, k, s, n);
      ValNext(t, k + n);
      ValNext(a, n);
      PowNext(k + n);
      PowPlus(B, n, k);
      LimbSum(a[n], s);
      ShlAlgebra(Val(t[..k + n]), Val(a[..n]), a[n], Pow(B, n), Pow(B, k), Pow(2, s), CarryIn(a, s, n),
                 Shl32(a[n], s), Shr32(a[n], 32 - s), Pow(B, k + n));
    }
  }

  lemma CarryNone(a: seq<uint32>, s: nat)
    requires s < 32
    ensures CarryIn(a, s, 0) == 0
  {
  }

  lemma ShlAlgebra(vt: nat, v: nat, x: nat, p: nat, q: nat, e: nat, c: nat, lo: nat, hi: nat, pq: nat)
    requires lo + hi * B == x * e && pq == p * q && vt + c * pq == v * e * q
    ensures vt + (c + lo) * pq + hi * (B * pq) == (v + x * p) * e * q
  {
    assert (v + x * p) * e == v * e + x * p * e;
    assert (v * e + x * p * e) * q == v * e * q + x * p * e * q;
    assert x * p * e * q == x * e * pq;
    assert (c + lo) * pq == c * pq + lo * pq && (lo + hi * B) * pq == lo * pq + hi * (B * pq);
  }

  lemma TwoPower(shift: nat)
    ensures Pow(2, shift) == Pow(2, shift % 32) * Pow(B, shift / 32)
  {
    hide Pow;
    PowLimbs(shift / 32);
    PowPlus(2, shift % 32, 32 * (shift / 32));
  }

  lemma ShlAll(a: seq<uint32>, t: seq<uint32>, shift: nat)
    requires |a| == |t| && forall j | 0 <= j < |a| :: t[j] as int == ShlLimb(a, shift / 32, shift % 32, |a|, j)
    ensures Val(t) == Val(a) * Pow(2, shift) % Top(|a|)
  {
    hide Val, Pow, Shl32, Shr32, Top;
    var k, s := shift / 32, shift % 32;
    TwoPower(shift);
    TopPositive(|a|);
    TopIsPow(|a|);
    if k >= |a| {
      ValZeros(t);
      PowPlus(B, |a|, k - |a|);
      ShlAway(Val(a), Pow(2, s), Pow(B, k - |a|), Top(|a|));
    } else {
      var m := |a| - k;
      ShlValue(a, t, k, s, m);
      assert t[..k + m] == t;
      ValSplit(a, m);
      ValBound(t);
      PowPlus(B, m, k);
      ShlRemainder(Val(t), CarryIn(a, s, m), Val(a[..m]), Val(a[m..]), Pow(2, s), Pow(B, m), Pow(B, k), Top(|a|));
    }
  }

  lemma ShlAway(v: nat, e: nat, q: nat, t: nat)
    requires t > 0
    ensures v * (e * (t * q)) % t == 0
  {
    assert v * (e * (t * q)) == (v * e * q) * t;
    ModTop(0, v * e * q, t, v * (e * (t * q)));
  }

  lemma ShlRemainder(r: nat, c: nat, lo: nat, hi: nat, e: nat, p: nat, q: nat, t: nat)
    requires r < t && t == p * q && r + c * t == lo * e * q
    ensures r == (lo + hi * p) * (e * q) % t
  {
    assert (lo + hi * p) * (e * q) == lo * e * q + hi * e * (p * q);
    assert (c + hi * e) * t == c * t + hi * e * t;
    ModTop(r, c + hi * e, t, (lo + hi * p) * (e * q));
  }

  method Copy(pn: array<uint32>) returns (a: array<uint32>)
    ensures fresh(a) && a[..] == pn[..]
  {
    a := new uint32[pn.Length](i => 0);
    var i := 0;
    while i < pn.Length
      invariant i <= pn.Length && forall j | 0 <= j < i :: a[j] == pn[j]
    {
      a[i] := pn[i];
      i := i + 1;
    }
  }

  method Clear(pn: array<uint32>)
    modifies pn
    ensures forall j | 0 <= j < pn.Length :: pn[j] == 0
  {
    var i := 0;
    while i < pn.Length
      invariant i <= pn.Length && forall j | 0 <= j < i :: pn[j] == 0
    {
      pn[i] := 0;
      i := i + 1;
    }
  }

  /** <<= modulo the width, by any number of bits. */
  method ShlAssign(pn: array<uint32>, shift: nat)
    modifies pn
    ensures Val(pn[..]) == Val(old(pn[..])) * Pow(2, shift) % Top(pn.Length)
  {
    hide Val, Pow, Top, ShlLimb, Or, Shl32, Shr32;
    ghost var was := pn[..];
    var a := Copy(pn);
    Clear(pn);
    var k, s := shift / 32, shift % 32;
    var i := 0;
    forall j | 0 <= j < pn.Length
      ensures ShlLimb(was, k, s, 0, j) == 0
    {
      ShlLow(was, k, s, j);
    }
    while i < pn.Length
      invariant i <= pn.Length && a[..] == was
      invariant forall j | 0 <= j < pn.Length :: pn[j] as int == ShlLimb(was, k, s, i, j)
    {
      assert a[..][i] == was[i];
      forall j | 0 <= j < pn.Length
        ensures ShlLimb(was, k, s, i + 1, j)
             == if j == i + k then Or(ShlLimb(was, k, s, i, j), Shl32(a[i], s))
                else if j == i + k + 1 then Or(ShlLimb(was, k, s, i, j), if s == 0 then 0 else Shr32(a[i], 32 - s))
                else ShlLimb(was, k, s, i, j)
        ensures ShlLimb(was, k, s, i + 1, j) < B
      {
        ShlStep(was, k, s, i, j);
      }
      OrNothing();
      if i + k + 1 < pn.Length && s != 0 {
        pn[i + k + 1] := Or(pn[i + k + 1], Shr32(a[i], 32 - s));
      }
      if i + k < pn.Length {
        pn[i + k] := Or(pn[i + k], Shl32(a[i], s));
      }
      i := i + 1;
    }
    ShlAll(was, pn[..], shift);
  }

  lemma OrNothing()
    ensures forall x: nat :: Or(x, 0) == x
  {
    forall x: nat
      ensures Or(x, 0) == x
    {
      OrZero(x);
    }
  }

  // ---------------------------------------------------------------- right

  /** Limb j after i steps of the right shift by k limbs and s bits. */
  ghost function ShrLimb(a: seq<uint32>, k: nat, s: nat, i: nat, j: nat): nat
    requires s < 32 && i <= |a| && j < |a|
  {
    (if j + k < i then Shr32(a[j + k], s) as int else 0)
    + (if j + k + 1 < i then Shl32(a[j + k + 1], 32 - s) as int else 0)
  }

  lemma ShlWhole(x: uint32)
    ensures Shl32(x, 32) == 0
  {
    Pow32();
    ModTop(0, x, B, x as int * B);
  }

  lemma ShrJoin(x: uint32, y: uint32, s: nat)
    requires s < 32
    ensures Or(Shr32(x, s), Shl32(y, 32 - s)) == Shr32(x, s) as int + Shl32(y, 32 - s) as int < B
  {
    hide Pow, Or, Shl32, Shr32;
    LimbSplit(y, 32 - s);
    LimbSplit(x, 32 - s);
    Pow32();
    PowPlus(2, s, 32 - s);
    var lo := y as int % Pow(2, s);
    OrSwap(Shr32(x, s), Shl32(y, 32 - s));
    OrDisjoint(lo, Shr32(x, s), 32 - s);
    MulMono(lo + 1, Pow(2, 32 - s), Pow(2, s), Pow(2, 32 - s));
    assert (lo + 1) * Pow(2, 32 - s) == lo * Pow(2, 32 - s) + Pow(2, 32 - s);
  }

  lemma ShrStep(a: seq<uint32>, k: nat, s: nat, i: nat, j: nat)
    requires s < 32 && i < |a| && j < |a|
    ensures ShrLimb(a, k, s, i + 1, j)
         == if j + k == i then Or(ShrLimb(a, k, s, i, j), Shr32(a[i], s))
            else if j + k + 1 == i then Or(ShrLimb(a, k, s, i, j), if s == 0 then 0 else Shl32(a[i], 32 - s))
            else ShrLimb(a, k, s, i, j)
    ensures ShrLimb(a, k, s, i + 1, j) < B
  {
    hide Pow, Or, Shl32, Shr32;
    if j + k == i {
      OrZero(Shr32(a[i], s));
    } else if j + k + 1 == i {
      ShlWhole(a[i]);
      OrZero(Shr32(a[i - 1], s));
      ShrJoin(a[i - 1], a[i], s);
    } else if j + k + 1 < i {
      ShrJoin(a[j + k], a[j + k + 1], s);
    }
  }

  lemma ShrLow(a: seq<uint32>, k: nat, s: nat, j: nat)
    requires s < 32 && j < |a|
    ensures ShrLimb(a, k, s, 0, j) == 0
  {
  }

  /** The low s bits of limb j, none beyond the last. */
  ghost function LowBits(c: seq<uint32>, s: nat, j: nat): nat {
    PowPositive(2, s);
    if j < |c| then c[j] as int % Pow(2, s) else 0
  }

  lemma {:induction false} ShrValue(c: seq<uint32>, t: seq<uint32>, s: nat, n: nat)
    requires s < 32 && n <= |c| && |c| <= |t|
    requires forall j | 0 <= j < |c| :: t[j] as int == Shr32(c[j], s) as int + LowBits(c, s, j + 1) * Pow(2, 32 - s)
    ensures Val(t[..n]) * Pow(2, s) + LowBits(c, s, 0) == Val(c[..n]) + LowBits(c, s, n) * Pow(B, n)
  {
    hide Val, Pow, Shl32, LowBits;
    if n == 0 {
      ValZeros(t[..0]);
      ValZeros(c[..0]);
      PowNone();
    } else {
      var m := n - 1;
      ShrValue(c, t, s, m);
      ValNext(t, m);
      ValNext(c, m);
      PowNext(m);
      Pow32();
      PowPlus(2, 32 - s, s);
      LowOf(c, s, m);
      ShrAlgebra(Val(t[..m]), t[m], Pow(B, m), Pow(2, s), Pow(2, 32 - s), Shr32(c[m], s), LowBits(c, s, m),
                 LowBits(c, s, n), c[m]);
    }
  }

  lemma PowNone()
    ensures Pow(B, 0) == 1
  {
  }

  lemma LowOf(c: seq<uint32>, s: nat, m: nat)
    requires m < |c|
    ensures c[m] as int == Shr32(c[m], s) as int * Pow(2, s) + LowBits(c, s, m)
  {
    PowPositive(2, s);
  }

  lemma ShrAlgebra(v: nat, x: nat, p: nat, e: nat, f: nat, hi: nat, lo: nat, next: nat, y: nat)
    requires x == hi + next * f && y == hi * e + lo && f * e == B
    ensures (v + x * p) * e + lo * p == v * e + y * p + next * (B * p)
  {
    assert x * e == hi * e + next * B by {
      assert (hi + next * f) * e == hi * e + next * (f * e);
    }
    assert (v + x * p) * e == v * e + x * e * p;
    assert (hi * e + next * B) * p == hi * e * p + next * (B * p);
    assert y * p == hi * e * p + lo * p;
  }

  lemma ShrTail(a: seq<uint32>, t: seq<uint32>, k: nat, s: nat, j: nat)
    requires s < 32 && k <= |a| == |t| && j < |a| && t[j] as int == ShrLimb(a, k, s, |a|, j)
    ensures j < |a[k..]| ==> t[j] as int == Shr32(a[k..][j], s) as int + LowBits(a[k..], s, j + 1) * Pow(2, 32 - s)
    ensures j >= |a[k..]| ==> t[j] == 0
  {
    hide Pow, Shl32, Shr32;
    if j + 1 < |a[k..]| {
      LimbSplit(a[k + j + 1], 32 - s);
    }
  }

  lemma ShrBeyond(a: seq<uint32>, t: seq<uint32>, k: nat, s: nat)
    requires s < 32 && k >= |a| == |t| && forall j | 0 <= j < |a| :: t[j] as int == ShrLimb(a, k, s, |a|, j)
    ensures Pow(2, s) * Pow(B, k) > 0 && Val(t) == Val(a) / (Pow(2, s) * Pow(B, k))
  {
    hide Val, Pow, ShrLimb, Top;
    ShrNothing(a, t, k, s);
    ValZeros(t);
    ValBound(a);
    TopIsPow(|a|);
    PowPlus(B, |a|, k - |a|);
    PowPositive(2, s);
    PowPositive(B, k - |a|);
    ShrAway(Val(a), Pow(B, |a|), Pow(B, k - |a|), Pow(2, s));
  }

  lemma ShrWithin(a: seq<uint32>, t: seq<uint32>, k: nat, s: nat)
    requires s < 32 && k < |a| == |t| && forall j | 0 <= j < |a| :: t[j] as int == ShrLimb(a, k, s, |a|, j)
    ensures Pow(2, s) * Pow(B, k) > 0 && Val(t) == Val(a) / (Pow(2, s) * Pow(B, k))
  {
    hide Val, Pow, Shl32, Shr32, LowBits, ShrLimb, Top;
    var c := a[k..];
    forall j | 0 <= j < |a|
      ensures j < |c| ==> t[j] as int == Shr32(c[j], s) as int + LowBits(c, s, j + 1) * Pow(2, 32 - s)
      ensures j >= |c| ==> t[j] == 0
    {
      ShrTail(a, t, k, s, j);
    }
    ShrValue(c, t, s, |c|);
    LowBitsEnds(c, s);
    assert c[..|c|] == c;
    assert Val(t) == Val(t[..|c|]) by {
      ValSplit(t, |c|);
      ValZeros(t[|c|..]);
    }
    ValSplit(a, k);
    ValBound(a[..k]);
    TopIsPow(k);
    ShrQuotient(Val(a), Val(t), LowBits(c, s, 0), Val(a[..k]), Val(c), Pow(2, s), Pow(B, k));
  }

  lemma ShrAll(a: seq<uint32>, t: seq<uint32>, shift: nat)
    requires |a| == |t| && forall j | 0 <= j < |a| :: t[j] as int == ShrLimb(a, shift / 32, shift % 32, |a|, j)
    ensures Pow(2, shift) > 0 && Val(t) == Val(a) / Pow(2, shift)
  {
    hide Val, Pow, ShrLimb;
    TwoPower(shift);
    if shift / 32 >= |a| {
      ShrBeyond(a, t, shift / 32, shift % 32);
    } else {
      ShrWithin(a, t, shift / 32, shift % 32);
    }
  }

  lemma LowBitsEnds(c: seq<uint32>, s: nat)
    ensures LowBits(c, s, |c|) == 0 && LowBits(c, s, 0) < Pow(2, s)
  {
    PowPositive(2, s);
  }

  lemma ShrNothing(a: seq<uint32>, t: seq<uint32>, k: nat, s: nat)
    requires s < 32 && k >= |a| == |t| && forall j | 0 <= j < |a| :: t[j] as int == ShrLimb(a, k, s, |a|, j)
    ensures forall j | 0 <= j < |t| :: t[j] == 0
  {
  }

  lemma ShrAway(v: nat, t: nat, q: nat, e: nat)
    requires v < t && e > 0 && q > 0
    ensures e * (t * q) > 0 && v / (e * (t * q)) == 0
  {
    MulMono(t, 1, t, q);
    MulMono(1, t * q, e, t * q);
  }

  lemma ShrProduct(r: nat, e: nat, low: nat, p: nat)
    ensures (r * e + low) * p == r * (e * p) + low * p && (low + 1) * p == low * p + p
  {
    assert r * e * p == r * (e * p);
  }

  lemma ShrQuotient(v: nat, r: nat, low: nat, below: nat, c: nat, e: nat, p: nat)
    requires r * e + low == c && v == below + c * p && low < e && below < p
    ensures e * p > 0 && r == v / (e * p)
  {
    ShrProduct(r, e, low, p);
    MulMono(low + 1, p, e, p);
    QuotRem(r, low * p + below, e * p);
  }

  /** >>= by any number of bits. */
  method ShrAssign(pn: array<uint32>, shift: nat)
    modifies pn
    ensures Pow(2, shift) > 0 && Val(pn[..]) == Val(old(pn[..])) / Pow(2, shift)
  {
    hide Val, Pow, Top, ShrLimb, Or, Shl32, Shr32;
    ghost var was := pn[..];
    var a := Copy(pn);
    Clear(pn);
    var k, s := shift / 32, shift % 32;
    var i := 0;
    forall j | 0 <= j < pn.Length
      ensures ShrLimb(was, k, s, 0, j) == 0
    {
      ShrLow(was, k, s, j);
    }
    while i < pn.Length
      invariant i <= pn.Length && a[..] == was
      invariant forall j | 0 <= j < pn.Length :: pn[j] as int == ShrLimb(was, k, s, i, j)
    {
      assert a[..][i] == was[i];
      forall j | 0 <= j < pn.Length
        ensures ShrLimb(was, k, s, i + 1, j)
             == if j + k == i then Or(ShrLimb(was, k, s, i, j), Shr32(a[i], s))
                else if j + k + 1 == i then Or(ShrLimb(was, k, s, i, j), if s == 0 then 0 else Shl32(a[i], 32 - s))
                else ShrLimb(was, k, s, i, j)
        ensures ShrLimb(was, k, s, i + 1, j) < B
      {
        ShrStep(was, k, s, i, j);
      }
      OrNothing();
      if i - k - 1 >= 0 && s != 0 {
        pn[i - k - 1] := Or(pn[i - k - 1], Shl32(a[i], 32 - s));
      }
      if i - k >= 0 {
        pn[i - k] := Or(pn[i - k], Shr32(a[i], s));
      }
      i := i + 1;
    }
    ShrAll(was, pn[..], shift);
  }
}
