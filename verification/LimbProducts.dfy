/** Multiplication of limb arrays modulo their width. */
module LimbProducts {
  import opened Numerals
  import opened Limbs

  lemma ProductFits(x: uint32, y: uint32)
    ensures 0 <= x as int * y as int <= (B - 1) * (B - 1)
  {
    MulMono(x, y, B - 1, B - 1);
  }

  // ---------------------------------------------------------------- by one limb

  ghost predicate Scaled(s: seq<uint32>, a: seq<uint32>, m: nat, i: nat, carry: nat)
    requires i <= |s| && i <= |a|
  {
    Val(s[..i]) + carry * Pow(B, i) == m * Val(a[..i])
  }

  lemma ScaledNext(s: seq<uint32>, t: seq<uint32>, a: seq<uint32>, m: nat, i: nat, carry: nat, next: nat)
    requires i < |s| == |t| && i < |a| && t[..i] == s[..i]
    requires Scaled(s, a, m, i, carry) && carry + m * a[i] as int == t[i] as int + next * B
    ensures Scaled(t, a, m, i + 1, next)
  {
    hide Val, Pow;
    ValNext(t, i);
    ValNext(a, i);
    PowNext(i);
    LimbSums(carry, m * a[i] as int, 0, t[i], next, Pow(B, i));
    ScaledSum(m, Val(a[..i]), a[i], Pow(B, i));
  }

  lemma ScaledSum(m: nat, v: nat, x: nat, p: nat)
    ensures m * (v + x * p) == m * v + m * x * p
  {
    assert m * (v + x * p) == m * v + m * (x * p);
    assert m * (x * p) == m * x * p;
  }

  lemma ScaledAll(s: seq<uint32>, a: seq<uint32>, m: nat, carry: nat)
    requires |s| == |a| && Scaled(s, a, m, |s|, carry)
    ensures Val(s) == m * Val(a) % Top(|s|)
  {
    hide Val, Pow;
    assert s[..|s|] == s && a[..|s|] == a;
    ValBound(s);
    TopIsPow(|s|);
    ModTop(Val(s), carry, Top(|s|), m * Val(a));
  }

  lemma ScaledStart(s: seq<uint32>, a: seq<uint32>, m: nat)
    ensures Scaled(s, a, m, 0, 0)
  {
  }

  /** *= by one limb. */
  method MulAssignLimb(pn: array<uint32>, b32: uint32)
    modifies pn
    ensures Val(pn[..]) == b32 as int * Val(old(pn[..])) % Top(pn.Length)
  {
    hide Val, Pow, Top, Scaled;
    ghost var was := pn[..];
    var carry: uint64 := 0;
    var i := 0;
    ScaledStart(pn[..], was, b32);
    while i < pn.Length
      invariant i <= pn.Length && carry < B && Scaled(pn[..], was, b32, i, carry)
      invariant forall j | i <= j < pn.Length :: pn[j] == was[j]
    {
      ghost var before := pn[..];
      ProductFits(b32, pn[i]);
      ghost var c := carry;
      var n: uint64 := carry as int + b32 as int * pn[i] as int;
      pn[i] := n % B;
      carry := n / B;
      assert pn[..][..i] == before[..i];
      ScaledNext(before, pn[..], was, b32, i, c, carry);
      i := i + 1;
    }
    ScaledAll(pn[..], was, b32, carry);
  }

  // ---------------------------------------------------------------- by another array

  /** Row j of the product so far: b times the limb x, shifted by j limbs, added to what was there. */
  ghost predicate Row(s: seq<uint32>, base: seq<uint32>, x: nat, b: seq<uint32>, i: nat, j: nat, carry: nat)
    requires i + j <= |s| == |base| && i <= |b|
  {
    Val(s[..i + j]) + carry * Pow(B, i + j) == Val(base[..i + j]) + x * Val(b[..i]) * Pow(B, j)
  }

  lemma RowStart(s: seq<uint32>, x: nat, b: seq<uint32>, j: nat)
    requires j <= |s|
    ensures Row(s, s, x, b, 0, j, 0)
  {
    assert b[..0] == [];
    assert x * Val(b[..0]) * Pow(B, j) == 0;
  }

  lemma RowNext(s: seq<uint32>, t: seq<uint32>, base: seq<uint32>, x: nat, b: seq<uint32>, i: nat, j: nat, carry: nat,
                next: nat)
    requires i + j < |s| == |t| == |base| && i < |b| && t[..i + j] == s[..i + j]
    requires Row(s, base, x, b, i, j, carry)
    requires carry + base[i + j] as int + x * b[i] as int == t[i + j] as int + next * B
    ensures Row(t, base, x, b, i + 1, j, next)
  {
    hide Val, Pow;
    ValNext(t, i + j);
    ValNext(base, i + j);
    ValNext(b, i);
    PowNext(i + j);
    PowPlus(B, i, j);
    LimbSums(carry, base[i + j], x * b[i] as int, t[i + j], next, Pow(B, i + j));
    RowAlgebra(x, Val(b[..i]), b[i], Pow(B, i), Pow(B, j));
  }

  lemma RowAlgebra(x: nat, v: nat, y: nat, p: nat, q: nat)
    ensures x * (v + y * p) * q == x * v * q + x * y * (p * q)
  {
    assert x * (v + y * p) == x * v + x * y * p;
    assert (x * v + x * y * p) * q == x * v * q + x * y * p * q;
    assert x * y * p * q == x * y * (p * q);
  }

  /** A full row adds x times b at j limbs, up to a multiple of the top. */
  lemma RowDone(s: seq<uint32>, base: seq<uint32>, x: nat, b: seq<uint32>, j: nat, carry: nat) returns (k: nat)
    requires j <= |s| == |base| == |b| && Row(s, base, x, b, |s| - j, j, carry)
    ensures Val(s) + k * Top(|s|) == Val(base) + x * Val(b) * Pow(B, j)
  {
    hide Val, Pow;
    var m := |s| - j;
    var hi := Val(b[m..]);
    assert s[..|s|] == s && base[..|s|] == base;
    ValSplit(b, m);
    PowPlus(B, m, j);
    TopIsPow(|s|);
    RowAlgebra(x, Val(b[..m]), hi, Pow(B, m), Pow(B, j));
    k := carry + x * hi;
    assert (carry + x * hi) * Top(|s|) == carry * Top(|s|) + x * hi * Top(|s|);
  }

  /** After j rows: the product with the lower j limbs, up to a multiple of the top. */
  ghost predicate Rows(a: seq<uint32>, pn: seq<uint32>, b: seq<uint32>, j: nat, k: nat)
    requires j <= |pn|
  {
    Val(a) + k * Top(|a|) == Val(pn[..j]) * Val(b)
  }

  lemma RowsNext(a: seq<uint32>, t: seq<uint32>, pn: seq<uint32>, b: seq<uint32>, j: nat, k: nat, m: nat)
    requires j < |pn| && |a| == |t| && Rows(a, pn, b, j, k)
    requires Val(t) + m * Top(|t|) == Val(a) + pn[j] as int * Val(b) * Pow(B, j)
    ensures Rows(t, pn, b, j + 1, k + m)
  {
    hide Val, Pow, Top;
    ValNext(pn, j);
    RowsAlgebra(Val(a), Val(t), Val(pn[..j]), pn[j], Pow(B, j), Val(b), k, m, Top(|a|));
  }

  lemma RowsAlgebra(va: nat, vt: nat, v: nat, x: nat, p: nat, w: nat, k: nat, m: nat, t: nat)
    requires va + k * t == v * w && vt + m * t == va + x * w * p
    ensures vt + (k + m) * t == (v + x * p) * w
  {
    assert (v + x * p) * w == v * w + x * w * p;
    assert (k + m) * t == k * t + m * t;
  }

  lemma RowsAll(a: seq<uint32>, pn: seq<uint32>, b: seq<uint32>, k: nat)
    requires |a| == |pn| && Rows(a, pn, b, |pn|, k)
    ensures Val(a) == Val(pn) * Val(b) % Top(|a|)
  {
    hide Val;
    assert pn[..|pn|] == pn;
    ValBound(a);
    ModTop(Val(a), k, Top(|a|), Val(pn) * Val(b));
  }

  /** Adds x times b, shifted by j limbs, to a. */
  method AddRow(a: array<uint32>, x: uint32, b: array<uint32>, j: nat) returns (ghost k: nat)
    requires a.Length == b.Length && j <= a.Length && a != b
    modifies a
    ensures Val(a[..]) + k * Top(a.Length) == Val(old(a[..])) + x as int * Val(b[..]) * Pow(B, j)
  {
    hide Val, Pow, Top, Row;
    ghost var base, bs := a[..], b[..];
    var carry: uint64 := 0;
    var i := 0;
    RowStart(base, x, bs, j);
    while i + j < a.Length
      invariant i + j <= a.Length && carry < B && Row(a[..], base, x, bs, i, j, carry)
      invariant forall c | i + j <= c < a.Length :: a[c] == base[c]
    {
      ghost var before, c := a[..], carry;
      ProductFits(x, b[i]);
      var n: uint64 := carry as int + a[i + j] as int + x as int * b[i] as int;
      a[i + j] := n % B;
      carry := n / B;
      assert a[..][..i + j] == before[..i + j];
      RowNext(before, a[..], base, x, bs, i, j, c, carry);
      i := i + 1;
    }
    k := RowDone(a[..], base, x, bs, j, carry);
  }

  /** *= modulo the width; no intermediate result leaves 64 bits. */
  method MulAssign(pn: array<uint32>, b: array<uint32>)
    requires pn.Length == b.Length
    modifies pn
    ensures Val(pn[..]) == Val(old(pn[..])) * Val(old(b[..])) % Top(pn.Length)
  {
    hide Val, Pow, Top, Rows;
    ghost var was, bs := pn[..], b[..];
    var a := new uint32[pn.Length](i => 0);
    ghost var k := 0;
    var j := 0;
    RowsStart(a[..], was, bs);
    while j < pn.Length
      invariant j <= pn.Length && pn[..] == was && b[..] == bs && Rows(a[..], was, bs, j, k)
    {
      ghost var before := a[..];
      ghost var m := AddRow(a, pn[j], b, j);
      RowsNext(before, a[..], was, bs, j, k, m);
      k := k + m;
      j := j + 1;
    }
    RowsAll(a[..], was, bs, k);
    CopyInto(pn, a);
  }

  lemma RowsStart(a: seq<uint32>, pn: seq<uint32>, b: seq<uint32>)
    requires forall i | 0 <= i < |a| :: a[i] == 0
    ensures Rows(a, pn, b, 0, 0)
  {
    ValZeros(a);
    assert pn[..0] == [];
  }

  method CopyInto(pn: array<uint32>, a: array<uint32>)
    requires pn.Length == a.Length
    modifies pn
    ensures pn[..] == old(a[..])
  {
    var i := 0;
    while i < pn.Length
      invariant i <= pn.Length && pn[..i] == old(a[..])[..i] && forall j | i <= j < a.Length :: a[j] == old(a[j])
    {
      pn[i] := a[i];
      i := i + 1;
    }
  }
}
