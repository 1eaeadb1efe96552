/** Numbers in positional notation: values of digit strings, minimal digit strings, and how many
    digits a change of base takes. */
module Numerals {
  type uint32 = x: int | 0 <= x < 0x1_0000_0000

  type uint64 = x: int | 0 <= x < 0x1_0000_0000_0000_0000

  function Pow(b: nat, n: nat): nat {
    if n == 0 then 1 else b * Pow(b, n - 1)
  }

  /** The value of digits, most significant first. */
  ghost function Num(b: nat, s: seq<nat>): nat {
    if s == [] then 0 else Num(b, s[..|s| - 1]) * b + s[|s| - 1]
  }

  ghost predicate DigitsOf(b: nat, s: seq<nat>) {
    forall i | 0 <= i < |s| :: s[i] < b
  }

  /** The digits of a number without leading zeros. */
  ghost function Digits(b: nat, v: nat): seq<nat>
    requires b >= 2
  {
    if v == 0 then [] else DivSmaller(v, b); Digits(b, v / b) + [v % b]
  }

  lemma DivSmaller(v: nat, b: nat)
    requires b >= 2 && v > 0
    ensures v / b < v
  {
  }

  // ---------------------------------------------------------------- powers

  lemma PowPositive(b: nat, n: nat)
    requires b > 0
    ensures Pow(b, n) > 0
  {
    if n > 0 {
      PowPositive(b, n - 1);
    }
  }

  lemma {:induction false} PowPlus(b: nat, m: nat, n: nat)
    ensures Pow(b, m + n) == Pow(b, m) * Pow(b, n)
  {
    if m > 0 {
      PowPlus(b, m - 1, n);
      assert b * (Pow(b, m - 1) * Pow(b, n)) == (b * Pow(b, m - 1)) * Pow(b, n);
    }
  }

  lemma {:induction false} PowTimes(b: nat, m: nat, n: nat)
    ensures Pow(b, m * n) == Pow(Pow(b, m), n)
  {
    if n > 0 {
      PowTimes(b, m, n - 1);
      assert m * n == m + m * (n - 1);
      PowPlus(b, m, m * (n - 1));
    } else {
      assert m * 0 == 0;
    }
  }

  lemma MulMono(a: nat, b: nat, c: nat, d: nat)
    requires a <= c && b <= d
    ensures a * b <= c * d
  {
    assert a * b <= a * d;
    assert a * d <= c * d;
  }

  lemma {:induction false} PowBase(a: nat, b: nat, n: nat)
    requires a <= b
    ensures Pow(a, n) <= Pow(b, n)
  {
    if n > 0 {
      PowBase(a, b, n - 1);
      MulMono(a, Pow(a, n - 1), b, Pow(b, n - 1));
    }
  }

  lemma {:induction false} PowExponent(b: nat, m: nat, n: nat)
    requires b >= 2 && m < n
    ensures Pow(b, m) < Pow(b, n)
    decreases n
  {
    PowPositive(b, n - 1);
    assert Pow(b, n) >= 2 * Pow(b, n - 1);
    if m < n - 1 {
      PowExponent(b, m, n - 1);
    }
  }

  /** If a^q <= b^p, then n digits in base a take fewer than m digits in base b beyond the ratio. */
  lemma DigitsFit(a: nat, b: nat, q: nat, p: nat, n: nat, m: nat)
    requires a >= 2 && b >= 2 && q > 0 && Pow(a, q) <= Pow(b, p) && p * n < q * m
    ensures Pow(a, n) < Pow(b, m)
  {
    hide Pow;
    if Pow(a, n) >= Pow(b, m) {
      RaisedBounds(a, b, q, p, n, m);
      PowExponent(b, p * n, q * m);
    }
  }

  lemma RaisedBounds(a: nat, b: nat, q: nat, p: nat, n: nat, m: nat)
    requires Pow(a, q) <= Pow(b, p) && Pow(b, m) <= Pow(a, n)
    ensures Pow(b, q * m) <= Pow(b, p * n)
  {
    hide Pow;
    PowTimes(a, q, n);
    PowBase(Pow(a, q), Pow(b, p), n);
    PowTimes(b, p, n);
    RaisedBy(a, b, q, n, m);
  }

  lemma RaisedBy(a: nat, b: nat, q: nat, n: nat, m: nat)
    requires Pow(b, m) <= Pow(a, n)
    ensures Pow(b, q * m) <= Pow(a, q * n)
  {
    hide Pow;
    PowBase(Pow(b, m), Pow(a, n), q);
    PowTimes(b, m, q);
    PowTimes(a, n, q);
    Commute(n, q);
    Commute(m, q);
  }

  lemma Commute(m: nat, n: nat)
    ensures m * n == n * m
  {
  }

  // ---------------------------------------------------------------- values

  lemma {:induction false} NumBound(b: nat, s: seq<nat>)
    requires b > 0 && DigitsOf(b, s)
    ensures Num(b, s) < Pow(b, |s|)
  {
    if s != [] {
      var m := |s| - 1;
      NumBound(b, s[..m]);
      MulMono(Num(b, s[..m]) + 1, b, Pow(b, m), b);
      assert (Num(b, s[..m]) + 1) * b == Num(b, s[..m]) * b + b;
    }
  }

  lemma {:induction false} NumConcat(b: nat, s: seq<nat>, t: seq<nat>)
    ensures Num(b, s + t) == Num(b, s) * Pow(b, |t|) + Num(b, t)
  {
    if t == [] {
      assert s + t == s;
    } else {
      var m := |t| - 1;
      NumConcat(b, s, t[..m]);
      assert (s + t)[..|s + t| - 1] == s + t[..m];
      Shifted(Num(b, s), Pow(b, m), Num(b, t[..m]), b);
    }
  }

  lemma Shifted(x: nat, y: nat, z: nat, b: nat)
    ensures (x * y + z) * b == x * (b * y) + z * b
  {
    assert x * (b * y) == (x * y) * b;
  }

  lemma {:induction false} NumZeros(b: nat, s: seq<nat>)
    requires forall i | 0 <= i < |s| :: s[i] == 0
    ensures Num(b, s) == 0
  {
    if s != [] {
      NumZeros(b, s[..|s| - 1]);
    }
  }

  lemma {:induction false} DigitsValue(b: nat, v: nat)
    requires b >= 2
    ensures Num(b, Digits(b, v)) == v && DigitsOf(b, Digits(b, v))
            && (v > 0 ==> Digits(b, v) != [] && Digits(b, v)[0] != 0)
  {
    if v > 0 {
      DivSmaller(v, b);
      var q, r := v / b, v % b;
      assert q * b + r == v;
      DigitsValue(b, q);
      assert Digits(b, v) == Digits(b, q) + [r];
      NumAppend(b, Digits(b, q), r);
    }
  }

  lemma NumAppend(b: nat, s: seq<nat>, d: nat)
    ensures Num(b, s + [d]) == Num(b, s) * b + d
  {
    assert (s + [d])[..|s|] == s;
  }

  /** A digit string without leading zero is that of its value. */
  lemma {:induction false} DigitsUnique(b: nat, s: seq<nat>)
    requires b >= 2 && DigitsOf(b, s) && (s != [] ==> s[0] != 0)
    ensures Digits(b, Num(b, s)) == s
  {
    if s != [] {
      var m := |s| - 1;
      var q, r := Num(b, s[..m]), s[m];
      DigitsUnique(b, s[..m]);
      QuotRem(q, r, b);
      if m == 0 {
        assert s[..0] == [];
      } else {
        NumPositive(b, s[..m]);
      }
      assert s == s[..m] + [r];
      Positive(q, r, b);
    }
  }

  lemma Positive(q: nat, r: nat, b: nat)
    requires b >= 2 && (q > 0 || r > 0)
    ensures q * b + r > 0
  {
  }

  lemma QuotRem(q: nat, r: nat, b: nat)
    requires b > 0 && r < b
    ensures (q * b + r) / b == q && (q * b + r) % b == r
  {
    var v := q * b + r;
    var x, y := v / b, v % b;
    assert v == x * b + y;
    assert (x - q) * b == r - y;
    Between(x - q, b, r - y);
  }

  lemma Between(k: int, b: nat, d: int)
    requires k * b == d && -(b as int) < d < b
    ensures k == 0
  {
    AtLeastOnce(k, b);
  }

  lemma AtLeastOnce(k: int, b: nat)
    ensures (k >= 1 ==> k * b >= b) && (k <= -1 ==> k * b <= -(b as int))
  {
  }

  lemma {:induction false} NumPositive(b: nat, s: seq<nat>)
    requires b >= 2 && s != [] && s[0] != 0
    ensures Num(b, s) > 0
  {
    if |s| > 1 {
      NumPositive(b, s[..|s| - 1]);
      Positive(Num(b, s[..|s| - 1]), s[|s| - 1], b);
    }
  }
}
