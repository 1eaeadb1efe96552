/** The heights that skip pointers go back to, and the number of steps a walk to an ancestor takes. */
module SkipHeights {

  /** Turn the lowest one bit of the binary representation into a zero. */
  function InvertLowestOne(n: nat): (r: nat)
    ensures n > 0 ==> r < n
    ensures r <= n
  {
    if n == 0 then 0 else if n % 2 == 1 then n - 1 else 2 * InvertLowestOne(n / 2)
  }

  /** The height to which the skip pointer of a block goes back: a lower one. */
  function GetSkipHeight(height: nat): (r: nat)
    ensures height > 0 ==> r < height
  {
    if height < 2 then 0
    else if height % 2 == 1 then InvertLowestOne(InvertLowestOne(height - 1)) + 1
    else InvertLowestOne(height)
  }

  /** Where the walk to the ancestor at height t goes next from a block at height w. */
  function NextHeight(w: nat, t: nat): (r: nat)
    requires w > t
    ensures t <= r < w
  {
    var skip, skipPrev := GetSkipHeight(w), GetSkipHeight(w - 1);
    if skip == t || (skip > t && !(skipPrev < skip - 2 && skipPrev >= t)) then skip else w - 1
  }

  ghost function Steps(w: nat, t: nat): nat
    decreases w
  {
    if w <= t then 0 else 1 + Steps(NextHeight(w, t), t)
  }

  // ---------------------------------------------------------------- bits

  ghost function Pow2(k: nat): (p: nat)
    ensures p > 0
  {
    if k == 0 then 1 else 2 * Pow2(k - 1)
  }

  /** The length of the binary representation. */
  ghost function Bits(n: nat): nat {
    if n == 0 then 0 else 1 + Bits(n / 2)
  }

  ghost function Ones(n: nat): nat {
    if n == 0 then 0 else n % 2 + Ones(n / 2)
  }

  /** The number of low bits outside of which a and b agree. */
  ghost function Apart(a: nat, b: nat): nat {
    if a == b then 0 else 1 + Apart(a / 2, b / 2)
  }

  /** The one bits of w below the highest bit in which it differs from t. */
  ghost function LowOnes(w: nat, t: nat): nat {
    if w / 2 == t / 2 then 0 else w % 2 + LowOnes(w / 2, t / 2)
  }

  lemma {:induction false} InvertStep(n: nat)
    ensures InvertLowestOne(n) == if n % 2 == 1 then n - 1 else 2 * InvertLowestOne(n / 2)
  {
  }

  lemma {:induction false} InvertTwice(n: nat)
    ensures InvertLowestOne(2 * n) == 2 * InvertLowestOne(n) && InvertLowestOne(2 * n + 1) == 2 * n
  {
    hide InvertLowestOne;
    InvertStep(2 * n);
    InvertStep(2 * n + 1);
  }

  lemma {:induction false} OddMultiple(q: nat, p: nat)
    ensures 2 * ((2 * q + 1) * p) == (2 * q + 1) * (2 * p) && 2 * (2 * q * p) == 2 * q * (2 * p)
  {
  }

  /** Exactly the lowest one bit is cleared: n is an odd multiple of a power of two, which is taken off. */
  lemma {:induction false} LowestOne(n: nat) returns (j: nat, q: nat)
    requires n > 0
    ensures n == (2 * q + 1) * Pow2(j) && InvertLowestOne(n) == 2 * q * Pow2(j)
  {
    hide InvertLowestOne, Pow2;
    InvertTwice(n / 2);
    if n % 2 == 1 {
      j, q := 0, n / 2;
      PowZero();
    } else {
      j, q := LowestOne(n / 2);
      OddMultiple(q, Pow2(j));
      PowTwice(j);
      j := j + 1;
    }
  }

  lemma PowZero()
    ensures Pow2(0) == 1
  {
  }

  lemma {:induction false} PowTwice(i: nat)
    ensures Pow2(i + 1) == 2 * Pow2(i)
  {
  }

  lemma {:induction false} InvertedOnes(n: nat)
    requires n > 0
    ensures Ones(InvertLowestOne(n)) == Ones(n) - 1
    ensures n % 2 == 0 ==> InvertLowestOne(n) % 2 == 0
  {
    hide InvertLowestOne, Ones;
    var m := n / 2;
    InvertTwice(m);
    OnesTwice(m);
    if n % 2 == 0 {
      InvertedOnes(m);
      OnesTwice(InvertLowestOne(m));
    }
  }

  lemma {:induction false} OnesStep(n: nat)
    ensures Ones(n) == n % 2 + Ones(n / 2)
  {
  }

  lemma {:induction false} OnesTwice(n: nat)
    ensures Ones(2 * n) == Ones(n) && Ones(2 * n + 1) == Ones(n) + 1
  {
    hide Ones;
    OnesStep(2 * n);
    OnesStep(2 * n + 1);
  }

  lemma InvertedFewer(n: nat)
    ensures Ones(InvertLowestOne(n)) <= Ones(n)
  {
    if n > 0 {
      InvertedOnes(n);
    }
  }

  /** From an odd height the skip is to an odd one, clearing two bits if there are. */
  lemma {:induction false} OddSkip(w: nat)
    requires w % 2 == 1 && w > 1
    ensures Ones(GetSkipHeight(w)) < Ones(w) && Ones(w - 1) < Ones(w)
    ensures GetSkipHeight(w) <= InvertLowestOne(w - 1) + 1
  {
    hide InvertLowestOne, Ones;
    var m := w / 2;
    var u := InvertLowestOne(m);
    InvertTwice(m);
    InvertTwice(u);
    InvertedOnes(m);
    InvertedFewer(u);
    OnesTwice(m);
    OnesTwice(InvertLowestOne(u));
  }

  // ---------------------------------------------------------------- the bits in which heights differ

  lemma {:induction false} ApartBits(w: nat, t: nat)
    requires t < w
    ensures 0 < Apart(w, t) <= Bits(w) && LowOnes(w, t) < Apart(w, t)
  {
    if w / 2 != t / 2 {
      ApartBits(w / 2, t / 2);
    }
  }

  lemma {:induction false} ApartBetween(v: nat, w: nat, t: nat)
    requires t <= v <= w
    ensures Apart(v, t) <= Apart(w, t)
  {
    if v != t {
      ApartBetween(v / 2, w / 2, t / 2);
    }
  }

  /** As long as the highest difference stays, so do the ones from there up. */
  lemma {:induction false} HighOnes(v: nat, w: nat, t: nat)
    requires t < v && t < w && Apart(v, t) == Apart(w, t)
    ensures Ones(v) - LowOnes(v, t) == Ones(w) - LowOnes(w, t)
  {
    if Apart(v, t) == 1 {
      assert v / 2 == t / 2 == w / 2;
    } else {
      assert v / 2 != t / 2 && w / 2 != t / 2;
      HighOnes(v / 2, w / 2, t / 2);
    }
  }

  /** When clearing the lowest one goes too far, one step back leaves the highest difference behind. */
  lemma {:induction false} TooFar(w: nat, t: nat)
    requires InvertLowestOne(w) <= t < w
    ensures Apart(w - 1, t) < Apart(w, t)
  {
    if w % 2 == 0 {
      TooFar(w / 2, t / 2);
    }
  }

  lemma {:induction false} NotTooFar(w: nat, t: nat)
    requires t < InvertLowestOne(w)
    ensures Apart(InvertLowestOne(w), t) == Apart(w, t)
  {
    if w % 2 == 0 {
      NotTooFar(w / 2, t / 2);
    }
  }

  // ---------------------------------------------------------------- at most the square of the length

  ghost function Square(k: nat): nat {
    k * k
  }

  lemma {:induction false} Squares(i: nat, j: nat)
    requires i <= j
    ensures Square(i) <= Square(j)
    ensures Square(j + 1) == Square(j) + 2 * j + 1
  {
    if i < j {
      Squares(i, j - 1);
    }
  }

  ghost function Bound(w: nat, t: nat): nat {
    if w <= t || Apart(w, t) == 0 then 0 else Square(Apart(w, t) - 1) + 2 * LowOnes(w, t) + 1
  }

  lemma BoundSquare(w: nat, t: nat)
    ensures Bound(w, t) <= Square(Apart(w, t)) && Bound(w, t) <= Square(Bits(w))
  {
    hide Apart, LowOnes, Bits, Square;
    if w > t {
      ApartBits(w, t);
      Squares(0, Apart(w, t) - 1);
      Squares(Apart(w, t), Bits(w));
    }
  }

  /** A step or two pay for the way from w to v. */
  lemma {:induction false} Pays(v: nat, w: nat, t: nat)
    requires t <= v < w && (Apart(v, t) < Apart(w, t) || Ones(v) < Ones(w))
    ensures Bound(v, t) < Bound(w, t)
    ensures LowOnes(w, t) > 0 ==> Bound(v, t) + 2 <= Bound(w, t)
  {
    hide Apart, LowOnes, Bits, Ones, Square;
    ApartBetween(v, w, t);
    ApartBits(w, t);
    if v > t {
      ApartBits(v, t);
      if Apart(v, t) == Apart(w, t) {
        HighOnes(v, w, t);
      } else {
        BoundSquare(v, t);
        Squares(Apart(v, t), Apart(w, t) - 1);
      }
    }
  }

  /** At an odd height every skip that does not go too far is taken. */
  lemma {:induction false} OddNext(w: nat, t: nat)
    requires w > t && w % 2 == 1
    ensures NextHeight(w, t) == if GetSkipHeight(w) >= t then GetSkipHeight(w) else w - 1
  {
    hide InvertLowestOne;
    if w > 1 {
      OddSkip(w);
    }
  }

  /** Where the skip of an even height is passed over for that of the odd height before it. */
  ghost predicate PassedOver(w: nat, t: nat) {
    && w > 0 && w % 2 == 0 && GetSkipHeight(w) > t
    && GetSkipHeight(w - 1) < GetSkipHeight(w) - 2 && GetSkipHeight(w - 1) >= t
  }

  /** That happens at heights that are not multiples of eight. */
  lemma {:induction false} MultipleOfEight(w: nat, y: nat)
    requires w == 8 * y && y > 0
    ensures InvertLowestOne(w) <= w - 8 && GetSkipHeight(w - 1) == w - 7
  {
    hide InvertLowestOne;
    var x := y - 1;
    InvertTwice(y);
    InvertTwice(2 * y);
    InvertTwice(4 * y);
    InvertTwice(2 * x + 1);
    InvertTwice(4 * x + 3);
    InvertTwice(x);
    InvertTwice(4 * x + 2);
    assert w - 2 == 2 * (4 * x + 3) && 4 * x + 3 == 2 * (2 * x + 1) + 1;
    assert InvertLowestOne(w - 2) == 2 * (4 * x + 2) && InvertLowestOne(2 * (4 * x + 2)) == 8 * x;
  }

  lemma {:induction false} TwoModFour(w: nat, y: nat)
    requires w == 4 * y + 2 && y > 0
    ensures Ones(GetSkipHeight(w - 1)) < Ones(w)
  {
    hide InvertLowestOne, Ones;
    var u := InvertLowestOne(y);
    InvertTwice(y);
    InvertTwice(2 * y);
    InvertTwice(u);
    InvertTwice(2 * u);
    InvertedOnes(y);
    InvertedFewer(u);
    OnesTwice(2 * y + 1);
    OnesTwice(y);
    OnesTwice(InvertLowestOne(u));
    OnesTwice(2 * InvertLowestOne(u));
  }

  lemma {:induction false} InvertEight(y: nat)
    ensures InvertLowestOne(8 * y) == 8 * InvertLowestOne(y) && InvertLowestOne(8 * y + 2) == 8 * y
  {
    hide InvertLowestOne;
    InvertTwice(y);
    InvertTwice(2 * y);
    InvertTwice(4 * y);
    InvertTwice(4 * y + 1);
    assert 2 * (4 * y) == 8 * y && 2 * (4 * y + 1) == 8 * y + 2 && 2 * (2 * y) == 4 * y;
  }

  lemma {:induction false} OnesEight(y: nat)
    ensures Ones(8 * y + 1) == Ones(y) + 1 && Ones(8 * y + 4) == Ones(y) + 1
  {
    hide Ones;
    OnesTwice(y);
    OnesTwice(2 * y);
    OnesTwice(4 * y);
    OnesTwice(2 * y + 1);
    OnesTwice(4 * y + 2);
    assert 2 * (4 * y) == 8 * y && 2 * (2 * y) == 4 * y && 2 * (2 * y + 1) == 4 * y + 2;
    assert 2 * (4 * y + 2) == 8 * y + 4;
  }

  lemma {:induction false} FourModEight(w: nat, y: nat)
    requires w == 8 * y + 4 && y > 0
    ensures Ones(GetSkipHeight(w - 1)) < Ones(w)
  {
    hide InvertLowestOne, Ones;
    InvertEight(y);
    InvertedOnes(y);
    OnesEight(y);
    OnesEight(InvertLowestOne(y));
    assert w - 1 - 1 == 8 * y + 2;
  }

  /** The two steps to the lower skip clear bits. */
  lemma {:induction false} PassedOverOnes(w: nat, t: nat)
    requires PassedOver(w, t)
    ensures Ones(GetSkipHeight(w - 1)) < Ones(w)
  {
    SmallPowers();
    hide InvertLowestOne, Ones;
    var y := w / 8;
    if w == 8 * y {
      MultipleOfEight(w, y);
    } else if w == 8 * y + 4 {
      FourModEight(w, y);
    } else {
      TwoModFour(w, w / 4);
    }
  }

  lemma SmallPowers()
    ensures InvertLowestOne(2) == 0 && InvertLowestOne(4) == 0
  {
  }

  lemma NoOnes()
    ensures InvertLowestOne(0) == 0 && Ones(0) == 0
  {
  }

  lemma {:induction false} PassedOverPays(w: nat, t: nat)
    requires PassedOver(w, t)
    ensures Bound(GetSkipHeight(w - 1), t) + 2 <= Bound(w, t)
    ensures NextHeight(w, t) == w - 1 && NextHeight(w - 1, t) == GetSkipHeight(w - 1)
  {
    PassedOverOnes(w, t);
    OddNext(w - 1, t);
    var a := InvertLowestOne(w);
    InvertedOnes(w);
    NotTooFar(w, t);
    hide Ones, Apart, LowOnes, InvertLowestOne;
    HighOnes(a, w, t);
    ApartBits(w, t);
    Pays(GetSkipHeight(w - 1), w, t);
  }

  lemma {:induction false} StepPays(w: nat, t: nat)
    requires w > t && !PassedOver(w, t)
    ensures Bound(NextHeight(w, t), t) < Bound(w, t)
  {
    if w % 2 == 1 {
      OddNext(w, t);
      if w > 1 {
        OddSkip(w);
      }
    } else {
      InvertedOnes(w);
      if InvertLowestOne(w) < t {
        TooFar(w, t);
      }
    }
    hide Ones, Apart, LowOnes, InvertLowestOne;
    Pays(NextHeight(w, t), w, t);
  }

  lemma {:induction false} StepsPaid(w: nat, t: nat)
    ensures Steps(w, t) <= Bound(w, t)
    decreases w
  {
    hide Bound, NextHeight, GetSkipHeight;
    if w > t {
      if PassedOver(w, t) {
        PassedOverPays(w, t);
        StepsPaid(GetSkipHeight(w - 1), t);
        assert Steps(w, t) == 2 + Steps(GetSkipHeight(w - 1), t);
      } else {
        StepPays(w, t);
        StepsPaid(NextHeight(w, t), t);
      }
    }
  }

  /** The walk takes at most as many steps as the square of the number of low bits in which the two
      heights differ, and so at most the square of the length of the upper one. */
  lemma StepsBound(w: nat, t: nat)
    ensures Steps(w, t) <= Square(Apart(w, t)) && Steps(w, t) <= Square(Bits(w))
  {
    hide Steps, Bound, Apart, Bits, Square;
    StepsPaid(w, t);
    BoundSquare(w, t);
  }

  // ---------------------------------------------------------------- not a multiple of the length

  /** Clearing the lowest one of a height 2^k - 2^i, which has ones from i to k - 1. */
  lemma {:induction false} RunCleared(k: nat, i: nat)
    requires i < k
    ensures Pow2(i + 1) <= Pow2(k)
    ensures InvertLowestOne(Pow2(k) - Pow2(i)) == Pow2(k) - Pow2(i + 1)
  {
    if i == 0 {
      PowEven(k);
    } else {
      RunCleared(k - 1, i - 1);
      var m := Pow2(k - 1) - Pow2(i - 1);
      assert Pow2(k) - Pow2(i) == 2 * m;
    }
  }

  lemma {:induction false} PowEven(k: nat)
    requires k > 0
    ensures Pow2(k) % 2 == 0 && Pow2(k) >= 2
  {
    hide Pow2;
    PowTwice(k - 1);
  }

  /** The odd heights on the way from 2^k to 2. */
  ghost function Runner(k: nat, i: nat): int {
    Pow2(k) - Pow2(i) + 1
  }

  lemma {:induction false} RunnerSkips(k: nat, i: nat)
    requires 1 <= i && i + 2 <= k
    ensures Runner(k, i) > 2 && Runner(k, i + 2) > 0 && Runner(k, i) % 2 == 1
    ensures GetSkipHeight(Runner(k, i)) == Runner(k, i + 2)
    ensures i + 2 < k ==> Runner(k, i + 2) >= 2
    ensures i + 2 == k ==> Runner(k, i + 2) == 1
  {
    hide InvertLowestOne;
    PowEven(k);
    PowEven(i);
    RunCleared(k, i);
    RunCleared(k, i + 1);
    hide Pow2;
    if i + 2 < k {
      RunCleared(k, i + 2);
      PowEven(i + 2);
      PowTwice(i + 2);
    }
    PowTwice(i);
    PowTwice(i + 1);
  }

  lemma OneStep(w: nat, t: nat)
    requires w > t
    ensures Steps(w, t) == 1 + Steps(NextHeight(w, t), t)
  {
  }

  /** The last of them, at one above a power of two. */
  lemma RunnerLast(k: nat, t: nat)
    requires k >= 5 && t == 2
    ensures Runner(k, k - 1) == Pow2(k - 1) + 1 && Steps(Pow2(k - 1) + 1, t) == 1 + Steps(Pow2(k - 1), t)
  {
    hide InvertLowestOne, NextHeight, Steps;
    var p := Pow2(k - 1);
    PowEven(k - 1);
    PowTwice(k - 1);
    RunCleared(k, k - 1);
    NoOnes();
    hide Pow2;
    OddNext(p + 1, t);
    OneStep(p + 1, t);
  }

  /** The last but one: down by one and then by a skip. */
  lemma RunnerLastButOne(k: nat, t: nat)
    requires k >= 5 && t == 2
    ensures Runner(k, k - 2) > 0 && Steps(Runner(k, k - 2), t) == 2 + Steps(Pow2(k - 1), t)
  {
    hide InvertLowestOne, NextHeight, Steps, Pow2, GetSkipHeight;
    var w := Runner(k, k - 2);
    RunnerSkips(k, k - 2);
    OddNext(w, t);
    OneStep(w, t);
    RunnerPause(k, t);
    OneStep(w - 1, t);
  }

  lemma {:induction false} RunnerPause(k: nat, t: nat)
    requires k >= 5 && t == 2
    ensures Runner(k, k - 2) > 3 && NextHeight(Runner(k, k - 2) - 1, t) == Pow2(k - 1)
  {
    var y := 3 * Pow2(k - 5);
    var v := 8 * y;
    PowTwice(k - 5);
    PowTwice(k - 4);
    PowTwice(k - 3);
    PowTwice(k - 2);
    PowTwice(k - 1);
    RunCleared(k, k - 2);
    hide InvertLowestOne, Pow2;
    assert v == Pow2(k) - Pow2(k - 2) && GetSkipHeight(v) == InvertLowestOne(v) == Pow2(k - 1);
    MultipleOfEight(v, y);
  }

  /** Two ones are cleared at each step until the walk comes to the next lower power of two. */
  lemma {:induction false} RunnerSteps(k: nat, i: nat, t: nat)
    requires 1 <= i < k && k >= 5 && t == 2
    ensures Runner(k, i) > 0 && Steps(Runner(k, i), t) >= (k - i + 1) / 2 + Steps(Pow2(k - 1), t)
    decreases k - i
  {
    hide InvertLowestOne, NextHeight, Steps, Pow2, GetSkipHeight, Runner;
    if i == k - 1 {
      RunnerLast(k, t);
    } else if i == k - 2 {
      RunnerLastButOne(k, t);
    } else {
      RunnerSkips(k, i);
      OddNext(Runner(k, i), t);
      OneStep(Runner(k, i), t);
      RunnerSteps(k, i + 2, t);
    }
  }

  lemma PowerNext(k: nat, t: nat)
    requires k >= 2 && t == 2
    ensures Pow2(k) > 2 ==> NextHeight(Pow2(k), t) == Pow2(k) - 1 == Runner(k, 1)
    ensures Pow2(k) > 2
  {
    PowEven(k);
    PowTwice(k - 1);
    PowEven(k - 1);
    PowCleared(k);
    hide InvertLowestOne;
  }

  lemma {:induction false} PowCleared(k: nat)
    ensures InvertLowestOne(Pow2(k)) == 0
  {
    if k > 0 {
      PowCleared(k - 1);
    }
  }

  lemma FromSixteen(w: nat, t: nat)
    requires w == 16 && t == 2
    ensures Steps(w, t) >= 4
  {
    hide Steps;
    var a, b, c := 15, 9, 8;
    assert InvertLowestOne(16) == 0 && NextHeight(w, t) == a;
    assert InvertLowestOne(14) == 12 && InvertLowestOne(12) == 8 && InvertLowestOne(8) == 0;
    OddNext(a, t);
    OddNext(b, t);
    OneStep(w, t);
    OneStep(a, t);
    OneStep(b, t);
    OneStep(c, t);
  }

  /** From 2^k down to 2 it takes k^2 / 4 steps and more. */
  lemma {:induction false} StepsFromPower(k: nat, t: nat)
    requires k >= 4 && t == 2
    ensures 4 * Steps(Pow2(k), t) >= Square(k)
  {
    hide Steps, NextHeight;
    if k == 4 {
      assert Pow2(k) == 16;
      FromSixteen(Pow2(k), t);
    } else {
      hide Pow2, Runner, Square;
      StepsFromPower(k - 1, t);
      PowerNext(k, t);
      OneStep(Pow2(k), t);
      RunnerSteps(k, 1, t);
      Squares(0, k - 1);
    }
  }

  lemma {:induction false} PowBits(k: nat)
    ensures Bits(Pow2(k)) == k + 1
  {
    if k > 0 {
      PowBits(k - 1);
      BitsTwice(Pow2(k - 1));
    }
  }

  lemma {:induction false} BitsTwice(n: nat)
    requires n > 0
    ensures Bits(2 * n) == 1 + Bits(n)
  {
    assert 2 * n / 2 == n;
  }

  /** So no multiple of the length of the height bounds the steps. */
  lemma NoLinearBound(c: nat) returns (w: nat, t: nat)
    ensures Steps(w, t) > c * Bits(w)
  {
    hide Steps, Bits, Pow2;
    var k := 4 * c + 8;
    w, t := Pow2(k), 2;
    StepsFromPower(k, t);
    PowBits(k);
    assert Square(k) == 4 * (c * k + 2 * k);
    assert c * (k + 1) == c * k + c;
  }
}
