/** Fee/size pairs, their feerate order, and the weight `fee - l*size` of a pair at a
    reference feerate `l`. Mirrors util/feefrac.h; sizes and fees are unbounded. */
module FeeFracs {

  datatype FeeFrac = FeeFrac(fee: int, size: nat) {
    function Plus(other: FeeFrac): FeeFrac {
      FeeFrac(fee + other.fee, size + other.size)
    }

    function Minus(other: FeeFrac): FeeFrac
      requires other.size <= size
    {
      FeeFrac(fee - other.fee, size - other.size)
    }

    function Negate(): FeeFrac {
      FeeFrac(-fee, size)
    }
  }

  const EMPTY := FeeFrac(0, 0)

  /** Positive when `a` has the higher feerate, negative when lower. The empty pair is
      neither higher nor lower than anything. */
  function FeeRateCompare(a: FeeFrac, b: FeeFrac): int {
    a.fee * b.size - b.fee * a.size
  }

  /** operator>> of the source. */
  predicate Higher(a: FeeFrac, b: FeeFrac) {
    FeeRateCompare(a, b) > 0
  }

  /** operator<< of the source. */
  predicate Lower(a: FeeFrac, b: FeeFrac) {
    FeeRateCompare(a, b) < 0
  }

  /** The feerate as a number; 0 for the empty pair. */
  ghost function Rate(a: FeeFrac): real {
    if a.size == 0 then 0.0 else a.fee as real / a.size as real
  }

  /** Weight of a pair against reference feerate `l`. */
  ghost function Weight(l: real, a: FeeFrac): real {
    a.fee as real - l * a.size as real
  }

  ghost function Pos(x: real): real {
    if x > 0.0 then x else 0.0
  }

  lemma RateTimesSize(a: FeeFrac)
    requires a.size > 0
    ensures Rate(a) * a.size as real == a.fee as real
  {
  }

  lemma ScaleOrder(x: real, y: real, s: real)
    requires s > 0.0
    ensures x < y <==> x * s < y * s
    ensures x == y <==> x * s == y * s
  {
  }

  lemma RealProduct(x: int, y: int)
    ensures (x * y) as real == x as real * y as real
  {
  }

  /** Cross-multiplication decides the order of the two feerates. */
  lemma CompareIsRateOrder(a: FeeFrac, b: FeeFrac)
    requires a.size > 0 && b.size > 0
    ensures FeeRateCompare(a, b) > 0 <==> Rate(a) > Rate(b)
    ensures FeeRateCompare(a, b) < 0 <==> Rate(a) < Rate(b)
    ensures FeeRateCompare(a, b) == 0 <==> Rate(a) == Rate(b)
  {
    var sa, sb := a.size as real, b.size as real;
    RateTimesSize(a);
    RateTimesSize(b);
    RealProduct(a.fee, b.size);
    RealProduct(b.fee, a.size);
    ProductPositive(sa, sb);
    ScaleOrder(Rate(a), Rate(b), sa * sb);
    ScaleOrder(Rate(b), Rate(a), sa * sb);
    assert Rate(a) * (sa * sb) == (Rate(a) * sa) * sb;
    assert Rate(b) * (sa * sb) == (Rate(b) * sb) * sa;
  }

  lemma ProductPositive(x: real, y: real)
    requires x > 0.0 && y > 0.0
    ensures x * y > 0.0
  {
  }

  /** The comparison of all pairs that the source admits, those without size having no fee: it orders
      feerates, and finds the empty pair equal to everything. */
  lemma CompareExact(a: FeeFrac, b: FeeFrac)
    requires (a.size == 0 ==> a.fee == 0) && (b.size == 0 ==> b.fee == 0)
    ensures a.size == 0 || b.size == 0 ==> FeeRateCompare(a, b) == 0
    ensures a.size > 0 && b.size > 0 ==>
              && (FeeRateCompare(a, b) > 0 <==> Rate(a) > Rate(b))
              && (FeeRateCompare(a, b) < 0 <==> Rate(a) < Rate(b))
  {
    if a.size > 0 && b.size > 0 {
      CompareIsRateOrder(a, b);
    }
  }

  /** The sign of a weight says on which side of `l` the feerate lies. */
  lemma WeightSign(l: real, a: FeeFrac)
    requires a.size > 0
    ensures Weight(l, a) > 0.0 <==> Rate(a) > l
    ensures Weight(l, a) < 0.0 <==> Rate(a) < l
  {
    RateTimesSize(a);
    ScaleOrder(Rate(a), l, a.size as real);
    ScaleOrder(l, Rate(a), a.size as real);
  }

  lemma WeightPlus(l: real, a: FeeFrac, b: FeeFrac)
    ensures Weight(l, a.Plus(b)) == Weight(l, a) + Weight(l, b)
  {
    var sa, sb := a.size as real, b.size as real;
    assert (a.size + b.size) as real == sa + sb;
    assert l * (sa + sb) == l * sa + l * sb;
  }

  lemma WeightNegate(l: real, a: FeeFrac)
    ensures Weight(-l, a.Negate()) == -Weight(l, a)
  {
  }

  lemma RateNegate(a: FeeFrac)
    ensures Rate(a.Negate()) == -Rate(a)
  {
  }

  /** The feerate of a union lies between the feerates of its parts. */
  lemma Mediant(a: FeeFrac, b: FeeFrac)
    requires a.size > 0 && b.size > 0
    ensures Rate(a) <= Rate(b) ==> Rate(a) <= Rate(a.Plus(b)) <= Rate(b)
    ensures Rate(b) <= Rate(a) ==> Rate(b) <= Rate(a.Plus(b)) <= Rate(a)
    ensures Rate(a) < Rate(b) ==> Rate(a) < Rate(a.Plus(b)) < Rate(b)
    ensures Rate(b) < Rate(a) ==> Rate(b) < Rate(a.Plus(b)) < Rate(a)
  {
    var c := a.Plus(b);
    forall l: real
      ensures Weight(l, c) == Weight(l, a) + Weight(l, b)
      ensures Weight(l, a) > 0.0 <==> Rate(a) > l
      ensures Weight(l, a) < 0.0 <==> Rate(a) < l
      ensures Weight(l, b) > 0.0 <==> Rate(b) > l
      ensures Weight(l, b) < 0.0 <==> Rate(b) < l
      ensures Weight(l, c) > 0.0 <==> Rate(c) > l
      ensures Weight(l, c) < 0.0 <==> Rate(c) < l
    {
      WeightPlus(l, a, b);
      WeightSign(l, a);
      WeightSign(l, b);
      WeightSign(l, c);
    }
    assert Weight(Rate(a), c) == Weight(Rate(a), a) + Weight(Rate(a), b);
    assert Weight(Rate(b), c) == Weight(Rate(b), a) + Weight(Rate(b), b);
  }
}
