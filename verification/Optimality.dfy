/** What a state without higher-feerate top sets is worth: no topologically valid set beats
    its diagram, and what the pivot search of the minimization stage establishes. */
module Optimality {
  import opened FeeFracs
  import opened Sums
  import opened Clusters
  import opened Trees
  import opened Flow

  /** s includes all its own dependencies that lie in x. */
  ghost predicate ClosedWithin(k: Cluster, x: set<nat>, s: set<nat>) {
    && s <= x
    && (forall d | d in k.deps && d.1 in s && d.0 in x :: d.0 in s)
  }

  /** No part of x that could be included before the rest has a higher feerate than x. */
  ghost predicate LocallyOptimal(k: Cluster, x: set<nat>) {
    forall s: set<nat> | ClosedWithin(k, x, s) && s != {} :: RateOf(k, s) <= RateOf(k, x)
  }

  /** No proper part of x that could be included before the rest has the feerate of x. */
  ghost predicate Unsplittable(k: Cluster, x: set<nat>) {
    forall s: set<nat> | ClosedWithin(k, x, s) && s != {} && s != x :: RateOf(k, s) != RateOf(k, x)
  }

  /** s includes all dependencies of its members. */
  ghost predicate TopologicallyClosed(k: Cluster, s: set<nat>) {
    forall d | d in k.deps && d.1 in s :: d.0 in s
  }

  lemma WithinIsParentClosed(k: Cluster, active: set<Dep>, x: set<nat>, s: set<nat>)
    requires active <= k.deps && Closed(active, x) && ClosedWithin(k, x, s)
    ensures ParentClosed(active, s)
  {
  }

  /** A chunk without higher top sets is locally optimal. */
  lemma TreeLocallyOptimal(k: Cluster, active: set<Dep>, x: set<nat>, tops: map<Dep, set<nat>>)
    requires active <= k.deps && IsTree(active, x, tops) && NoHigherTop(k, active, x, tops)
    ensures LocallyOptimal(k, x)
  {
    hide RateOf;
    forall s: set<nat> | ClosedWithin(k, x, s) && s != {}
      ensures RateOf(k, s) <= RateOf(k, x)
    {
      WithinIsParentClosed(k, active, x, s);
      PartsNoHigher(k, active, x, tops, s);
    }
  }

  // ---------------------------------------------------------------- the bound on the diagram

  lemma PartBelowChunk(k: Cluster, l: real, x: set<nat>, s: set<nat>)
    requires x != {} && LocallyOptimal(k, x) && ClosedWithin(k, x, s)
    ensures WeightOf(k, l, s) <= Pos(WeightOf(k, l, x))
  {
    if s == {} {
      assert FeeRate(k, {}) == EMPTY;
    } else if s == x {
    } else {
      hide RateOf, WeightOf;
      var rest := x - s;
      assert s < x;
      var u :| u in x && u !in s;
      assert u in rest && s + rest == x;
      RateOfUnion(k, s, rest);
      WeightUnion(k, l, s, rest);
      WeightOfSign(k, l, s);
      WeightOfSign(k, l, rest);
      WeightOfSign(k, l, x);
      assert WeightOf(k, l, s) <= Pos(WeightOf(k, l, x));
    }
  }

  lemma PartApart(chunks: set<set<nat>>, x: set<nat>, s: set<nat>)
    requires Separate(chunks) && x in chunks
    ensures var a, b := s * Cover(chunks - {x}), s * x; a !! b && a + b == s * Cover(chunks)
  {
    CoverRemove(chunks, x);
    assert x <= Cover(chunks);
  }

  /** Every topologically closed set lies under the diagram of locally optimal chunks. */
  lemma {:induction false} ClosedSetUnderDiagram(k: Cluster, l: real, chunks: set<set<nat>>, s: set<nat>)
    requires Separate(chunks) && TopologicallyClosed(k, s)
    requires forall x | x in chunks :: LocallyOptimal(k, x)
    ensures WeightOf(k, l, s * Cover(chunks)) <= Surplus(k, l, chunks)
    decreases |chunks|
  {
    if chunks == {} {
      assert s * Cover(chunks) == {};
      assert FeeRate(k, {}) == EMPTY;
    } else {
      var x :| x in chunks;
      var others := chunks - {x};
      ClosedSetUnderDiagram(k, l, others, s);
      var a, b := s * Cover(others), s * x;
      assert ClosedWithin(k, x, b);
      hide WeightOf, Surplus, LocallyOptimal, TopologicallyClosed, ClosedWithin;
      PartApart(chunks, x, s);
      hide Cover, Separate;
      WeightUnion(k, l, a, b);
      PartBelowChunk(k, l, x, b);
      SurplusRemove(k, l, chunks, x);
      assert WeightOf(k, l, s * Cover(chunks)) <= Surplus(k, l, chunks);
    }
  }

  // ---------------------------------------------------------------- the pivot search

  /** Excess with an infinitesimal bonus (sign 1) or malus (sign -1) on the pivot. */
  ghost function Nudged(k: Cluster, x: set<nat>, pivot: nat, sign: int): nat -> int {
    (u: nat) => FeeRate(k, x).size * Excess(k, x)(u)
                + sign * ((if u == pivot then FeeRate(k, x).size else 0) - k.FeeOf(u).size)
  }

  ghost function Indicator(pivot: nat): nat -> int {
    (u: nat) => if u == pivot then 1 else 0
  }

  lemma {:induction false} IndicatorSum(pivot: nat, s: set<nat>)
    ensures Sum(Indicator(pivot), s) == if pivot in s then 1 else 0
    decreases |s|
  {
    if s != {} {
      var u :| u in s;
      SumRemove(Indicator(pivot), s, u);
      IndicatorSum(pivot, s - {u});
    }
  }

  ghost function Bonus(k: Cluster, x: set<nat>, pivot: nat): nat -> int {
    (u: nat) => FeeRate(k, x).size * Indicator(pivot)(u) + (-1) * SizeFn(k)(u)
  }

  lemma NudgedSum(k: Cluster, x: set<nat>, pivot: nat, sign: int, s: set<nat>)
    requires sign == 1 || sign == -1
    ensures Sum(Nudged(k, x, pivot, sign), s)
            == FeeRate(k, x).size * FeeRateCompare(FeeRate(k, s), FeeRate(k, x))
               + sign * ((if pivot in s then FeeRate(k, x).size else 0) - FeeRate(k, s).size)
  {
    hide Sum, FeeRateCompare;
    var z := FeeRate(k, x).size;
    var w, e, b := Nudged(k, x, pivot, sign), Excess(k, x), Bonus(k, x, pivot);
    forall u | u in s
      ensures w(u) == z * e(u) + sign * b(u)
    {
      assert b(u) == (if u == pivot then z else 0) - k.FeeOf(u).size;
    }
    SumLinear(w, z, e, sign, b, s);
    ExcessSum(k, x, s);
    SumLinear(b, z, Indicator(pivot), -1, SizeFn(k), s);
    IndicatorSum(pivot, s);
  }

  lemma StrictPartSmaller(k: Cluster, x: set<nat>, s: set<nat>)
    requires s < x
    ensures FeeRate(k, s).size < FeeRate(k, x).size
  {
    hide Sum;
    assert x - s != {} by {
      var u :| u in x && u !in s;
      assert u in x - s;
    }
    FeeRateMinus(k, x, s);
  }

  /** Sign of a nudged sum for one top set or part. */
  lemma NudgedTop(z: int, cmp: int, inside: bool, sign: int, size: int)
    requires 0 < size < z && (sign == 1 || sign == -1)
    requires cmp < 0 || (cmp == 0 && inside == (sign == -1))
    ensures z * cmp + sign * ((if inside then z else 0) - size) <= 0
  {
    if cmp < 0 {
      assert z * cmp <= -z;
    }
  }

  /** If every equal-feerate top set has the pivot on the wrong side, no equal-feerate part has
      the pivot on the right side: above the rest for sign 1, below it for sign -1. */
  lemma PivotExhausted(k: Cluster, active: set<Dep>, x: set<nat>, tops: map<Dep, set<nat>>, pivot: nat, sign: int,
                       s: set<nat>)
    requires active <= k.deps && IsTree(active, x, tops) && NoHigherTop(k, active, x, tops)
    requires pivot in x && (sign == 1 || sign == -1)
    requires forall d | d in active && d.0 in x && RateOf(k, tops[d]) == RateOf(k, x) ::
               pivot in tops[d] <==> sign == -1
    requires ClosedWithin(k, x, s) && s != {} && s != x
    requires pivot in s <==> sign == 1
    ensures RateOf(k, s) != RateOf(k, x)
  {
    hide Sum, FeeRateCompare, RateOf;
    var w := Nudged(k, x, pivot, sign);
    var z := FeeRate(k, x).size;
    forall d | d in active && d.0 in x
      ensures Sum(w, tops[d]) <= 0
    {
      var t := tops[d];
      NudgedSum(k, x, pivot, sign, t);
      RateCompareOf(k, t, x);
      assert t < x;
      StrictPartSmaller(k, x, t);
      NudgedTop(z, FeeRateCompare(FeeRate(k, t), FeeRate(k, x)), pivot in t, sign, FeeRate(k, t).size);
    }
    NudgedSum(k, x, pivot, sign, x);
    ExcessSum(k, x, x);
    ExcessTotal(k, x);
    WithinIsParentClosed(k, active, x, s);
    NoPositivePart(w, active, x, tops, s);
    NudgedSum(k, x, pivot, sign, s);
    RateCompareOf(k, s, x);
    StrictPartSmaller(k, x, s);
  }

  /** If all top sets are strictly lower, the chunk cannot be split at all. */
  lemma AllTopsLower(k: Cluster, active: set<Dep>, x: set<nat>, tops: map<Dep, set<nat>>)
    requires active <= k.deps && IsTree(active, x, tops)
    requires forall d | d in active && d.0 in x :: RateOf(k, tops[d]) < RateOf(k, x)
    ensures Unsplittable(k, x)
  {
    hide Sum, FeeRateCompare, RateOf;
    var w := Excess(k, x);
    ExcessTotal(k, x);
    forall d | d in active && d.0 in x
      ensures Sum(w, tops[d]) < 0
    {
      ExcessSum(k, x, tops[d]);
      RateCompareOf(k, tops[d], x);
    }
    forall s: set<nat> | ClosedWithin(k, x, s) && s != {} && s != x
      ensures RateOf(k, s) != RateOf(k, x)
    {
      WithinIsParentClosed(k, active, x, s);
      OnlyNegativeParts(w, active, x, tops, s);
      ExcessSum(k, x, s);
      RateCompareOf(k, s, x);
    }
  }
}
