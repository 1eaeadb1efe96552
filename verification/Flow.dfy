/** The flow argument behind optimality: if no top set of a tree is worth more than nothing,
    no parent-closed part of the tree is. */
module Flow {
  import opened FeeFracs
  import opened Sums
  import opened Clusters
  import opened Trees

  /** s contains the parent of every active dependency whose child it contains. */
  ghost predicate ParentClosed(active: set<Dep>, s: set<nat>) {
    forall d | d in active && d.1 in s :: d.0 in s
  }

  ghost function Crossing(active: set<Dep>, s: set<nat>): set<Dep> {
    set d | d in active && d.0 in s && d.1 !in s
  }

  /** Closing s under, or restricting it to, the bottom of a crossing dependency keeps it
      parent-closed and removes that dependency from the crossing ones. */
  lemma CrossingShrinks(active: set<Dep>, x: set<nat>, d: Dep, t: set<nat>, s: set<nat>)
    requires Closed(active, x) && TopOf(active, x, d, t)
    requires s <= x && ParentClosed(active, s) && d in Crossing(active, s)
    ensures ParentClosed(active, s + (x - t)) && ParentClosed(active, s * (x - t))
    ensures Crossing(active, s + (x - t)) < Crossing(active, s)
    ensures Crossing(active, s * (x - t)) < Crossing(active, s)
  {
    var b := x - t;
    forall e | e in active && e != d
      ensures e.0 in b <==> e.1 in b
    {
      assert e in active - {d};
    }
    assert d !in Crossing(active, s + b) && d !in Crossing(active, s * b);
  }

  lemma SumInclusionExclusion(w: nat -> int, a: set<nat>, b: set<nat>)
    ensures Sum(w, a) + Sum(w, b) == Sum(w, a + b) + Sum(w, a * b)
  {
    hide Sum;
    SumUnion(w, a, b - a);
    assert a + (b - a) == a + b;
    SumUnion(w, a * b, b - a);
    assert a * b + (b - a) == b;
  }

  lemma SubsetCard<T>(a: set<T>, b: set<T>)
    requires a < b
    ensures |a| < |b|
  {
    assert a + (b - a) == b;
    var x :| x in b - a;
  }

  /** No parent-closed part of a tree with non-positive top sets and total 0 is positive. */
  lemma {:induction false} NoPositivePart(w: nat -> int, active: set<Dep>, x: set<nat>, tops: map<Dep, set<nat>>,
                                          s: set<nat>)
    requires IsTree(active, x, tops) && Sum(w, x) == 0
    requires forall d | d in active && d.0 in x :: Sum(w, tops[d]) <= 0
    requires s <= x && ParentClosed(active, s)
    ensures Sum(w, s) <= 0
    decreases |Crossing(active, s)|
  {
    if Crossing(active, s) == {} {
      NoCrossing(active, x, s);
      assert Sum(w, {}) == 0;
    } else {
      var d :| d in Crossing(active, s);
      var t := tops[d];
      var b := x - t;
      CrossingShrinks(active, x, d, t, s);
      SubsetCard(Crossing(active, s + b), Crossing(active, s));
      SubsetCard(Crossing(active, s * b), Crossing(active, s));
      NoPositivePart(w, active, x, tops, s + b);
      NoPositivePart(w, active, x, tops, s * b);
      SumInclusionExclusion(w, s, b);
      SumMinus(w, x, t);
    }
  }

  lemma NoCrossing(active: set<Dep>, x: set<nat>, s: set<nat>)
    requires Component(active, x) && s <= x && ParentClosed(active, s) && Crossing(active, s) == {}
    ensures s == {} || s == x
  {
    assert Closed(active, s) by {
      forall d | d in active
        ensures d.0 in s <==> d.1 in s
      {
        assert d !in Crossing(active, s);
      }
    }
    if s != {} {
      ClosedInside(active, x, s);
    }
  }

  /** With strictly negative top sets, every proper part is strictly negative. */
  lemma {:induction false} OnlyNegativeParts(w: nat -> int, active: set<Dep>, x: set<nat>, tops: map<Dep, set<nat>>,
                                             s: set<nat>)
    requires IsTree(active, x, tops) && Sum(w, x) == 0
    requires forall d | d in active && d.0 in x :: Sum(w, tops[d]) < 0
    requires s < x && s != {} && ParentClosed(active, s)
    ensures Sum(w, s) < 0
  {
    if Crossing(active, s) == {} {
      NoCrossing(active, x, s);
    } else {
      var d :| d in Crossing(active, s);
      var t := tops[d];
      var b := x - t;
      CrossingShrinks(active, x, d, t, s);
      NoPositivePart(w, active, x, tops, s + b);
      NoPositivePart(w, active, x, tops, s * b);
      SumInclusionExclusion(w, s, b);
      SumMinus(w, x, t);
    }
  }

  // ---------------------------------------------------------------- feerates

  /** Weight of a transaction against the feerate of x, scaled to stay integral. */
  ghost function Excess(k: Cluster, x: set<nat>): nat -> int {
    (u: nat) => FeeRate(k, x).size * k.FeeOf(u).fee - FeeRate(k, x).fee * k.FeeOf(u).size
  }

  lemma ExcessSum(k: Cluster, x: set<nat>, s: set<nat>)
    ensures Sum(Excess(k, x), s) == FeeRateCompare(FeeRate(k, s), FeeRate(k, x))
  {
    var f, w := FeeRate(k, x), Excess(k, x);
    forall u | u in s
      ensures w(u) == f.size * FeeFn(k)(u) + (-f.fee) * SizeFn(k)(u)
    {
      NegateFactor(f.fee, k.FeeOf(u).size);
    }
    assert FeeRate(k, s) == FeeFrac(Sum(FeeFn(k), s), Sum(SizeFn(k), s));
    hide Sum, FeeRate, Excess, FeeFn, SizeFn;
    SumLinear(w, f.size, FeeFn(k), -f.fee, SizeFn(k), s);
    CompareParts(f, Sum(FeeFn(k), s), Sum(SizeFn(k), s));
  }

  lemma CompareParts(f: FeeFrac, fee: int, size: nat)
    ensures FeeRateCompare(FeeFrac(fee, size), f) == f.size * fee + (-f.fee) * size
  {
    NegateFactor(f.fee, size);
  }

  lemma NegateFactor(a: int, b: int)
    ensures (-a) * b == -(a * b)
  {
  }

  lemma ExcessTotal(k: Cluster, x: set<nat>)
    ensures Sum(Excess(k, x), x) == 0
  {
    hide Sum;
    ExcessSum(k, x, x);
  }

  /** No active dependency of x has a top set of higher feerate than x. */
  ghost predicate NoHigherTop(k: Cluster, active: set<Dep>, x: set<nat>, tops: map<Dep, set<nat>>)
    requires IsTree(active, x, tops)
  {
    forall d | d in active && d.0 in x :: RateOf(k, tops[d]) <= RateOf(k, x)
  }

  /** In a chunk without higher top sets, no parent-closed part has a higher feerate. */
  lemma PartsNoHigher(k: Cluster, active: set<Dep>, x: set<nat>, tops: map<Dep, set<nat>>, s: set<nat>)
    requires IsTree(active, x, tops) && NoHigherTop(k, active, x, tops)
    requires s <= x && s != {} && ParentClosed(active, s)
    ensures RateOf(k, s) <= RateOf(k, x)
  {
    hide Sum, RateOf, FeeRateCompare;
    var w := Excess(k, x);
    ExcessSum(k, x, s);
    ExcessTotal(k, x);
    forall d | d in active && d.0 in x
      ensures Sum(w, tops[d]) <= 0
    {
      ExcessSum(k, x, tops[d]);
      RateCompareOf(k, tops[d], x);
    }
    NoPositivePart(w, active, x, tops, s);
    RateCompareOf(k, s, x);
  }

  lemma RateCompareOf(k: Cluster, s: set<nat>, x: set<nat>)
    requires s != {} && x != {}
    ensures FeeRateCompare(FeeRate(k, s), FeeRate(k, x)) > 0 <==> RateOf(k, s) > RateOf(k, x)
    ensures FeeRateCompare(FeeRate(k, s), FeeRate(k, x)) < 0 <==> RateOf(k, s) < RateOf(k, x)
  {
    CompareIsRateOrder(FeeRate(k, s), FeeRate(k, x));
  }
}
