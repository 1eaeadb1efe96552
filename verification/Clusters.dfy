/** A cluster of transactions with direct dependencies, the aggregate feerate of a set of
    its transactions, and the surplus of a collection of chunks at a reference feerate.

    Surplus at `l` is the largest value of `fee - l*size` over the points of the convexified
    feerate diagram of the chunks; one diagram is at least as good as another exactly when
    its surplus is at least as large at every `l` (module ChunkDiagrams proves this). */
module Clusters {
  import opened FeeFracs
  import opened Sums

  type TxFee = f: FeeFrac | f.size > 0 witness FeeFrac(0, 1)

  /** A dependency (p, c) says that child c needs parent p. */
  type Dep = (nat, nat)

  datatype Cluster = Cluster(txs: set<nat>, fees: map<nat, TxFee>, deps: set<Dep>) {
    function FeeOf(x: nat): (f: FeeFrac)
      ensures f.size > 0
    {
      if x in fees then fees[x] else FeeFrac(0, 1)
    }

    /** The same cluster with parents and children exchanged and fees negated. */
    function Reversed(): Cluster {
      Cluster(txs, map x | x in fees :: fees[x].Negate(), set d | d in deps :: (d.1, d.0))
    }

    ghost predicate Valid() {
      forall d | d in deps :: d.0 in txs && d.1 in txs
    }
  }

  // ---------------------------------------------------------------- sums over sets

  ghost function FeeFn(k: Cluster): nat -> int {
    (x: nat) => k.FeeOf(x).fee
  }

  ghost function SizeFn(k: Cluster): nat -> int {
    (x: nat) => k.FeeOf(x).size
  }

  /** Aggregate fee and size of a set of transactions. */
  ghost function FeeRate(k: Cluster, s: set<nat>): (r: FeeFrac)
    ensures r.size > 0 <==> s != {}
  {
    SumPositive(SizeFn(k), s);
    FeeFrac(Sum(FeeFn(k), s), Sum(SizeFn(k), s))
  }

  ghost function RateOf(k: Cluster, s: set<nat>): real {
    Rate(FeeRate(k, s))
  }

  ghost function WeightOf(k: Cluster, l: real, s: set<nat>): real {
    Weight(l, FeeRate(k, s))
  }

  lemma {:induction false} FeeRateSingleton(k: Cluster, x: nat)
    ensures FeeRate(k, {x}) == k.FeeOf(x)
  {
    SumAdd(FeeFn(k), {}, x);
    SumAdd(SizeFn(k), {}, x);
    assert {} + {x} == {x};
  }

  lemma {:induction false} FeeRateUnion(k: Cluster, a: set<nat>, b: set<nat>)
    requires a !! b
    ensures FeeRate(k, a + b) == FeeRate(k, a).Plus(FeeRate(k, b))
  {
    hide Sum;
    SumUnion(FeeFn(k), a, b);
    SumUnion(SizeFn(k), a, b);
  }

  lemma {:induction false} FeeRateMinus(k: Cluster, a: set<nat>, b: set<nat>)
    requires b <= a
    ensures FeeRate(k, a) == FeeRate(k, a - b).Plus(FeeRate(k, b))
  {
    FeeRateUnion(k, a - b, b);
    assert a - b + b == a;
  }

  lemma {:induction false} WeightUnion(k: Cluster, l: real, a: set<nat>, b: set<nat>)
    requires a !! b
    ensures WeightOf(k, l, a + b) == WeightOf(k, l, a) + WeightOf(k, l, b)
  {
    FeeRateUnion(k, a, b);
    WeightPlus(l, FeeRate(k, a), FeeRate(k, b));
  }

  lemma {:induction false} WeightOfSign(k: Cluster, l: real, s: set<nat>)
    requires s != {}
    ensures WeightOf(k, l, s) > 0.0 <==> RateOf(k, s) > l
    ensures WeightOf(k, l, s) < 0.0 <==> RateOf(k, s) < l
  {
    WeightSign(l, FeeRate(k, s));
  }

  lemma {:induction false} RateOfUnion(k: Cluster, a: set<nat>, b: set<nat>)
    requires a !! b && a != {} && b != {}
    ensures RateOf(k, a) <= RateOf(k, b) ==> RateOf(k, a) <= RateOf(k, a + b) <= RateOf(k, b)
    ensures RateOf(k, b) <= RateOf(k, a) ==> RateOf(k, b) <= RateOf(k, a + b) <= RateOf(k, a)
    ensures RateOf(k, a) < RateOf(k, b) ==> RateOf(k, a) < RateOf(k, a + b) < RateOf(k, b)
    ensures RateOf(k, b) < RateOf(k, a) ==> RateOf(k, b) < RateOf(k, a + b) < RateOf(k, a)
  {
    FeeRateUnion(k, a, b);
    Mediant(FeeRate(k, a), FeeRate(k, b));
  }

  // ---------------------------------------------------------------- surplus

  /** Total of the positive chunk weights at reference feerate `l`. */
  ghost function Surplus(k: Cluster, l: real, chunks: set<set<nat>>): real {
    if chunks == {} then 0.0 else
    var x :| x in chunks;
    Surplus(k, l, chunks - {x}) + Pos(WeightOf(k, l, x))
  }

  ghost predicate AtLeastAsGood(k: Cluster, a: set<set<nat>>, b: set<set<nat>>) {
    forall l: real :: Surplus(k, l, a) >= Surplus(k, l, b)
  }

  lemma {:induction false} SurplusRemove(k: Cluster, l: real, chunks: set<set<nat>>, x: set<nat>)
    requires x in chunks
    ensures Surplus(k, l, chunks) == Surplus(k, l, chunks - {x}) + Pos(WeightOf(k, l, x))
    decreases |chunks|
  {
    var y :| y in chunks && Surplus(k, l, chunks) == Surplus(k, l, chunks - {y}) + Pos(WeightOf(k, l, y));
    if y != x {
      SurplusRemove(k, l, chunks - {y}, x);
      SurplusRemove(k, l, chunks - {x}, y);
      assert chunks - {y} - {x} == chunks - {x} - {y};
    }
  }

  lemma {:induction false} SurplusAdd(k: Cluster, l: real, chunks: set<set<nat>>, x: set<nat>)
    requires x !in chunks
    ensures Surplus(k, l, chunks + {x}) == Surplus(k, l, chunks) + Pos(WeightOf(k, l, x))
  {
    SurplusRemove(k, l, chunks + {x}, x);
    assert chunks + {x} - {x} == chunks;
  }

  lemma {:induction false} SurplusUnion(k: Cluster, l: real, a: set<set<nat>>, b: set<set<nat>>)
    requires a !! b
    ensures Surplus(k, l, a + b) == Surplus(k, l, a) + Surplus(k, l, b)
    decreases |b|
  {
    if b == {} {
      assert a + b == a;
    } else {
      var x :| x in b;
      SurplusUnion(k, l, a, b - {x});
      SurplusRemove(k, l, b, x);
      SurplusRemove(k, l, a + b, x);
      assert a + b - {x} == a + (b - {x});
    }
  }

  lemma {:induction false} SurplusNonNegative(k: Cluster, l: real, chunks: set<set<nat>>)
    ensures Surplus(k, l, chunks) >= 0.0
    decreases |chunks|
  {
    if chunks != {} {
      var x :| x in chunks;
      SurplusRemove(k, l, chunks, x);
      SurplusNonNegative(k, l, chunks - {x});
    }
  }

  lemma {:induction false} SurplusZero(k: Cluster, l: real, chunks: set<set<nat>>)
    requires forall x | x in chunks :: WeightOf(k, l, x) <= 0.0
    ensures Surplus(k, l, chunks) == 0.0
    decreases |chunks|
  {
    if chunks != {} {
      var x :| x in chunks;
      SurplusRemove(k, l, chunks, x);
      SurplusZero(k, l, chunks - {x});
    }
  }

  // ---------------------------------------------------------------- collections of chunks

  /** The transactions of a collection of chunks. */
  ghost function Cover(chunks: set<set<nat>>): set<nat> {
    set x, t | x in chunks && t in x :: t
  }

  /** Chunks that are non-empty and pairwise disjoint. */
  ghost predicate Separate(chunks: set<set<nat>>) {
    && {} !in chunks
    && (forall x, y | x in chunks && y in chunks && x != y :: x !! y)
  }

  ghost predicate IsPartition(txs: set<nat>, chunks: set<set<nat>>) {
    Separate(chunks) && Cover(chunks) == txs
  }

  lemma {:induction false} CoverRemove(chunks: set<set<nat>>, x: set<nat>)
    requires Separate(chunks) && x in chunks
    ensures Cover(chunks - {x}) == Cover(chunks) - x
  {
    forall t | t in Cover(chunks) - x
      ensures t in Cover(chunks - {x})
    {
      var y :| y in chunks && t in y;
      assert y in chunks - {x};
    }
    forall t | t in Cover(chunks - {x})
      ensures t in Cover(chunks) - x
    {
      var y :| y in chunks - {x} && t in y;
    }
  }

  lemma {:induction false} CoverWeight(k: Cluster, l: real, chunks: set<set<nat>>, x: set<nat>)
    requires Separate(chunks) && x in chunks
    ensures Separate(chunks - {x}) && x <= Cover(chunks) && Cover(chunks - {x}) <= Cover(chunks)
    ensures WeightOf(k, l, Cover(chunks)) == WeightOf(k, l, Cover(chunks - {x})) + WeightOf(k, l, x)
  {
    hide WeightOf;
    CoverRemove(chunks, x);
    assert x <= Cover(chunks);
    assert Cover(chunks) - x + x == Cover(chunks);
    WeightUnion(k, l, Cover(chunks) - x, x);
  }

  /** Positive weights exceed plain weights: the surplus bounds the weight of the cover. */
  lemma {:induction false} SurplusBoundsWeight(k: Cluster, l: real, chunks: set<set<nat>>)
    requires Separate(chunks)
    ensures Surplus(k, l, chunks) >= WeightOf(k, l, Cover(chunks))
    decreases |chunks|
  {
    if chunks == {} {
      assert Cover(chunks) == {};
    } else {
      var x :| x in chunks;
      CoverWeight(k, l, chunks, x);
      SurplusBoundsWeight(k, l, chunks - {x});
      SurplusRemove(k, l, chunks, x);
    }
  }

  /** When no chunk is below `l`, the surplus is exactly the weight of the cover. */
  lemma {:induction false} SurplusIsWeight(k: Cluster, l: real, chunks: set<set<nat>>)
    requires Separate(chunks)
    requires forall x | x in chunks :: WeightOf(k, l, x) >= 0.0
    ensures Surplus(k, l, chunks) == WeightOf(k, l, Cover(chunks))
    decreases |chunks|
  {
    if chunks == {} {
      assert Cover(chunks) == {};
    } else {
      var x :| x in chunks;
      CoverWeight(k, l, chunks, x);
      SurplusIsWeight(k, l, chunks - {x});
      SurplusRemove(k, l, chunks, x);
    }
  }

  // ---------------------------------------------------------------- reversal

  lemma {:induction false} FeeRateReversed(k: Cluster, s: set<nat>)
    requires s <= k.fees.Keys
    ensures FeeRate(k.Reversed(), s) == FeeRate(k, s).Negate()
  {
    var r := k.Reversed();
    forall x | x in s
      ensures FeeFn(r)(x) == -1 * FeeFn(k)(x) + 0 * FeeFn(k)(x)
      ensures SizeFn(r)(x) == 1 * SizeFn(k)(x) + 0 * SizeFn(k)(x)
    {
    }
    SumLinear(FeeFn(r), -1, FeeFn(k), 0, FeeFn(k), s);
    SumLinear(SizeFn(r), 1, SizeFn(k), 0, SizeFn(k), s);
  }

  lemma {:induction false} RateReversed(k: Cluster, s: set<nat>)
    requires s <= k.fees.Keys
    ensures RateOf(k.Reversed(), s) == -RateOf(k, s)
  {
    FeeRateReversed(k, s);
    RateNegate(FeeRate(k, s));
  }

  lemma {:induction false} WeightReversed(k: Cluster, l: real, s: set<nat>)
    requires s <= k.fees.Keys
    ensures WeightOf(k.Reversed(), -l, s) == -WeightOf(k, l, s)
  {
    FeeRateReversed(k, s);
    WeightNegate(l, FeeRate(k, s));
  }

  /** Reversal shifts every surplus by the total weight, so it preserves the order of
      diagrams over the same transactions. */
  lemma {:induction false} SurplusReversed(k: Cluster, l: real, chunks: set<set<nat>>)
    requires Separate(chunks) && Cover(chunks) <= k.fees.Keys
    ensures Surplus(k.Reversed(), -l, chunks) == Surplus(k, l, chunks) - WeightOf(k, l, Cover(chunks))
    decreases |chunks|
  {
    if chunks == {} {
      assert Cover(chunks) == {};
      assert FeeRate(k, {}) == EMPTY;
    } else {
      var x :| x in chunks;
      CoverWeight(k, l, chunks, x);
      SurplusReversed(k, l, chunks - {x});
      SurplusReversedStep(k, l, chunks, x);
    }
  }

  lemma {:induction false} SurplusReversedStep(k: Cluster, l: real, chunks: set<set<nat>>, x: set<nat>)
    requires x in chunks && x <= k.fees.Keys
    ensures Surplus(k.Reversed(), -l, chunks) - Surplus(k.Reversed(), -l, chunks - {x})
            == Surplus(k, l, chunks) - Surplus(k, l, chunks - {x}) - WeightOf(k, l, x)
  {
    hide Surplus;
    hide WeightOf;
    SurplusRemove(k, l, chunks, x);
    SurplusRemove(k.Reversed(), -l, chunks, x);
    WeightReversed(k, l, x);
  }
}
