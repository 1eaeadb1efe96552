/** The mathematics of merging chunks: what one upward merge sequence keeps and what it does
    to the diagram. Downward merges are upward merges of the reversed cluster. */
module Merging {
  import opened FeeFracs
  import opened Clusters

  /** Chunk y contains a child of a transaction of chunk z. */
  ghost predicate DependsOn(k: Cluster, y: set<nat>, z: set<nat>) {
    exists d | d in k.deps :: d.0 in z && d.1 in y
  }

  /** Every dependency between two distinct chunks goes from a strictly lower feerate chunk to
      a strictly higher feerate one. */
  ghost predicate Topological(k: Cluster, chunks: set<set<nat>>) {
    forall y, z | y in chunks && z in chunks && y != z && DependsOn(k, y, z) ::
      RateOf(k, y) < RateOf(k, z)
  }

  /** The chunks after cur and p are merged. */
  ghost function Merge(chunks: set<set<nat>>, cur: set<nat>, p: set<nat>): set<set<nat>> {
    chunks - {cur, p} + {cur + p}
  }

  /** z is another chunk on which cur depends. */
  ghost predicate ParentOf(k: Cluster, chunks: set<set<nat>>, cur: set<nat>, z: set<nat>) {
    z in chunks && z != cur && DependsOn(k, cur, z)
  }

  /** y is a chunk of the scope that depends on cur or on a chunk outside the scope. */
  ghost predicate Lagging(k: Cluster, chunks: set<set<nat>>, scope: set<set<nat>>, cur: set<nat>, y: set<nat>) {
    && y in scope && y != cur
    && (DependsOn(k, y, cur) || exists z | z in chunks && z !in scope :: DependsOn(k, y, z))
  }

  /** What an upward merge sequence on cur keeps: the scope is topological up to the
      dependencies of cur, and all chunks that must stay below cur are below its parents too. */
  ghost predicate Climbing(k: Cluster, chunks: set<set<nat>>, scope: set<set<nat>>, cur: set<nat>) {
    && Separate(chunks) && scope <= chunks && cur in scope
    && Topological(k, scope - {cur})
    && (forall z | ParentOf(k, chunks, cur, z) :: z in scope)
    && (forall y, z | Lagging(k, chunks, scope, cur, y) && ParentOf(k, chunks, cur, z) ::
          RateOf(k, y) < RateOf(k, z))
    && (forall y | y in scope && y != cur && DependsOn(k, y, cur) :: RateOf(k, y) < RateOf(k, cur))
  }

  /** p is a parent chunk of cur of no higher feerate, and no parent chunk has a lower one. */
  ghost predicate LowestParent(k: Cluster, chunks: set<set<nat>>, cur: set<nat>, p: set<nat>) {
    && ParentOf(k, chunks, cur, p)
    && RateOf(k, p) <= RateOf(k, cur)
    && (forall z | ParentOf(k, chunks, cur, z) :: RateOf(k, p) <= RateOf(k, z))
  }

  ghost predicate NothingToMerge(k: Cluster, chunks: set<set<nat>>, cur: set<nat>) {
    forall z | ParentOf(k, chunks, cur, z) :: RateOf(k, cur) < RateOf(k, z)
  }

  lemma DependsOnUnion(k: Cluster, a: set<nat>, b: set<nat>, z: set<nat>)
    ensures DependsOn(k, a + b, z) <==> DependsOn(k, a, z) || DependsOn(k, b, z)
    ensures DependsOn(k, z, a + b) <==> DependsOn(k, z, a) || DependsOn(k, z, b)
  {
  }

  lemma MergeSeparate(chunks: set<set<nat>>, cur: set<nat>, p: set<nat>)
    requires Separate(chunks) && cur in chunks && p in chunks && p != cur
    ensures Separate(Merge(chunks, cur, p))
    ensures cur + p !in chunks && cur !! p
  {
    assert cur != {} && p != {};
    var x :| x in cur;
    var y :| y in p;
    assert x in cur + p && y in cur + p;
  }

  /** A parent of the merged chunk was in scope, and is no lower than p. */
  lemma ClimbParents(k: Cluster, chunks: set<set<nat>>, scope: set<set<nat>>, cur: set<nat>, p: set<nat>, z: set<nat>)
    requires Climbing(k, chunks, scope, cur) && LowestParent(k, chunks, cur, p)
    requires ParentOf(k, Merge(chunks, cur, p), cur + p, z)
    ensures z in chunks && z != cur && z != p && z in scope && RateOf(k, p) <= RateOf(k, z)
  {
    hide RateOf;
    MergeSeparate(chunks, cur, p);
    DependsOnUnion(k, cur, p, z);
    if DependsOn(k, cur, z) {
      assert ParentOf(k, chunks, cur, z);
    } else {
      assert DependsOn(k, p, z);
      assert z in scope || Lagging(k, chunks, scope, cur, p);
      assert p in scope - {cur} && z in scope - {cur};
    }
  }

  /** A chunk that must stay below the merged chunk is strictly below p. */
  lemma ClimbLagging(k: Cluster, chunks: set<set<nat>>, scope: set<set<nat>>, cur: set<nat>, p: set<nat>, y: set<nat>)
    requires Climbing(k, chunks, scope, cur) && LowestParent(k, chunks, cur, p)
    requires Lagging(k, Merge(chunks, cur, p), Merge(scope, cur, p), cur + p, y)
    ensures y in scope && y != cur && y != p && RateOf(k, y) < RateOf(k, p)
  {
    hide RateOf;
    MergeSeparate(chunks, cur, p);
    DependsOnUnion(k, cur, p, y);
    if DependsOn(k, y, p) {
      assert y in scope - {cur} && p in scope - {cur};
    } else {
      assert Lagging(k, chunks, scope, cur, y);
    }
  }

  lemma ClimbStep(k: Cluster, chunks: set<set<nat>>, scope: set<set<nat>>, cur: set<nat>, p: set<nat>)
    requires Climbing(k, chunks, scope, cur) && LowestParent(k, chunks, cur, p)
    ensures Climbing(k, Merge(chunks, cur, p), Merge(scope, cur, p), cur + p)
    ensures RateOf(k, p) <= RateOf(k, cur + p) <= RateOf(k, cur)
  {
    var chunks', scope', cur' := Merge(chunks, cur, p), Merge(scope, cur, p), cur + p;
    assert RateOf(k, p) <= RateOf(k, cur') <= RateOf(k, cur) by {
      MergeSeparate(chunks, cur, p);
      RateOfUnion(k, p, cur);
      assert p + cur == cur';
    }
    hide RateOf;
    MergeSeparate(chunks, cur, p);
    assert scope' - {cur'} <= scope - {cur};
    forall z | ParentOf(k, chunks', cur', z)
      ensures z in scope' && RateOf(k, p) <= RateOf(k, z)
    {
      ClimbParents(k, chunks, scope, cur, p, z);
    }
    forall y | Lagging(k, chunks', scope', cur', y)
      ensures RateOf(k, y) < RateOf(k, p)
    {
      ClimbLagging(k, chunks, scope, cur, p, y);
    }
    forall y | y in scope' && y != cur' && DependsOn(k, y, cur')
      ensures RateOf(k, y) < RateOf(k, cur')
    {
      assert Lagging(k, chunks', scope', cur', y);
    }
  }

  /** When no parent is left to merge with, the scope has become topological. */
  lemma ClimbEnd(k: Cluster, chunks: set<set<nat>>, scope: set<set<nat>>, cur: set<nat>)
    requires Climbing(k, chunks, scope, cur) && NothingToMerge(k, chunks, cur)
    ensures Topological(k, scope)
  {
    hide RateOf;
    forall y, z | y in scope && z in scope && y != z && DependsOn(k, y, z)
      ensures RateOf(k, y) < RateOf(k, z)
    {
      if y == cur {
        assert ParentOf(k, chunks, cur, z);
      } else if z != cur {
        assert y in scope - {cur} && z in scope - {cur};
      }
    }
  }

  // ---------------------------------------------------------------- effect on the diagram

  /** cur and all chunks it depends on have a feerate above th. */
  ghost predicate Above(k: Cluster, chunks: set<set<nat>>, cur: set<nat>, th: real) {
    && RateOf(k, cur) > th
    && (forall z | ParentOf(k, chunks, cur, z) :: RateOf(k, z) > th)
  }

  /** chunks and cur arise from start and first by merging first with the chunks in merged. */
  ghost predicate Absorbed(start: set<set<nat>>, first: set<nat>, chunks: set<set<nat>>, cur: set<nat>,
                           merged: set<set<nat>>) {
    && Separate(start) && first in start && merged <= start - {first}
    && cur == first + Cover(merged)
    && chunks == start - merged - {first} + {cur}
  }

  /** The merged chunk is worth at least what the absorbed chunks were worth, they are no
      higher than any remaining parent, and thresholds below first and its parents persist. */
  ghost predicate Gained(k: Cluster, start: set<set<nat>>, first: set<nat>, chunks: set<set<nat>>, cur: set<nat>,
                         merged: set<set<nat>>) {
    && (forall l: real :: Pos(WeightOf(k, l, cur)) >= Surplus(k, l, merged))
    && (forall m, z | m in merged && ParentOf(k, chunks, cur, z) :: RateOf(k, m) <= RateOf(k, z))
    && (forall th: real | Above(k, start, first, th) ::
          Above(k, chunks, cur, th) && forall m | m in merged :: RateOf(k, m) > th)
  }

  lemma GainedStart(k: Cluster, start: set<set<nat>>, first: set<nat>)
    requires Separate(start) && first in start
    ensures Absorbed(start, first, start, first, {})
    ensures Gained(k, start, first, start, first, {})
  {
    assert Cover({}) == {};
    assert start - {} - {first} + {first} == start;
  }

  lemma AbsorbedStep(start: set<set<nat>>, first: set<nat>, chunks: set<set<nat>>, cur: set<nat>,
                     merged: set<set<nat>>, p: set<nat>)
    requires Absorbed(start, first, chunks, cur, merged)
    requires p in chunks && p != cur && cur !in start - merged - {first}
    ensures p in start && p !in merged && p != first
    ensures Absorbed(start, first, Merge(chunks, cur, p), cur + p, merged + {p})
  {
    assert Cover(merged + {p}) == Cover(merged) + p;
    assert Merge(chunks, cur, p) == start - (merged + {p}) - {first} + {cur + p};
  }

  /** Absorbed chunks are disjoint from the untouched ones. */
  lemma AbsorbedFresh(start: set<set<nat>>, first: set<nat>, chunks: set<set<nat>>, cur: set<nat>,
                      merged: set<set<nat>>)
    requires Absorbed(start, first, chunks, cur, merged)
    ensures cur !in start - merged - {first}
    ensures first <= cur && forall m | m in merged :: m <= cur
  {
    assert first != {};
    var x :| x in first;
    assert x in cur;
    forall m | m in merged
      ensures m <= cur
    {
      assert m <= Cover(merged);
    }
  }

  /** The value of the merged chunk at one reference feerate. */
  lemma GainedWeight(k: Cluster, l: real, cur: set<nat>, merged: set<set<nat>>, p: set<nat>)
    requires cur !! p && cur != {} && p != {} && p !in merged && {} !in merged
    requires RateOf(k, p) <= RateOf(k, cur)
    requires forall m | m in merged :: RateOf(k, m) <= RateOf(k, p)
    requires Pos(WeightOf(k, l, cur)) >= Surplus(k, l, merged)
    ensures Pos(WeightOf(k, l, cur + p)) >= Surplus(k, l, merged + {p})
  {
    hide RateOf, WeightOf, Surplus;
    SurplusAdd(k, l, merged, p);
    WeightUnion(k, l, cur, p);
    WeightOfSign(k, l, p);
    WeightOfSign(k, l, cur);
    if RateOf(k, p) <= l {
      forall m | m in merged
        ensures WeightOf(k, l, m) <= 0.0
      {
        WeightOfSign(k, l, m);
      }
      SurplusZero(k, l, merged);
    }
  }

  lemma GainedStep(k: Cluster, start: set<set<nat>>, first: set<nat>, scope: set<set<nat>>,
                   chunks: set<set<nat>>, cur: set<nat>, merged: set<set<nat>>, p: set<nat>)
    requires Climbing(k, chunks, scope, cur) && LowestParent(k, chunks, cur, p)
    requires Absorbed(start, first, chunks, cur, merged) && Gained(k, start, first, chunks, cur, merged)
    ensures Absorbed(start, first, Merge(chunks, cur, p), cur + p, merged + {p})
    ensures Gained(k, start, first, Merge(chunks, cur, p), cur + p, merged + {p})
  {
    hide RateOf, WeightOf, Surplus;
    var chunks', cur', merged' := Merge(chunks, cur, p), cur + p, merged + {p};
    AbsorbedFresh(start, first, chunks, cur, merged);
    AbsorbedStep(start, first, chunks, cur, merged, p);
    MergeSeparate(chunks, cur, p);
    ClimbStep(k, chunks, scope, cur, p);
    forall l: real
      ensures Pos(WeightOf(k, l, cur')) >= Surplus(k, l, merged')
    {
      GainedWeight(k, l, cur, merged, p);
    }
    forall z | ParentOf(k, chunks', cur', z)
      ensures RateOf(k, p) <= RateOf(k, z)
    {
      ClimbParents(k, chunks, scope, cur, p, z);
    }
    forall th: real | Above(k, start, first, th)
      ensures Above(k, chunks', cur', th) && forall m | m in merged' :: RateOf(k, m) > th
    {
      assert Above(k, chunks, cur, th);
    }
  }

  // ---------------------------------------------------------------- whole merge sequences

  /** What holds throughout an upward merge sequence that started from chunk first of start and
      must leave the chunks in out alone. */
  ghost predicate Sequence(k: Cluster, out: set<set<nat>>, start: set<set<nat>>, first: set<nat>,
                           chunks: set<set<nat>>, cur: set<nat>, merged: set<set<nat>>) {
    && out <= chunks
    && Climbing(k, chunks, chunks - out, cur)
    && Absorbed(start, first, chunks, cur, merged)
    && Gained(k, start, first, chunks, cur, merged)
  }

  lemma SequenceStart(k: Cluster, out: set<set<nat>>, start: set<set<nat>>, first: set<nat>)
    requires out <= start && Climbing(k, start, start - out, first)
    ensures Sequence(k, out, start, first, start, first, {})
  {
    hide Gained, Absorbed;
    GainedStart(k, start, first);
  }

  lemma SequenceStep(k: Cluster, out: set<set<nat>>, start: set<set<nat>>, first: set<nat>,
                     chunks: set<set<nat>>, cur: set<nat>, merged: set<set<nat>>, p: set<nat>)
    requires Sequence(k, out, start, first, chunks, cur, merged) && LowestParent(k, chunks, cur, p)
    ensures p !in out && cur !in out
    ensures Sequence(k, out, start, first, Merge(chunks, cur, p), cur + p, merged + {p})
  {
    hide Gained, Absorbed, RateOf, DependsOn, Climbing;
    GainedStep(k, start, first, chunks - out, chunks, cur, merged, p);
    ClimbStep(k, chunks, chunks - out, cur, p);
    ClimbScope(k, chunks, chunks - out, cur, p);
    MergeOutside(chunks, out, cur, p);
  }

  lemma ClimbScope(k: Cluster, chunks: set<set<nat>>, scope: set<set<nat>>, cur: set<nat>, p: set<nat>)
    requires Climbing(k, chunks, scope, cur) && LowestParent(k, chunks, cur, p)
    ensures cur in scope && p in scope && p != cur && cur + p !in chunks
  {
    hide RateOf, DependsOn, Topological, Lagging;
    MergeSeparate(chunks, cur, p);
  }

  lemma MergeOutside(chunks: set<set<nat>>, out: set<set<nat>>, cur: set<nat>, p: set<nat>)
    requires out <= chunks && cur in chunks - out && p in chunks - out && cur + p !in chunks
    ensures Merge(chunks, cur, p) - out == Merge(chunks - out, cur, p) && out <= Merge(chunks, cur, p)
  {
    assert cur + p !in out;
  }
}
