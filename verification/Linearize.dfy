/** Linearize: a valid linearization, at least as good as the one given, and optimal with minimal
    chunks when it says so. */
module Linearizing {
  import opened FeeFracs
  import opened Clusters
  import opened DepGraphs
  import opened Merging
  import opened Optimality
  import opened Forests
  import opened ForestFacts
  import opened Loading
  import opened ForestLoading
  import opened Minimizing
  import opened ForestMinimizing
  import opened Output
  import opened ForestOutput
  import opened Diagrams
  import opened Chunkings
  import opened ChunkDiagrams
  import opened SpanningForest

  // ---------------------------------------------------------------- what is promised

  /** lin lists every transaction once, after all of its ancestors. */
  ghost predicate IsTopological(g: DepGraph, lin: seq<nat>) {
    && ToSet(lin) == g.Positions()
    && (forall i, j | 0 <= i < j < |lin| :: lin[i] != lin[j])
    && (forall i, j | 0 <= i < |lin| && 0 <= j < |lin| && lin[i] in g.Anc(lin[j]) :: i <= j)
  }

  /** The feerate diagram of a linearization. */
  ghost function Diagram(g: DepGraph, lin: seq<nat>): seq<FeeFrac> {
    Chunking(FeesOf(ClusterOf(g), lin))
  }

  /** The diagram of a is nowhere below that of b. */
  ghost predicate AsGood(g: DepGraph, a: seq<nat>, b: seq<nat>) {
    Dominates(Diagram(g, a), Diagram(g, b))
  }

  // ---------------------------------------------------------------- ancestors and reduced parents

  lemma PrefixPosition(lin: seq<nat>, i: nat, n: nat)
    requires i < |lin| && n <= |lin| && forall a, b | 0 <= a < b < |lin| :: lin[a] != lin[b]
    ensures lin[i] in ToSet(lin[..n]) <==> i < n
  {
    if lin[i] in ToSet(lin[..n]) {
      var j :| 0 <= j < n && lin[..n][j] == lin[i];
    }
    if i < n {
      assert lin[..n][i] == lin[i];
    }
  }

  /** Respecting the reduced dependencies is respecting all ancestors. */
  lemma TopologicalIsLinearization(g: DepGraph, lin: seq<nat>)
    requires g.Valid()
    ensures IsTopological(g, lin) <==> IsLinearization(ClusterOf(g), lin)
  {
    var k := ClusterOf(g);
    if IsTopological(g, lin) {
      forall i, j | 0 <= i < |lin| && 0 <= j < |lin| && (lin[i], lin[j]) in k.deps
        ensures i < j
      {
        ClusterDeps(g, (lin[i], lin[j]));
      }
    }
    if IsLinearization(k, lin) {
      ClusterValid(g);
      forall i, j | 0 <= i < |lin| && 0 <= j < |lin| && lin[i] in g.Anc(lin[j])
        ensures i <= j
      {
        hide ClusterOf;
        PrefixClosed(k, lin, j + 1);
        assert ToSet(lin[..j + 1]) <= ToSet(lin);
        ReducedSuffices(g, ToSet(lin[..j + 1]));
        PrefixPosition(lin, j, j + 1);
        PrefixPosition(lin, i, j + 1);
      }
    }
  }

  // ---------------------------------------------------------------- prefixes and surplus

  /** A linearization that reaches a diagram is as good as one under it. */
  lemma ReachesUnder(k: Cluster, a: seq<nat>, b: seq<nat>, chunks: set<set<nat>>)
    requires IsLinearization(k, a) && IsLinearization(k, b) && ReachesDiagram(k, a, chunks) && Under(k, b, chunks)
    ensures Dominates(Chunking(FeesOf(k, a)), Chunking(FeesOf(k, b)))
  {
    hide Chunking, Acc, Sized, Dominates, FeesOf, Weight, Surplus, FeeRate, ToSet;
    var fa, fb := FeesOf(k, a), FeesOf(k, b);
    FeesSized(k, a);
    FeesSized(k, b);
    FeesAcc(k, a, |a|);
    FeesAcc(k, b, |b|);
    assert a[..|a|] == a && b[..|b|] == b;
    forall l: real, n: nat | n <= |fb|
      ensures Attains(fa, l, Weight(l, Acc(fb, n)))
    {
      FeesAcc(k, b, n);
      assert ReachesAt(k, a, chunks, l);
      var m: nat :| m <= |a| && WeightOf(k, l, ToSet(a[..m])) >= Surplus(k, l, chunks);
      FeesAcc(k, a, m);
    }
    ChunkingOrder(fa, fb);
  }

  lemma UnderBetter(k: Cluster, lin: seq<nat>, before: set<set<nat>>, after: set<set<nat>>)
    requires Under(k, lin, before) && AtLeastAsGood(k, after, before)
    ensures Under(k, lin, after)
  {
    hide WeightOf, Surplus;
  }

  lemma UnderSame(k: Cluster, lin: seq<nat>, before: set<set<nat>>, after: set<set<nat>>)
    requires Under(k, lin, before) && SameDiagram(k, after, before)
    ensures Under(k, lin, after)
  {
    hide WeightOf, Surplus;
  }

  /** Every valid linearization lies under the diagram of locally optimal chunks. */
  lemma OptimalOver(k: Cluster, f: Forest, lin: seq<nat>)
    requires Valid(k, f) && AllOptimal(k, f) && IsLinearization(k, lin)
    ensures Under(k, lin, Chunks(f))
  {
    hide WeightOf, Surplus, TopologicallyClosed, ChunkOptimal, TxsAt, LocallyOptimal;
    var chunks := Chunks(f);
    ChunksPartition(k, f);
    forall x | x in chunks
      ensures LocallyOptimal(k, x)
    {
      var i :| i in f.chunkIdxs && x == TxsAt(f, i);
      ChunkOptimalLocally(k, f, i);
    }
    forall l: real, n: nat | n <= |lin|
      ensures WeightOf(k, l, ToSet(lin[..n])) <= Surplus(k, l, chunks)
    {
      PrefixClosed(k, lin, n);
      ClosedSetUnderDiagram(k, l, chunks, ToSet(lin[..n]));
      assert ToSet(lin[..n]) <= ToSet(lin);
      assert ToSet(lin[..n]) * Cover(chunks) == ToSet(lin[..n]);
    }
  }

  // ---------------------------------------------------------------- the stages

  /** Load the old linearization, or start from scratch. */
  method Prepare(forest: SpanningForestState, prior: seq<nat>, isTopological: bool)
    requires Valid(forest.K(), forest.St()) && Chunks(forest.St()) == Singletons(forest.K().txs)
    requires forest.suboptimalChunks == [] && (forall t | t in prior :: t in forest.K().txs)
    requires prior != [] && isTopological ==> IsLinearization(forest.K(), prior)
    modifies forest
    ensures Valid(forest.K(), forest.St()) && Topological(forest.K(), Chunks(forest.St()))
            && forest.suboptimalChunks == []
    ensures prior != [] && IsLinearization(forest.K(), prior) ==> Under(forest.K(), prior, Chunks(forest.St()))
  {
    ghost var k := forest.K();
    assert forest.txData.Keys == k.txs by {
      ValidLinks(k, forest.St());
    }
    hide Valid, Topological, IsLinearization, Chunks, WeightOf, Surplus, ClusterOf, Singletons;
    if prior != [] {
      forest.LoadLinearization(prior);
      if !isTopological {
        forest.MakeTopological();
      }
    } else {
      forest.MakeTopological();
    }
  }

  /** Improvement steps until all chunks are optimal or the budget is used up. Each step has some
      positive cost. */
  method Optimize(forest: SpanningForestState, maxCost: nat, start: nat, ghost prior: seq<nat>) returns (cost: nat)
    requires Valid(forest.K(), forest.St()) && Topological(forest.K(), Chunks(forest.St()))
             && forest.suboptimalChunks == []
    modifies forest
    ensures Valid(forest.K(), forest.St()) && Topological(forest.K(), Chunks(forest.St()))
    ensures old(Under(forest.K(), prior, Chunks(forest.St()))) ==> Under(forest.K(), prior, Chunks(forest.St()))
    ensures cost < maxCost ==> AllOptimal(forest.K(), forest.St())
  {
    hide Valid, Topological, Chunks, Under, AtLeastAsGood, ChunkOptimal, ClusterOf;
    ghost var k, good := forest.K(), Under(forest.K(), prior, Chunks(forest.St()));
    cost := start;
    if cost < maxCost {
      forest.StartOptimizing();
      var more := true;
      while more && cost < maxCost
        invariant forest.Optimizing() && forest.K() == k && (good ==> Under(k, prior, Chunks(forest.St())))
        invariant !more ==> AllOptimal(k, forest.St())
        decreases maxCost - cost, more
      {
        ghost var before := Chunks(forest.St());
        more := forest.OptimizeStep();
        if good {
          UnderBetter(k, prior, before, Chunks(forest.St()));
        }
        var spent: nat :| spent > 0;
        cost := cost + spent;
      }
    }
  }

  /** Minimization steps until all chunks are minimal or the budget is used up. */
  method Minimize(forest: SpanningForestState, maxCost: nat, start: nat, ghost prior: seq<nat>) returns (cost: nat,
      optimal: bool)
    requires Valid(forest.K(), forest.St()) && Topological(forest.K(), Chunks(forest.St()))
    requires start < maxCost ==> AllOptimal(forest.K(), forest.St())
    modifies forest
    ensures Valid(forest.K(), forest.St()) && Acyclic(forest.K(), Chunks(forest.St()))
            && WeaklyTopological(forest.K(), Chunks(forest.St()))
    ensures old(Under(forest.K(), prior, Chunks(forest.St()))) ==> Under(forest.K(), prior, Chunks(forest.St()))
    ensures optimal ==> AllOptimal(forest.K(), forest.St())
    ensures optimal ==> forall i | i in forest.chunkIdxs :: Unsplittable(forest.K(), TxsAt(forest.St(), i))
  {
    hide Valid, Topological, Chunks, Under, SameDiagram, ChunkOptimal, ClusterOf, Unsplittable, TxsAt, Acyclic,
        WeaklyTopological, Pruned;
    ghost var k, good := forest.K(), Under(forest.K(), prior, Chunks(forest.St()));
    TopologicalAcyclic(k, Chunks(forest.St()));
    cost, optimal := start, false;
    if cost < maxCost {
      forest.StartMinimizing();
      while !optimal && cost < maxCost
        invariant Minimal(k, forest.St(), forest.nonminimalChunks) && forest.K() == k
                  && (good ==> Under(k, prior, Chunks(forest.St())))
        invariant optimal ==> forall i | i in forest.chunkIdxs :: Unsplittable(k, TxsAt(forest.St(), i))
        decreases maxCost - cost, !optimal
      {
        ghost var before := Chunks(forest.St());
        var more := forest.MinimizeStep();
        if good {
          UnderSame(k, prior, before, Chunks(forest.St()));
        }
        optimal := !more;
        var spent: nat :| spent > 0;
        cost := cost + spent;
      }
    }
  }

  /** Each part of a listing is a chunk that no part of equal or higher feerate could precede. */
  ghost predicate MinimalChunks(k: Cluster, parts: seq<seq<nat>>) {
    forall i | 0 <= i < |parts| :: LocallyOptimal(k, ToSet(parts[i])) && Unsplittable(k, ToSet(parts[i]))
  }

  lemma ListedMinimal(k: Cluster, f: Forest, parts: seq<seq<nat>>)
    requires Valid(k, f) && AllOptimal(k, f) && Lists(Chunks(f), parts)
    requires forall i | i in f.chunkIdxs :: Unsplittable(k, TxsAt(f, i))
    ensures MinimalChunks(k, parts)
  {
    hide Valid, ChunkOptimal, TxsAt, LocallyOptimal, Unsplittable, ToSet;
    forall i | 0 <= i < |parts|
      ensures LocallyOptimal(k, ToSet(parts[i])) && Unsplittable(k, ToSet(parts[i]))
    {
      var j :| j in f.chunkIdxs && ToSet(parts[i]) == TxsAt(f, j);
      ChunkOptimalLocally(k, f, j);
    }
  }

  // ---------------------------------------------------------------- minimal chunks are the chunks

  ghost function PartFees(k: Cluster, parts: seq<seq<nat>>): seq<seq<FeeFrac>> {
    seq(|parts|, (i: nat) => if i < |parts| then FeesOf(k, parts[i]) else [])
  }

  lemma {:induction false} FeesOfFlatten(k: Cluster, parts: seq<seq<nat>>)
    ensures FeesOf(k, Flatten(parts)) == Concat(PartFees(k, parts))
  {
    if parts != [] {
      var m := |parts| - 1;
      FeesOfFlatten(k, parts[..m]);
      assert PartFees(k, parts)[..m] == PartFees(k, parts[..m]);
      assert FeesOf(k, Flatten(parts[..m]) + parts[m]) == FeesOf(k, Flatten(parts[..m])) + FeesOf(k, parts[m]);
    }
  }

  /** Where a part begins in the listing. */
  lemma PartPosition(parts: seq<seq<nat>>, i: nat) returns (a: nat)
    requires i < |parts|
    ensures a + |parts[i]| <= |Flatten(parts)| && Flatten(parts)[a..a + |parts[i]|] == parts[i]
  {
    var upTo := Flatten(parts[..i]);
    a := |upTo|;
    FlattenPrefix(parts, i + 1);
    assert parts[..i + 1] == parts[..i] + [parts[i]];
    FlattenAppend(parts[..i], parts[i]);
    hide Flatten;
    var whole := upTo + parts[i];
    assert Flatten(parts)[..|whole|] == whole;
    assert whole[a..] == parts[i];
  }

  /** A beginning of a piece of a linearization could be included before the rest of the piece. */
  lemma PieceClosed(k: Cluster, lin: seq<nat>, a: nat, b: nat, n: nat)
    requires k.Valid() && IsLinearization(k, lin) && a <= b <= |lin| && n <= b - a
    ensures ClosedWithin(k, ToSet(lin[a..b]), ToSet(lin[a..b][..n]))
  {
    forall d | d in k.deps && d.1 in ToSet(lin[a..b][..n]) && d.0 in ToSet(lin[a..b])
      ensures d.0 in ToSet(lin[a..b][..n])
    {
      var i :| 0 <= i < b - a && lin[a..b][i] == d.0;
      var j :| 0 <= j < n && lin[a..b][..n][j] == d.1;
      assert lin[a + i] == d.0 && lin[a + j] == d.1 && (lin[a + i], lin[a + j]) == d;
      assert lin[a..b][..n][i] == d.0;
    }
  }

  lemma PieceTight(k: Cluster, lin: seq<nat>, a: nat, b: nat)
    requires k.Valid() && IsLinearization(k, lin) && a < b <= |lin|
    requires LocallyOptimal(k, ToSet(lin[a..b])) && Unsplittable(k, ToSet(lin[a..b]))
    ensures Tight(FeesOf(k, lin[a..b])) && Total(FeesOf(k, lin[a..b])) == FeeRate(k, ToSet(lin[a..b]))
  {
    var p := lin[a..b];
    var fs := FeesOf(k, p);
    hide ToSet, FeesOf, Rate, FeeRate, Acc, Sized;
    FeesSized(k, p);
    FeesAcc(k, p, |p|);
    assert p[..|p|] == p;
    forall n: nat | 0 < n < |p|
      ensures Rate(Acc(fs, n)) < Rate(Total(fs))
    {
      FeesAcc(k, p, n);
      PieceClosed(k, lin, a, b, n);
      ProperPrefix(p, n);
      assert RateOf(k, ToSet(p[..n])) <= RateOf(k, ToSet(p));
    }
  }

  lemma ProperPrefix(p: seq<nat>, n: nat)
    requires 0 < n < |p| && forall i, j | 0 <= i < j < |p| :: p[i] != p[j]
    ensures ToSet(p[..n]) != {} && ToSet(p[..n]) != ToSet(p)
  {
    assert p[0] in ToSet(p[..n]);
    assert p[n] in ToSet(p) && p[n] !in ToSet(p[..n]);
  }

  /** In minimal chunks, listed by non-increasing feerate, the chunks are those of the diagram. */
  lemma MinimalDiagram(k: Cluster, chunks: set<set<nat>>, parts: seq<seq<nat>>)
    requires k.Valid() && IsLinearization(k, Flatten(parts)) && MinimalChunks(k, parts)
    requires Lists(chunks, parts) && {} !in chunks && Descending(k, chunks, parts)
    ensures Chunking(FeesOf(k, Flatten(parts))) == PartRates(k, parts)
  {
    hide Tight, Total, Chunking, Concat, FeeRate, Flatten, IsLinearization, LocallyOptimal, Unsplittable;
    var fs, cs := PartFees(k, parts), PartRates(k, parts);
    FeesOfFlatten(k, parts);
    forall i | 0 <= i < |cs|
      ensures Tight(fs[i]) && cs[i] == Total(fs[i])
    {
      var a := PartPosition(parts, i);
      assert ToSet(parts[i]) != {} ==> parts[i] != [];
      PieceTight(k, Flatten(parts), a, a + |parts[i]|);
    }
    forall i, j | 0 <= i < j < |cs|
      ensures Rate(cs[i]) >= Rate(cs[j])
    {
      LaterPart(chunks, parts, i, j);
      assert RateOf(k, ToSet(parts[j])) <= RateOf(k, ToSet(parts[i]));
    }
    ChunkingOfGroups(fs, cs);
  }

  lemma LaterPart(chunks: set<set<nat>>, parts: seq<seq<nat>>, i: nat, j: nat)
    requires Lists(chunks, parts) && i < j < |parts|
    ensures ToSet(parts[j]) in chunks && ToSet(parts[j]) !in Sets(parts[..i])
  {
    hide ToSet;
    ListsPrefix(chunks, parts, j);
  }

  lemma ListedDiagram(k: Cluster, f: Forest, rank: nat -> int, parts: seq<seq<nat>>)
    requires Valid(k, f) && AllOptimal(k, f) && Lists(Chunks(f), parts) && BestFirst(k, rank, Chunks(f), parts)
    requires forall i | i in f.chunkIdxs :: Unsplittable(k, TxsAt(f, i))
    requires WeaklyTopological(k, Chunks(f)) && Acyclic(k, Chunks(f)) && IsLinearization(k, Flatten(parts))
    ensures MinimalChunks(k, parts) && Chunking(FeesOf(k, Flatten(parts))) == PartRates(k, parts)
  {
    hide Valid, AllOptimal, TxsAt, Unsplittable, Lists, BestChunkFirst, BestTxFirst, WeaklyTopological, Acyclic,
        IsLinearization, MinimalChunks,
         Chunking, Flatten, FeesOf, PartRates, HighestReadyFirst, Descending;
    assert {} !in Chunks(f) && k.Valid() by {
      forall i | i in f.chunkIdxs
        ensures TxsAt(f, i) != {}
      {
        ChunkStored(k, f, i);
      }
      ValidLinks(k, f);
    }
    ListedMinimal(k, f, parts);
    BestIsHighest(k, rank, Chunks(f), parts);
    ReadyIsHighest(k, Chunks(f), parts);
    MinimalDiagram(k, Chunks(f), parts);
  }

  /** Linearize: the result is topological; at least as good as a topological old linearization;
      and, when flagged optimal, as good as every topological order, in minimal chunks. */
  method Linearize(g: DepGraph, maxCost: nat, rank: nat -> int, prior: seq<nat>, isTopological: bool)
    returns (lin: seq<nat>, optimal: bool, cost: nat, ghost parts: seq<seq<nat>>)
    requires g.Valid() && Injective(rank, g.Positions()) && (forall t | t in prior :: t in g.entries)
    requires prior != [] && isTopological ==> IsTopological(g, prior)
    ensures IsTopological(g, lin)
    ensures prior != [] && IsTopological(g, prior) ==> AsGood(g, lin, prior)
    ensures optimal ==> forall other: seq<nat> | IsTopological(g, other) :: AsGood(g, lin, other)
    ensures lin == Flatten(parts)
    ensures optimal ==> MinimalChunks(ClusterOf(g), parts) && Diagram(g, lin) == PartRates(ClusterOf(g), parts)
  {
    hide Valid, Topological, Chunks, Under, ChunkOptimal, IsLinearization, IsTopological, Unsplittable, TxsAt,
        Acyclic, WeaklyTopological,
         Lists, Sets, Flatten, BestFirst, ReachesDiagram, Diagram, AsGood, MinimalChunks, Singletons, AllOptimal,
         Chunking, FeesOf, PartRates;
    assert ClusterOf(g).txs == g.Positions();
    TopologicalIsLinearization(g, prior);
    var forest := new SpanningForestState(g);
    ghost var k := ClusterOf(g);
    hide ClusterOf;
    Prepare(forest, prior, isTopological);
    var start: nat :| true;
    cost := Optimize(forest, maxCost, start, prior);
    cost, optimal := Minimize(forest, maxCost, cost, prior);
    lin, parts := forest.GetLinearization(rank);
    ghost var f := forest.St();
    TopologicalIsLinearization(g, lin);
    if prior != [] && IsTopological(g, prior) {
      DiagramBetter(g, lin, prior, Chunks(f));
    }
    if optimal {
      ListedDiagram(k, f, rank, parts);
      DiagramIs(g, lin);
      forall other: seq<nat> | IsTopological(g, other)
        ensures AsGood(g, lin, other)
      {
        TopologicalIsLinearization(g, other);
        OptimalOver(k, f, other);
        DiagramBetter(g, lin, other, Chunks(f));
      }
    }
  }

  lemma DiagramIs(g: DepGraph, lin: seq<nat>)
    ensures Diagram(g, lin) == Chunking(FeesOf(ClusterOf(g), lin))
  {
  }

  lemma DiagramBetter(g: DepGraph, a: seq<nat>, b: seq<nat>, chunks: set<set<nat>>)
    requires var k := ClusterOf(g);
             IsLinearization(k, a) && IsLinearization(k, b) && ReachesDiagram(k, a, chunks) && Under(k, b, chunks)
    ensures AsGood(g, a, b)
  {
    ReachesUnder(ClusterOf(g), a, b, chunks);
  }

  // ---------------------------------------------------------------- what GetDiagram says

  /** The linearization is at least as good as the diagram of the chunks; once all chunks are
      optimal the two are equivalent, and as good as every topological order. */
  lemma DiagramOfState(g: DepGraph, f: Forest, lin: seq<nat>, d: seq<FeeFrac>)
    requires g.Valid() && Valid(ClusterOf(g), f) && IsDiagram(ClusterOf(g), Chunks(f), d)
    requires IsLinearization(ClusterOf(g), lin) && ReachesDiagram(ClusterOf(g), lin, Chunks(f))
    ensures Dominates(Diagram(g, lin), d)
    ensures AllOptimal(ClusterOf(g), f) ==> forall other: seq<nat> | IsTopological(g, other) ::
                                              Dominates(d, Diagram(g, other))
  {
    hide Valid, IsDiagram, Dominates, ReachesDiagram, IsLinearization, AllOptimal, Chunking, FeesOf, Under, Chunks,
        IsTopological, ClusterOf;
    ChunksPartition(ClusterOf(g), f);
    LinearizationDiagram(ClusterOf(g), lin, Chunks(f), d);
    if AllOptimal(ClusterOf(g), f) {
      forall other: seq<nat> | IsTopological(g, other)
        ensures Dominates(d, Diagram(g, other))
      {
        TopologicalIsLinearization(g, other);
        OptimalOver(ClusterOf(g), f, other);
        LinearizationDiagram(ClusterOf(g), other, Chunks(f), d);
      }
    }
  }

  /** Steps that keep or improve the surplus keep or improve the diagram. */
  lemma DiagramOfStep(k: Cluster, f: Forest, d: seq<FeeFrac>, f': Forest, d': seq<FeeFrac>)
    requires Valid(k, f) && Valid(k, f') && IsDiagram(k, Chunks(f), d) && IsDiagram(k, Chunks(f'), d')
    ensures AtLeastAsGood(k, Chunks(f'), Chunks(f)) <==> Dominates(d', d)
    ensures SameDiagram(k, Chunks(f'), Chunks(f)) <==> Dominates(d', d) && Dominates(d, d')
  {
    hide Valid, IsDiagram, Dominates, Chunks, Surplus;
    ChunksPartition(k, f);
    ChunksPartition(k, f');
    GoodIsDominates(k, Chunks(f'), d', Chunks(f), d);
    GoodIsDominates(k, Chunks(f), d, Chunks(f'), d');
  }

  /** A child of feerate 2 after its parent of feerate 0. */
  function ParentAndChild(): DepGraph {
    DepGraph(map[0 := Entry(FeeFrac(0, 1), {0}, {0, 1}), 1 := Entry(FeeFrac(2, 1), {0, 1}, {1})])
  }

  lemma PairOrders(lin: seq<nat>)
    requires IsTopological(ParentAndChild(), lin)
    ensures lin == [0, 1]
  {
    var g := ParentAndChild();
    assert 0 in ToSet(lin) && 1 in ToSet(lin);
    var i :| 0 <= i < |lin| && lin[i] == 0;
    var j :| 0 <= j < |lin| && lin[j] == 1;
    assert lin[i] in g.Anc(lin[j]);
    forall n | 0 <= n < |lin|
      ensures lin[n] == 0 || lin[n] == 1
    {
      assert lin[n] in ToSet(lin);
    }
    var a, b, c := lin[0], lin[1], lin[if |lin| > 2 then 2 else 0];
  }

  lemma PairFees()
    ensures FeesOf(ClusterOf(ParentAndChild()), [0, 1]) == [FeeFrac(0, 1), FeeFrac(2, 1)]
    ensures FeesOf(ClusterOf(ParentAndChild()), [1, 0]) == [FeeFrac(2, 1), FeeFrac(0, 1)]
  {
    hide ReducedParents;
    var k := ClusterOf(ParentAndChild());
    assert k.FeeOf(0) == FeeFrac(0, 1) && k.FeeOf(1) == FeeFrac(2, 1);
  }

  lemma PairChunks()
    ensures Chunking([FeeFrac(0, 1), FeeFrac(2, 1)]) == [FeeFrac(2, 2)]
    ensures Chunking([FeeFrac(2, 1), FeeFrac(0, 1)]) == [FeeFrac(2, 1), FeeFrac(0, 1)]
  {
    assert Chunking([FeeFrac(0, 1)]) == [FeeFrac(0, 1)] && Chunking([FeeFrac(2, 1)]) == [FeeFrac(2, 1)];
    assert [FeeFrac(0, 1), FeeFrac(2, 1)][..1] == [FeeFrac(0, 1)];
    assert [FeeFrac(2, 1), FeeFrac(0, 1)][..1] == [FeeFrac(2, 1)];
    assert Absorb([], FeeFrac(2, 2)) == [FeeFrac(2, 2)];
  }

  lemma PairHeights()
    ensures Height([FeeFrac(2, 2)], 1.0) == 1.0 && Height([FeeFrac(2, 1), FeeFrac(0, 1)], 1.0) == 2.0
  {
  }

  lemma PairValid()
    ensures ParentAndChild().Valid()
  {
  }

  /** An old linearization that is not topological can be better than every topological one, so that
      no result is as good. */
  lemma PriorTooGood(lin: seq<nat>)
    requires IsTopological(ParentAndChild(), lin)
    ensures ParentAndChild().Valid() && !AsGood(ParentAndChild(), lin, [1, 0])
  {
    hide Chunking, FeesOf, Height, ClusterOf, ParentAndChild;
    PairValid();
    PairOrders(lin);
    PairFees();
    PairChunks();
    PairHeights();
  }
}
