/** One improvement step on a forest: the chunk-level argument of module Improving carried over
    to the data of the forest, and the queue of chunks that may still be improvable. */
module ForestImproving {
  import opened FeeFracs
  import opened Clusters
  import opened Merging
  import opened Improving
  import opened Trees
  import Flow
  import opened Forests
  import opened Deactivation
  import opened ForestFacts
  import opened ForestMerging

  /** Every chunk that is not queued is optimal, except possibly chunk `but`. */
  ghost predicate QueuedOrOptimal(k: Cluster, f: Forest, queued: set<nat>, but: set<nat>) {
    forall i | i in f.chunkIdxs && i !in queued && i !in but :: ChunkOptimal(k, f, i)
  }

  /** The queue holds each of its indexes once. */
  ghost predicate QueueOk(idxs: set<nat>, queue: seq<nat>) {
    && (forall i :: i in idxs <==> i in queue)
    && (forall a, b | 0 <= a < b < |queue| :: queue[a] != queue[b])
  }

  lemma QueuedQueueOk(idxs: set<nat>, queue: seq<nat>, m: nat, idxs': set<nat>, queue': seq<nat>)
    requires QueueOk(idxs, queue) && Queued(idxs, queue, m, idxs', queue')
    ensures QueueOk(idxs', queue')
  {
  }

  lemma SwapQueueOk(idxs: set<nat>, queue: seq<nat>, i: nat, j: nat)
    requires QueueOk(idxs, queue) && i < j < |queue|
    ensures QueueOk(idxs, queue[i := queue[j]][j := queue[i]])
  {
    var after := queue[i := queue[j]][j := queue[i]];
    forall x
      ensures x in queue <==> x in after
    {
      if x in queue {
        var n :| 0 <= n < |queue| && queue[n] == x;
        assert after[if n == i then j else if n == j then i else n] == x;
      }
      if x in after {
        var n :| 0 <= n < |after| && after[n] == x;
        assert queue[if n == i then j else if n == j then i else n] == x;
      }
    }
  }

  lemma PopQueueOk(idxs: set<nat>, queue: seq<nat>)
    requires QueueOk(idxs, queue) && queue != []
    ensures QueueOk(idxs - {queue[0]}, queue[1..])
  {
    assert queue == [queue[0]] + queue[1..];
  }

  lemma EmptyQueue(idxs: set<nat>, queue: seq<nat>)
    requires QueueOk(idxs, queue) && queue == []
    ensures idxs == {}
  {
  }

  /** d is an active dependency whose top set has a higher feerate than its chunk. */
  ghost predicate Violating(k: Cluster, f: Forest, d: Dep) {
    CanDeactivate(k, f, d) && RateOf(k, TopAt(f, d)) > RateOf(k, ChunkOf(f, d.0))
  }

  lemma ChunksKnown(k: Cluster, f: Forest)
    requires Valid(k, f)
    ensures Known(k, Chunks(f)) && Separate(Chunks(f))
  {
    ChunksPartition(k, f);
    hide Linked, Indexed, Partitioned, Connected, Topped, Rated, Reached, TxsAt;
    forall x | x in Chunks(f)
      ensures x <= k.fees.Keys
    {
      assert x <= Cover(Chunks(f));
    }
  }

  /** The parent chunk depends on the child chunk exactly if its reachable set meets it. */
  lemma OverlapDepends(k: Cluster, f: Forest, i: nat, j: nat)
    requires Valid(k, f) && i in f.chunkIdxs && j in f.chunkIdxs && i != j
    ensures Reachable(f, i, false) * TxsAt(f, j) != {} <==> DependsOn(k, TxsAt(f, i), TxsAt(f, j))
  {
    hide Valid, Reachable, TxsAt;
    ValidReach(k, f, i);
    ChunksDisjoint(k, f, i, j);
    if DependsOn(k, TxsAt(f, i), TxsAt(f, j)) {
      var d :| d in k.deps && d.0 in TxsAt(f, j) && d.1 in TxsAt(f, i);
      assert d.0 in Reachable(f, i, false) * TxsAt(f, j);
    }
    if Reachable(f, i, false) * TxsAt(f, j) != {} {
      var t :| t in Reachable(f, i, false) * TxsAt(f, j);
      var d :| d in k.deps && d.1 in TxsAt(f, i) && d.0 == t;
    }
  }

  /** Chunk-level facts of a split. */
  lemma SplitFacts(k: Cluster, f: Forest, d: Dep, f1: Forest)
    requires CanDeactivate(k, f, d) && Deactivated(k, f, d, f1)
    ensures Valid(k, f1)
    ensures var pi, ci := TopIdx(f.txData, d), ChunkIdx(f.txData, d.0);
            var x, t, b := ChunkOf(f, d.0), TxsAt(f1, pi), TxsAt(f1, ci);
            && pi in f1.chunkIdxs && ci in f1.chunkIdxs && pi != ci && x in Chunks(f)
            && t == TopAt(f, d) && x == t + b && t !! b && t != {} && b != {}
            && Chunks(f1) == Split(Chunks(f), x, t, b)
            && ci in f.chunkIdxs && f1.chunkIdxs == f.chunkIdxs + {pi}
  {
    hide Valid, CanDeactivate, Deactivated, Active, TopIdx, ChunkIdx, TxsAt, Rated, Reached, Linked, Component;
    CanDeactivateFacts(k, f, d);
    DeactivatedValid(k, f, d, f1);
    DeactivatedChunks(k, f, d, f1);
    DeactivatedCut(k, f, d, f1);
  }

  /** A split followed by a self-merge gives back the same chunks. */
  lemma SplitMerge(chunks: set<set<nat>>, x: set<nat>, t: set<nat>, b: set<nat>)
    requires Separate(chunks) && x in chunks && x == t + b && t !! b && t != {} && b != {}
    ensures Merge(Split(chunks, x, t, b), b, t) == chunks
  {
    SplitSeparate(chunks, x, t, b);
    hide Cover;
    assert b + t == x;
  }

  lemma SelfMerged(k: Cluster, f: Forest, d: Dep, f1: Forest, f2: Forest, m: nat)
    requires CanDeactivate(k, f, d) && Deactivated(k, f, d, f1)
    requires MergedInto(k, f1, ChunkIdx(f.txData, d.0), TopIdx(f.txData, d), f2, m)
    ensures Chunks(f2) == Chunks(f)
  {
    hide Valid, CanDeactivate, Deactivated, Active, TopIdx, ChunkIdx, TxsAt, Chunks, ChunkOptimal;
    SplitFacts(k, f, d, f1);
    CanDeactivateFacts(k, f, d);
    ChunksKnown(k, f);
    SplitMerge(Chunks(f), ChunkOf(f, d.0), TxsAt(f1, TopIdx(f.txData, d)), TxsAt(f1, ChunkIdx(f.txData, d.0)));
  }

  /** The queue after a self-merge. */
  lemma SelfMergedQueue(k: Cluster, f: Forest, d: Dep, f1: Forest, f2: Forest, m: nat, queued: set<nat>)
    requires CanDeactivate(k, f, d) && Deactivated(k, f, d, f1)
    requires MergedInto(k, f1, ChunkIdx(f.txData, d.0), TopIdx(f.txData, d), f2, m)
    requires QueuedOrOptimal(k, f, queued, {ChunkIdx(f.txData, d.0)})
    ensures QueuedOrOptimal(k, f2, queued + {m}, {})
  {
    hide Valid, CanDeactivate, Deactivated, Active, TopIdx, ChunkIdx, TxsAt, Chunks, ChunkOptimal;
    SplitFacts(k, f, d, f1);
    forall i | i in f2.chunkIdxs && i !in queued + {m}
      ensures ChunkOptimal(k, f2, i)
    {
      DeactivatedUntouched(k, f, d, f1, i);
    }
  }

  // ---------------------------------------------------------------- the two merge sequences

  lemma SplitReady(k: Cluster, f: Forest, d: Dep, f1: Forest)
    requires Violating(k, f, d) && Deactivated(k, f, d, f1) && Topological(k, Chunks(f))
    requires !DependsOn(k, TopAt(f, d), TxsAt(f1, ChunkIdx(f.txData, d.0)))
    ensures Splittable(k, Chunks(f), ChunkOf(f, d.0), TopAt(f, d), TxsAt(f1, ChunkIdx(f.txData, d.0)))
    ensures Climbing(k, Chunks(f1), Chunks(f1) - TxsOf(f1, {ChunkIdx(f.txData, d.0)}), TxsAt(f1, TopIdx(f.txData, d)))
  {
    hide Valid, CanDeactivate, Deactivated, Active, TopIdx, ChunkIdx, TxsAt, Chunks, RateOf, Topological, Climbing,
        DependsOn;
    SplitFacts(k, f, d, f1);
    CanDeactivateFacts(k, f, d);
    ChunksKnown(k, f);
    var x, t, b := ChunkOf(f, d.0), TopAt(f, d), TxsAt(f1, ChunkIdx(f.txData, d.0));
    SplitClimbing(k, Chunks(f), x, t, b);
    assert TxsOf(f1, {ChunkIdx(f.txData, d.0)}) == {b};
  }

  lemma ClimbedReady(k: Cluster, f: Forest, d: Dep, f1: Forest, f2: Forest, last: nat, ups: set<set<nat>>)
    requires Violating(k, f, d) && Deactivated(k, f, d, f1)
    requires Splittable(k, Chunks(f), ChunkOf(f, d.0), TopAt(f, d), TxsAt(f1, ChunkIdx(f.txData, d.0)))
    requires Sequence(k, TxsOf(f1, {ChunkIdx(f.txData, d.0)}), Chunks(f1), TxsAt(f1, TopIdx(f.txData, d)), Chunks(f2),
                      TxsAt(f2, last), ups)
    requires NothingToMerge(k, Chunks(f2), TxsAt(f2, last))
    requires TxsAt(f2, ChunkIdx(f.txData, d.0)) == TxsAt(f1, ChunkIdx(f.txData, d.0))
    ensures Climbed(k, Chunks(f), ChunkOf(f, d.0), TopAt(f, d), TxsAt(f1, ChunkIdx(f.txData, d.0)), Chunks(f2),
                    TxsAt(f2, last), ups)
    ensures Climbing(k.Reversed(), Chunks(f2), Chunks(f2) - TxsOf(f2, {}), TxsAt(f2, ChunkIdx(f.txData, d.0)))
  {
    hide Valid, CanDeactivate, Deactivated, Active, TopIdx, ChunkIdx, TxsAt, Chunks, RateOf, Climbing, DependsOn,
        Splittable, Gained, Absorbed, NothingToMerge;
    SplitFacts(k, f, d, f1);
    var x, t, b := ChunkOf(f, d.0), TopAt(f, d), TxsAt(f1, ChunkIdx(f.txData, d.0));
    assert TxsOf(f1, {ChunkIdx(f.txData, d.0)}) == {b};
    ClimbedDescending(k, Chunks(f), x, t, b, Chunks(f2), TxsAt(f2, last), ups);
    assert Chunks(f2) - TxsOf(f2, {}) == Chunks(f2);
  }

  lemma ImprovedReady(k: Cluster, f: Forest, d: Dep, f1: Forest, f2: Forest, last: nat, ups: set<set<nat>>,
                      f3: Forest, last': nat, downs: set<set<nat>>)
    requires Climbed(k, Chunks(f), ChunkOf(f, d.0), TopAt(f, d), TxsAt(f1, ChunkIdx(f.txData, d.0)), Chunks(f2),
                     TxsAt(f2, last), ups)
    requires TxsAt(f2, ChunkIdx(f.txData, d.0)) == TxsAt(f1, ChunkIdx(f.txData, d.0))
    requires Sequence(k.Reversed(), TxsOf(f2, {}), Chunks(f2), TxsAt(f2, ChunkIdx(f.txData, d.0)), Chunks(f3),
                      TxsAt(f3, last'), downs)
    requires NothingToMerge(k.Reversed(), Chunks(f3), TxsAt(f3, last'))
    ensures Topological(k, Chunks(f3))
    ensures AtLeastAsGood(k, Chunks(f3), Chunks(f)) && !AtLeastAsGood(k, Chunks(f), Chunks(f3))
  {
    hide TopIdx, ChunkIdx, TxsAt, Chunks, RateOf, Climbing, DependsOn, Climbed, Gained, Absorbed, NothingToMerge,
        Topological, AtLeastAsGood;
    var x, t, b := ChunkOf(f, d.0), TopAt(f, d), TxsAt(f1, ChunkIdx(f.txData, d.0));
    assert Chunks(f3) - TxsOf(f2, {}) == Chunks(f3);
    assert Improved(k, Chunks(f), x, t, b, Chunks(f2), TxsAt(f2, last), ups, Chunks(f3), TxsAt(f3, last'), downs);
    hide Improved;
    ImprovedTopological(k, Chunks(f), x, t, b, Chunks(f2), TxsAt(f2, last), ups, Chunks(f3), TxsAt(f3, last'), downs);
    ImprovedStrictly(k, Chunks(f), x, t, b, Chunks(f2), TxsAt(f2, last), ups, Chunks(f3), TxsAt(f3, last'), downs);
  }

  /** The queue after both merge sequences. */
  lemma ImprovedQueue(k: Cluster, f: Forest, d: Dep, f1: Forest, f2: Forest, last: nat, f3: Forest, last': nat,
                      queued: set<nat>)
    requires CanDeactivate(k, f, d) && Deactivated(k, f, d, f1)
    requires Framed(k, f1, TopIdx(f.txData, d), f2, last)
    requires Framed(k, f2, ChunkIdx(f.txData, d.0), f3, last')
    requires QueuedOrOptimal(k, f, queued, {ChunkIdx(f.txData, d.0)})
    ensures QueuedOrOptimal(k, f3, queued + {last} + {last'}, {})
  {
    hide Valid, CanDeactivate, Deactivated, Active, TopIdx, ChunkIdx, TxsAt, Chunks, ChunkOptimal;
    SplitFacts(k, f, d, f1);
    forall i | i in f3.chunkIdxs && i !in queued + {last} + {last'}
      ensures ChunkOptimal(k, f3, i)
    {
      DeactivatedUntouched(k, f, d, f1, i);
    }
  }

  // ---------------------------------------------------------------- picking dependencies

  /** The dependencies of chunk i whose parent is in txs are not violating. */
  ghost predicate OptimalOn(k: Cluster, f: Forest, i: nat, txs: set<nat>) {
    forall e | e in Active(f.txData) && e.0 in txs :: RateOf(k, TopAt(f, e)) <= RateOf(k, TxsAt(f, i))
  }

  lemma OptimalOnAll(k: Cluster, f: Forest, i: nat)
    requires Valid(k, f) && i in f.chunkIdxs && OptimalOn(k, f, i, TxsAt(f, i))
    ensures ChunkOptimal(k, f, i)
  {
    hide Valid, Active, TopIdx, ChunkIdx, SetAt, RateOf;
    forall e | e in Active(f.txData) && ChunkIdx(f.txData, e.0) == i
      ensures RateOf(k, TopAt(f, e)) <= RateOf(k, TxsAt(f, i))
    {
      ActiveChunk(k, f, e);
    }
  }

  /** Comparing the stored feerates of a top set and of its chunk. */
  lemma TopCompare(k: Cluster, f: Forest, i: nat, e: Dep)
    requires Valid(k, f) && i in f.chunkIdxs && e in Active(f.txData) && e.0 in TxsAt(f, i)
    ensures e.0 in f.txData && e.1 in f.txData[e.0].depTop && TopIdx(f.txData, e) < |f.setInfo|
    ensures ChunkIdx(f.txData, e.0) == i
    ensures var c := FeeRateCompare(SetAt(f, TopIdx(f.txData, e)).feerate, SetAt(f, i).feerate);
            && (c > 0 <==> RateOf(k, TopAt(f, e)) > RateOf(k, TxsAt(f, i)))
            && (c < 0 <==> RateOf(k, TopAt(f, e)) < RateOf(k, TxsAt(f, i)))
  {
    ActiveChunk(k, f, e);
    CanDeactivateFacts(k, f, e);
    ForestTree(k, f, i);
    assert TopAt(f, e) != {} && SetAt(f, i).feerate == FeeRate(k, TxsAt(f, i));
    Flow.RateCompareOf(k, TopAt(f, e), TxsAt(f, i));
    hide Valid, RateOf, FeeRateCompare, FeeRate, SetAt, Trees.IsTree, Active, Component, TopOf;
  }

  lemma OptimalOnNone(k: Cluster, f: Forest, i: nat)
    ensures OptimalOn(k, f, i, {})
  {
  }

  lemma OptimalOnAdd(k: Cluster, f: Forest, i: nat, txs: set<nat>, t: nat)
    requires OptimalOn(k, f, i, txs) && t in f.txData
    requires forall c | c in f.txData[t].activeChildren :: RateOf(k, TopAt(f, (t, c))) <= RateOf(k, TxsAt(f, i))
    ensures OptimalOn(k, f, i, txs + {t})
  {
    hide RateOf, TxsAt, TopIdx;
  }

  lemma ViolatingDep(k: Cluster, f: Forest, i: nat, e: Dep)
    requires Valid(k, f) && i in f.chunkIdxs && e in Active(f.txData) && ChunkIdx(f.txData, e.0) == i
    requires RateOf(k, TopAt(f, e)) > RateOf(k, TxsAt(f, i))
    ensures Violating(k, f, e)
  {
    hide Valid, RateOf;
  }

  lemma TopIdxAt(txData: map<nat, TxData>, e: Dep)
    requires e.0 in txData && e.1 in txData[e.0].depTop
    ensures TopIdx(txData, e) == txData[e.0].depTop[e.1]
  {
  }

  lemma ReachableAt(k: Cluster, f: Forest, i: nat)
    requires Valid(k, f) && i in f.chunkIdxs
    ensures i < |f.setInfo| && i < |f.reachable|
    ensures TxsAt(f, i) == f.setInfo[i].transactions && SetAt(f, i) == f.setInfo[i]
    ensures Reachable(f, i, false) == f.reachable[i].0 && Reachable(f, i, true) == f.reachable[i].1
  {
  }

  lemma QueuedIdxs(idxs: set<nat>, queue: seq<nat>, m: nat, idxs': set<nat>, queue': seq<nat>)
    requires Queued(idxs, queue, m, idxs', queue')
    ensures idxs' == idxs + {m}
  {
  }

  lemma AtLeastAsGoodSelf(k: Cluster, chunks: set<set<nat>>)
    ensures AtLeastAsGood(k, chunks, chunks)
  {
  }
}
