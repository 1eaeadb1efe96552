/** From the data of a valid forest to statements about its chunks. */
module ForestFacts {
  import opened FeeFracs
  import opened Clusters
  import opened Merging
  import opened Trees
  import opened Flow
  import opened Optimality
  import opened Forests
  import opened Activation
  import opened Deactivation

  // ---------------------------------------------------------------- trees

  ghost function TopsMap(f: Forest): map<Dep, set<nat>> {
    map e | e in Active(f.txData) :: TopAt(f, e)
  }

  lemma ForestTree(k: Cluster, f: Forest, i: nat)
    requires Valid(k, f) && i in f.chunkIdxs
    ensures IsTree(Active(f.txData), TxsAt(f, i), TopsMap(f))
    ensures Active(f.txData) <= k.deps && TxsAt(f, i) != {} && TxsAt(f, i) <= k.txs
  {
    hide Active, TopIdx, ChunkIdx, SetAt, Linked, Indexed, Rated, Reached, Component, TopOf;
    assert Component(Active(f.txData), TxsAt(f, i));
    ComponentNonEmpty(Active(f.txData), TxsAt(f, i));
    forall d | d in Active(f.txData)
      ensures d in k.deps
      ensures d.0 in TxsAt(f, i) ==> TopOf(Active(f.txData), TxsAt(f, i), d, TopAt(f, d))
    {
      ActiveInside(k, f, d);
    }
  }

  lemma ComponentNonEmpty(active: set<Dep>, x: set<nat>)
    requires Component(active, x)
    ensures x != {}
  {
  }

  /** SanityCheck: a chunk of n transactions has exactly n - 1 active dependencies. */
  lemma ChunkDependencyCount(k: Cluster, f: Forest, i: nat)
    requires Valid(k, f) && i in f.chunkIdxs
    ensures |Inner(Active(f.txData), TxsAt(f, i))| == |TxsAt(f, i)| - 1
  {
    hide Valid, Active, TxsAt, TopsMap, IsTree;
    ForestTree(k, f, i);
    TreeCount(Active(f.txData), TxsAt(f, i), TopsMap(f));
  }

  /** SanityCheck: a top set is the component of the parent once its dependency is removed. */
  lemma TopSetExact(k: Cluster, f: Forest, d: Dep)
    requires Valid(k, f) && d in Active(f.txData)
    ensures Component(Active(f.txData) - {d}, TopAt(f, d)) && d.0 in TopAt(f, d)
    ensures Component(Active(f.txData) - {d}, BottomAt(f, d)) && d.1 in BottomAt(f, d)
    ensures forall s: set<nat> | Component(Active(f.txData) - {d}, s) && d.0 in s :: s == TopAt(f, d)
  {
    hide Valid, Active, TxsAt, Component, Rated, Reached, Linked;
    CanDeactivateFacts(k, f, d);
    TopIsComponent(Active(f.txData), ChunkOf(f, d.0), d, TopAt(f, d));
  }

  // ---------------------------------------------------------------- optimal chunks

  /** No active dependency of chunk i has a top set of higher feerate than the chunk. */
  ghost predicate ChunkOptimal(k: Cluster, f: Forest, i: nat) {
    forall e | e in Active(f.txData) && ChunkIdx(f.txData, e.0) == i :: RateOf(k, TopAt(f, e)) <= RateOf(k, TxsAt(f, i))
  }

  lemma ChunkOptimalTree(k: Cluster, f: Forest, i: nat)
    requires Valid(k, f) && i in f.chunkIdxs && ChunkOptimal(k, f, i)
    ensures IsTree(Active(f.txData), TxsAt(f, i), TopsMap(f))
    ensures NoHigherTop(k, Active(f.txData), TxsAt(f, i), TopsMap(f))
  {
    ForestTree(k, f, i);
    hide Active, TopIdx, ChunkIdx, SetAt, Linked, Indexed, Rated, Reached, Component, TopOf, RateOf, IsTree,
        Connected, Topped;
  }

  lemma ChunkOptimalLocally(k: Cluster, f: Forest, i: nat)
    requires Valid(k, f) && i in f.chunkIdxs && ChunkOptimal(k, f, i)
    ensures LocallyOptimal(k, TxsAt(f, i))
  {
    hide Valid, Active, TxsAt, TopsMap, IsTree, NoHigherTop, LocallyOptimal;
    ForestTree(k, f, i);
    ChunkOptimalTree(k, f, i);
    TreeLocallyOptimal(k, Active(f.txData), TxsAt(f, i), TopsMap(f));
  }

  /** An activation leaves other chunks as optimal as they were. */
  lemma ActivatedUntouched(k: Cluster, f: Forest, d: Dep, f': Forest, i: nat)
    requires CanActivate(k, f, d) && Activated(f, d, f')
    requires i in f.chunkIdxs && i != ChunkIdx(f.txData, d.0) && i != ChunkIdx(f.txData, d.1)
    ensures i in f'.chunkIdxs && TxsAt(f', i) == TxsAt(f, i)
    ensures ChunkOptimal(k, f, i) ==> ChunkOptimal(k, f', i)
  {
    hide Activated, CanActivate, Valid, Rated, Reached, Active, ChunkIdx, TopIdx, SetAt, RateOf;
    CanActivateFacts(k, f, d);
    ActivatedJoined(k, f, d, f');
    if ChunkOptimal(k, f, i) {
      forall e | e in Active(f'.txData) && ChunkIdx(f'.txData, e.0) == i
        ensures RateOf(k, TopAt(f', e)) <= RateOf(k, TxsAt(f', i))
      {
        UntouchedDep(k, f, d, f', i, e);
      }
    }
  }

  lemma UntouchedDep(k: Cluster, f: Forest, d: Dep, f': Forest, i: nat, e: Dep)
    requires Valid(k, f) && Joined(k, f, d, f') && e in Active(f'.txData) && ChunkIdx(f'.txData, e.0) == i
    requires i in f.chunkIdxs && i != ChunkIdx(f.txData, d.0) && i != ChunkIdx(f.txData, d.1)
    ensures e in Active(f.txData) && ChunkIdx(f.txData, e.0) == i && TopAt(f', e) == TopAt(f, e)
  {
    assert e != d;
    ActiveInside(k, f, e);
    ActiveChunk(k, f, e);
    hide Valid, Active, ChunkIdx, TopIdx, SetAt;
  }

  lemma ActiveChunk(k: Cluster, f: Forest, e: Dep)
    requires Valid(k, f) && e in Active(f.txData)
    ensures e.0 in ChunkOf(f, e.0) && ChunkIdx(f.txData, e.0) in f.chunkIdxs
    ensures forall i | i in f.chunkIdxs && e.0 in TxsAt(f, i) :: i == ChunkIdx(f.txData, e.0)
  {
    ActiveInside(k, f, e);
    hide Active, ChunkIdx, TopIdx, SetAt, Linked, Indexed, Connected, Topped, Rated, Reached;
  }

  lemma DeactivatedUntouched(k: Cluster, f: Forest, d: Dep, f': Forest, i: nat)
    requires CanDeactivate(k, f, d) && Deactivated(k, f, d, f')
    requires i in f.chunkIdxs && i != ChunkIdx(f.txData, d.0)
    ensures i in f'.chunkIdxs && i != TopIdx(f.txData, d) && TxsAt(f', i) == TxsAt(f, i)
    ensures ChunkOptimal(k, f, i) ==> ChunkOptimal(k, f', i)
  {
    hide Deactivated, CanDeactivate, Valid, Rated, Reached, Active, ChunkIdx, TopIdx, SetAt, RateOf, Linked,
        Component, TopOf;
    CanDeactivateFacts(k, f, d);
    DeactivatedCut(k, f, d, f');
    if ChunkOptimal(k, f, i) {
      forall e | e in Active(f'.txData) && ChunkIdx(f'.txData, e.0) == i
        ensures RateOf(k, TopAt(f', e)) <= RateOf(k, TxsAt(f', i))
      {
        UntouchedDepCut(k, f, d, f', i, e);
      }
    }
  }

  lemma UntouchedDepCut(k: Cluster, f: Forest, d: Dep, f': Forest, i: nat, e: Dep)
    requires Valid(k, f) && Cut(k, f, d, f') && e in Active(f'.txData) && ChunkIdx(f'.txData, e.0) == i
    requires i in f.chunkIdxs && i != ChunkIdx(f.txData, d.0)
    ensures e in Active(f.txData) && ChunkIdx(f.txData, e.0) == i && TopAt(f', e) == TopAt(f, e)
  {
    ActiveInside(k, f, e);
    ActiveChunk(k, f, e);
    TopInside(k, f, d);
    ActiveChunk(k, f, d);
    hide Valid, Active, ChunkIdx, TopIdx, SetAt;
    assert e.0 !in TopAt(f, d);
    assert ChunkIdx(f.txData, e.0) == i;
    assert e.0 !in ChunkOf(f, d.0);
  }

  // ---------------------------------------------------------------- reachable sets and chunk dependencies

  ghost function Directed(k: Cluster, down: bool): Cluster {
    if down then k.Reversed() else k
  }

  ghost function Reachable(f: Forest, i: nat, down: bool): set<nat> {
    if i >= |f.reachable| then {} else if down then f.reachable[i].1 else f.reachable[i].0
  }

  lemma DirectedDeps(k: Cluster, down: bool, p: nat, c: nat)
    ensures (p, c) in Directed(k, down).deps <==> if down then (c, p) in k.deps else (p, c) in k.deps
  {
    if down {
      assert (c, p) in k.deps ==> (p, c) in k.Reversed().deps;
    }
  }

  lemma ValidReach(k: Cluster, f: Forest, i: nat)
    requires Valid(k, f) && i in f.chunkIdxs
    ensures Reachable(f, i, false) == ParentsOf(k, TxsAt(f, i)) - TxsAt(f, i)
    ensures Reachable(f, i, true) == ChildrenOf(k, TxsAt(f, i)) - TxsAt(f, i)
    ensures Reachable(f, i, false) <= k.txs && Reachable(f, i, true) <= k.txs
    ensures k.Valid() && Partitioned(k, f)
  {
    hide Active, TopIdx, ChunkIdx, SetAt, Linked, Connected, Topped, Rated, Partitioned;
    assert forall d | d in k.deps :: d.0 in k.txs && d.1 in k.txs;
  }

  /** A transaction reachable from chunk i lies in another chunk on which chunk i depends. */
  lemma ReachableChunk(k: Cluster, f: Forest, i: nat, down: bool, t: nat)
    requires Valid(k, f) && i in f.chunkIdxs && t in Reachable(f, i, down)
    ensures t in k.txs && ChunkIdx(f.txData, t) in f.chunkIdxs && ChunkIdx(f.txData, t) != i && t in ChunkOf(f, t)
    ensures DependsOn(Directed(k, down), TxsAt(f, i), ChunkOf(f, t))
  {
    hide Valid, Active, TopIdx, ChunkIdx, SetAt, Directed, Reachable;
    ValidReach(k, f, i);
    assert t in ChunkOf(f, t);
    if down {
      var d :| d in k.deps && d.0 in TxsAt(f, i) && d.1 == t;
      DirectedDeps(k, down, d.1, d.0);
      assert (d.1, d.0) in Directed(k, down).deps;
    } else {
      var d :| d in k.deps && d.1 in TxsAt(f, i) && d.0 == t;
      DirectedDeps(k, down, d.0, d.1);
      assert (d.0, d.1) in Directed(k, down).deps;
    }
  }

  /** Every chunk on which chunk i depends contains a reachable transaction. */
  lemma ChunkReachable(k: Cluster, f: Forest, i: nat, down: bool, j: nat)
    requires Valid(k, f) && i in f.chunkIdxs && j in f.chunkIdxs && j != i
    requires DependsOn(Directed(k, down), TxsAt(f, i), TxsAt(f, j))
    ensures exists t :: t in Reachable(f, i, down) && t in TxsAt(f, j)
  {
    hide Valid, Active, TopIdx, ChunkIdx, SetAt, Directed, Reachable;
    ValidReach(k, f, i);
    ChunksDisjoint(k, f, i, j);
    var d :| d in Directed(k, down).deps && d.0 in TxsAt(f, j) && d.1 in TxsAt(f, i);
    DirectedDeps(k, down, d.0, d.1);
    if down {
      assert (d.1, d.0) in k.deps;
    } else {
      assert (d.0, d.1) in k.deps;
    }
    assert d.0 in Reachable(f, i, down);
  }

  /** Comparing stored feerates in a direction compares the feerates of the chunks. */
  lemma DirectedCompare(k: Cluster, f: Forest, down: bool, i: nat, j: nat)
    requires Valid(k, f) && i in f.chunkIdxs && j in f.chunkIdxs
    ensures var c := if down then FeeRateCompare(SetAt(f, j).feerate, SetAt(f, i).feerate)
                     else FeeRateCompare(SetAt(f, i).feerate, SetAt(f, j).feerate);
            && (c > 0 <==> RateOf(Directed(k, down), TxsAt(f, i)) > RateOf(Directed(k, down), TxsAt(f, j)))
            && (c < 0 <==> RateOf(Directed(k, down), TxsAt(f, i)) < RateOf(Directed(k, down), TxsAt(f, j)))
  {
    ForestTree(k, f, i);
    ForestTree(k, f, j);
    assert SetAt(f, i).feerate == FeeRate(k, TxsAt(f, i)) && SetAt(f, j).feerate == FeeRate(k, TxsAt(f, j));
    RateCompareOf(k, TxsAt(f, i), TxsAt(f, j));
    RateCompareOf(k, TxsAt(f, j), TxsAt(f, i));
    RateReversed(k, TxsAt(f, i));
    RateReversed(k, TxsAt(f, j));
    hide Valid, RateOf, FeeRateCompare, FeeRate, SetAt, IsTree;
  }

  // ---------------------------------------------------------------- joining chunks of equal feerate

  /** Joining or removing a part of the chunk's feerate does not move a set above it. */
  lemma EvenJoin(k: Cluster, x: set<nat>, s: set<nat>, part: set<nat>)
    requires s !! part && s != {} && part != {}
    requires RateOf(k, part) == RateOf(k, x)
    ensures RateOf(k, s) <= RateOf(k, x) <==> RateOf(k, s + part) <= RateOf(k, x)
  {
    hide RateOf, WeightOf;
    var l := RateOf(k, x);
    WeightUnion(k, l, s, part);
    WeightOfSign(k, l, s);
    WeightOfSign(k, l, part);
    WeightOfSign(k, l, s + part);
  }

  /** After joining two chunks of equal feerate by a dependency, the result is optimal. */
  lemma EvenJoinOptimal(k: Cluster, f: Forest, d: Dep, f': Forest)
    requires CanActivate(k, f, d) && Activated(f, d, f')
    requires ChunkOptimal(k, f, ChunkIdx(f.txData, d.0)) && ChunkOptimal(k, f, ChunkIdx(f.txData, d.1))
    requires RateOf(k, ChunkOf(f, d.0)) == RateOf(k, ChunkOf(f, d.1))
    ensures ChunkOptimal(k, f', ChunkIdx(f.txData, d.1))
  {
    hide Valid, CanActivate, Activated, Active, ChunkIdx, TopIdx, TxsAt, RateOf, Rated, Reached;
    CanActivateFacts(k, f, d);
    ActivatedJoined(k, f, d, f');
    var p, c := ChunkOf(f, d.0), ChunkOf(f, d.1);
    RateOfUnion(k, c, p);
    forall e | e in Active(f'.txData) && ChunkIdx(f'.txData, e.0) == ChunkIdx(f.txData, d.1)
      ensures RateOf(k, TopAt(f', e)) <= RateOf(k, c + p)
    {
      if e != d {
        EvenJoinTop(k, f, d, f', e);
      }
    }
  }

  lemma EvenJoinTop(k: Cluster, f: Forest, d: Dep, f': Forest, e: Dep)
    requires Valid(k, f) && Joined(k, f, d, f') && e in Active(f.txData)
    requires ChunkIdx(f'.txData, e.0) == ChunkIdx(f.txData, d.1)
    requires ChunkOptimal(k, f, ChunkIdx(f.txData, d.0)) && ChunkOptimal(k, f, ChunkIdx(f.txData, d.1))
    requires RateOf(k, ChunkOf(f, d.0)) == RateOf(k, ChunkOf(f, d.1))
    ensures RateOf(k, TopAt(f', e)) <= RateOf(k, ChunkOf(f, d.1))
  {
    ActiveChunk(k, f, e);
    ActiveInside(k, f, e);
    TopInside(k, f, e);
    CanDeactivateFacts(k, f, e);
    hide Valid, Active, ChunkIdx, TopIdx, TxsAt, RateOf, Rated, Reached, Linked, Component;
    var p, c, s := ChunkOf(f, d.0), ChunkOf(f, d.1), TopAt(f, e);
    assert e.0 in s;
    if e.0 in p && d.0 in s {
      EvenJoin(k, c, s, c);
    } else if e.0 in c && d.1 in s {
      EvenJoin(k, c, s, p);
    }
  }
}
