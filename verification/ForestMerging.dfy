/** Merging chunks of a forest: which chunk to merge with, what one merge changes, and what a
    whole merge sequence keeps. */
module ForestMerging {
  import opened Clusters
  import opened Merging
  import opened Improving
  import opened Forests
  import opened Activation
  import opened ForestFacts

  lemma ChunkAccess(k: Cluster, f: Forest, i: nat)
    requires Valid(k, f) && i in f.chunkIdxs
    ensures i < |f.setInfo| == |f.reachable| && f.txData.Keys == k.txs
    ensures TxsAt(f, i) <= k.txs && TxsAt(f, i) != {} && SetAt(f, i) == f.setInfo[i]
    ensures Linked(k, f.txData)
  {
    ForestTree(k, f, i);
  }

  // ---------------------------------------------------------------- picking merge candidates

  /** All chunks on which chunk i depends in the given direction are among those in seen. */
  ghost predicate Covered(k: Cluster, f: Forest, i: nat, down: bool, seen: set<nat>) {
    && (forall j | j in seen :: j in f.chunkIdxs && j != i && DependsOn(Directed(k, down), TxsAt(f, i), TxsAt(f, j)))
    && (forall t | t in Reachable(f, i, down) :: ChunkIdx(f.txData, t) in seen)
  }

  lemma CoveredParent(k: Cluster, f: Forest, i: nat, down: bool, seen: set<nat>, z: set<nat>) returns (j: nat)
    requires Valid(k, f) && i in f.chunkIdxs && Covered(k, f, i, down, seen)
    requires ParentOf(Directed(k, down), Chunks(f), TxsAt(f, i), z)
    ensures j in seen && z == TxsAt(f, j)
  {
    hide Valid, Active, TopIdx, ChunkIdx, SetAt, Directed, Reachable, DependsOn;
    j :| j in f.chunkIdxs && z == TxsAt(f, j);
    ChunkReachable(k, f, i, down, j);
    var t :| t in Reachable(f, i, down) && t in TxsAt(f, j);
    ChunkMember(k, f, j, t);
  }

  lemma ChunkMember(k: Cluster, f: Forest, j: nat, t: nat)
    requires Valid(k, f) && j in f.chunkIdxs && t in TxsAt(f, j)
    ensures t in k.txs && ChunkIdx(f.txData, t) == j
  {
    hide Linked, Indexed, Connected, Topped, Rated, Reached, ChunkIdx, SetAt;
  }

  lemma CandidateNone(k: Cluster, f: Forest, i: nat, down: bool, seen: set<nat>)
    requires Valid(k, f) && i in f.chunkIdxs && Covered(k, f, i, down, seen)
    requires forall j | j in seen :: RateOf(Directed(k, down), TxsAt(f, i)) < RateOf(Directed(k, down), TxsAt(f, j))
    ensures NothingToMerge(Directed(k, down), Chunks(f), TxsAt(f, i))
  {
    hide Valid, Covered, Directed, RateOf, TxsAt, Chunks, ParentOf;
    forall z | ParentOf(Directed(k, down), Chunks(f), TxsAt(f, i), z)
      ensures RateOf(Directed(k, down), TxsAt(f, i)) < RateOf(Directed(k, down), z)
    {
      var j := CoveredParent(k, f, i, down, seen, z);
    }
  }

  lemma CandidateSome(k: Cluster, f: Forest, i: nat, down: bool, seen: set<nat>, best: nat)
    requires Valid(k, f) && i in f.chunkIdxs && Covered(k, f, i, down, seen) && best in seen
    requires forall j | j in seen :: RateOf(Directed(k, down), TxsAt(f, best)) <= RateOf(Directed(k, down), TxsAt(f, j))
    requires RateOf(Directed(k, down), TxsAt(f, best)) <= RateOf(Directed(k, down), TxsAt(f, i))
    ensures LowestParent(Directed(k, down), Chunks(f), TxsAt(f, i), TxsAt(f, best))
  {
    ChunksPartition(k, f);
    assert TxsAt(f, best) in Chunks(f) && TxsAt(f, best) != TxsAt(f, i);
    assert ParentOf(Directed(k, down), Chunks(f), TxsAt(f, i), TxsAt(f, best));
    hide Valid, Covered, Directed, RateOf, TxsAt, Chunks, ParentOf;
    forall z | ParentOf(Directed(k, down), Chunks(f), TxsAt(f, i), z)
      ensures RateOf(Directed(k, down), TxsAt(f, best)) <= RateOf(Directed(k, down), z)
    {
      var j := CoveredParent(k, f, i, down, seen, z);
    }
  }

  // ---------------------------------------------------------------- merging two chunks

  /** The chunks i and j of f have become the one chunk m of f'; all else is as before. */
  ghost predicate MergedInto(k: Cluster, f: Forest, i: nat, j: nat, f': Forest, m: nat) {
    && f'.chunkIdxs == f.chunkIdxs - {i, j} + {m} && (m == i || m == j) && m in f'.chunkIdxs
    && TxsAt(f', m) == TxsAt(f, i) + TxsAt(f, j)
    && Chunks(f') == Merge(Chunks(f), TxsAt(f, i), TxsAt(f, j))
    && (forall x | x in f'.chunkIdxs && x != m :: TxsAt(f', x) == TxsAt(f, x))
    && (forall x | x in f'.chunkIdxs && x != m && ChunkOptimal(k, f, x) :: ChunkOptimal(k, f', x))
    && (RateOf(k, TxsAt(f, i)) == RateOf(k, TxsAt(f, j)) && ChunkOptimal(k, f, i) && ChunkOptimal(k, f, j)
        ==> ChunkOptimal(k, f', m))
  }

  lemma MergedIntoSym(k: Cluster, f: Forest, i: nat, j: nat, f': Forest, m: nat)
    requires MergedInto(k, f, i, j, f', m)
    ensures MergedInto(k, f, j, i, f', m)
  {
    hide ChunkOptimal, TxsAt, Chunks, RateOf;
    assert {i, j} == {j, i};
    assert TxsAt(f, i) + TxsAt(f, j) == TxsAt(f, j) + TxsAt(f, i);
    assert {TxsAt(f, i), TxsAt(f, j)} == {TxsAt(f, j), TxsAt(f, i)};
  }

  lemma MergeDep(k: Cluster, f: Forest, top: nat, bottom: nat)
    requires Valid(k, f) && top in f.chunkIdxs && bottom in f.chunkIdxs
    requires DependsOn(k, TxsAt(f, bottom), TxsAt(f, top))
    ensures exists tx, child :: tx in TxsAt(f, top) && tx in f.txData && child in f.txData[tx].children
                                && child in TxsAt(f, bottom)
  {
    var d :| d in k.deps && d.0 in TxsAt(f, top) && d.1 in TxsAt(f, bottom);
    ChunkMember(k, f, top, d.0);
    hide Indexed, Partitioned, Connected, Topped, Rated, Reached, SetAt;
    assert d.1 in ChildrenOf(k, {d.0});
  }

  lemma MergeCanActivate(k: Cluster, f: Forest, top: nat, bottom: nat, d: Dep)
    requires Valid(k, f) && top in f.chunkIdxs && bottom in f.chunkIdxs && top != bottom
    requires d.0 in TxsAt(f, top) && d.0 in f.txData && d.1 in f.txData[d.0].children && d.1 in TxsAt(f, bottom)
    ensures CanActivate(k, f, d)
    ensures ChunkIdx(f.txData, d.0) == top && ChunkIdx(f.txData, d.1) == bottom
  {
    ChunkMember(k, f, top, d.0);
    ChunkMember(k, f, bottom, d.1);
    assert d.1 in ChildrenOf(k, {d.0});
  }

  lemma MergeActivated(k: Cluster, f: Forest, top: nat, bottom: nat, d: Dep, f': Forest)
    requires CanActivate(k, f, d) && Activated(f, d, f')
    requires ChunkIdx(f.txData, d.0) == top && ChunkIdx(f.txData, d.1) == bottom
    ensures Valid(k, f') && MergedInto(k, f, top, bottom, f', bottom)
  {
    hide CanActivate, Activated, Valid, ChunkIdx, SetAt, Chunks, ChunkOptimal, Active, TopIdx, Rated, Reached, RateOf;
    CanActivateFacts(k, f, d);
    ActivatedJoined(k, f, d, f');
    ActivatedValid(k, f, d, f');
    ActivatedChunks(k, f, d, f');
    assert ChunkOf(f, d.1) + ChunkOf(f, d.0) == TxsAt(f, top) + TxsAt(f, bottom);
    if RateOf(k, TxsAt(f, top)) == RateOf(k, TxsAt(f, bottom)) && ChunkOptimal(k, f, top)
        && ChunkOptimal(k, f, bottom) {
      EvenJoinOptimal(k, f, d, f');
    }
    forall x | x in f'.chunkIdxs && x != bottom
      ensures TxsAt(f', x) == TxsAt(f, x) && (ChunkOptimal(k, f, x) ==> ChunkOptimal(k, f', x))
    {
      ActivatedUntouched(k, f, d, f', x);
    }
  }

  /** The candidate chunk is linked to this one in the right direction. */
  lemma LowestDepends(k: Cluster, f: Forest, down: bool, i: nat, j: nat)
    requires LowestParent(Directed(k, down), Chunks(f), TxsAt(f, i), TxsAt(f, j))
    ensures if down then DependsOn(k, TxsAt(f, j), TxsAt(f, i)) else DependsOn(k, TxsAt(f, i), TxsAt(f, j))
  {
    hide TxsAt, Chunks, RateOf, DependsOn;
    DependsOnReversed(k, TxsAt(f, i), TxsAt(f, j));
  }

  // ---------------------------------------------------------------- merge sequences on forests

  ghost function TxsOf(f: Forest, idxs: set<nat>): set<set<nat>> {
    set i | i in idxs :: TxsAt(f, i)
  }

  /** Chunks of f' other than m are chunks of f other than c, as optimal as they were. */
  ghost predicate Framed(k: Cluster, f: Forest, c: nat, f': Forest, m: nat) {
    forall i | i in f'.chunkIdxs && i != m ::
      i in f.chunkIdxs && i != c && TxsAt(f', i) == TxsAt(f, i) && (ChunkOptimal(k, f, i) ==> ChunkOptimal(k, f', i))
  }

  /** The effect of adding chunk m to the queue of improvable chunks. */
  ghost predicate Queued(idxs: set<nat>, queue: seq<nat>, m: nat, idxs': set<nat>, queue': seq<nat>) {
    && idxs' == idxs + {m}
    && queue' == if m in idxs then queue else queue + [m]
  }

  lemma MergedCount(k: Cluster, f: Forest, i: nat, j: nat, f': Forest, m: nat)
    requires MergedInto(k, f, i, j, f', m) && i in f.chunkIdxs && j in f.chunkIdxs && i != j
    ensures |f'.chunkIdxs| < |f.chunkIdxs| && m in f'.chunkIdxs
  {
    hide TxsAt, Chunks, ChunkOptimal, RateOf;
    assert f.chunkIdxs == f.chunkIdxs - {i, j} + {i} + {j};
  }

  lemma SequenceStartForest(k: Cluster, f: Forest, dk: Cluster, keep: set<nat>, chunk: nat)
    requires Valid(k, f) && keep <= f.chunkIdxs
    requires Climbing(dk, Chunks(f), Chunks(f) - TxsOf(f, keep), TxsAt(f, chunk))
    ensures Sequence(dk, TxsOf(f, keep), Chunks(f), TxsAt(f, chunk), Chunks(f), TxsAt(f, chunk), {})
    ensures Framed(k, f, chunk, f, chunk)
  {
    hide Valid, Climbing, Sequence, TxsAt;
    SequenceStart(dk, TxsOf(f, keep), Chunks(f), TxsAt(f, chunk));
  }

  lemma SequenceStepForest(k: Cluster, f0: Forest, dk: Cluster, keep: set<nat>, chunk: nat,
                           f: Forest, cur: nat, merged: set<set<nat>>, other: nat, f': Forest, m: nat)
    requires keep <= f.chunkIdxs && cur in f.chunkIdxs && other in f.chunkIdxs && cur !in keep && Valid(k, f)
    requires Sequence(dk, TxsOf(f0, keep), Chunks(f0), TxsAt(f0, chunk), Chunks(f), TxsAt(f, cur), merged)
    requires Framed(k, f0, chunk, f, cur) && forall i | i in keep :: TxsAt(f, i) == TxsAt(f0, i)
    requires LowestParent(dk, Chunks(f), TxsAt(f, cur), TxsAt(f, other))
    requires MergedInto(k, f, cur, other, f', m)
    ensures keep <= f'.chunkIdxs && m !in keep && forall i | i in keep :: TxsAt(f', i) == TxsAt(f0, i)
    ensures Sequence(dk, TxsOf(f0, keep), Chunks(f0), TxsAt(f0, chunk), Chunks(f'), TxsAt(f', m),
                     merged + {TxsAt(f, other)})
    ensures Framed(k, f0, chunk, f', m)
  {
    hide Valid, Sequence, TxsAt, Chunks, LowestParent, ChunkOptimal;
    SequenceStep(dk, TxsOf(f0, keep), Chunks(f0), TxsAt(f0, chunk), Chunks(f), TxsAt(f, cur), merged, TxsAt(f, other));
    assert other !in keep;
  }
}
