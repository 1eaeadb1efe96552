/** Reaching a topological state from an arbitrary forest: why it is enough to try unmerged
    chunks in one direction only. */
module ForestTopology {
  import opened Clusters
  import opened Merging
  import opened Improving
  import opened Forests
  import opened ForestFacts
  import opened ForestMerging
  import opened ForestImproving

  /** Chunk y depends on chunk z without having a lower feerate. */
  ghost predicate Misplaced(k: Cluster, f: Forest, y: nat, z: nat) {
    && y in f.chunkIdxs && z in f.chunkIdxs && y != z
    && DependsOn(k, TxsAt(f, y), TxsAt(f, z)) && RateOf(k, TxsAt(f, y)) >= RateOf(k, TxsAt(f, z))
  }

  /** Every misplaced pair will be found: one of its chunks is queued and will be tried in the
      direction of the other one. Chunks in merged are tried in both directions, the others
      upwards if up and downwards if not. */
  ghost predicate Watched(k: Cluster, f: Forest, up: bool, queued: set<nat>, merged: set<nat>) {
    forall y, z | Misplaced(k, f, y, z) ::
      if up then y in queued || (z in queued && z in merged)
      else z in queued || (y in queued && y in merged)
  }

  lemma WatchedStart(k: Cluster, f: Forest, up: bool)
    ensures Watched(k, f, up, f.chunkIdxs, {})
  {
    hide DependsOn, RateOf;
  }

  /** An index that is no chunk any more can be dropped from the queue. */
  lemma WatchedDrop(k: Cluster, f: Forest, up: bool, queued: set<nat>, merged: set<nat>, i: nat)
    requires Watched(k, f, up, queued, merged) && i !in f.chunkIdxs
    ensures Watched(k, f, up, queued - {i}, merged)
  {
    hide DependsOn, RateOf;
  }

  lemma WatchedEnd(k: Cluster, f: Forest, up: bool, merged: set<nat>)
    requires Valid(k, f) && Watched(k, f, up, {}, merged)
    ensures Topological(k, Chunks(f))
  {
    hide Valid, DependsOn, RateOf, TxsAt;
    forall y, z | y in Chunks(f) && z in Chunks(f) && y != z && DependsOn(k, y, z)
      ensures RateOf(k, y) < RateOf(k, z)
    {
      var i :| i in f.chunkIdxs && y == TxsAt(f, i);
      var j :| j in f.chunkIdxs && z == TxsAt(f, j);
      assert !Misplaced(k, f, i, j);
    }
  }

  /** After a merge the result is queued for both directions. */
  lemma WatchedMerge(k: Cluster, f: Forest, up: bool, queued: set<nat>, merged: set<nat>, chunk: nat, other: nat,
                     f': Forest, m: nat)
    requires Watched(k, f, up, queued, merged) && MergedInto(k, f, chunk, other, f', m)
    requires chunk in f.chunkIdxs && other in f.chunkIdxs
    ensures Watched(k, f', up, queued - {chunk} + {m}, merged + {m})
  {
    hide DependsOn, RateOf, TxsAt, Chunks, ChunkOptimal;
    forall y, z | Misplaced(k, f', y, z)
      ensures if up then y in queued - {chunk} + {m} || (z in queued - {chunk} + {m} && z in merged + {m})
              else z in queued - {chunk} + {m} || (y in queued - {chunk} + {m} && y in merged + {m})
    {
      if y != m && z != m {
        assert Misplaced(k, f, y, z);
      }
    }
  }

  /** A chunk that could not be merged in the directions it had to be tried in needs no watch. */
  lemma WatchedNone(k: Cluster, f: Forest, up: bool, queued: set<nat>, merged: set<nat>, chunk: nat)
    requires Valid(k, f) && Watched(k, f, up, queued, merged) && chunk in f.chunkIdxs
    requires chunk in merged || up ==> NothingToMerge(k, Chunks(f), TxsAt(f, chunk))
    requires chunk in merged || !up ==> NothingToMerge(k.Reversed(), Chunks(f), TxsAt(f, chunk))
    ensures Watched(k, f, up, queued - {chunk}, merged)
  {
    hide Valid, DependsOn, RateOf, TxsAt, NothingToMerge;
    forall y, z | Misplaced(k, f, y, z)
      ensures if up then y in queued - {chunk} || (z in queued - {chunk} && z in merged)
              else z in queued - {chunk} || (y in queued - {chunk} && y in merged)
    {
      if y == chunk && (chunk in merged || up) {
        NotMisplacedUp(k, f, y, z);
      } else if z == chunk && (chunk in merged || !up) {
        NotMisplacedDown(k, f, y, z);
      }
    }
  }

  lemma NotMisplacedUp(k: Cluster, f: Forest, y: nat, z: nat)
    requires Valid(k, f) && y in f.chunkIdxs && NothingToMerge(k, Chunks(f), TxsAt(f, y))
    ensures !Misplaced(k, f, y, z)
  {
    ChunksPartition(k, f);
    hide Valid, DependsOn, RateOf, TxsAt;
    if z in f.chunkIdxs && y != z && DependsOn(k, TxsAt(f, y), TxsAt(f, z)) {
      assert TxsAt(f, z) in Chunks(f);
      assert ParentOf(k, Chunks(f), TxsAt(f, y), TxsAt(f, z));
    }
  }

  lemma NotMisplacedDown(k: Cluster, f: Forest, y: nat, z: nat)
    requires Valid(k, f) && z in f.chunkIdxs && NothingToMerge(k.Reversed(), Chunks(f), TxsAt(f, z))
    ensures !Misplaced(k, f, y, z)
  {
    ChunksPartition(k, f);
    ChunksKnown(k, f);
    hide Valid, DependsOn, RateOf, TxsAt, Cover;
    if y in f.chunkIdxs && y != z && DependsOn(k, TxsAt(f, y), TxsAt(f, z)) {
      assert TxsAt(f, y) in Chunks(f) && TxsAt(f, z) in Chunks(f);
      DependsOnReversed(k, TxsAt(f, z), TxsAt(f, y));
      RateReversed(k, TxsAt(f, y));
      RateReversed(k, TxsAt(f, z));
      assert ParentOf(k.Reversed(), Chunks(f), TxsAt(f, z), TxsAt(f, y));
    }
  }

  /** In a topological state no merge is possible in either direction. */
  lemma TopologicalNoMerge(k: Cluster, f: Forest, down: bool, i: nat, p: set<nat>)
    requires Valid(k, f) && Topological(k, Chunks(f)) && i in f.chunkIdxs
    ensures !LowestParent(Directed(k, down), Chunks(f), TxsAt(f, i), p)
  {
    hide Valid, DependsOn, RateOf, TxsAt, Cover;
    ChunksKnown(k, f);
    assert TxsAt(f, i) in Chunks(f);
    if p in Chunks(f) {
      DependsOnReversed(k, TxsAt(f, i), p);
      RateReversed(k, TxsAt(f, i));
      RateReversed(k, p);
    }
  }
}
