/** Loading an existing linearization into a forest of singleton chunks. */
module ForestLoading {
  import opened FeeFracs
  import opened Clusters
  import opened Merging
  import opened Optimality
  import opened Forests
  import opened ForestMerging
  import opened Loading

  ghost function Singletons(s: set<nat>): set<set<nat>> {
    set t | t in s :: {t}
  }

  /** The first n transactions of lin are loaded, and the diagram of their chunks is at least as
      good as the diagram of that prefix. */
  ghost predicate LoadedTo(k: Cluster, chunks: set<set<nat>>, lin: seq<nat>, n: nat) {
    && n <= |lin| && IsLinearization(k, lin)
    && Loaded(k, chunks, ToSet(lin[..n]))
    && (forall l: real, m: nat | m <= n :: WeightOf(k, l, ToSet(lin[..m])) <= Surplus(k, l,
       Inside(chunks, ToSet(lin[..n]))))
  }

  lemma LoadedStart(k: Cluster, f: Forest, lin: seq<nat>)
    requires Valid(k, f) && Chunks(f) == Singletons(k.txs)
    ensures f.txData.Keys == k.txs
    ensures IsLinearization(k, lin) ==> LoadedTo(k, Chunks(f), lin, 0)
  {
    ChunksPartition(k, f);
    assert f.txData.Keys == k.txs && k.Valid();
    hide Valid, Chunks, RateOf;
    assert ToSet(lin[..0]) == {};
    assert Inside(Chunks(f), {}) == {};
    forall l: real
      ensures WeightOf(k, l, {}) <= Surplus(k, l, {})
    {
      assert FeeRate(k, {}) == EMPTY;
    }
  }

  lemma LoadKeys(k: Cluster, f: Forest)
    requires Valid(k, f)
    ensures f.txData.Keys == k.txs && k.Valid() && IsPartition(k.txs, Chunks(f))
  {
    ChunksPartition(k, f);
  }

  lemma LoadChunk(k: Cluster, f: Forest, t: nat)
    requires Valid(k, f) && t in f.txData
    ensures f.txData[t].chunkIdx in f.chunkIdxs && t in TxsAt(f, f.txData[t].chunkIdx)
  {
    hide Indexed, Connected, Topped, Rated, Reached, SetAt;
    assert t in ChunkOf(f, t);
  }

  /** The indexes of the chunks that are not yet loaded once transaction n is. */
  ghost function KeepIdxs(f: Forest, lin: seq<nat>, n: nat): set<nat>
    requires n < |lin|
  {
    set i | i in f.chunkIdxs && !(TxsAt(f, i) <= ToSet(lin[..n + 1]))
  }

  lemma NextPrefix(k: Cluster, lin: seq<nat>, n: nat)
    requires n < |lin| && IsLinearization(k, lin) && k.Valid()
    ensures ToSet(lin[..n + 1]) == ToSet(lin[..n]) + {lin[n]} && lin[n] !in ToSet(lin[..n]) && lin[n] in k.txs
    ensures TopologicallyClosed(k, ToSet(lin[..n + 1]))
    ensures (lin[n], lin[n]) !in k.deps
  {
    assert lin[..n + 1] == lin[..n] + [lin[n]];
    assert lin[n] in ToSet(lin);
    PrefixClosed(k, lin, n + 1);
  }

  lemma KeepUnloaded(f: Forest, lin: seq<nat>, n: nat)
    requires n < |lin|
    ensures TxsOf(f, KeepIdxs(f, lin, n)) == Unloaded(Chunks(f), ToSet(lin[..n + 1]))
  {
    hide TxsAt, ToSet;
  }

  lemma LoadReady(k: Cluster, f: Forest, lin: seq<nat>, n: nat)
    requires Valid(k, f) && n < |lin| && lin[n] in f.txData && LoadedTo(k, Chunks(f), lin, n)
    ensures var c := f.txData[lin[n]].chunkIdx;
            && KeepIdxs(f, lin, n) <= f.chunkIdxs && c !in KeepIdxs(f, lin, n) && TxsAt(f, c) == {lin[n]}
            && Climbing(k, Chunks(f), Chunks(f) - TxsOf(f, KeepIdxs(f, lin, n)), TxsAt(f, c))
  {
    hide Valid, Chunks, RateOf, Climbing, TxsAt, SetAt, ToSet, Loaded;
    LoadKeys(k, f);
    NextPrefix(k, lin, n);
    KeepUnloaded(f, lin, n);
    LoadChunk(k, f, lin[n]);
    LoadClimbing(k, Chunks(f), ToSet(lin[..n]), lin[n]);
    SingletonChunk(k, f, lin[n], f.txData[lin[n]].chunkIdx);
  }

  lemma SingletonChunk(k: Cluster, f: Forest, t: nat, c: nat)
    requires Valid(k, f) && {t} in Chunks(f) && c in f.chunkIdxs && t in TxsAt(f, c)
    ensures TxsAt(f, c) == {t}
  {
    ChunksPartition(k, f);
    hide Valid, TxsAt;
    assert TxsAt(f, c) in Chunks(f);
  }

  lemma LoadDone(k: Cluster, f: Forest, lin: seq<nat>, n: nat, f': Forest, last: nat, merged: set<set<nat>>)
    requires Valid(k, f) && n < |lin| && lin[n] in f.txData && LoadedTo(k, Chunks(f), lin, n) && Valid(k, f')
    requires Sequence(k, TxsOf(f, KeepIdxs(f, lin, n)), Chunks(f), TxsAt(f, f.txData[lin[n]].chunkIdx), Chunks(f'),
                      TxsAt(f', last), merged)
    requires NothingToMerge(k, Chunks(f'), TxsAt(f', last))
    ensures LoadedTo(k, Chunks(f'), lin, n + 1)
  {
    hide Valid, Chunks, RateOf, Climbing, TxsAt, SetAt, ToSet, Loaded, Sequence, NothingToMerge, WeightOf, Surplus,
        IsLinearization, Inside;
    LoadKeys(k, f);
    LoadKeys(k, f');
    NextPrefix(k, lin, n);
    KeepUnloaded(f, lin, n);
    LoadReady(k, f, lin, n);
    LoadClimbing(k, Chunks(f), ToSet(lin[..n]), lin[n]);
    LoadStep(k, Chunks(f), ToSet(lin[..n]), lin[n], Chunks(f'), TxsAt(f', last), merged);
    var now := ToSet(lin[..n + 1]);
    LoadedCover(k, Chunks(f'), now);
    forall l: real, m: nat | m <= n + 1
      ensures WeightOf(k, l, ToSet(lin[..m])) <= Surplus(k, l, Inside(Chunks(f'), now))
    {
      if m == n + 1 {
        SurplusBoundsWeight(k, l, Inside(Chunks(f'), now));
      } else {
        assert Surplus(k, l, Inside(Chunks(f'), now)) >= Surplus(k, l, Inside(Chunks(f), ToSet(lin[..n])));
      }
    }
  }

  lemma LoadedEnd(k: Cluster, f: Forest, lin: seq<nat>)
    requires Valid(k, f) && LoadedTo(k, Chunks(f), lin, |lin|)
    ensures Topological(k, Chunks(f))
    ensures forall l: real, n: nat | n <= |lin| :: WeightOf(k, l, ToSet(lin[..n])) <= Surplus(k, l, Chunks(f))
  {
    LoadKeys(k, f);
    hide Valid, Chunks, RateOf, WeightOf, Surplus;
    assert lin[..|lin|] == lin;
    forall x | x in Chunks(f)
      ensures x <= k.txs
    {
      assert x <= Cover(Chunks(f));
    }
    assert Inside(Chunks(f), ToSet(lin)) == Chunks(f);
  }
}
