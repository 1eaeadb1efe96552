/** The initial forest: every transaction in a chunk of its own, no dependency active. */
module ForestInit {
  import opened Clusters
  import opened DepGraphs
  import opened Trees
  import opened Forests
  import opened ForestLoading

  const BLANK := TxData({}, {}, {}, map[], 0)

  /** Transaction number i in the order of iteration has its parents and singleton chunk i. */
  ghost predicate FilledAt(g: DepGraph, txData: map<nat, TxData>, setInfo: seq<SetInfo>, order: seq<nat>, i: nat) {
    && i < |order| && i < |setInfo| && order[i] in txData && order[i] in g.entries
    && txData[order[i]].parents == ReducedParents(g, order[i])
    && txData[order[i]].chunkIdx == i
    && setInfo[i] == SetInfo({order[i]}, g.entries[order[i]].feerate)
  }

  /** The transactions in order have been filled in, with all children links that point to them. */
  ghost predicate Filled(g: DepGraph, txData: map<nat, TxData>, setInfo: seq<SetInfo>, order: seq<nat>) {
    && txData.Keys == g.entries.Keys
    && |setInfo| == |order|
    && (forall t | t in txData :: txData[t].activeChildren == {})
    && (forall i | 0 <= i < |order| :: FilledAt(g, txData, setInfo, order, i))
    && (forall t, c | t in txData :: c in txData[t].children <==> c in order && t in ReducedParents(g, c))
  }

  /** The data after one more transaction has been filled in. */
  function Fill(txData: map<nat, TxData>, t: nat, parents: set<nat>, idx: nat): map<nat, TxData> {
    map u | u in txData ::
      var v := if u in parents then txData[u].(children := txData[u].children + {t}) else txData[u];
      if u == t then v.(parents := parents, chunkIdx := idx) else v
  }

  lemma FilledStep(g: DepGraph, txData: map<nat, TxData>, setInfo: seq<SetInfo>, order: seq<nat>, t: nat)
    requires Filled(g, txData, setInfo, order) && t in g.entries && t !in order
    ensures Filled(g, Fill(txData, t, ReducedParents(g, t), |setInfo|),
                   setInfo + [SetInfo({t}, g.entries[t].feerate)], order + [t])
  {
    hide ReducedParents;
    var txData', s, o := Fill(txData, t, ReducedParents(g, t), |setInfo|),
        setInfo + [SetInfo({t}, g.entries[t].feerate)], order + [t];
    forall i | 0 <= i < |o|
      ensures FilledAt(g, txData', s, o, i)
    {
      if i < |order| {
        assert FilledAt(g, txData, setInfo, order, i);
        assert o[i] == order[i] && order[i] in order;
      }
    }
    forall u, c | u in txData'
      ensures c in txData'[u].children <==> c in o && u in ReducedParents(g, c)
    {
    }
  }

  lemma FilledEmpty(g: DepGraph)
    ensures Filled(g, map t | t in g.entries :: BLANK, [], [])
  {
  }

  lemma FilledLength(g: DepGraph, txData: map<nat, TxData>, setInfo: seq<SetInfo>, order: seq<nat>)
    requires Filled(g, txData, setInfo, order)
    ensures |setInfo| == |order| && txData.Keys == g.entries.Keys
  {
  }

  /** The finished initial forest. */
  ghost predicate Initial(g: DepGraph, f: Forest, order: seq<nat>) {
    && Filled(g, f.txData, f.setInfo, order)
    && (forall t | t in g.entries :: t in order)
    && |f.reachable| == |f.setInfo|
    && (forall i | 0 <= i < |order| :: order[i] in f.txData
                                       && f.reachable[i] == (f.txData[order[i]].parents, f.txData[order[i]].children))
    && (forall i: nat :: i in f.chunkIdxs <==> i < |f.setInfo|)
  }

  lemma InitialLinks(g: DepGraph, f: Forest, order: seq<nat>, t: nat)
    requires g.Valid() && Initial(g, f, order) && t in f.txData && f.txData[t].parents == ReducedParents(g, t)
    ensures f.txData[t].parents == ParentsOf(ClusterOf(g), {t}) && f.txData[t].children == ChildrenOf(ClusterOf(g), {t})
    ensures t !in f.txData[t].parents && t !in f.txData[t].children
  {
    var k := ClusterOf(g);
    hide FilledAt, ClusterOf;
    forall u
      ensures u in f.txData[t].parents <==> u in ParentsOf(k, {t})
      ensures u in f.txData[t].children <==> u in ChildrenOf(k, {t})
    {
      ClusterDeps(g, (u, t));
      ClusterDeps(g, (t, u));
      assert u in ParentsOf(k, {t}) <==> (u, t) in k.deps;
      assert u in ChildrenOf(k, {t}) <==> (t, u) in k.deps;
      assert u in ReducedParents(g, t) <==> IsReducedParent(g, u, t);
      assert u in g.entries ==> (t in ReducedParents(g, u) <==> IsReducedParent(g, t, u));
      assert t in ReducedParents(g, u) ==> u in g.entries;
    }
  }

  lemma InitialTx(g: DepGraph, f: Forest, order: seq<nat>, i: nat)
    requires g.Valid() && Initial(g, f, order) && i < |f.setInfo|
    ensures i < |order| && order[i] in f.txData && order[i] in g.entries && i < |f.reachable|
    ensures var t := order[i];
            && f.txData[t].parents == ParentsOf(ClusterOf(g), {t})
               && f.txData[t].children == ChildrenOf(ClusterOf(g), {t})
            && t !in f.txData[t].parents && t !in f.txData[t].children
            && ChunkIdx(f.txData, t) == i && SetAt(f, i) == SetInfo({t}, g.entries[t].feerate)
            && f.reachable[i] == (f.txData[t].parents, f.txData[t].children)
  {
    hide ClusterOf, ReducedParents;
    assert FilledAt(g, f.txData, f.setInfo, order, i);
    InitialLinks(g, f, order, order[i]);
  }

  /** The facts about all transactions and chunks of the initial forest. */
  lemma InitialFacts(g: DepGraph, f: Forest, order: seq<nat>)
    requires g.Valid() && Initial(g, f, order)
    ensures f.txData.Keys == g.entries.Keys && Active(f.txData) == {} && |f.reachable| == |f.setInfo| == |order|
    ensures forall i: nat :: i in f.chunkIdxs <==> i < |f.setInfo|
    ensures forall t | t in f.txData :: ChunkIdx(f.txData, t) < |order| && order[ChunkIdx(f.txData, t)] == t
    ensures Linked(ClusterOf(g), f.txData)
  {
    var k := ClusterOf(g);
    assert k.txs == g.entries.Keys;
    hide ClusterOf, ReducedParents, ParentsOf, ChildrenOf, SetAt;
    forall t | t in f.txData
      ensures ChunkIdx(f.txData, t) < |order| && order[ChunkIdx(f.txData, t)] == t
      ensures f.txData[t].parents == ParentsOf(k, {t}) && f.txData[t].children == ChildrenOf(k, {t})
              && f.txData[t].activeChildren == {}
    {
      var i :| 0 <= i < |order| && order[i] == t;
      InitialTx(g, f, order, i);
    }
  }

  lemma SingletonComponent(t: nat)
    ensures Component({}, {t})
  {
  }

  lemma InitialFee(g: DepGraph, t: nat)
    requires t in g.entries
    ensures ClusterOf(g).FeeOf(t) == g.entries[t].feerate
  {
  }

  lemma InitialChunk(g: DepGraph, f: Forest, order: seq<nat>, i: nat)
    requires g.Valid() && Initial(g, f, order) && i < |f.setInfo|
    ensures i < |order| && order[i] in f.txData && TxsAt(f, i) == {order[i]} && ChunkIdx(f.txData, order[i]) == i
            && i < |f.reachable|
    ensures Component({}, TxsAt(f, i)) && SetAt(f, i).feerate == FeeRate(ClusterOf(g), TxsAt(f, i))
    ensures f.reachable[i].0 == ParentsOf(ClusterOf(g), TxsAt(f, i)) - TxsAt(f, i)
    ensures f.reachable[i].1 == ChildrenOf(ClusterOf(g), TxsAt(f, i)) - TxsAt(f, i)
  {
    hide Initial, ClusterOf, ChunkIdx, SetAt, Component, FeeRate, ParentsOf, ChildrenOf;
    InitialTx(g, f, order, i);
    SingletonComponent(order[i]);
    FeeRateSingleton(ClusterOf(g), order[i]);
    InitialFee(g, order[i]);
  }

  /** Chunk i is the singleton of transaction number i. */
  ghost predicate Enumerated(f: Forest, order: seq<nat>) {
    && |f.reachable| == |f.setInfo| == |order|
    && (forall i: nat :: i in f.chunkIdxs <==> i < |f.setInfo|)
    && (forall i | i in f.chunkIdxs :: order[i] in f.txData && TxsAt(f, i) == {order[i]}
                                       && ChunkIdx(f.txData, order[i]) == i)
    && (forall t | t in f.txData :: ChunkIdx(f.txData, t) < |order| && order[ChunkIdx(f.txData, t)] == t)
  }

  lemma EnumeratedPartition(k: Cluster, f: Forest, order: seq<nat>)
    requires Enumerated(f, order) && f.txData.Keys == k.txs
    ensures Partitioned(k, f) && Chunks(f) == Singletons(k.txs)
  {
    hide ChunkIdx, SetAt;
    forall t | t in k.txs
      ensures ChunkOf(f, t) == {t} && ChunkIdx(f.txData, t) in f.chunkIdxs
    {
    }
    forall x | x in Singletons(k.txs)
      ensures x in Chunks(f)
    {
      var t :| t in k.txs && x == {t};
      assert TxsAt(f, ChunkIdx(f.txData, t)) == x;
    }
  }

  lemma InitialEnumerated(g: DepGraph, f: Forest, order: seq<nat>)
    requires g.Valid() && Initial(g, f, order)
    ensures Enumerated(f, order) && Linked(ClusterOf(g), f.txData) && Active(f.txData) == {}
            && f.txData.Keys == g.entries.Keys
    ensures Connected(f) && Rated(ClusterOf(g), f) && Reached(ClusterOf(g), f)
  {
    hide Initial, ClusterOf, ChunkIdx, SetAt, Component, FeeRate, ParentsOf, ChildrenOf, Linked, Active;
    InitialFacts(g, f, order);
    forall i | i in f.chunkIdxs
      ensures i < |order| && order[i] in f.txData && TxsAt(f, i) == {order[i]} && ChunkIdx(f.txData, order[i]) == i
              && i < |f.reachable|
      ensures Component({}, TxsAt(f, i)) && SetAt(f, i).feerate == FeeRate(ClusterOf(g), TxsAt(f, i))
      ensures f.reachable[i].0 == ParentsOf(ClusterOf(g), TxsAt(f, i)) - TxsAt(f, i)
      ensures f.reachable[i].1 == ChildrenOf(ClusterOf(g), TxsAt(f, i)) - TxsAt(f, i)
    {
      InitialChunk(g, f, order, i);
    }
  }

  /** The constructed forest is valid, with every transaction in its own chunk. */
  lemma InitialValid(g: DepGraph, f: Forest, order: seq<nat>)
    requires g.Valid() && Initial(g, f, order)
    ensures Valid(ClusterOf(g), f) && Chunks(f) == Singletons(ClusterOf(g).txs)
  {
    var k := ClusterOf(g);
    ClusterValid(g);
    hide Initial, ClusterOf, Linked, Active, Partitioned, Connected, Rated, Reached, Chunks, Singletons, TxsAt;
    InitialEnumerated(g, f, order);
    EnumeratedPartition(k, f, order);
  }
}
