/** The data of a spanning-forest state as a value, and the invariant that the source checks in
    SpanningForestState::SanityCheck. */
module Forests {
  import opened FeeFracs
  import opened Clusters
  import opened Trees

  /** A set of transactions together with its aggregate feerate. */
  datatype SetInfo = SetInfo(transactions: set<nat>, feerate: FeeFrac) {
    /** operator|= */
    function Join(other: SetInfo): SetInfo {
      SetInfo(transactions + other.transactions, feerate.Plus(other.feerate))
    }

    /** operator-= */
    function Remove(other: SetInfo): SetInfo
      requires other.feerate.size <= feerate.size
    {
      SetInfo(transactions - other.transactions, feerate.Minus(other.feerate))
    }
  }

  /** Per-transaction data; depTop is only meaningful on activeChildren. */
  datatype TxData = TxData(parents: set<nat>, children: set<nat>, activeChildren: set<nat>,
                           depTop: map<nat, nat>, chunkIdx: nat)

  datatype Forest = Forest(txData: map<nat, TxData>, setInfo: seq<SetInfo>,
                           reachable: seq<(set<nat>, set<nat>)>, chunkIdxs: set<nat>)

  // ---------------------------------------------------------------- total accessors

  ghost function Active(txData: map<nat, TxData>): set<Dep> {
    set p, c | p in txData && c in txData[p].activeChildren :: (p, c)
  }

  /** The index of the top set of an active dependency. */
  ghost function TopIdx(txData: map<nat, TxData>, d: Dep): nat {
    if d.0 in txData && d.1 in txData[d.0].depTop then txData[d.0].depTop[d.1] else 0
  }

  ghost function ChunkIdx(txData: map<nat, TxData>, t: nat): nat {
    if t in txData then txData[t].chunkIdx else 0
  }

  ghost function SetAt(f: Forest, i: nat): SetInfo {
    if i < |f.setInfo| then f.setInfo[i] else SetInfo({}, EMPTY)
  }

  ghost function TxsAt(f: Forest, i: nat): set<nat> {
    SetAt(f, i).transactions
  }

  /** The chunk of a transaction. */
  ghost function ChunkOf(f: Forest, t: nat): set<nat> {
    TxsAt(f, ChunkIdx(f.txData, t))
  }

  /** The top set of an active dependency. */
  ghost function TopAt(f: Forest, d: Dep): set<nat> {
    TxsAt(f, TopIdx(f.txData, d))
  }

  ghost function ParentsOf(k: Cluster, s: set<nat>): set<nat> {
    set d | d in k.deps && d.1 in s :: d.0
  }

  ghost function ChildrenOf(k: Cluster, s: set<nat>): set<nat> {
    set d | d in k.deps && d.0 in s :: d.1
  }

  /** The chunks of the state. */
  ghost function Chunks(f: Forest): set<set<nat>> {
    set i | i in f.chunkIdxs :: TxsAt(f, i)
  }

  // ---------------------------------------------------------------- the invariant

  /** Parents and children mirror the cluster, and top-set indexes are defined. */
  ghost predicate Linked(k: Cluster, txData: map<nat, TxData>) {
    && txData.Keys == k.txs
    && (forall t | t in txData ::
          && txData[t].parents == ParentsOf(k, {t})
          && txData[t].children == ChildrenOf(k, {t})
          && txData[t].activeChildren <= txData[t].children
          && txData[t].activeChildren <= txData[t].depTop.Keys)
  }

  /** Each set index serves one chunk or the top set of one active dependency. */
  ghost predicate Indexed(f: Forest) {
    && |f.reachable| == |f.setInfo|
    && (forall i | i in f.chunkIdxs :: i < |f.setInfo|)
    && (forall d | d in Active(f.txData) :: TopIdx(f.txData, d) < |f.setInfo|)
    && (forall d | d in Active(f.txData) :: TopIdx(f.txData, d) !in f.chunkIdxs)
    && (forall d, e | d in Active(f.txData) && e in Active(f.txData) && TopIdx(f.txData, d) == TopIdx(f.txData, e) ::
          d == e)
  }

  /** Chunks partition the transactions. */
  ghost predicate Partitioned(k: Cluster, f: Forest) {
    && (forall t | t in k.txs :: ChunkIdx(f.txData, t) in f.chunkIdxs)
    && (forall t | t in k.txs :: t in ChunkOf(f, t))
    && (forall i, t | i in f.chunkIdxs && t in TxsAt(f, i) :: t in k.txs && ChunkIdx(f.txData, t) == i)
  }

  /** Chunks are the components of the active dependencies. */
  ghost predicate Connected(f: Forest) {
    forall i | i in f.chunkIdxs :: Component(Active(f.txData), TxsAt(f, i))
  }

  /** Top sets are exact. */
  ghost predicate Topped(f: Forest) {
    forall d | d in Active(f.txData) :: TopOf(Active(f.txData), ChunkOf(f, d.0), d, TopAt(f, d))
  }

  /** Stored feerates are the sums. */
  ghost predicate Rated(k: Cluster, f: Forest) {
    && (forall i | i in f.chunkIdxs :: SetAt(f, i).feerate == FeeRate(k, TxsAt(f, i)))
    && (forall d | d in Active(f.txData) :: SetAt(f, TopIdx(f.txData, d)).feerate == FeeRate(k, TopAt(f, d)))
  }

  /** Reachable sets are exact. */
  ghost predicate Reached(k: Cluster, f: Forest) {
    forall i | i in f.chunkIdxs && i < |f.reachable| ::
      && f.reachable[i].0 == ParentsOf(k, TxsAt(f, i)) - TxsAt(f, i)
      && f.reachable[i].1 == ChildrenOf(k, TxsAt(f, i)) - TxsAt(f, i)
  }

  ghost predicate Valid(k: Cluster, f: Forest) {
    && k.Valid() && k.txs <= k.fees.Keys
    && Linked(k, f.txData) && Indexed(f) && Partitioned(k, f) && Connected(f)
    && Topped(f) && Rated(k, f) && Reached(k, f)
  }

  // ---------------------------------------------------------------- updates of the transaction data

  /** Move the transactions in txs to chunk index idx. */
  function Relabelled(txData: map<nat, TxData>, txs: set<nat>, idx: nat): map<nat, TxData> {
    map t | t in txData :: if t in txs then txData[t].(chunkIdx := idx) else txData[t]
  }

  /** Make d active, with top-set index pi. */
  function Attached(txData: map<nat, TxData>, d: Dep, pi: nat): map<nat, TxData>
    requires d.0 in txData
  {
    var u := txData[d.0];
    txData[d.0 := u.(activeChildren := u.activeChildren + {d.1}, depTop := u.depTop[d.1 := pi])]
  }

  /** Make d inactive. */
  function Detached(txData: map<nat, TxData>, d: Dep): map<nat, TxData>
    requires d.0 in txData
  {
    var u := txData[d.0];
    txData[d.0 := u.(activeChildren := u.activeChildren - {d.1})]
  }

  lemma RelabelledData(k: Cluster, txData: map<nat, TxData>, txs: set<nat>, idx: nat)
    requires Linked(k, txData)
    ensures Linked(k, Relabelled(txData, txs, idx))
    ensures Active(Relabelled(txData, txs, idx)) == Active(txData)
    ensures forall e :: TopIdx(Relabelled(txData, txs, idx), e) == TopIdx(txData, e)
    ensures forall t | t in txData :: ChunkIdx(Relabelled(txData, txs, idx), t) == if t in txs then idx
                                      else ChunkIdx(txData, t)
  {
    var after := Relabelled(txData, txs, idx);
    forall e
      ensures e in Active(after) <==> e in Active(txData)
    {
      assert e in Active(txData) <==> e.0 in txData && e.1 in txData[e.0].activeChildren;
      assert e in Active(after) <==> e.0 in after && e.1 in after[e.0].activeChildren;
    }
  }

  lemma AttachedData(k: Cluster, txData: map<nat, TxData>, d: Dep, pi: nat)
    requires Linked(k, txData) && d.0 in txData && d in k.deps && d !in Active(txData)
    ensures Linked(k, Attached(txData, d, pi))
    ensures Active(Attached(txData, d, pi)) == Active(txData) + {d}
    ensures forall e | e != d :: TopIdx(Attached(txData, d, pi), e) == TopIdx(txData, e)
    ensures TopIdx(Attached(txData, d, pi), d) == pi
    ensures forall t :: ChunkIdx(Attached(txData, d, pi), t) == ChunkIdx(txData, t)
  {
    var after := Attached(txData, d, pi);
    forall e
      ensures e in Active(after) <==> e in Active(txData) || e == d
    {
      assert e in Active(txData) <==> e.0 in txData && e.1 in txData[e.0].activeChildren;
      assert e in Active(after) <==> e.0 in after && e.1 in after[e.0].activeChildren;
    }
    assert d.1 in ChildrenOf(k, {d.0});
  }

  lemma DetachedData(k: Cluster, txData: map<nat, TxData>, d: Dep)
    requires Linked(k, txData) && d.0 in txData
    ensures Linked(k, Detached(txData, d))
    ensures Active(Detached(txData, d)) == Active(txData) - {d}
    ensures forall e :: TopIdx(Detached(txData, d), e) == TopIdx(txData, e)
    ensures forall t :: ChunkIdx(Detached(txData, d), t) == ChunkIdx(txData, t)
  {
    var after := Detached(txData, d);
    forall e
      ensures e in Active(after) <==> e in Active(txData) && e != d
    {
      assert e in Active(txData) <==> e.0 in txData && e.1 in txData[e.0].activeChildren;
      assert e in Active(after) <==> e.0 in after && e.1 in after[e.0].activeChildren;
    }
  }

  // ---------------------------------------------------------------- consequences of the invariant

  /** Two distinct chunks are disjoint. */
  lemma ChunksDisjoint(k: Cluster, f: Forest, i: nat, j: nat)
    requires Partitioned(k, f) && i in f.chunkIdxs && j in f.chunkIdxs && i != j
    ensures TxsAt(f, i) !! TxsAt(f, j)
  {
    hide TxsAt, ChunkIdx;
    forall t | t in TxsAt(f, i)
      ensures t !in TxsAt(f, j)
    {
      assert ChunkIdx(f.txData, t) == i;
    }
  }

  /** An active dependency is a dependency and stays inside its chunk. */
  lemma ActiveInside(k: Cluster, f: Forest, e: Dep)
    requires Valid(k, f) && e in Active(f.txData)
    ensures e in k.deps && e.0 in k.txs && e.1 in k.txs
    ensures ChunkIdx(f.txData, e.0) == ChunkIdx(f.txData, e.1)
  {
    hide TxsAt, ChunkIdx, Topped, Rated, Reached, Indexed;
    assert e.1 in f.txData[e.0].children;
    assert Component(Active(f.txData), ChunkOf(f, e.0));
  }

  lemma ChunksPartition(k: Cluster, f: Forest)
    requires Valid(k, f)
    ensures IsPartition(k.txs, Chunks(f))
    ensures forall i, j | i in f.chunkIdxs && j in f.chunkIdxs && TxsAt(f, i) == TxsAt(f, j) :: i == j
  {
    hide TxsAt, ChunkIdx, Topped, Rated, Reached, Indexed, Linked;
    forall i | i in f.chunkIdxs
      ensures TxsAt(f, i) != {}
    {
      assert Component(Active(f.txData), TxsAt(f, i));
    }
    forall i, j | i in f.chunkIdxs && j in f.chunkIdxs && i != j
      ensures TxsAt(f, i) !! TxsAt(f, j) && TxsAt(f, i) != TxsAt(f, j)
    {
      ChunksDisjoint(k, f, i, j);
    }
    forall t | t in k.txs
      ensures t in Cover(Chunks(f))
    {
      assert ChunkOf(f, t) in Chunks(f);
    }
  }

  /** The top set of e lies in every chunk that holds the parent of e. */
  lemma TopInside(k: Cluster, f: Forest, e: Dep)
    requires Valid(k, f) && e in Active(f.txData)
    ensures TopAt(f, e) <= ChunkOf(f, e.0) && e.0 in ChunkOf(f, e.0)
    ensures forall i | i in f.chunkIdxs && e.0 in TxsAt(f, i) :: TxsAt(f, i) == ChunkOf(f, e.0)
  {
    ActiveInside(k, f, e);
    hide Active, ChunkIdx, TopIdx, SetAt, Linked, Indexed, Rated, Reached;
    assert TopOf(Active(f.txData), ChunkOf(f, e.0), e, TopAt(f, e));
  }
}
