/** Making an inactive dependency between two chunks active merges the chunks and keeps the
    whole invariant of the forest. */
module Activation {
  import opened Clusters
  import opened Merging
  import opened Trees
  import opened Forests

  /** What joining the set info `part` to a top set that contains v does. */
  function Grown(s: SetInfo, v: nat, part: SetInfo): SetInfo {
    if v in s.transactions then s.Join(part) else s
  }

  ghost predicate CanActivate(k: Cluster, f: Forest, d: Dep) {
    && Valid(k, f) && d in k.deps
    && ChunkIdx(f.txData, d.0) != ChunkIdx(f.txData, d.1)
  }

  /** f' is f with the inactive dependency d made active. */
  ghost predicate Activated(f: Forest, d: Dep, f': Forest) {
    var pi, ci := ChunkIdx(f.txData, d.0), ChunkIdx(f.txData, d.1);
    var p, c := SetAt(f, pi), SetAt(f, ci);
    && d.0 in f.txData
    && f'.txData == Attached(Relabelled(f.txData, p.transactions, ci), d, pi)
    && f'.chunkIdxs == f.chunkIdxs - {pi}
    && |f'.setInfo| == |f.setInfo| == |f'.reachable| == |f.reachable|
    && SetAt(f', ci) == c.Join(p)
    && (forall i | i in f.chunkIdxs && i != ci :: SetAt(f', i) == SetAt(f, i))
    && (forall e | e in Active(f.txData) :: SetAt(f', TopIdx(f.txData, e)) ==
          if e.0 in p.transactions then Grown(SetAt(f, TopIdx(f.txData, e)), d.0, c)
          else if e.0 in c.transactions then Grown(SetAt(f, TopIdx(f.txData, e)), d.1, p)
          else SetAt(f, TopIdx(f.txData, e)))
    && (ci < |f.reachable| && pi < |f.reachable| ==>
          && f'.reachable[ci].0 == f.reachable[ci].0 + f.reachable[pi].0 - (c.transactions + p.transactions)
          && f'.reachable[ci].1 == f.reachable[ci].1 + f.reachable[pi].1 - (c.transactions + p.transactions))
    && (forall i | i in f.chunkIdxs && i != ci && i < |f.reachable| :: f'.reachable[i] == f.reachable[i])
  }

  lemma ActivatedData(k: Cluster, f: Forest, d: Dep, f': Forest)
    requires CanActivate(k, f, d) && Activated(f, d, f')
    ensures d !in Active(f.txData) && Active(f'.txData) == Active(f.txData) + {d}
    ensures forall e | e in Active(f.txData) :: TopIdx(f'.txData, e) == TopIdx(f.txData, e)
    ensures TopIdx(f'.txData, d) == ChunkIdx(f.txData, d.0)
    ensures forall t | t in k.txs :: ChunkIdx(f'.txData, t) ==
              if t in ChunkOf(f, d.0) then ChunkIdx(f.txData, d.1) else ChunkIdx(f.txData, t)
    ensures Linked(k, f'.txData)
  {
    assert f.txData.Keys == k.txs;
    hide SetAt, ChunkIdx, TopIdx, Connected, Topped, Rated, Reached, FeeRate, Active, Linked, Relabelled, Attached;
    assert d !in Active(f.txData) by {
      if d in Active(f.txData) {
        ActiveInside(k, f, d);
      }
    }
    var pi, ci := ChunkIdx(f.txData, d.0), ChunkIdx(f.txData, d.1);
    var p := TxsAt(f, pi);
    RelabelledData(k, f.txData, p, ci);
    AttachedData(k, Relabelled(f.txData, p, ci), d, pi);
  }

  /** The effect of an activation on sets and indexes, without the representation. */
  ghost predicate Joined(k: Cluster, f: Forest, d: Dep, f': Forest) {
    var pi, ci := ChunkIdx(f.txData, d.0), ChunkIdx(f.txData, d.1);
    var p, c := TxsAt(f, pi), TxsAt(f, ci);
    && pi != ci && pi in f.chunkIdxs && ci in f.chunkIdxs && p !! c
    && d.0 in p && d.1 in c && d.0 in k.txs && d.1 in k.txs
    && d !in Active(f.txData) && Active(f'.txData) == Active(f.txData) + {d}
    && f'.chunkIdxs == f.chunkIdxs - {pi}
    && |f'.setInfo| == |f.setInfo| == |f'.reachable|
    && (forall e | e in Active(f.txData) :: TopIdx(f'.txData, e) == TopIdx(f.txData, e))
    && TopIdx(f'.txData, d) == pi
    && (forall t | t in k.txs :: ChunkIdx(f'.txData, t) == if t in p then ci else ChunkIdx(f.txData, t))
    && TxsAt(f', ci) == c + p && TxsAt(f', pi) == p
    && (forall i | i in f.chunkIdxs && i != ci :: TxsAt(f', i) == TxsAt(f, i))
    && (forall e | e in Active(f.txData) :: TopAt(f', e) ==
          if e.0 in p && d.0 in TopAt(f, e) then TopAt(f, e) + c
          else if e.0 in c && d.1 in TopAt(f, e) then TopAt(f, e) + p
          else TopAt(f, e))
  }

  lemma CanActivateFacts(k: Cluster, f: Forest, d: Dep)
    requires CanActivate(k, f, d)
    ensures d.0 in k.txs && d.1 in k.txs
    ensures ChunkIdx(f.txData, d.0) in f.chunkIdxs && ChunkIdx(f.txData, d.1) in f.chunkIdxs
    ensures ChunkIdx(f.txData, d.0) != ChunkIdx(f.txData, d.1)
    ensures ChunkIdx(f.txData, d.0) < |f.reachable| == |f.setInfo| && ChunkIdx(f.txData, d.1) < |f.reachable|
    ensures Valid(k, f) && Reached(k, f) && Rated(k, f)
    ensures d.0 in ChunkOf(f, d.0) && d.1 in ChunkOf(f, d.1) && ChunkOf(f, d.0) !! ChunkOf(f, d.1)
  {
    hide Linked, Connected, Topped, Rated, Reached, ChunkIdx, SetAt, Active, TopIdx;
    ChunksDisjoint(k, f, ChunkIdx(f.txData, d.0), ChunkIdx(f.txData, d.1));
  }

  lemma ActivatedSets(f: Forest, d: Dep, f': Forest)
    requires Activated(f, d, f')
    requires ChunkIdx(f.txData, d.0) in f.chunkIdxs && ChunkIdx(f.txData, d.0) != ChunkIdx(f.txData, d.1)
    requires ChunkOf(f, d.0) !! ChunkOf(f, d.1)
    requires forall e | e in Active(f.txData) :: TopIdx(f'.txData, e) == TopIdx(f.txData, e)
    ensures f'.chunkIdxs == f.chunkIdxs - {ChunkIdx(f.txData, d.0)} && |f'.setInfo| == |f.setInfo| == |f'.reachable|
    ensures TxsAt(f', ChunkIdx(f.txData, d.1)) == ChunkOf(f, d.1) + ChunkOf(f, d.0)
    ensures TxsAt(f', ChunkIdx(f.txData, d.0)) == ChunkOf(f, d.0)
    ensures forall i | i in f.chunkIdxs && i != ChunkIdx(f.txData, d.1) :: TxsAt(f', i) == TxsAt(f, i)
    ensures forall e | e in Active(f.txData) :: TopAt(f', e) ==
              if e.0 in ChunkOf(f, d.0) && d.0 in TopAt(f, e) then TopAt(f, e) + ChunkOf(f, d.1)
              else if e.0 in ChunkOf(f, d.1) && d.1 in TopAt(f, e) then TopAt(f, e) + ChunkOf(f, d.0)
              else TopAt(f, e)
  {
    hide Relabelled, Attached, Active, ChunkIdx, TopIdx, SetAt;
  }

  lemma ActivatedJoined(k: Cluster, f: Forest, d: Dep, f': Forest)
    requires CanActivate(k, f, d) && Activated(f, d, f')
    ensures Joined(k, f, d, f')
  {
    hide Activated, CanActivate, Valid, Rated, Reached, Active, ChunkIdx, TopIdx, TxsAt;
    CanActivateFacts(k, f, d);
    ActivatedData(k, f, d, f');
    ActivatedSets(f, d, f');
  }

  lemma JoinedIndexed(k: Cluster, f: Forest, d: Dep, f': Forest)
    requires Indexed(f) && Joined(k, f, d, f')
    ensures Indexed(f')
  {
    hide Active, TopIdx, ChunkIdx, TxsAt;
  }

  lemma JoinedPartitioned(k: Cluster, f: Forest, d: Dep, f': Forest)
    requires Partitioned(k, f) && Joined(k, f, d, f')
    ensures Partitioned(k, f')
  {
    hide Active, TopIdx, ChunkIdx, TxsAt;
    var pi, ci := ChunkIdx(f.txData, d.0), ChunkIdx(f.txData, d.1);
    forall t | t in k.txs
      ensures ChunkIdx(f'.txData, t) in f'.chunkIdxs && t in ChunkOf(f', t)
    {
      if t !in TxsAt(f, pi) {
        assert ChunkIdx(f.txData, t) != pi;
      }
    }
    forall i, t | i in f'.chunkIdxs && t in TxsAt(f', i)
      ensures t in k.txs && ChunkIdx(f'.txData, t) == i
    {
      if i != ci {
        assert t in TxsAt(f, i);
      }
    }
  }

  lemma JoinedConnected(k: Cluster, f: Forest, d: Dep, f': Forest)
    requires Partitioned(k, f) && Connected(f) && Joined(k, f, d, f')
    ensures Connected(f')
  {
    hide Active, TopIdx, ChunkIdx, TxsAt, Component;
    var pi, ci := ChunkIdx(f.txData, d.0), ChunkIdx(f.txData, d.1);
    forall i | i in f'.chunkIdxs
      ensures Component(Active(f'.txData), TxsAt(f', i))
    {
      if i == ci {
        ActivateComponent(Active(f.txData), TxsAt(f, pi), TxsAt(f, ci), d);
        assert TxsAt(f, pi) + TxsAt(f, ci) == TxsAt(f', ci);
      } else {
        ActivateOther(Active(f.txData), TxsAt(f, i), d);
      }
    }
  }

  lemma JoinedTop(k: Cluster, f: Forest, d: Dep, f': Forest, e: Dep)
    requires Valid(k, f) && Joined(k, f, d, f') && e in Active(f'.txData)
    ensures TopOf(Active(f'.txData), ChunkOf(f', e.0), e, TopAt(f', e))
  {
    var pi, ci := ChunkIdx(f.txData, d.0), ChunkIdx(f.txData, d.1);
    var p, c := TxsAt(f, pi), TxsAt(f, ci);
    var a := Active(f.txData);
    assert Closed(a, p) && Closed(a, c) by {
      assert Component(a, p) && Component(a, c);
    }
    assert p + c == c + p;
    if e == d {
      hide Active, TopIdx, ChunkIdx, SetAt, TopOf, Valid;
      ActivateNewTop(a, p, c, d);
      assert TopOf(Active(f'.txData), ChunkOf(f', e.0), e, TopAt(f', e));
    } else {
      ActiveInside(k, f, e);
      assert TopOf(a, ChunkOf(f, e.0), e, TopAt(f, e));
      assert e.0 in ChunkOf(f, e.0);
      hide Active, TopIdx, ChunkIdx, SetAt, TopOf, Closed, Linked, Connected, Indexed, Topped, Rated, Reached;
      if e.0 in p {
        ActivateTop(a, p, c, e, TopAt(f, e), d, d.0);
      } else if e.0 in c {
        ActivateTop(a, c, p, e, TopAt(f, e), d, d.1);
      } else {
        ActivateTopOther(a, ChunkOf(f, e.0), e, TopAt(f, e), d);
      }
      assert TopOf(Active(f'.txData), ChunkOf(f', e.0), e, TopAt(f', e));
    }
  }

  lemma JoinRate(k: Cluster, a: SetInfo, b: SetInfo)
    requires a.feerate == FeeRate(k, a.transactions) && b.feerate == FeeRate(k, b.transactions)
    requires a.transactions !! b.transactions
    ensures a.Join(b).feerate == FeeRate(k, a.Join(b).transactions)
  {
    FeeRateUnion(k, a.transactions, b.transactions);
  }

  lemma JoinedTopRate(k: Cluster, f: Forest, d: Dep, f': Forest, e: Dep)
    requires CanActivate(k, f, d) && Activated(f, d, f') && e in Active(f.txData)
    ensures SetAt(f', TopIdx(f.txData, e)).feerate == FeeRate(k, TxsAt(f', TopIdx(f.txData, e)))
  {
    var i := TopIdx(f.txData, e);
    var p, c := SetAt(f, ChunkIdx(f.txData, d.0)), SetAt(f, ChunkIdx(f.txData, d.1));
    CanActivateFacts(k, f, d);
    ActiveInside(k, f, e);
    TopInside(k, f, e);
    assert SetAt(f, i).feerate == FeeRate(k, TxsAt(f, i));
    assert p.feerate == FeeRate(k, p.transactions) && c.feerate == FeeRate(k, c.transactions);
    hide CanActivate, Active, ChunkIdx, TopIdx, SetAt, FeeRate, Relabelled, Attached;
    var s := SetAt(f, i);
    if e.0 in p.transactions && d.0 in s.transactions {
      JoinRate(k, s, c);
    } else if e.0 in c.transactions && d.1 in s.transactions {
      JoinRate(k, s, p);
    }
  }

  lemma ActivatedRated(k: Cluster, f: Forest, d: Dep, f': Forest)
    requires CanActivate(k, f, d) && Activated(f, d, f')
    ensures Rated(k, f')
  {
    hide Activated, CanActivate, Valid, Active, ChunkIdx, TopIdx, SetAt, FeeRate;
    CanActivateFacts(k, f, d);
    ActivatedJoined(k, f, d, f');
    ActivatedChunkRates(k, f, d, f');
    forall e | e in Active(f'.txData)
      ensures SetAt(f', TopIdx(f'.txData, e)).feerate == FeeRate(k, TopAt(f', e))
    {
      if e != d {
        JoinedTopRate(k, f, d, f', e);
      }
    }
  }

  lemma ActivatedChunkRates(k: Cluster, f: Forest, d: Dep, f': Forest)
    requires CanActivate(k, f, d) && Activated(f, d, f')
    ensures forall i | i in f.chunkIdxs :: SetAt(f', i).feerate == FeeRate(k, TxsAt(f', i))
  {
    hide Valid, CanActivate, Active, ChunkIdx, TopIdx, SetAt, FeeRate, Relabelled, Attached, Grown;
    CanActivateFacts(k, f, d);
    JoinRate(k, SetAt(f, ChunkIdx(f.txData, d.1)), SetAt(f, ChunkIdx(f.txData, d.0)));
  }

  lemma ReachUnion(k: Cluster, a: set<nat>, b: set<nat>)
    ensures (ParentsOf(k, a) - a) + (ParentsOf(k, b) - b) - (a + b) == ParentsOf(k, a + b) - (a + b)
    ensures (ChildrenOf(k, a) - a) + (ChildrenOf(k, b) - b) - (a + b) == ChildrenOf(k, a + b) - (a + b)
  {
  }

  lemma ActivatedReached(k: Cluster, f: Forest, d: Dep, f': Forest)
    requires CanActivate(k, f, d) && Activated(f, d, f')
    ensures Reached(k, f')
  {
    hide Valid, CanActivate, Active, ChunkIdx, TopIdx, SetAt, Relabelled, Attached, ParentsOf, ChildrenOf, Grown;
    CanActivateFacts(k, f, d);
    ReachUnion(k, ChunkOf(f, d.1), ChunkOf(f, d.0));
  }

  /** Activating a dependency between two chunks keeps the whole invariant. */
  lemma ActivatedValid(k: Cluster, f: Forest, d: Dep, f': Forest)
    requires CanActivate(k, f, d) && Activated(f, d, f')
    ensures Valid(k, f')
  {
    ActivatedData(k, f, d, f');
    ActivatedJoined(k, f, d, f');
    ActivatedRated(k, f, d, f');
    ActivatedReached(k, f, d, f');
    hide Activated, Joined, Linked, Indexed, Partitioned, Connected, Rated, Reached, TopOf, Active, ChunkOf, TopAt;
    JoinedIndexed(k, f, d, f');
    JoinedPartitioned(k, f, d, f');
    JoinedConnected(k, f, d, f');
    forall e | e in Active(f'.txData)
      ensures TopOf(Active(f'.txData), ChunkOf(f', e.0), e, TopAt(f', e))
    {
      JoinedTop(k, f, d, f', e);
    }
  }

  lemma MergedChunks(f: Forest, pi: nat, ci: nat, f': Forest)
    requires pi in f.chunkIdxs && ci in f.chunkIdxs && pi != ci && f'.chunkIdxs == f.chunkIdxs - {pi}
    requires TxsAt(f', ci) == TxsAt(f, ci) + TxsAt(f, pi)
    requires forall i | i in f.chunkIdxs && i != ci :: TxsAt(f', i) == TxsAt(f, i)
    requires forall i, j | i in f.chunkIdxs && j in f.chunkIdxs && TxsAt(f, i) == TxsAt(f, j) :: i == j
    ensures Chunks(f') == Merge(Chunks(f), TxsAt(f, ci), TxsAt(f, pi))
  {
    hide TxsAt;
    var m := TxsAt(f, ci) + TxsAt(f, pi);
    forall x | x in Chunks(f')
      ensures x == m || (x in Chunks(f) && x != TxsAt(f, pi) && x != TxsAt(f, ci))
    {
      var i :| i in f'.chunkIdxs && x == TxsAt(f', i);
    }
    forall x | x in Chunks(f) && x != TxsAt(f, pi) && x != TxsAt(f, ci)
      ensures x in Chunks(f')
    {
      var i :| i in f.chunkIdxs && x == TxsAt(f, i);
      assert i in f'.chunkIdxs && TxsAt(f', i) == x;
    }
    assert ci in f'.chunkIdxs && TxsAt(f', ci) == m;
  }

  /** An activation merges exactly two chunks. */
  lemma ActivatedChunks(k: Cluster, f: Forest, d: Dep, f': Forest)
    requires CanActivate(k, f, d) && Activated(f, d, f')
    ensures Chunks(f') == Merge(Chunks(f), ChunkOf(f, d.0), ChunkOf(f, d.1))
    ensures Chunks(f') == Merge(Chunks(f), ChunkOf(f, d.1), ChunkOf(f, d.0))
    ensures TxsAt(f', ChunkIdx(f.txData, d.1)) == ChunkOf(f, d.1) + ChunkOf(f, d.0)
  {
    hide Activated, CanActivate, Valid, Rated, Reached, Active, ChunkIdx, TopIdx, TxsAt, Chunks;
    CanActivateFacts(k, f, d);
    ActivatedJoined(k, f, d, f');
    ChunksPartition(k, f);
    MergedChunks(f, ChunkIdx(f.txData, d.0), ChunkIdx(f.txData, d.1), f');
    assert ChunkOf(f, d.0) + ChunkOf(f, d.1) == ChunkOf(f, d.1) + ChunkOf(f, d.0);
    assert {ChunkOf(f, d.0), ChunkOf(f, d.1)} == {ChunkOf(f, d.1), ChunkOf(f, d.0)};
  }
}
