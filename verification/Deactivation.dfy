/** Making an active dependency inactive splits its chunk into the top and the bottom of the
    dependency and keeps the whole invariant of the forest. */
module Deactivation {
  import opened Clusters
  import opened Improving
  import opened Trees
  import opened Forests

  /** s' is s, less the set info `part` if s contains v. */
  ghost predicate ShrunkTo(s: SetInfo, v: nat, part: SetInfo, s': SetInfo) {
    if v in s.transactions then
      && s'.transactions == s.transactions - part.transactions
      && s'.feerate.Plus(part.feerate) == s.feerate
    else s' == s
  }

  ghost predicate CanDeactivate(k: Cluster, f: Forest, d: Dep) {
    Valid(k, f) && d in Active(f.txData)
  }

  /** The bottom set of an active dependency. */
  ghost function BottomAt(f: Forest, d: Dep): set<nat> {
    ChunkOf(f, d.0) - TopAt(f, d)
  }

  /** f' is f with the active dependency d made inactive. */
  ghost predicate Deactivated(k: Cluster, f: Forest, d: Dep, f': Forest) {
    var pi, ci := TopIdx(f.txData, d), ChunkIdx(f.txData, d.0);
    && d.0 in f.txData
    && f'.txData == Relabelled(Detached(f.txData, d), TopAt(f, d), pi)
    && f'.chunkIdxs == f.chunkIdxs + {pi}
    && |f'.setInfo| == |f.setInfo| == |f'.reachable| == |f.reachable|
    && SetAt(f', pi) == SetAt(f, pi)
    && TxsAt(f', ci) == BottomAt(f, d)
    && SetAt(f', ci).feerate.Plus(SetAt(f, pi).feerate) == SetAt(f, ci).feerate
    && (forall i | i in f.chunkIdxs && i != ci :: SetAt(f', i) == SetAt(f, i))
    && (forall e | e in Active(f.txData) && e != d ::
          if e.0 in TopAt(f, d) then ShrunkTo(SetAt(f, TopIdx(f.txData, e)), d.0, SetAt(f', ci),
                                              SetAt(f', TopIdx(f.txData, e)))
          else if e.0 in BottomAt(f, d) then ShrunkTo(SetAt(f, TopIdx(f.txData, e)), d.1, SetAt(f, pi),
                                                      SetAt(f', TopIdx(f.txData, e)))
          else SetAt(f', TopIdx(f.txData, e)) == SetAt(f, TopIdx(f.txData, e)))
    && (ci < |f.reachable| && pi < |f.reachable| ==>
          && f'.reachable[pi].0 == ParentsOf(k, TopAt(f, d)) - TopAt(f, d)
          && f'.reachable[pi].1 == ChildrenOf(k, TopAt(f, d)) - TopAt(f, d)
          && f'.reachable[ci].0 == ParentsOf(k, BottomAt(f, d)) - BottomAt(f, d)
          && f'.reachable[ci].1 == ChildrenOf(k, BottomAt(f, d)) - BottomAt(f, d))
    && (forall i | i in f.chunkIdxs && i != ci && i < |f.reachable| :: f'.reachable[i] == f.reachable[i])
  }

  /** The effect of a deactivation on sets and indexes, without the representation. */
  ghost predicate Cut(k: Cluster, f: Forest, d: Dep, f': Forest) {
    var pi, ci := TopIdx(f.txData, d), ChunkIdx(f.txData, d.0);
    var t, b := TopAt(f, d), BottomAt(f, d);
    && pi !in f.chunkIdxs && ci in f.chunkIdxs && pi < |f.setInfo|
    && d.0 in k.txs && d.1 in k.txs
    && d in Active(f.txData) && Active(f'.txData) == Active(f.txData) - {d}
    && f'.chunkIdxs == f.chunkIdxs + {pi}
    && |f'.setInfo| == |f.setInfo| == |f'.reachable|
    && (forall e | e in Active(f.txData) :: TopIdx(f'.txData, e) == TopIdx(f.txData, e))
    && (forall u | u in k.txs :: ChunkIdx(f'.txData, u) == if u in t then pi else ChunkIdx(f.txData, u))
    && TxsAt(f', pi) == t && TxsAt(f', ci) == b
    && (forall i | i in f.chunkIdxs && i != ci :: TxsAt(f', i) == TxsAt(f, i))
    && (forall e | e in Active(f.txData) && e != d :: TopAt(f', e) ==
          if e.0 in t && d.0 in TopAt(f, e) then TopAt(f, e) - b
          else if e.0 in b && d.1 in TopAt(f, e) then TopAt(f, e) - t
          else TopAt(f, e))
  }

  lemma CanDeactivateFacts(k: Cluster, f: Forest, d: Dep)
    requires CanDeactivate(k, f, d)
    ensures d.0 in k.txs && d.1 in k.txs && d.0 in f.txData && d in k.deps
    ensures TopIdx(f.txData, d) !in f.chunkIdxs && ChunkIdx(f.txData, d.0) in f.chunkIdxs
    ensures TopIdx(f.txData, d) < |f.reachable| == |f.setInfo| && ChunkIdx(f.txData, d.0) < |f.reachable|
    ensures Valid(k, f) && Reached(k, f) && Rated(k, f) && Linked(k, f.txData)
    ensures Component(Active(f.txData), ChunkOf(f, d.0)) && d in Active(f.txData)
    ensures TopOf(Active(f.txData), ChunkOf(f, d.0), d, TopAt(f, d))
  {
    ActiveInside(k, f, d);
    hide Linked, Rated, Reached, SetAt, Active, TopIdx, ChunkIdx, TopOf, Component;
  }

  lemma DeactivatedData(k: Cluster, f: Forest, d: Dep, f': Forest)
    requires CanDeactivate(k, f, d) && Deactivated(k, f, d, f')
    ensures Active(f'.txData) == Active(f.txData) - {d}
    ensures forall e :: TopIdx(f'.txData, e) == TopIdx(f.txData, e)
    ensures forall u | u in k.txs :: ChunkIdx(f'.txData, u) ==
              if u in TopAt(f, d) then TopIdx(f.txData, d) else ChunkIdx(f.txData, u)
    ensures Linked(k, f'.txData)
  {
    CanDeactivateFacts(k, f, d);
    assert f.txData.Keys == k.txs;
    hide CanDeactivate, Valid, SetAt, ChunkIdx, TopIdx, Active, Linked, Relabelled, Detached, ShrunkTo;
    DetachedData(k, f.txData, d);
    assert Detached(f.txData, d).Keys == k.txs by {
      LinkedKeys(k, Detached(f.txData, d));
    }
    RelabelledData(k, Detached(f.txData, d), TopAt(f, d), TopIdx(f.txData, d));
  }

  lemma LinkedKeys(k: Cluster, txData: map<nat, TxData>)
    requires Linked(k, txData)
    ensures txData.Keys == k.txs
  {
  }

  lemma DeactivatedSets(k: Cluster, f: Forest, d: Dep, f': Forest)
    requires Deactivated(k, f, d, f')
    requires forall e :: TopIdx(f'.txData, e) == TopIdx(f.txData, e)
    ensures f'.chunkIdxs == f.chunkIdxs + {TopIdx(f.txData, d)} && |f'.setInfo| == |f.setInfo| == |f'.reachable|
    ensures TxsAt(f', TopIdx(f.txData, d)) == TopAt(f, d)
    ensures TxsAt(f', ChunkIdx(f.txData, d.0)) == BottomAt(f, d)
    ensures forall i | i in f.chunkIdxs && i != ChunkIdx(f.txData, d.0) :: TxsAt(f', i) == TxsAt(f, i)
    ensures forall e | e in Active(f.txData) && e != d :: TopAt(f', e) ==
              if e.0 in TopAt(f, d) && d.0 in TopAt(f, e) then TopAt(f, e) - BottomAt(f, d)
              else if e.0 in BottomAt(f, d) && d.1 in TopAt(f, e) then TopAt(f, e) - TopAt(f, d)
              else TopAt(f, e)
  {
    hide Relabelled, Detached, Active, ChunkIdx, TopIdx, SetAt;
    assert TopAt(f, d) !! BottomAt(f, d);
    assert TxsAt(f', ChunkIdx(f.txData, d.0)) == BottomAt(f, d);
  }

  lemma DeactivatedCut(k: Cluster, f: Forest, d: Dep, f': Forest)
    requires CanDeactivate(k, f, d) && Deactivated(k, f, d, f')
    ensures Cut(k, f, d, f')
  {
    hide Deactivated, CanDeactivate, Valid, Rated, Reached, Linked, Component, TopOf, Active, ChunkIdx, TopIdx, TxsAt,
        BottomAt;
    CanDeactivateFacts(k, f, d);
    DeactivatedData(k, f, d, f');
    DeactivatedSets(k, f, d, f');
  }

  lemma CutIndexed(k: Cluster, f: Forest, d: Dep, f': Forest)
    requires Indexed(f) && Cut(k, f, d, f')
    ensures Indexed(f')
  {
    hide Active, TopIdx, ChunkIdx, TxsAt;
  }

  lemma CutPartitioned(k: Cluster, f: Forest, d: Dep, f': Forest)
    requires Partitioned(k, f) && Cut(k, f, d, f') && TopAt(f, d) <= ChunkOf(f, d.0)
    ensures Partitioned(k, f')
  {
    hide Active, TopIdx, ChunkIdx, TxsAt;
    var pi, ci := TopIdx(f.txData, d), ChunkIdx(f.txData, d.0);
    forall i, u | i in f'.chunkIdxs && u in TxsAt(f', i)
      ensures u in k.txs && ChunkIdx(f'.txData, u) == i
    {
      if i == pi || i == ci {
        assert u in TxsAt(f, ci);
      } else {
        assert u in TxsAt(f, i);
        assert ChunkIdx(f.txData, u) == i;
        assert u !in TopAt(f, d);
      }
    }
    forall u | u in k.txs
      ensures ChunkIdx(f'.txData, u) in f'.chunkIdxs && u in ChunkOf(f', u)
    {
      assert u in ChunkOf(f, u) && ChunkIdx(f.txData, u) in f.chunkIdxs;
    }
  }

  lemma CutConnected(k: Cluster, f: Forest, d: Dep, f': Forest)
    requires Partitioned(k, f) && Connected(f) && Cut(k, f, d, f')
    requires TopOf(Active(f.txData), ChunkOf(f, d.0), d, TopAt(f, d))
    ensures Connected(f')
  {
    hide Active, TopIdx, ChunkIdx, TxsAt, Component;
    var pi, ci := TopIdx(f.txData, d), ChunkIdx(f.txData, d.0);
    var a := Active(f.txData);
    forall i | i in f'.chunkIdxs
      ensures Component(Active(f'.txData), TxsAt(f', i))
    {
      if i == pi || i == ci {
        DeactivateHalf(a, TxsAt(f, ci), d, TopAt(f, d), TxsAt(f', i));
      } else {
        assert d.0 in TxsAt(f, ci) && d.1 in TxsAt(f, ci);
        DeactivateOther(a, TxsAt(f, i), d);
      }
    }
  }

  /** Where the top set of another active dependency lies relative to the two halves. */
  lemma CutOverlap(k: Cluster, f: Forest, d: Dep, e: Dep)
    requires CanDeactivate(k, f, d) && e in Active(f.txData) && e != d
    ensures TopAt(f, e) <= ChunkOf(f, e.0)
    ensures e.0 in TopAt(f, d) ==>
              && ChunkOf(f, e.0) == ChunkOf(f, d.0)
              && (if d.0 in TopAt(f, e) then BottomAt(f, d) <= TopAt(f, e) else TopAt(f, e) <= TopAt(f, d))
              && TopOf(Active(f.txData) - {d}, TopAt(f, d), e, if d.0 in TopAt(f, e) then TopAt(f, e) - BottomAt(f, d)
                       else TopAt(f, e))
    ensures e.0 in BottomAt(f, d) ==>
              && ChunkOf(f, e.0) == ChunkOf(f, d.0)
              && (if d.1 in TopAt(f, e) then TopAt(f, d) <= TopAt(f, e) else TopAt(f, e) <= BottomAt(f, d))
              && TopOf(Active(f.txData) - {d}, BottomAt(f, d), e, if d.1 in TopAt(f, e) then TopAt(f, e) - TopAt(f, d)
                       else TopAt(f, e))
    ensures e.0 !in TopAt(f, d) && e.0 !in BottomAt(f, d)
            ==> TopOf(Active(f.txData) - {d}, ChunkOf(f, e.0), e, TopAt(f, e))
  {
    hide Valid, Active, TopIdx, ChunkIdx, SetAt, Rated, Reached, Linked, Component;
    CanDeactivateFacts(k, f, d);
    CanDeactivateFacts(k, f, e);
    TopInside(k, f, e);
    TopInside(k, f, d);
    var a, x, t, b, s := Active(f.txData), ChunkOf(f, d.0), TopAt(f, d), BottomAt(f, d), TopAt(f, e);
    if e.0 in x {
      assert ChunkOf(f, e.0) == x;
      assert Closed(a - {d}, x) by {
        HalfClosed(a, x, d, t);
      }
      assert x - t == b && x - b == t;
      if e.0 in t {
        DeactivateOverlap(a, x, d, e, s, t, d.0);
        DeactivateTop(a, x, d, e, s, t, d.0);
      } else {
        HalfClosed(a, x, d, t);
        DeactivateOverlap(a, x, d, e, s, b, d.1);
        DeactivateTop(a, x, d, e, s, b, d.1);
      }
    } else {
      DeactivateTopOther(a, ChunkOf(f, e.0), e, s, d);
    }
  }

  lemma HalfClosed(a: set<Dep>, x: set<nat>, d: Dep, t: set<nat>)
    requires Component(a, x) && TopOf(a, x, d, t)
    ensures Closed(a - {d}, x) && Closed(a - {d}, x - t)
  {
  }

  lemma CutTop(k: Cluster, f: Forest, d: Dep, f': Forest, e: Dep)
    requires CanDeactivate(k, f, d) && Cut(k, f, d, f') && Partitioned(k, f') && e in Active(f'.txData)
    ensures TopOf(Active(f'.txData), ChunkOf(f', e.0), e, TopAt(f', e))
  {
    hide Valid, Active, TopIdx, ChunkIdx, SetAt, Rated, Reached, Linked, Component, TopOf;
    CutOverlap(k, f, d, e);
    CanDeactivateFacts(k, f, e);
    TopInside(k, f, e);
    CanDeactivateFacts(k, f, d);
    assert ChunkOf(f', e.0) ==
           if e.0 in TopAt(f, d) then TopAt(f, d)
           else if e.0 in BottomAt(f, d) then BottomAt(f, d)
           else ChunkOf(f, e.0);
  }

  lemma ShrunkRate(k: Cluster, s: SetInfo, v: nat, part: SetInfo, s': SetInfo)
    requires ShrunkTo(s, v, part, s')
    requires s.feerate == FeeRate(k, s.transactions) && part.feerate == FeeRate(k, part.transactions)
    requires v in s.transactions ==> part.transactions <= s.transactions
    ensures s'.feerate == FeeRate(k, s'.transactions)
  {
    if v in s.transactions {
      FeeRateMinus(k, s.transactions, part.transactions);
      hide FeeRate;
      assert s'.feerate.Plus(part.feerate) == FeeRate(k, s'.transactions).Plus(part.feerate);
    }
  }

  lemma BottomRate(k: Cluster, f: Forest, d: Dep, f': Forest)
    requires CanDeactivate(k, f, d) && Deactivated(k, f, d, f')
    ensures SetAt(f', ChunkIdx(f.txData, d.0)).feerate == FeeRate(k, BottomAt(f, d))
    ensures SetAt(f, TopIdx(f.txData, d)).feerate == FeeRate(k, TopAt(f, d))
  {
    hide Valid, CanDeactivate, Active, TopIdx, ChunkIdx, SetAt, Reached, Linked, Component, Relabelled, Detached,
        FeeRate, ShrunkTo;
    CanDeactivateFacts(k, f, d);
    FeeRateMinus(k, ChunkOf(f, d.0), TopAt(f, d));
    var s' := SetAt(f', ChunkIdx(f.txData, d.0)).feerate;
    assert s'.Plus(SetAt(f, TopIdx(f.txData, d)).feerate) == FeeRate(k, BottomAt(f, d)).Plus(FeeRate(k, TopAt(f, d)));
  }

  lemma CutTopRate(k: Cluster, f: Forest, d: Dep, f': Forest, e: Dep)
    requires CanDeactivate(k, f, d) && Deactivated(k, f, d, f') && e in Active(f.txData) && e != d
    ensures SetAt(f', TopIdx(f.txData, e)).feerate == FeeRate(k, TxsAt(f', TopIdx(f.txData, e)))
  {
    hide Valid, Active, TopIdx, ChunkIdx, SetAt, Reached, Linked, Component, Relabelled, Detached, FeeRate, ShrunkTo,
        TopOf;
    CanDeactivateFacts(k, f, d);
    CutOverlap(k, f, d, e);
    BottomRate(k, f, d, f');
    var pi, ci, i := TopIdx(f.txData, d), ChunkIdx(f.txData, d.0), TopIdx(f.txData, e);
    if e.0 in TopAt(f, d) {
      ShrunkRate(k, SetAt(f, i), d.0, SetAt(f', ci), SetAt(f', i));
    } else if e.0 in BottomAt(f, d) {
      ShrunkRate(k, SetAt(f, i), d.1, SetAt(f, pi), SetAt(f', i));
    }
  }

  lemma DeactivatedRated(k: Cluster, f: Forest, d: Dep, f': Forest)
    requires CanDeactivate(k, f, d) && Deactivated(k, f, d, f')
    ensures Rated(k, f')
  {
    hide Valid, Deactivated, Active, TopIdx, ChunkIdx, SetAt, Reached, Linked, Component, FeeRate, TopOf;
    DeactivatedChunkRates(k, f, d, f');
    CanDeactivateFacts(k, f, d);
    DeactivatedCut(k, f, d, f');
    forall e | e in Active(f'.txData)
      ensures SetAt(f', TopIdx(f'.txData, e)).feerate == FeeRate(k, TopAt(f', e))
    {
      CutTopRate(k, f, d, f', e);
    }
  }

  lemma DeactivatedChunkRates(k: Cluster, f: Forest, d: Dep, f': Forest)
    requires CanDeactivate(k, f, d) && Deactivated(k, f, d, f')
    ensures forall i | i in f'.chunkIdxs :: SetAt(f', i).feerate == FeeRate(k, TxsAt(f', i))
  {
    hide Valid, Active, TopIdx, ChunkIdx, SetAt, Reached, Linked, Component, FeeRate, TopOf, ShrunkTo, Relabelled,
        Detached;
    CanDeactivateFacts(k, f, d);
    BottomRate(k, f, d, f');
  }

  lemma DeactivatedReached(k: Cluster, f: Forest, d: Dep, f': Forest)
    requires CanDeactivate(k, f, d) && Deactivated(k, f, d, f')
    ensures Reached(k, f')
  {
    hide Valid, Active, TopIdx, ChunkIdx, SetAt, Linked, Component, TopOf, ShrunkTo, Relabelled, Detached, ParentsOf,
        ChildrenOf;
    CanDeactivateFacts(k, f, d);
  }

  /** Deactivating a dependency keeps the whole invariant. */
  lemma DeactivatedValid(k: Cluster, f: Forest, d: Dep, f': Forest)
    requires CanDeactivate(k, f, d) && Deactivated(k, f, d, f')
    ensures Valid(k, f')
  {
    hide Deactivated, Cut, Linked, Indexed, Partitioned, Connected, Rated, Reached, TopOf, Component, Active, ChunkOf,
        TopAt;
    CanDeactivateFacts(k, f, d);
    DeactivatedData(k, f, d, f');
    DeactivatedCut(k, f, d, f');
    DeactivatedRated(k, f, d, f');
    DeactivatedReached(k, f, d, f');
    TopInside(k, f, d);
    CutIndexed(k, f, d, f');
    CutPartitioned(k, f, d, f');
    CutConnected(k, f, d, f');
    forall e | e in Active(f'.txData)
      ensures TopOf(Active(f'.txData), ChunkOf(f', e.0), e, TopAt(f', e))
    {
      CutTop(k, f, d, f', e);
    }
  }

  lemma SplitChunks(f: Forest, pi: nat, ci: nat, f': Forest)
    requires ci in f.chunkIdxs && pi !in f.chunkIdxs && f'.chunkIdxs == f.chunkIdxs + {pi}
    requires forall i | i in f.chunkIdxs && i != ci :: TxsAt(f', i) == TxsAt(f, i)
    requires forall i, j | i in f.chunkIdxs && j in f.chunkIdxs && TxsAt(f, i) == TxsAt(f, j) :: i == j
    ensures Chunks(f') == Split(Chunks(f), TxsAt(f, ci), TxsAt(f', pi), TxsAt(f', ci))
  {
    hide TxsAt;
    forall x | x in Chunks(f')
      ensures x == TxsAt(f', pi) || x == TxsAt(f', ci) || (x in Chunks(f) && x != TxsAt(f, ci))
    {
      var i :| i in f'.chunkIdxs && x == TxsAt(f', i);
    }
    forall x | x in Chunks(f) && x != TxsAt(f, ci)
      ensures x in Chunks(f')
    {
      var i :| i in f.chunkIdxs && x == TxsAt(f, i);
      assert i in f'.chunkIdxs && TxsAt(f', i) == x;
    }
    assert pi in f'.chunkIdxs && ci in f'.chunkIdxs;
  }

  /** A deactivation splits exactly one chunk, into top and bottom. */
  lemma DeactivatedChunks(k: Cluster, f: Forest, d: Dep, f': Forest)
    requires CanDeactivate(k, f, d) && Deactivated(k, f, d, f')
    ensures Chunks(f') == Split(Chunks(f), ChunkOf(f, d.0), TopAt(f, d), BottomAt(f, d))
    ensures TxsAt(f', TopIdx(f.txData, d)) == TopAt(f, d)
    ensures TxsAt(f', ChunkIdx(f.txData, d.0)) == BottomAt(f, d)
  {
    hide Deactivated, CanDeactivate, Valid, Rated, Reached, Active, ChunkIdx, TopIdx, TxsAt, Chunks, Linked,
        Component, TopOf;
    CanDeactivateFacts(k, f, d);
    DeactivatedCut(k, f, d, f');
    ChunksPartition(k, f);
    SplitChunks(f, TopIdx(f.txData, d), ChunkIdx(f.txData, d.0), f');
  }
}
