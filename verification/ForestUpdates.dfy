/** How the traversals of Activate and Deactivate over the top sets add up to an activation or a
    deactivation of the forest. */
module ForestUpdates {
  import opened Clusters
  import opened Trees
  import opened Forests
  import opened Activation
  import opened Deactivation

  // ---------------------------------------------------------------- updates of top sets

  ghost predicate TopsDistinct(txData: map<nat, TxData>, n: nat) {
    && (forall e | e in Active(txData) :: TopIdx(txData, e) < n)
    && (forall d, e | d in Active(txData) && e in Active(txData) && TopIdx(txData, d) == TopIdx(txData, e) :: d == e)
  }

  ghost function DepsFrom(txData: map<nat, TxData>, txs: set<nat>): set<Dep> {
    set e | e in Active(txData) && e.0 in txs
  }

  /** A top set after part has been joined to it, or removed from it, if it contains v. */
  function Updated(s: SetInfo, v: nat, part: SetInfo, grow: bool): SetInfo {
    if v !in s.transactions then s
    else if grow then s.Join(part)
    else if part.feerate.size <= s.feerate.size then s.Remove(part)
    else s
  }

  /** Exactly the top sets of the dependencies in done have been updated. */
  ghost predicate UpdatedOn(txData: map<nat, TxData>, before: seq<SetInfo>, after: seq<SetInfo>, done: set<Dep>,
                            v: nat, part: SetInfo, grow: bool) {
    && |after| == |before|
    && (forall e | e in done && TopIdx(txData, e) < |before| ::
          after[TopIdx(txData, e)] == Updated(before[TopIdx(txData, e)], v, part, grow))
    && (forall i | 0 <= i < |before| && (forall e | e in done :: TopIdx(txData, e) != i) :: after[i] == before[i])
  }

  lemma UpdatedFresh(txData: map<nat, TxData>, before: seq<SetInfo>, after: seq<SetInfo>, done: set<Dep>, v: nat,
                     part: SetInfo, grow: bool, e: Dep)
    requires UpdatedOn(txData, before, after, done, v, part, grow) && TopsDistinct(txData, |before|)
    requires done <= Active(txData) && e in Active(txData) && e !in done
    ensures after[TopIdx(txData, e)] == before[TopIdx(txData, e)]
  {
    hide Active, TopIdx, Updated;
  }

  lemma UpdatedStep(txData: map<nat, TxData>, before: seq<SetInfo>, after: seq<SetInfo>, done: set<Dep>, v: nat,
                    part: SetInfo, grow: bool, e: Dep)
    requires UpdatedOn(txData, before, after, done, v, part, grow) && TopsDistinct(txData, |before|)
    requires done <= Active(txData) && e in Active(txData) && e !in done
    ensures var i := TopIdx(txData, e);
            UpdatedOn(txData, before, after[i := Updated(after[i], v, part, grow)], done + {e}, v, part, grow)
  {
    hide Active, TopIdx, Updated;
    UpdatedFresh(txData, before, after, done, v, part, grow, e);
  }

  /** Removing part from the top set of e is possible if it is asked for. */
  ghost predicate RemovableFrom(txData: map<nat, TxData>, setInfo: seq<SetInfo>, e: Dep, v: nat, part: SetInfo) {
    TopIdx(txData, e) < |setInfo| && v in setInfo[TopIdx(txData, e)].transactions ==>
      part.feerate.size <= setInfo[TopIdx(txData, e)].feerate.size
  }

  // ---------------------------------------------------------------- assembling an activation

  lemma ActivateAccess(k: Cluster, f: Forest, d: Dep)
    requires CanActivate(k, f, d)
    ensures d.0 in f.txData && d.1 in f.txData
    ensures Linked(k, f.txData) && Indexed(f) && TopsDistinct(f.txData, |f.setInfo|)
    ensures ChunkOf(f, d.0) <= f.txData.Keys && ChunkOf(f, d.1) <= f.txData.Keys
  {
    hide Connected, Topped, Rated, Reached, SetAt, Active, TopIdx;
  }

  /** The top sets after both traversals of Activate. */
  ghost predicate GrownTops(f: Forest, d: Dep, s2: seq<SetInfo>) {
    var p, c := SetAt(f, ChunkIdx(f.txData, d.0)), SetAt(f, ChunkIdx(f.txData, d.1));
    && |s2| == |f.setInfo|
    && (forall i | i in f.chunkIdxs && i < |s2| :: s2[i] == f.setInfo[i])
    && (forall e | e in Active(f.txData) && TopIdx(f.txData, e) < |s2| :: s2[TopIdx(f.txData, e)] ==
          if e.0 in p.transactions then Grown(SetAt(f, TopIdx(f.txData, e)), d.0, c)
          else if e.0 in c.transactions then Grown(SetAt(f, TopIdx(f.txData, e)), d.1, p)
          else SetAt(f, TopIdx(f.txData, e)))
  }

  lemma ActivateTops(f: Forest, d: Dep, s1: seq<SetInfo>, s2: seq<SetInfo>)
    requires Indexed(f) && ChunkOf(f, d.0) !! ChunkOf(f, d.1)
    requires UpdatedOn(f.txData, f.setInfo, s1, DepsFrom(f.txData, ChunkOf(f, d.0)), d.0,
                       SetAt(f, ChunkIdx(f.txData, d.1)), true)
    requires UpdatedOn(f.txData, s1, s2, DepsFrom(f.txData, ChunkOf(f, d.1)), d.1, SetAt(f, ChunkIdx(f.txData, d.0)),
                       true)
    ensures GrownTops(f, d, s2)
  {
    hide Active, TopIdx, ChunkIdx;
    forall e | e in Active(f.txData) && e.0 !in ChunkOf(f, d.0)
      ensures s1[TopIdx(f.txData, e)] == f.setInfo[TopIdx(f.txData, e)]
    {
    }
    forall e | e in Active(f.txData) && e.0 !in ChunkOf(f, d.1)
      ensures s2[TopIdx(f.txData, e)] == s1[TopIdx(f.txData, e)]
    {
    }
  }

  lemma ActivateDone(f: Forest, d: Dep, s2: seq<SetInfo>, f': Forest)
    requires Indexed(f) && GrownTops(f, d, s2) && d.0 in f.txData
    requires ChunkIdx(f.txData, d.0) in f.chunkIdxs && ChunkIdx(f.txData, d.1) in f.chunkIdxs
    requires var pi, ci := ChunkIdx(f.txData, d.0), ChunkIdx(f.txData, d.1);
             && |f'.reachable| == |s2|
             && f'.txData == Attached(Relabelled(f.txData, ChunkOf(f, d.0), ci), d, pi)
             && f'.setInfo == s2[ci := s2[ci].Join(s2[pi])]
             && f'.chunkIdxs == f.chunkIdxs - {pi}
             && f'.reachable == f.reachable[ci := (f.reachable[ci].0
                                                   + f.reachable[pi].0 - (ChunkOf(f, d.1) + ChunkOf(f, d.0)),
                                                   f.reachable[ci].1 + f.reachable[pi].1 - (ChunkOf(f, d.1)
                                                       + ChunkOf(f, d.0)))]
    ensures Activated(f, d, f')
  {
    hide Active, TopIdx, ChunkIdx, Attached, Relabelled, Grown;
  }

  // ---------------------------------------------------------------- assembling a deactivation

  /** After the detachment: data and indexes that the traversals of Deactivate rely on. */
  lemma DeactivateAccess(k: Cluster, f: Forest, d: Dep)
    requires CanDeactivate(k, f, d)
    ensures d.1 in f.txData[d.0].depTop && Indexed(f)
    ensures Linked(k, Detached(f.txData, d)) && TopsDistinct(Detached(f.txData, d), |f.setInfo|)
    ensures Detached(f.txData, d).Keys == f.txData.Keys
    ensures Active(Detached(f.txData, d)) == Active(f.txData) - {d}
    ensures forall e :: TopIdx(Detached(f.txData, d), e) == TopIdx(f.txData, e)
    ensures TopAt(f, d) <= f.txData.Keys && BottomAt(f, d) <= f.txData.Keys
    ensures SetAt(f, TopIdx(f.txData, d)).feerate.size <= SetAt(f, ChunkIdx(f.txData, d.0)).feerate.size
  {
    CanDeactivateFacts(k, f, d);
    DetachedData(k, f.txData, d);
    FeeRateMinus(k, ChunkOf(f, d.0), TopAt(f, d));
    TopInside(k, f, d);
    hide Connected, Topped, SetAt, TopIdx, ChunkIdx, Component, FeeRate, Reached, Detached;
    assert forall t | t in ChunkOf(f, d.0) :: t in k.txs;
  }

  lemma PartSize(k: Cluster, s: SetInfo, part: SetInfo)
    requires s.feerate == FeeRate(k, s.transactions) && part.feerate == FeeRate(k, part.transactions)
    requires part.transactions <= s.transactions
    ensures part.feerate.size <= s.feerate.size
  {
    FeeRateMinus(k, s.transactions, part.transactions);
  }

  /** Top sets that contain an endpoint of d contain the whole other half. */
  lemma DeactivateRemovable(k: Cluster, f: Forest, d: Dep, e: Dep, bottom: SetInfo)
    requires CanDeactivate(k, f, d) && e in Active(f.txData) && e != d
    requires bottom == SetInfo(BottomAt(f, d), FeeRate(k, BottomAt(f, d)))
    ensures TopIdx(f.txData, e) < |f.setInfo| && TopIdx(f.txData, e) != ChunkIdx(f.txData, d.0)
    ensures e.0 in TopAt(f, d) ==> RemovableFrom(f.txData, f.setInfo, e, d.0, bottom)
    ensures e.0 in BottomAt(f, d) ==> RemovableFrom(f.txData, f.setInfo, e, d.1, SetAt(f, TopIdx(f.txData, d)))
  {
    hide Valid, Active, TopIdx, ChunkIdx, FeeRate, Reached, Linked, Component, TopOf;
    CanDeactivateFacts(k, f, d);
    CanDeactivateFacts(k, f, e);
    CutOverlap(k, f, d, e);
    var s := SetAt(f, TopIdx(f.txData, e));
    if e.0 in TopAt(f, d) && d.0 in TopAt(f, e) {
      PartSize(k, s, bottom);
    }
    if e.0 in BottomAt(f, d) && d.1 in TopAt(f, e) {
      PartSize(k, s, SetAt(f, TopIdx(f.txData, d)));
    }
  }

  lemma RemovedIsShrunk(s: SetInfo, v: nat, part: SetInfo)
    requires v in s.transactions ==> part.feerate.size <= s.feerate.size
    ensures ShrunkTo(s, v, part, Updated(s, v, part, false))
  {
  }

  /** The top sets after both traversals of Deactivate. */
  ghost predicate ShrunkTops(f: Forest, d: Dep, bottom: SetInfo, s2: seq<SetInfo>) {
    var pi, ci := TopIdx(f.txData, d), ChunkIdx(f.txData, d.0);
    && |s2| == |f.setInfo| && pi < |s2| && ci < |s2|
    && s2[ci] == bottom && s2[pi] == f.setInfo[pi]
    && (forall i | i in f.chunkIdxs && i != ci && i < |s2| :: s2[i] == f.setInfo[i])
    && (forall e | e in Active(f.txData) && e != d && TopIdx(f.txData, e) < |s2| ::
          if e.0 in TopAt(f, d) then ShrunkTo(SetAt(f, TopIdx(f.txData, e)), d.0, bottom, s2[TopIdx(f.txData, e)])
          else if e.0 in BottomAt(f, d) then ShrunkTo(SetAt(f, TopIdx(f.txData, e)), d.1, SetAt(f, pi),
                                                      s2[TopIdx(f.txData, e)])
          else s2[TopIdx(f.txData, e)] == SetAt(f, TopIdx(f.txData, e)))
  }

  /** The indexes untouched by a traversal that removes from top sets. */
  lemma TraversalFrame(f: Forest, d: Dep, tx1: map<nat, TxData>, before: seq<SetInfo>, after: seq<SetInfo>,
                       txs: set<nat>, v: nat, part: SetInfo)
    requires Indexed(f) && d in Active(f.txData) && |before| == |f.setInfo|
    requires Active(tx1) == Active(f.txData) - {d} && forall e :: TopIdx(tx1, e) == TopIdx(f.txData, e)
    requires UpdatedOn(tx1, before, after, DepsFrom(tx1, txs), v, part, false)
    ensures |after| == |before|
    ensures forall i | i in f.chunkIdxs :: after[i] == before[i]
    ensures after[TopIdx(f.txData, d)] == before[TopIdx(f.txData, d)]
    ensures forall e | e in Active(f.txData) && e != d ::
              after[TopIdx(f.txData, e)] == if e.0 in txs then Updated(before[TopIdx(f.txData, e)], v, part, false)
                  else before[TopIdx(f.txData, e)]
  {
    hide Active, TopIdx, Updated;
    forall e | e in Active(f.txData) && e != d
      ensures after[TopIdx(f.txData, e)] == if e.0 in txs then Updated(before[TopIdx(f.txData, e)], v, part, false)
              else before[TopIdx(f.txData, e)]
    {
      if e.0 in txs {
        assert e in DepsFrom(tx1, txs);
      }
    }
  }

  lemma DeactivateTops(f: Forest, d: Dep, tx1: map<nat, TxData>, bottom: SetInfo, s1: seq<SetInfo>, s2: seq<SetInfo>)
    requires Indexed(f) && d in Active(f.txData) && ChunkIdx(f.txData, d.0) in f.chunkIdxs
    requires Active(tx1) == Active(f.txData) - {d} && forall e :: TopIdx(tx1, e) == TopIdx(f.txData, e)
    requires forall e | e in Active(f.txData) && e != d ::
               && (e.0 in TopAt(f, d) ==> RemovableFrom(f.txData, f.setInfo, e, d.0, bottom))
               && (e.0 in BottomAt(f, d) ==> RemovableFrom(f.txData, f.setInfo, e, d.1, SetAt(f, TopIdx(f.txData, d))))
    requires UpdatedOn(tx1, f.setInfo[ChunkIdx(f.txData, d.0) := bottom], s1, DepsFrom(tx1, TopAt(f, d)), d.0, bottom,
                       false)
    requires UpdatedOn(tx1, s1, s2, DepsFrom(tx1, BottomAt(f, d)), d.1, SetAt(f, TopIdx(f.txData, d)), false)
    ensures ShrunkTops(f, d, bottom, s2)
  {
    hide Active, TopIdx, Updated, ChunkIdx, UpdatedOn, DepsFrom, ShrunkTo;
    var pi, ci := TopIdx(f.txData, d), ChunkIdx(f.txData, d.0);
    var s0 := f.setInfo[ci := bottom];
    TraversalFrame(f, d, tx1, s0, s1, TopAt(f, d), d.0, bottom);
    TraversalFrame(f, d, tx1, s1, s2, BottomAt(f, d), d.1, SetAt(f, pi));
    assert TopAt(f, d) !! BottomAt(f, d);
    forall e | e in Active(f.txData) && e != d
      ensures if e.0 in TopAt(f, d) then ShrunkTo(SetAt(f, TopIdx(f.txData, e)), d.0, bottom, s2[TopIdx(f.txData, e)])
              else if e.0 in BottomAt(f, d) then ShrunkTo(SetAt(f, TopIdx(f.txData, e)), d.1, SetAt(f, pi),
                                                          s2[TopIdx(f.txData, e)])
              else s2[TopIdx(f.txData, e)] == SetAt(f, TopIdx(f.txData, e))
    {
      var s := SetAt(f, TopIdx(f.txData, e));
      assert s0[TopIdx(f.txData, e)] == s;
      if e.0 in TopAt(f, d) {
        RemovedIsShrunk(s, d.0, bottom);
      } else if e.0 in BottomAt(f, d) {
        RemovedIsShrunk(s, d.1, SetAt(f, pi));
      }
    }
  }

  lemma BottomInfo(k: Cluster, f: Forest, d: Dep, bottom: SetInfo)
    requires CanDeactivate(k, f, d) && bottom.transactions == BottomAt(f, d)
    requires bottom.feerate.Plus(SetAt(f, TopIdx(f.txData, d)).feerate) == SetAt(f, ChunkIdx(f.txData, d.0)).feerate
    ensures bottom == SetInfo(BottomAt(f, d), FeeRate(k, BottomAt(f, d)))
  {
    hide Valid, CanDeactivate, Active, TopIdx, ChunkIdx, SetAt, FeeRate, Reached, Linked, Component;
    CanDeactivateFacts(k, f, d);
    FeeRateMinus(k, ChunkOf(f, d.0), TopAt(f, d));
    assert bottom.feerate.Plus(FeeRate(k, TopAt(f, d))) == FeeRate(k, BottomAt(f, d)).Plus(FeeRate(k, TopAt(f, d)));
  }

  lemma DeactivateAllRemovable(k: Cluster, f: Forest, d: Dep, bottom: SetInfo)
    requires CanDeactivate(k, f, d) && bottom.transactions == BottomAt(f, d)
    requires bottom.feerate.Plus(SetAt(f, TopIdx(f.txData, d)).feerate) == SetAt(f, ChunkIdx(f.txData, d.0)).feerate
    ensures forall e | e in Active(f.txData) && e != d ::
              && TopIdx(f.txData, e) < |f.setInfo| && TopIdx(f.txData, e) != ChunkIdx(f.txData, d.0)
              && (e.0 in TopAt(f, d) ==> RemovableFrom(f.txData, f.setInfo, e, d.0, bottom))
              && (e.0 in BottomAt(f, d) ==> RemovableFrom(f.txData, f.setInfo, e, d.1, SetAt(f, TopIdx(f.txData, d))))
  {
    hide CanDeactivate, Active, TopIdx, ChunkIdx, SetAt, FeeRate, RemovableFrom;
    BottomInfo(k, f, d, bottom);
    forall e | e in Active(f.txData) && e != d
      ensures TopIdx(f.txData, e) < |f.setInfo| && TopIdx(f.txData, e) != ChunkIdx(f.txData, d.0)
      ensures e.0 in TopAt(f, d) ==> RemovableFrom(f.txData, f.setInfo, e, d.0, bottom)
      ensures e.0 in BottomAt(f, d) ==> RemovableFrom(f.txData, f.setInfo, e, d.1, SetAt(f, TopIdx(f.txData, d)))
    {
      DeactivateRemovable(k, f, d, e, bottom);
    }
  }

  /** The first traversal may remove the bottom from the top sets of the top half. */
  lemma DeactivateStart(k: Cluster, f: Forest, d: Dep, tx1: map<nat, TxData>, bottom: SetInfo)
    requires CanDeactivate(k, f, d) && ChunkIdx(f.txData, d.0) < |f.setInfo| && bottom.transactions == BottomAt(f, d)
    requires bottom.feerate.Plus(SetAt(f, TopIdx(f.txData, d)).feerate) == SetAt(f, ChunkIdx(f.txData, d.0)).feerate
    requires Active(tx1) == Active(f.txData) - {d} && forall e :: TopIdx(tx1, e) == TopIdx(f.txData, e)
    ensures forall e | e in DepsFrom(tx1, TopAt(f, d)) ::
              RemovableFrom(tx1, f.setInfo[ChunkIdx(f.txData, d.0) := bottom], e, d.0, bottom)
  {
    hide CanDeactivate, Active, TopIdx, ChunkIdx;
    DeactivateAllRemovable(k, f, d, bottom);
  }

  /** The second traversal may remove the top from the top sets of the bottom half. */
  lemma DeactivateMiddle(k: Cluster, f: Forest, d: Dep, tx1: map<nat, TxData>, bottom: SetInfo, s1: seq<SetInfo>)
    requires CanDeactivate(k, f, d) && Indexed(f) && d in Active(f.txData)
    requires ChunkIdx(f.txData, d.0) < |f.setInfo| && bottom.transactions == BottomAt(f, d)
    requires bottom.feerate.Plus(SetAt(f, TopIdx(f.txData, d)).feerate) == SetAt(f, ChunkIdx(f.txData, d.0)).feerate
    requires Active(tx1) == Active(f.txData) - {d} && forall e :: TopIdx(tx1, e) == TopIdx(f.txData, e)
    requires UpdatedOn(tx1, f.setInfo[ChunkIdx(f.txData, d.0) := bottom], s1, DepsFrom(tx1, TopAt(f, d)), d.0, bottom,
                       false)
    ensures forall e | e in DepsFrom(tx1, BottomAt(f, d)) ::
              RemovableFrom(tx1, s1, e, d.1, SetAt(f, TopIdx(f.txData, d)))
  {
    hide CanDeactivate, Active, TopIdx, ChunkIdx, Updated, UpdatedOn;
    DeactivateAllRemovable(k, f, d, bottom);
    TraversalFrame(f, d, tx1, f.setInfo[ChunkIdx(f.txData, d.0) := bottom], s1, TopAt(f, d), d.0, bottom);
    assert TopAt(f, d) !! BottomAt(f, d);
  }

  lemma DeactivateDone(k: Cluster, f: Forest, d: Dep, bottom: SetInfo, s2: seq<SetInfo>, f': Forest)
    requires Indexed(f) && ShrunkTops(f, d, bottom, s2) && d.0 in f.txData
    requires d in Active(f.txData) && ChunkIdx(f.txData, d.0) in f.chunkIdxs
    requires bottom.transactions == BottomAt(f, d)
    requires bottom.feerate.Plus(SetAt(f, TopIdx(f.txData, d)).feerate) == SetAt(f, ChunkIdx(f.txData, d.0)).feerate
    requires var pi, ci := TopIdx(f.txData, d), ChunkIdx(f.txData, d.0);
             && f'.txData == Relabelled(Detached(f.txData, d), TopAt(f, d), pi)
             && f'.setInfo == s2
             && f'.chunkIdxs == f.chunkIdxs + {pi}
             && f'.reachable == f.reachable[pi := (ParentsOf(k, TopAt(f, d)) - TopAt(f, d),
                                                   ChildrenOf(k, TopAt(f, d)) - TopAt(f, d))]
                                           [ci := (ParentsOf(k, BottomAt(f, d)) - BottomAt(f, d),
                                                   ChildrenOf(k, BottomAt(f, d)) - BottomAt(f, d))]
    ensures Deactivated(k, f, d, f')
  {
    hide Active, TopIdx, ChunkIdx, Detached, Relabelled, ShrunkTo, ParentsOf, ChildrenOf;
  }
}
