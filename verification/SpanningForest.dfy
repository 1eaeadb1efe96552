/** The spanning-forest linearization state, with the operations of SpanningForestState. Random
    choices are arbitrary choices. */
module SpanningForest {
  import opened Options
  import opened FeeFracs
  import opened Clusters
  import opened DepGraphs
  import opened Merging
  import opened Improving
  import opened Trees
  import opened Optimality
  import opened Forests
  import opened Activation
  import opened Deactivation
  import opened ForestFacts
  import opened ForestUpdates
  import opened ForestMerging
  import opened ForestImproving
  import opened ForestTopology
  import opened Loading
  import opened ForestLoading
  import opened ForestInit
  import opened Minimizing
  import opened ForestMinimizing
  import opened Output
  import opened ForestOutput
  import opened Diagrams
  import opened ChunkDiagrams

  class SpanningForestState {
    const depgraph: DepGraph
    var txData: map<nat, TxData>
    var setInfo: seq<SetInfo>
    var reachable: seq<(set<nat>, set<nat>)>
    var chunkIdxs: set<nat>
    var suboptimalIdxs: set<nat>
    var suboptimalChunks: seq<nat>
    var nonminimalChunks: seq<Pending>

    ghost function K(): Cluster {
      ClusterOf(depgraph)
    }

    ghost function St(): Forest
      reads this
    {
      Forest(txData, setInfo, reachable, chunkIdxs)
    }

    /** Every transaction in its own chunk. */
    constructor (g: DepGraph)
      requires g.Valid()
      ensures depgraph == g && Valid(K(), St()) && Chunks(St()) == Singletons(K().txs)
      ensures suboptimalChunks == [] && suboptimalIdxs == {}
    {
      depgraph := g;
      txData := map t | t in g.entries :: BLANK;
      setInfo, reachable, chunkIdxs := [], [], {};
      suboptimalIdxs, suboptimalChunks, nonminimalChunks := {}, [], [];
      new;
      assert K() == ClusterOf(g);
      hide Valid, K, ClusterOf, Singletons, Chunks, Filled;
      assert Filled(g, txData, [], []) by {
        FilledEmpty(g);
      }
      ghost var order := FillTransactions();
      FillReachable(order);
      InitialValid(g, St(), order);
    }

    /** First loop of the constructor: parents, children and a singleton chunk for each
        transaction. */
    method FillTransactions() returns (ghost order: seq<nat>)
      requires depgraph.Valid() && Filled(depgraph, txData, setInfo, []) && chunkIdxs == {}
      modifies this`txData, this`setInfo, this`chunkIdxs
      ensures Filled(depgraph, txData, setInfo, order) && forall t | t in depgraph.entries :: t in order
      ensures forall i: nat :: i in chunkIdxs <==> i < |setInfo|
    {
      hide Filled, ReducedParents, Fill;
      FilledLength(depgraph, txData, setInfo, []);
      order := [];
      var todo := depgraph.Positions();
      while todo != {}
        invariant Filled(depgraph, txData, setInfo, order) && forall t | t in depgraph.entries ::
          t in todo <==> t !in order
        invariant todo <= depgraph.entries.Keys
        invariant forall i: nat :: i in chunkIdxs <==> i < |setInfo|
      {
        var t :| t in todo;
        var parents := GetReducedParents(depgraph, t);
        FilledStep(depgraph, txData, setInfo, order, t);
        txData := Fill(txData, t, parents, |setInfo|);
        chunkIdxs := chunkIdxs + {|setInfo|};
        setInfo := setInfo + [SetInfo({t}, depgraph.entries[t].feerate)];
        order := order + [t];
        todo := todo - {t};
      }
    }

    /** Second loop of the constructor: the reachable sets of the singleton chunks. */
    method FillReachable(ghost order: seq<nat>)
      requires depgraph.Valid() && Filled(depgraph, txData, setInfo, order) && reachable == []
      requires forall t | t in depgraph.entries :: t in order
      requires forall i: nat :: i in chunkIdxs <==> i < |setInfo|
      modifies this`reachable
      ensures Initial(depgraph, St(), order)
    {
      hide ReducedParents;
      for i := 0 to |setInfo|
        invariant |reachable| == i
        invariant forall j | 0 <= j < i :: order[j] in txData
                                           && reachable[j] == (txData[order[j]].parents, txData[order[j]].children)
      {
        assert FilledAt(depgraph, txData, setInfo, order, i);
        var t :| t in setInfo[i].transactions;
        reachable := reachable + [(txData[t].parents, txData[t].children)];
      }
    }

    // -------------------------------------------------------------- loops over chunks

    /** Set the chunk index of all transactions in txs. */
    method Relabel(txs: set<nat>, idx: nat)
      requires txs <= txData.Keys
      modifies this`txData
      ensures txData == Relabelled(old(txData), txs, idx)
    {
      var todo := txs;
      while todo != {}
        invariant todo <= txs && txData.Keys == old(txData).Keys
        invariant forall t | t in txData :: txData[t] ==
                    if t in txs && t !in todo then old(txData)[t].(chunkIdx := idx) else old(txData)[t]
      {
        var t :| t in todo;
        txData := txData[t := txData[t].(chunkIdx := idx)];
        todo := todo - {t};
      }
    }

    /** Join part to (or remove it from) one top set, if it contains v. */
    method UpdateTop(t: nat, c: nat, v: nat, part: SetInfo, grow: bool, ghost before: seq<SetInfo>,
                     ghost done: set<Dep>)
      requires Linked(K(), txData) && TopsDistinct(txData, |before|) && (t, c) in Active(txData) && (t, c) !in done
      requires done <= Active(txData) && UpdatedOn(txData, before, setInfo, done, v, part, grow)
      requires !grow ==> RemovableFrom(txData, before, (t, c), v, part)
      modifies this`setInfo
      ensures UpdatedOn(txData, before, setInfo, done + {(t, c)}, v, part, grow)
    {
      UpdatedFresh(txData, before, setInfo, done, v, part, grow, (t, c));
      UpdatedStep(txData, before, setInfo, done, v, part, grow, (t, c));
      var i := txData[t].depTop[c];
      assert i == TopIdx(txData, (t, c));
      hide UpdatedOn, Linked, Active;
      if v in setInfo[i].transactions {
        setInfo := setInfo[i := if grow then setInfo[i].Join(part) else setInfo[i].Remove(part)];
      } else {
        assert setInfo == setInfo[i := setInfo[i]];
      }
    }

    /** UpdateTop for all active dependencies with parent t. */
    method UpdateTopsOf(t: nat, v: nat, part: SetInfo, grow: bool, ghost before: seq<SetInfo>, ghost done: set<Dep>)
      requires Linked(K(), txData) && TopsDistinct(txData, |before|) && t in txData
      requires done <= Active(txData) && done !! DepsFrom(txData, {t})
      requires UpdatedOn(txData, before, setInfo, done, v, part, grow)
      requires !grow ==> forall e | e in DepsFrom(txData, {t}) :: RemovableFrom(txData, before, e, v, part)
      modifies this`setInfo
      ensures UpdatedOn(txData, before, setInfo, done + DepsFrom(txData, {t}), v, part, grow)
    {
      hide UpdatedOn, Linked, TopsDistinct, RemovableFrom;
      var deps := txData[t].activeChildren;
      ghost var new_: set<Dep> := {};
      assert done + new_ == done;
      while deps != {}
        invariant deps <= txData[t].activeChildren
        invariant new_ == set c | c in txData[t].activeChildren && c !in deps :: (t, c)
        invariant UpdatedOn(txData, before, setInfo, done + new_, v, part, grow)
      {
        var c :| c in deps;
        assert (t, c) in DepsFrom(txData, {t}) && new_ <= Active(txData);
        UpdateTop(t, c, v, part, grow, before, done + new_);
        deps := deps - {c};
        new_ := new_ + {(t, c)};
        assert done + new_ == done + (new_ - {(t, c)}) + {(t, c)};
      }
      assert new_ == DepsFrom(txData, {t});
    }

    /** Join part to (or remove it from) the top set of every active dependency with parent in
        txs that contains v. */
    method UpdateTops(txs: set<nat>, v: nat, part: SetInfo, grow: bool)
      requires Linked(K(), txData) && txs <= txData.Keys && TopsDistinct(txData, |setInfo|)
      requires !grow ==> forall e | e in DepsFrom(txData, txs) :: RemovableFrom(txData, setInfo, e, v, part)
      modifies this`setInfo
      ensures |setInfo| == |old(setInfo)|
      ensures UpdatedOn(txData, old(setInfo), setInfo, DepsFrom(txData, txs), v, part, grow)
    {
      var todo := txs;
      while todo != {}
        invariant todo <= txs
        invariant UpdatedOn(txData, old(setInfo), setInfo, DepsFrom(txData, txs - todo), v, part, grow)
      {
        hide UpdatedOn, Linked, TopsDistinct, RemovableFrom, Active;
        var t :| t in todo;
        assert DepsFrom(txData, txs - (todo - {t})) == DepsFrom(txData, txs - todo) + DepsFrom(txData, {t});
        UpdateTopsOf(t, v, part, grow, old(setInfo), DepsFrom(txData, txs - todo));
        todo := todo - {t};
      }
      assert txs - todo == txs;
    }

    // -------------------------------------------------------------- activation and deactivation

    /** Activate: make the inactive dependency from child to parent active, merging two chunks.
        Returns the index of the merged chunk. */
    method Activate(parent: nat, child: nat) returns (merged: nat)
      requires CanActivate(K(), St(), (parent, child))
      modifies this`txData, this`setInfo, this`reachable, this`chunkIdxs
      ensures Activated(old(St()), (parent, child), St())
      ensures merged == ChunkIdx(old(txData), child)
    {
      ghost var f := St();
      ghost var d := (parent, child);
      hide Valid, CanActivate, Linked, Active, TopIdx, K, UpdatedOn, DepsFrom, TopsDistinct, Reached, Rated, Indexed,
          Activated, GrownTops;
      CanActivateFacts(K(), f, d);
      ActivateAccess(K(), f, d);
      var parentChunk, childChunk := txData[parent].chunkIdx, txData[child].chunkIdx;
      var top, bottom := setInfo[parentChunk], setInfo[childChunk];
      UpdateTops(top.transactions, parent, bottom, true);
      ghost var s1 := setInfo;
      UpdateTops(bottom.transactions, child, top, true);
      ghost var s2 := setInfo;
      ActivateTops(f, d, s1, s2);
      setInfo := setInfo[childChunk := setInfo[childChunk].Join(setInfo[parentChunk])];
      var merging := bottom.transactions + top.transactions;
      reachable := reachable[childChunk := (reachable[childChunk].0 + reachable[parentChunk].0 - merging,
                                            reachable[childChunk].1 + reachable[parentChunk].1 - merging)];
      Relabel(top.transactions, childChunk);
      txData := txData[parent := txData[parent].(depTop := txData[parent].depTop[child := parentChunk],
                                                 activeChildren := txData[parent].activeChildren + {child})];
      chunkIdxs := chunkIdxs - {parentChunk};
      merged := childChunk;
      ActivateDone(f, d, s2, St());
    }

    /** The union of the parents and of the children of a set of transactions. */
    method GatherLinks(txs: set<nat>) returns (parents: set<nat>, children: set<nat>)
      requires Linked(K(), txData) && txs <= txData.Keys
      ensures parents == ParentsOf(K(), txs) && children == ChildrenOf(K(), txs)
    {
      hide K;
      parents, children := {}, {};
      var todo := txs;
      while todo != {}
        invariant todo <= txs
        invariant parents == ParentsOf(K(), txs - todo) && children == ChildrenOf(K(), txs - todo)
      {
        var t :| t in todo;
        parents, children := parents + txData[t].parents, children + txData[t].children;
        todo := todo - {t};
      }
      assert txs - todo == txs;
    }

    /** Deactivate: make an active dependency inactive, splitting its chunk in two. Returns the
        indexes of the new parent (top) and child (bottom) chunks. */
    method Deactivate(parent: nat, child: nat) returns (parentChunk: nat, childChunk: nat)
      requires CanDeactivate(K(), St(), (parent, child))
      modifies this`txData, this`setInfo, this`reachable, this`chunkIdxs
      ensures Deactivated(K(), old(St()), (parent, child), St())
      ensures parentChunk == TopIdx(old(txData), (parent, child)) && childChunk == ChunkIdx(old(txData), parent)
    {
      ghost var f := St();
      ghost var d := (parent, child);
      hide Valid, CanDeactivate, Linked, Active, K, UpdatedOn, DepsFrom, TopsDistinct, Reached, Rated, Indexed,
          Deactivated, ShrunkTops, Component, TopOf, FeeRate;
      CanDeactivateFacts(K(), f, d);
      DeactivateAccess(K(), f, d);
      parentChunk, childChunk := txData[parent].depTop[child], txData[parent].chunkIdx;
      assert parentChunk == TopIdx(f.txData, d);
      txData := txData[parent := txData[parent].(activeChildren := txData[parent].activeChildren - {child})];
      ghost var tx1 := txData;
      chunkIdxs := chunkIdxs + {parentChunk};
      var top := setInfo[parentChunk];
      var bottom := setInfo[childChunk].Remove(top);
      setInfo := setInfo[childChunk := bottom];
      DeactivateStart(K(), f, d, tx1, bottom);
      UpdateTops(top.transactions, parent, bottom, false);
      ghost var s1 := setInfo;
      DeactivateMiddle(K(), f, d, tx1, bottom, s1);
      UpdateTops(bottom.transactions, child, top, false);
      ghost var s2 := setInfo;
      DeactivateAllRemovable(K(), f, d, bottom);
      DeactivateTops(f, d, tx1, bottom, s1, s2);
      var topParents, topChildren := GatherLinks(top.transactions);
      var bottomParents, bottomChildren := GatherLinks(bottom.transactions);
      reachable := reachable[parentChunk := (topParents - top.transactions, topChildren - top.transactions)]
                            [childChunk := (bottomParents - bottom.transactions, bottomChildren - bottom.transactions)];
      Relabel(top.transactions, parentChunk);
      DeactivateDone(K(), f, d, bottom, s2, St());
    }

    // -------------------------------------------------------------- merging

    /** PickMergeCandidate: among the chunks on which this one depends (on which it is depended
        upon, if down), one of lowest (highest) feerate that is no higher (lower). */
    method PickMergeCandidate(down: bool, chunk: nat) returns (best: Option<nat>)
      requires Valid(K(), St()) && chunk in chunkIdxs
      ensures best.None? ==> NothingToMerge(Directed(K(), down), Chunks(St()), TxsAt(St(), chunk))
      ensures best.Some? ==> best.value in chunkIdxs && best.value != chunk
      ensures best.Some? ==> LowestParent(Directed(K(), down), Chunks(St()), TxsAt(St(), chunk),
                                          TxsAt(St(), best.value))
    {
      ghost var f, k := St(), K();
      ghost var dk := Directed(k, down);
      hide Valid, K, Directed, RateOf, FeeRateCompare, DependsOn, Linked, Chunks, NothingToMerge, LowestParent;
      ChunkAccess(k, f, chunk);
      var bestFeerate := setInfo[chunk].feerate;
      var bestTiebreak: nat := 0;
      best := None;
      ghost var cur := chunk;
      ghost var seen: set<nat> := {};
      var todo := if down then reachable[chunk].1 else reachable[chunk].0;
      while todo != {}
        invariant todo <= Reachable(f, chunk, down)
        invariant forall j | j in seen :: j in chunkIdxs && j != chunk && DependsOn(dk, TxsAt(f, chunk), TxsAt(f, j))
        invariant forall t | t in Reachable(f, chunk, down) && t !in todo :: ChunkIdx(txData, t) in seen
        invariant cur in chunkIdxs && bestFeerate == SetAt(f, cur).feerate
        invariant best.None? ==> cur == chunk && bestTiebreak == 0
        invariant best.None? ==> forall j | j in seen :: RateOf(dk, TxsAt(f, cur)) < RateOf(dk, TxsAt(f, j))
        invariant best.Some? ==> cur == best.value && cur in seen
                                 && RateOf(dk, TxsAt(f, cur)) <= RateOf(dk, TxsAt(f, chunk))
        invariant best.Some? ==> forall j | j in seen :: RateOf(dk, TxsAt(f, cur)) <= RateOf(dk, TxsAt(f, j))
      {
        var t :| t in todo;
        ReachableChunk(k, f, chunk, down, t);
        var j := txData[t].chunkIdx;
        ChunkAccess(k, f, j);
        forall u | u in TxsAt(f, j)
          ensures ChunkIdx(txData, u) == j
        {
          ChunkMember(k, f, j, u);
        }
        todo := todo - setInfo[j].transactions;
        seen := seen + {j};
        DirectedCompare(k, f, down, j, cur);
        var cmp := if down then FeeRateCompare(bestFeerate, setInfo[j].feerate)
            else FeeRateCompare(setInfo[j].feerate, bestFeerate);
        if cmp <= 0 {
          var tiebreak: nat :| true;
          if cmp < 0 || tiebreak >= bestTiebreak {
            bestFeerate, best, bestTiebreak := setInfo[j].feerate, Some(j), tiebreak;
            cur := j;
          }
        } else {
          assert RateOf(dk, TxsAt(f, cur)) < RateOf(dk, TxsAt(f, j));
        }
      }
      assert Covered(k, f, chunk, down, seen);
      if best.None? {
        CandidateNone(k, f, chunk, down, seen);
      } else {
        CandidateSome(k, f, chunk, down, seen, best.value);
      }
    }

    /** MergeChunks: activate an arbitrary dependency from the bottom chunk to the top chunk. */
    method MergeChunks(top: nat, bottom: nat) returns (merged: nat)
      requires Valid(K(), St()) && top in chunkIdxs && bottom in chunkIdxs && top != bottom
      requires DependsOn(K(), TxsAt(St(), bottom), TxsAt(St(), top))
      modifies this`txData, this`setInfo, this`reachable, this`chunkIdxs
      ensures Valid(K(), St()) && merged == bottom
      ensures MergedInto(K(), old(St()), top, bottom, St(), merged)
    {
      ghost var f, k := St(), K();
      hide Valid, K, RateOf, Linked, Chunks, MergedInto, CanActivate, Activated;
      ChunkAccess(k, f, top);
      ChunkAccess(k, f, bottom);
      MergeDep(k, f, top, bottom);
      var tx, child :| tx in setInfo[top].transactions && child in txData[tx].children
                       && child in setInfo[bottom].transactions;
      MergeCanActivate(k, f, top, bottom, (tx, child));
      merged := Activate(tx, child);
      MergeActivated(k, f, top, bottom, (tx, child), St());
    }

    /** MergeStep: one upward (downward) merge of the chunk, if a candidate exists. */
    method MergeStep(down: bool, chunk: nat) returns (merged: Option<nat>, ghost other: nat)
      requires Valid(K(), St()) && chunk in chunkIdxs
      modifies this`txData, this`setInfo, this`reachable, this`chunkIdxs
      ensures Valid(K(), St())
      ensures merged.None? ==> St() == old(St()) && NothingToMerge(Directed(K(), down), Chunks(St()),
              TxsAt(St(), chunk))
      ensures merged.Some? ==> other in old(chunkIdxs) && other != chunk
      ensures merged.Some? ==> LowestParent(Directed(K(), down), Chunks(old(St())), TxsAt(old(St()), chunk),
                                            TxsAt(old(St()), other))
      ensures merged.Some? ==> MergedInto(K(), old(St()), chunk, other, St(), merged.value)
    {
      ghost var f, k := St(), K();
      hide Valid, K, MergedInto, NothingToMerge, TxsAt, Chunks;
      var candidate := PickMergeCandidate(down, chunk);
      other := 0;
      if candidate.None? {
        merged := None;
      } else {
        other := candidate.value;
        LowestDepends(k, f, down, chunk, other);
        hide LowestParent;
        var m;
        if down {
          m := MergeChunks(chunk, candidate.value);
        } else {
          m := MergeChunks(candidate.value, chunk);
          MergedIntoSym(k, f, other, chunk, St(), m);
        }
        merged := Some(m);
      }
    }

    /** Merge upwards (downwards) as long as possible. If climbing is set, the chunk may climb with
        the chunks that have an index in keep out of scope, and then those are not touched. */
    method MergeAll(down: bool, chunk: nat, ghost keep: set<nat>, ghost climbing: bool)
      returns (last: nat, ghost merged: set<set<nat>>)
      requires Valid(K(), St()) && chunk in chunkIdxs
      requires climbing ==> keep <= chunkIdxs && chunk !in keep
      requires climbing ==> Climbing(Directed(K(), down), Chunks(St()), Chunks(St()) - TxsOf(St(), keep),
                                     TxsAt(St(), chunk))
      modifies this`txData, this`setInfo, this`reachable, this`chunkIdxs
      ensures Valid(K(), St()) && last in chunkIdxs
      ensures NothingToMerge(Directed(K(), down), Chunks(St()), TxsAt(St(), last))
      ensures climbing ==>
                && keep <= chunkIdxs && last !in keep
                && Sequence(Directed(K(), down), TxsOf(old(St()), keep), Chunks(old(St())), TxsAt(old(St()), chunk),
                            Chunks(St()), TxsAt(St(), last), merged)
                && Framed(K(), old(St()), chunk, St(), last)
                && (forall i | i in keep :: TxsAt(St(), i) == TxsAt(old(St()), i))
    {
      ghost var k, f0 := K(), St();
      ghost var dk, out := Directed(k, down), TxsOf(f0, keep);
      hide Valid, K, Directed, MergedInto, NothingToMerge, TxsAt, Chunks, Climbing, Sequence, LowestParent, TxsOf,
          Framed;
      if climbing {
        SequenceStartForest(k, f0, dk, keep, chunk);
      }
      last := chunk;
      merged := {};
      var going := true;
      while going
        invariant Valid(k, St()) && last in chunkIdxs
        invariant climbing ==> keep <= chunkIdxs && last !in keep
        invariant climbing ==> Sequence(dk, out, Chunks(f0), TxsAt(f0, chunk), Chunks(St()), TxsAt(St(), last), merged)
        invariant climbing ==> Framed(k, f0, chunk, St(), last) && forall i | i in keep ::
          TxsAt(St(), i) == TxsAt(f0, i)
        invariant !going ==> NothingToMerge(dk, Chunks(St()), TxsAt(St(), last))
        decreases |chunkIdxs| + if going then 1 else 0
      {
        ghost var f := St();
        var next, other := MergeStep(down, last);
        if next.None? {
          going := false;
        } else {
          MergedCount(k, f, last, other, St(), next.value);
          if climbing {
            SequenceStepForest(k, f0, dk, keep, chunk, f, last, merged, other, St(), next.value);
          }
          merged := merged + {TxsAt(f, other)};
          last := next.value;
        }
      }
    }

    /** MergeSequence: merge upwards (downwards) as long as possible, then queue the result. The
        chunks with an index in keep are not touched. */
    method MergeSequence(down: bool, chunk: nat, ghost keep: set<nat>) returns (ghost last: nat,
        ghost merged: set<set<nat>>)
      requires Valid(K(), St()) && chunk in chunkIdxs && keep <= chunkIdxs && chunk !in keep
      requires Climbing(Directed(K(), down), Chunks(St()), Chunks(St()) - TxsOf(St(), keep), TxsAt(St(), chunk))
      modifies this`txData, this`setInfo, this`reachable, this`chunkIdxs, this`suboptimalIdxs, this`suboptimalChunks
      ensures Valid(K(), St()) && last in chunkIdxs && keep <= chunkIdxs && last !in keep
      ensures Sequence(Directed(K(), down), TxsOf(old(St()), keep), Chunks(old(St())), TxsAt(old(St()), chunk),
                       Chunks(St()), TxsAt(St(), last), merged)
      ensures NothingToMerge(Directed(K(), down), Chunks(St()), TxsAt(St(), last))
      ensures Framed(K(), old(St()), chunk, St(), last) && forall i | i in keep :: TxsAt(St(), i) == TxsAt(old(St()), i)
      ensures Queued(old(suboptimalIdxs), old(suboptimalChunks), last, suboptimalIdxs, suboptimalChunks)
    {
      hide Valid, K, Directed, NothingToMerge, TxsAt, Chunks, Climbing, Sequence, TxsOf, Framed, Queued;
      var cur;
      cur, merged := MergeAll(down, chunk, keep, true);
      Enqueue(cur);
      last := cur;
    }

    /** Add a chunk to the queue of improvable chunks unless it is already there. */
    method Enqueue(chunk: nat)
      modifies this`suboptimalIdxs, this`suboptimalChunks
      ensures Queued(old(suboptimalIdxs), old(suboptimalChunks), chunk, suboptimalIdxs, suboptimalChunks)
    {
      if chunk !in suboptimalIdxs {
        suboptimalIdxs := suboptimalIdxs + {chunk};
        suboptimalChunks := suboptimalChunks + [chunk];
      }
    }

    // -------------------------------------------------------------- optimizing

    /** The invariant of the improvement loop: the state is topological, and every chunk that is
        not queued is optimal. */
    ghost predicate Optimizing()
      reads this
    {
      && Valid(K(), St()) && Topological(K(), Chunks(St()))
      && QueueOk(suboptimalIdxs, suboptimalChunks)
      && QueuedOrOptimal(K(), St(), suboptimalIdxs, {})
    }

    /** Improve: split a chunk at a dependency whose top has a higher feerate, and merge the two
        parts until the state is topological again. */
    method Improve(parent: nat, child: nat)
      requires Violating(K(), St(), (parent, child)) && Topological(K(), Chunks(St()))
      requires QueueOk(suboptimalIdxs, suboptimalChunks)
      requires QueuedOrOptimal(K(), St(), suboptimalIdxs, {ChunkIdx(txData, parent)})
      modifies this
      ensures Optimizing()
      ensures AtLeastAsGood(K(), Chunks(St()), Chunks(old(St())))
      ensures Chunks(St()) == Chunks(old(St())) || !AtLeastAsGood(K(), Chunks(old(St())), Chunks(St()))
    {
      ghost var f, k, d := St(), K(), (parent, child);
      ghost var queued := suboptimalIdxs;
      hide Valid, K, CanDeactivate, Deactivated, Topological, Chunks, TxsAt, ChunkIdx, TopIdx, QueuedOrOptimal,
          QueueOk, RateOf,
           MergedInto, Framed, Queued, Sequence, NothingToMerge, Climbing, Climbed, Splittable, AtLeastAsGood,
               Reachable;
      var parentChunk, childChunk := Deactivate(parent, child);
      ghost var f1 := St();
      SplitFacts(k, f, d, f1);
      OverlapDepends(k, f1, parentChunk, childChunk);
      ReachableAt(k, f1, parentChunk);
      ReachableAt(k, f1, childChunk);
      if reachable[parentChunk].0 * setInfo[childChunk].transactions != {} {
        var m := MergeChunks(childChunk, parentChunk);
        SelfMerged(k, f, d, f1, St(), m);
        SelfMergedQueue(k, f, d, f1, St(), m, queued);
        ghost var queue := suboptimalChunks;
        Enqueue(m);
        QueuedQueueOk(queued, queue, m, suboptimalIdxs, suboptimalChunks);
        QueuedIdxs(queued, queue, m, suboptimalIdxs, suboptimalChunks);
        AtLeastAsGoodSelf(k, Chunks(f));
      } else {
        SplitReady(k, f, d, f1);
        ghost var queue0 := suboptimalChunks;
        ghost var last, ups := MergeSequence(false, parentChunk, {childChunk});
        ghost var f2, idxs1, queue1 := St(), suboptimalIdxs, suboptimalChunks;
        QueuedQueueOk(queued, queue0, last, idxs1, queue1);
        QueuedIdxs(queued, queue0, last, idxs1, queue1);
        ClimbedReady(k, f, d, f1, f2, last, ups);
        ghost var last', downs := MergeSequence(true, childChunk, {});
        QueuedQueueOk(idxs1, queue1, last', suboptimalIdxs, suboptimalChunks);
        QueuedIdxs(idxs1, queue1, last', suboptimalIdxs, suboptimalChunks);
        ImprovedReady(k, f, d, f1, f2, last, ups, St(), last', downs);
        ImprovedQueue(k, f, d, f1, f2, last, St(), last', queued);
      }
    }

    /** PickDependencyToSplit: an arbitrary dependency of the chunk whose top set has a higher
        feerate than the chunk, if there is any. */
    method PickDependencyToSplit(chunk: nat) returns (dep: Option<Dep>)
      requires Valid(K(), St()) && chunk in chunkIdxs
      ensures dep.None? ==> ChunkOptimal(K(), St(), chunk)
      ensures dep.Some? ==> Violating(K(), St(), dep.value) && ChunkIdx(txData, dep.value.0) == chunk
    {
      ghost var f, k := St(), K();
      hide Valid, K, ChunkOptimal, RateOf, FeeRateCompare, TxsAt, OptimalOn, ChunkIdx, TopIdx, Violating, Linked;
      ChunkAccess(k, f, chunk);
      ReachableAt(k, f, chunk);
      dep := None;
      var candidateTiebreak: nat := 0;
      var todo := setInfo[chunk].transactions;
      OptimalOnNone(k, f, chunk);
      assert TxsAt(f, chunk) - todo == {};
      while todo != {}
        invariant todo <= TxsAt(f, chunk)
        invariant dep.None? ==> candidateTiebreak == 0 && OptimalOn(k, f, chunk, TxsAt(f, chunk) - todo)
        invariant dep.Some? ==> Violating(k, f, dep.value) && ChunkIdx(txData, dep.value.0) == chunk
      {
        var t :| t in todo;
        var children := txData[t].activeChildren;
        while children != {}
          invariant children <= txData[t].activeChildren
          invariant dep.None? ==> candidateTiebreak == 0 && OptimalOn(k, f, chunk, TxsAt(f, chunk) - todo)
          invariant dep.None? ==> forall c | c in txData[t].activeChildren
                                  && c !in children :: RateOf(k, TopAt(f, (t, c))) <= RateOf(k, TxsAt(f, chunk))
          invariant dep.Some? ==> Violating(k, f, dep.value) && ChunkIdx(txData, dep.value.0) == chunk
        {
          var c :| c in children;
          children := children - {c};
          assert (t, c) in Active(txData);
          TopCompare(k, f, chunk, (t, c));
          TopIdxAt(txData, (t, c));
          var cmp := FeeRateCompare(setInfo[txData[t].depTop[c]].feerate, setInfo[chunk].feerate);
          if cmp > 0 {
            ViolatingDep(k, f, chunk, (t, c));
            var tiebreak: nat :| true;
            if tiebreak >= candidateTiebreak {
              dep, candidateTiebreak := Some((t, c)), tiebreak;
            }
          }
        }
        if dep.None? {
          OptimalOnAdd(k, f, chunk, TxsAt(f, chunk) - todo, t);
        }
        assert TxsAt(f, chunk) - (todo - {t}) == TxsAt(f, chunk) - todo + {t};
        todo := todo - {t};
      }
      if dep.None? {
        assert TxsAt(f, chunk) - todo == TxsAt(f, chunk);
        OptimalOnAll(k, f, chunk);
      }
    }

    /** PickChunkToOptimize: the first queued index that is a chunk, if any. */
    method PickChunkToOptimize() returns (chunk: Option<nat>)
      requires Optimizing()
      modifies this`suboptimalIdxs, this`suboptimalChunks
      ensures QueueOk(suboptimalIdxs, suboptimalChunks)
      ensures chunk.None? ==> suboptimalIdxs == {} && QueuedOrOptimal(K(), St(), suboptimalIdxs, {})
      ensures chunk.Some? ==> chunk.value in chunkIdxs && QueuedOrOptimal(K(), St(), suboptimalIdxs, {chunk.value})
    {
      hide Valid, K, Topological, ChunkOptimal, Chunks;
      while suboptimalChunks != []
        invariant QueueOk(suboptimalIdxs, suboptimalChunks) && QueuedOrOptimal(K(), St(), suboptimalIdxs, {})
        decreases |suboptimalChunks|
      {
        var front := suboptimalChunks[0];
        ghost var before := suboptimalChunks;
        suboptimalIdxs := suboptimalIdxs - {front};
        suboptimalChunks := suboptimalChunks[1..];
        assert before == [front] + suboptimalChunks;
        if front in chunkIdxs {
          chunk := Some(front);
          return;
        }
      }
      chunk := None;
    }

    /** OptimizeStep: returns false only in a state where no active dependency has a top set of
        higher feerate than its chunk. */
    method OptimizeStep() returns (more: bool)
      requires Optimizing()
      modifies this
      ensures Optimizing()
      ensures AtLeastAsGood(K(), Chunks(St()), Chunks(old(St())))
      ensures !more ==> forall i | i in chunkIdxs :: ChunkOptimal(K(), St(), i)
    {
      hide Valid, K, Topological, ChunkOptimal, Chunks, AtLeastAsGood;
      AtLeastAsGoodSelf(K(), Chunks(St()));
      var chunk := PickChunkToOptimize();
      if chunk.None? {
        return false;
      }
      var dep := PickDependencyToSplit(chunk.value);
      if dep.None? {
        return suboptimalChunks != [];
      }
      Improve(dep.value.0, dep.value.1);
      return true;
    }

    // -------------------------------------------------------------- reaching a topological state

    /** Put all chunks in the queue of improvable chunks, in an arbitrary order. */
    method QueueAllChunks()
      requires suboptimalChunks == []
      modifies this`suboptimalIdxs, this`suboptimalChunks
      ensures suboptimalIdxs == chunkIdxs && QueueOk(suboptimalIdxs, suboptimalChunks)
    {
      suboptimalIdxs := chunkIdxs;
      var todo := chunkIdxs;
      while todo != {}
        invariant todo <= chunkIdxs && suboptimalIdxs == chunkIdxs
        invariant QueueOk(chunkIdxs - todo, suboptimalChunks)
      {
        var chunk :| chunk in todo;
        todo := todo - {chunk};
        suboptimalChunks := suboptimalChunks + [chunk];
        var n := |suboptimalChunks|;
        var j: nat :| j < n;
        ghost var before := suboptimalChunks;
        assert QueueOk(chunkIdxs - todo, before);
        if j != n - 1 {
          suboptimalChunks := suboptimalChunks[j := suboptimalChunks[n - 1]][n - 1 := suboptimalChunks[j]];
          SwapQueueOk(chunkIdxs - todo, before, j, n - 1);
        }
      }
      assert chunkIdxs - todo == chunkIdxs;
    }

    /** StartOptimizing. */
    method StartOptimizing()
      requires Valid(K(), St()) && Topological(K(), Chunks(St())) && suboptimalChunks == []
      modifies this`suboptimalIdxs, this`suboptimalChunks
      ensures Optimizing()
    {
      hide Valid, Topological, ChunkOptimal, K;
      QueueAllChunks();
    }

    /** MakeTopological: the result is topological whatever is picked, and a state that already
        was topological keeps its chunks. */
    method MakeTopological()
      requires Valid(K(), St()) && suboptimalChunks == []
      modifies this
      ensures Valid(K(), St()) && Topological(K(), Chunks(St())) && suboptimalChunks == []
      ensures Topological(K(), Chunks(old(St()))) ==> Chunks(St()) == Chunks(old(St()))
    {
      ghost var k, chunks0 := K(), Chunks(St());
      hide Valid, K, Chunks, Watched, Topological, MergedInto, NothingToMerge, LowestParent, Misplaced;
      var up: bool := *;
      var merged: set<nat> := {};
      QueueAllChunks();
      WatchedStart(k, St(), up);
      while suboptimalChunks != []
        invariant Valid(k, St()) && QueueOk(suboptimalIdxs, suboptimalChunks)
        invariant Watched(k, St(), up, suboptimalIdxs, merged)
        invariant Topological(k, chunks0) ==> Chunks(St()) == chunks0
        decreases |chunkIdxs|, |suboptimalChunks|
      {
        ghost var f, queued := St(), suboptimalIdxs;
        var chunk := suboptimalChunks[0];
        PopQueueOk(suboptimalIdxs, suboptimalChunks);
        suboptimalChunks := suboptimalChunks[1..];
        suboptimalIdxs := suboptimalIdxs - {chunk};
        if chunk in chunkIdxs {
          var result, other := TryMerge(chunk, chunk in merged || up, chunk in merged || !up);
          if result.None? {
            WatchedNone(k, f, up, queued, merged, chunk);
          } else {
            WatchedMerge(k, f, up, queued, merged, chunk, other, St(), result.value);
            MergedCount(k, f, chunk, other, St(), result.value);
            ghost var idxs, queue := suboptimalIdxs, suboptimalChunks;
            Enqueue(result.value);
            QueuedQueueOk(idxs, queue, result.value, suboptimalIdxs, suboptimalChunks);
            QueuedIdxs(idxs, queue, result.value, suboptimalIdxs, suboptimalChunks);
            merged := merged + {result.value};
          }
        } else {
          WatchedDrop(k, St(), up, queued, merged, chunk);
        }
      }
      EmptyQueue(suboptimalIdxs, suboptimalChunks);
      WatchedEnd(k, St(), up, merged);
    }

    /** The two attempts of one round of MakeTopological, in arbitrary order, stopping at the
        first that succeeds. */
    method TryMerge(chunk: nat, upwards: bool, downwards: bool) returns (result: Option<nat>, ghost other: nat)
      requires Valid(K(), St()) && chunk in chunkIdxs
      modifies this`txData, this`setInfo, this`reachable, this`chunkIdxs
      ensures Valid(K(), St())
      ensures result.None? ==> St() == old(St())
      ensures result.None? && upwards ==> NothingToMerge(K(), Chunks(St()), TxsAt(St(), chunk))
      ensures result.None? && downwards ==> NothingToMerge(K().Reversed(), Chunks(St()), TxsAt(St(), chunk))
      ensures result.Some? ==> other in old(chunkIdxs) && other != chunk
                               && MergedInto(K(), old(St()), chunk, other, St(), result.value)
      ensures result.Some? ==> !Topological(K(), Chunks(old(St())))
    {
      ghost var k, f := K(), St();
      hide Valid, K, Chunks, TxsAt, Topological, MergedInto, NothingToMerge, LowestParent;
      var flip: bool := *;
      result, other := None, 0;
      for i := 0 to 2
        invariant Valid(k, St()) && result.None? && St() == f
        invariant upwards && (i == 2 || (i == 1 && flip)) ==> NothingToMerge(k, Chunks(f), TxsAt(f, chunk))
        invariant downwards && (i == 2 || (i == 1 && !flip))
                  ==> NothingToMerge(k.Reversed(), Chunks(f), TxsAt(f, chunk))
      {
        var isUp := (i == 1) != flip;
        if (isUp && upwards) || (!isUp && downwards) {
          result, other := MergeStep(!isUp, chunk);
          if result.Some? {
            if Topological(k, Chunks(f)) {
              TopologicalNoMerge(k, f, !isUp, chunk, TxsAt(f, other));
            }
            return;
          }
        }
      }
    }

    /** LoadLinearization: with a valid linearization, the result is topological and its diagram is
        at least as good as every point of the diagram of that linearization. */
    method LoadLinearization(lin: seq<nat>)
      requires Valid(K(), St()) && (forall t | t in lin :: t in txData)
      requires Chunks(St()) == Singletons(K().txs)
      modifies this`txData, this`setInfo, this`reachable, this`chunkIdxs
      ensures Valid(K(), St())
      ensures IsLinearization(K(), lin) ==> Topological(K(), Chunks(St()))
      ensures IsLinearization(K(), lin) ==> forall l: real, n: nat | n <= |lin| ::
                WeightOf(K(), l, ToSet(lin[..n])) <= Surplus(K(), l, Chunks(St()))
    {
      ghost var k := K();
      ghost var good := IsLinearization(k, lin);
      hide Valid, K, Chunks, TxsAt, Topological, NothingToMerge, IsLinearization, LoadedTo, Singletons, Sequence,
          Climbing, WeightOf, Surplus;
      LoadedStart(k, St(), lin);
      for n := 0 to |lin|
        invariant Valid(k, St()) && txData.Keys == k.txs
        invariant good ==> LoadedTo(k, Chunks(St()), lin, n)
      {
        ghost var f := St();
        var chunk := txData[lin[n]].chunkIdx;
        LoadChunk(k, f, lin[n]);
        ghost var keep := KeepIdxs(f, lin, n);
        if good {
          LoadReady(k, f, lin, n);
        }
        ghost var merged;
        var last;
        last, merged := MergeAll(false, chunk, keep, good);
        LoadKeys(k, St());
        if good {
          LoadDone(k, f, lin, n, St(), last, merged);
        }
      }
      if good {
        LoadedEnd(k, St(), lin);
      }
    }

    // -------------------------------------------------------------- minimizing

    /** StartMinimizing: queue every chunk of an optimal state, with an arbitrary pivot and
        direction, in an arbitrary order. */
    method StartMinimizing()
      requires Valid(K(), St()) && Topological(K(), Chunks(St())) && AllOptimal(K(), St())
      modifies this`nonminimalChunks
      ensures Minimal(K(), St(), nonminimalChunks)
    {
      ghost var k, f := K(), St();
      hide Valid, K, Topological, Chunks, ChunkOptimal, WeaklyTopological, Acyclic;
      TopologicalAcyclic(k, Chunks(f));
      nonminimalChunks := [];
      var todo := chunkIdxs;
      while todo != {}
        invariant todo <= chunkIdxs && Listed(k, f, nonminimalChunks, chunkIdxs - todo)
      {
        hide Listed;
        var chunk :| chunk in todo;
        ChunkAccess(k, f, chunk);
        var pivot :| pivot in setInfo[chunk].transactions;
        var down: bool := *;
        ListedAdd(k, f, nonminimalChunks, chunkIdxs - todo, Pending(chunk, pivot, down, false));
        nonminimalChunks := nonminimalChunks + [Pending(chunk, pivot, down, false)];
        assert chunkIdxs - (todo - {chunk}) == chunkIdxs - todo + {chunk};
        todo := todo - {chunk};
        var n := |nonminimalChunks|;
        var j: nat :| j < n;
        if j != n - 1 {
          ListedSwap(k, f, nonminimalChunks, chunkIdxs - todo, j, n - 1);
          nonminimalChunks := nonminimalChunks[j := nonminimalChunks[n - 1]][n - 1 := nonminimalChunks[j]];
        }
      }
      assert chunkIdxs - todo == chunkIdxs;
      ListedAll(k, f, nonminimalChunks);
    }

    /** The scan of MinimizeStep: an arbitrary equal-feerate dependency of the chunk with the pivot
        on the right side, and whether there is any equal-feerate dependency at all. */
    method FindEvenDependency(p: Pending) returns (any: bool, dep: Option<Dep>)
      requires Valid(K(), St()) && AllOptimal(K(), St()) && p.chunk in chunkIdxs
      ensures ScannedAll(K(), St(), p, any, dep.Some?) && (dep.Some? ==> any)
      ensures dep.Some? ==> EvenDep(K(), St(), p, dep.value) && (p.pivot in TopAt(St(), dep.value) <==> !p.down)
    {
      ghost var k, f := K(), St();
      hide Valid, K, RateOf, FeeRateCompare, ChunkOptimal, EvenDep, TopIdx, Linked, AllOptimal, Lower, TxsAt;
      ChunkAccess(k, f, p.chunk);
      ReachableAt(k, f, p.chunk);
      any, dep := false, None;
      var candidateTiebreak: nat := 0;
      ghost var seen: set<Dep> := {};
      var todo := setInfo[p.chunk].transactions;
      while todo != {}
        invariant todo <= TxsAt(f, p.chunk) && seen == DepsFrom(txData, TxsAt(f, p.chunk) - todo)
        invariant forall e | e in seen :: Scanned(k, f, p, any, dep.Some?, e)
        invariant dep.None? <==> candidateTiebreak == 0
        invariant dep.Some? ==> any && EvenDep(k, f, p, dep.value) && (p.pivot in TopAt(f, dep.value) <==> !p.down)
      {
        var t :| t in todo;
        ghost var start := seen;
        var children := txData[t].activeChildren;
        while children != {}
          invariant children <= txData[t].activeChildren
          invariant seen == start + (set c | c in txData[t].activeChildren && c !in children :: (t, c))
          invariant forall e | e in seen :: Scanned(k, f, p, any, dep.Some?, e)
          invariant dep.None? <==> candidateTiebreak == 0
          invariant dep.Some? ==> any && EvenDep(k, f, p, dep.value) && (p.pivot in TopAt(f, dep.value) <==> !p.down)
        {
          var c :| c in children;
          children := children - {c};
          assert (t, c) in Active(txData);
          ScanStep(k, f, p, (t, c));
          seen := seen + {(t, c)};
          var top := setInfo[txData[t].depTop[c]];
          if !Lower(top.feerate, setInfo[p.chunk].feerate) {
            any := true;
            if p.down != (p.pivot in top.transactions) {
              var tiebreak: nat :| tiebreak > 0;
              if tiebreak > candidateTiebreak {
                candidateTiebreak, dep := tiebreak, Some((t, c));
              }
            }
          }
        }
        assert TxsAt(f, p.chunk) - (todo - {t}) == TxsAt(f, p.chunk) - todo + {t};
        todo := todo - {t};
      }
      assert TxsAt(f, p.chunk) - todo == TxsAt(f, p.chunk);
    }

    /** MinimizeStep: try to split the first queued chunk into two parts of equal feerate. The
        diagram never changes, and once nothing is left to do all chunks are minimal. */
    method MinimizeStep() returns (more: bool)
      requires Minimal(K(), St(), nonminimalChunks)
      modifies this`txData, this`setInfo, this`reachable, this`chunkIdxs, this`nonminimalChunks
      ensures Minimal(K(), St(), nonminimalChunks)
      ensures SameDiagram(K(), Chunks(St()), Chunks(old(St())))
      ensures !more ==> forall i | i in chunkIdxs :: Unsplittable(K(), TxsAt(St(), i))
    {
      ghost var k, f := K(), St();
      SameDiagramSelf(k, Chunks(f));
      if nonminimalChunks == [] {
        MinimalEnd(k, f);
        return false;
      }
      hide Valid, K, Chunks, TxsAt, RateOf, ChunkOptimal, Minimal, EvenDep, CanDeactivate, Deactivated, MergedInto,
          ScannedAll, Unsplittable,
           SameDiagram, Reachable, DependsOn, TopIdx, ChunkIdx, NoSplit;
      more := true;
      ghost var queue := nonminimalChunks;
      var p := nonminimalChunks[0];
      MinimalHead(k, f, queue);
      nonminimalChunks := nonminimalChunks[1..];
      var any, dep := FindEvenDependency(p);
      if !any {
        ScanNoneEven(k, f, p, dep.Some?);
        MinimizeDrop(k, f, queue);
      } else if dep.None? {
        ScanNoCandidate(k, f, p, any);
        if !p.second {
          MinimizeTurn(k, f, queue);
          nonminimalChunks := nonminimalChunks + [p.(down := !p.down, second := !p.second)];
        } else {
          MinimizeDrop(k, f, queue);
        }
      } else {
        more := SplitEvenly(p, dep.value, queue);
      }
    }

    /** The last part of MinimizeStep: split at the dependency found, and merge back if the new top
        depends on the new bottom. */
    method SplitEvenly(p: Pending, dep: Dep, ghost queue: seq<Pending>) returns (more: bool)
      requires queue != [] && queue[0] == p && nonminimalChunks == queue[1..] && Minimal(K(), St(), queue)
      requires EvenDep(K(), St(), p, dep) && p.pivot in TxsAt(St(), p.chunk)
               && (p.pivot in TopAt(St(), dep) <==> !p.down)
      modifies this`txData, this`setInfo, this`reachable, this`chunkIdxs, this`nonminimalChunks
      ensures more && Minimal(K(), St(), nonminimalChunks)
      ensures SameDiagram(K(), Chunks(St()), Chunks(old(St())))
    {
      ghost var k, f := K(), St();
      hide Valid, K, Chunks, TxsAt, RateOf, ChunkOptimal, Minimal, EvenDep, CanDeactivate, Deactivated, MergedInto,
           SameDiagram, Reachable, DependsOn, TopIdx, ChunkIdx, Split;
      EvenDepFacts(k, f, p, dep);
      more := true;
      var parentChunk, childChunk := Deactivate(dep.0, dep.1);
      ghost var f1 := St();
      SplitFacts(k, f, dep, f1);
      OverlapDepends(k, f1, parentChunk, childChunk);
      ReachableAt(k, f1, parentChunk);
      ReachableAt(k, f1, childChunk);
      assert TxsAt(f1, childChunk) == BottomAt(f, dep);
      if reachable[parentChunk].0 * setInfo[childChunk].transactions != {} {
        var m := MergeChunks(childChunk, parentChunk);
        MinimizeSelfMerge(k, f, queue, dep, f1, St(), m);
        SameDiagramSelf(k, Chunks(f));
        nonminimalChunks := nonminimalChunks + [p.(chunk := m)];
      } else {
        var otherPivot :| otherPivot in setInfo[if p.down then parentChunk else childChunk].transactions;
        var otherDown: bool := *;
        var top, bottom;
        if p.down {
          top, bottom := Pending(parentChunk, otherPivot, otherDown, false),
              Pending(childChunk, p.pivot, p.down, p.second);
        } else {
          top, bottom := Pending(parentChunk, p.pivot, p.down, p.second),
              Pending(childChunk, otherPivot, otherDown, false);
        }
        MinimizeSplit(k, f, queue, dep, f1, [top, bottom]);
        var swap: bool := *;
        nonminimalChunks := nonminimalChunks + if swap then [bottom, top] else [top, bottom];
      }
    }

    // -------------------------------------------------------------- output

    /** The number of parents of every transaction, and of dependencies of every chunk on other
        chunks. */
    method CountDependencies() returns (cnt: Counters)
      requires Valid(K(), St())
      ensures Counted(K(), St(), K().deps, cnt)
    {
      hide ClusterOf, Valid, Counted, DepsOutside;
      ghost var k, f := K(), St();
      assert k.Valid() && txData.Keys == k.txs by {
        ValidLinks(k, f);
      }
      var todo := txData.Keys;
      cnt := Counters(map t | t in txData :: 0, map i | i in chunkIdxs :: 0);
      CountedZero(k, f, cnt);
      while todo != {}
        invariant todo <= txData.Keys && Counted(k, f, DepsOutside(k, todo), cnt)
      {
        var t :| t in todo;
        var ci := txData[t].chunkIdx;
        assert ci in chunkIdxs && ci < |setInfo| && ci == ChunkIdx(txData, t)
               && setInfo[ci].transactions == TxsAt(f, ci)
               && txData[t].parents == ParentsOf(k, {t}) && cnt.txDeps.Keys == k.txs
                  && cnt.chunkDeps.Keys == chunkIdxs by {
          ChunkLinks(k, f, t);
          CountedKeys(k, f, DepsOutside(k, todo), cnt);
        }
        var parents := txData[t].parents;
        CountedStep(k, f, todo, cnt, t, ci, parents);
        cnt := Counters(cnt.txDeps[t := |parents|],
                        cnt.chunkDeps[ci := cnt.chunkDeps[ci] + |parents - setInfo[ci].transactions|]);
        todo := todo - {t};
      }
    }

    /** The children of an emitted transaction have one unmet dependency less. */
    method ReleaseChildren(t: nat, ci: nat, x: set<nat>, before: Counters, readyTxBefore: set<nat>,
                           readyBefore: set<nat>,
                           ghost unmet: set<Dep>, ghost lin: seq<nat>, ghost done: set<nat>)
      returns (cnt: Counters, readyTx: set<nat>, ready: set<nat>)
      requires Valid(K(), St()) && t in K().txs && ChunkIdx(txData, t) == ci && Counted(K(), St(), unmet, before)
      requires unmet <= K().deps && (forall d | d in K().deps && d.0 == t :: d in unmet)
      requires forall d | d in unmet :: d.1 !in lin && ChunkIdx(txData, d.1) !in done
      requires readyTxBefore == ReadyTxs(before, x, lin) && readyBefore == ReadyChunks(before, chunkIdxs, done + {ci})
      ensures Counted(K(), St(), (set d | d in unmet && d.0 != t), cnt)
      ensures readyTx == ReadyTxs(cnt, x, lin) && ready == ReadyChunks(cnt, chunkIdxs, done + {ci})
    {
      hide ClusterOf, Valid, Counted, ReadyTxs, ReadyChunks, Met;
      ghost var k, f := K(), St();
      cnt, readyTx, ready := before, readyTxBefore, readyBefore;
      assert t in txData && forall c :: c in txData[t].children <==> (t, c) in k.deps by {
        ChildLinks(k, f, t);
      }
      var todo := txData[t].children;
      ghost var left := unmet;
      while todo != {}
        invariant todo <= txData[t].children && left == set d | d in unmet && (d.0 != t || d.1 in todo)
        invariant Counted(k, f, left, cnt)
        invariant readyTx == ReadyTxs(cnt, x, lin) && ready == ReadyChunks(cnt, chunkIdxs, done + {ci})
      {
        var c :| c in todo;
        ghost var d := (t, c);
        assert d in left && d in k.deps;
        CountedPositive(k, f, left, cnt, d);
        assert c in txData && ChunkIdx(txData, c) == txData[c].chunkIdx by {
          ValidLinks(k, f);
        }
        var cj := txData[c].chunkIdx;
        CountedMet(k, f, left, cnt, d);
        ReadyMet(cnt, d, ci, cj, x, lin, chunkIdxs, done);
        cnt := Met(cnt, (t, c), ci, cj);
        assert c in cnt.txDeps && cj in cnt.chunkDeps by {
          CountedKeys(k, f, left - {d}, cnt);
        }
        if cnt.txDeps[c] == 0 && c in x {
          readyTx := readyTx + {c};
        }
        if ci != cj && cnt.chunkDeps[cj] == 0 {
          ready := ready + {cj};
        }
        todo := todo - {c};
        left := left - {d};
      }
      assert left == set d | d in unmet && d.0 != t;
    }

    /** The sort keys of all chunks. */
    method ChunkKeys(rank: nat -> int) returns (fees: map<nat, FeeFrac>, ranks: map<nat, int>)
      requires Valid(K(), St()) && Injective(rank, K().txs)
      ensures fees.Keys == ranks.Keys == chunkIdxs
      ensures forall i | i in chunkIdxs :: fees[i] == FeeRate(K(), TxsAt(St(), i)) && fees[i].size > 0
      ensures forall i | i in chunkIdxs :: ranks[i] == MaxRank(rank, TxsAt(St(), i))
      ensures forall i, j | i in chunkIdxs && j in chunkIdxs && i != j :: ranks[i] != ranks[j]
    {
      hide ClusterOf, Valid, FeeRate, TxsAt, IsMaxRank, MaxRank, Injective;
      ghost var k, f := K(), St();
      fees, ranks := map[], map[];
      var todo := chunkIdxs;
      while todo != {}
        invariant todo <= chunkIdxs && fees.Keys == ranks.Keys == chunkIdxs - todo
        invariant forall i | i in fees :: fees[i] == FeeRate(k, TxsAt(f, i)) && fees[i].size > 0
        invariant forall i | i in ranks :: IsMaxRank(rank, TxsAt(f, i), ranks[i])
      {
        var i :| i in todo;
        ChunkStored(k, f, i);
        var r := MaxFallback(rank, setInfo[i].transactions);
        fees, ranks := fees[i := setInfo[i].feerate], ranks[i := r];
        todo := todo - {i};
      }
      forall i | i in chunkIdxs
        ensures ranks[i] == MaxRank(rank, TxsAt(f, i))
      {
        MaxRankIs(rank, TxsAt(f, i), ranks[i]);
      }
      forall i, j | i in chunkIdxs && j in chunkIdxs && i != j
        ensures ranks[i] != ranks[j]
      {
        ChunksApart(k, f, i, j);
        ChunkStored(k, f, i);
        ChunkStored(k, f, j);
        MaxRanksDiffer(rank, k.txs, TxsAt(f, i), TxsAt(f, j), ranks[i], ranks[j]);
      }
    }

    /** Emit the transactions of chunk c. */
    method EmitChunk(rank: nat -> int, fees: map<nat, FeeFrac>, ranks: map<nat, int>, c: nat, lin: seq<nat>,
                     before: Counters, readyBefore: set<nat>, ghost done: set<nat>)
      returns (part: seq<nat>, cnt: Counters, ready: set<nat>)
      requires Valid(K(), St()) && depgraph.Valid() && TxKeys(K(), rank, fees, ranks)
      requires c in readyBefore && Emission(K(), St(), lin, done, before, readyBefore)
      ensures ToSet(part) == TxsAt(St(), c) && BestTxFirst(K(), rank, TxsAt(St(), c), lin, part)
      ensures Emission(K(), St(), lin + part, done + {c}, cnt, ready)
    {
      hide ClusterOf, Valid, Emission, InChunk, TxsAt, BestTxFirst, ReadyTxs, Ordered, Unmet, Counted, ChunkIdx,
          Precedes;
      ghost var k, f := K(), St();
      assert c in chunkIdxs by {
        ReadyIdxs(k, f, lin, done, before, readyBefore);
      }
      ChunkStored(k, f, c);
      var x := setInfo[c].transactions;
      part, cnt, ready := [], before, readyBefore - {c};
      var readyTx := ReadyTxs(cnt, x, lin);
      ChunkEntered(k, f, lin, done, c, cnt, readyBefore);
      BestTxNone(k, rank, x, lin);
      while readyTx != {}
        invariant InChunk(k, f, lin, done, c, part, cnt, readyTx, ready) && BestTxFirst(k, rank, x, lin, part)
        decreases |x| - |ToSet(part)|
      {
        InChunkKeys(k, f, rank, lin, done, c, part, cnt, readyTx, ready, fees, ranks);
        var t := PopBest(readyTx, fees, ranks);
        TxAppended(k, f, lin, done, c, part, cnt, readyTx, ready, t);
        PartBest(k, f, rank, lin, done, c, part, cnt, readyTx, ready, fees, ranks, t);
        PartGrows(k, f, lin, done, c, part, cnt, readyTx, ready, t);
        ghost var unmet := Unmet(k, lin + part);
        InChunkUnmet(k, f, lin, done, c, part, cnt, readyTx, ready, t);
        ghost var was := part;
        part := part + [t];
        cnt, readyTx, ready := ReleaseChildren(t, c, x, cnt, readyTx - {t}, ready, unmet, lin + part, done);
        InChunkNext(k, f, lin, done, c, was, t, cnt, readyTx, ready);
      }
      ChunkFinished(depgraph, f, lin, done, c, part, cnt, ready);
    }

    /** The chunks one after the other: among the chunks that depend on no remaining chunk, and
        among the transactions of a chunk whose parents are included, the highest feerate, the
        smallest size and the lowest rank go first. */
    method GetLinearization(rank: nat -> int) returns (lin: seq<nat>, ghost parts: seq<seq<nat>>)
      requires Valid(K(), St()) && depgraph.Valid() && Acyclic(K(), Chunks(St())) && Injective(rank, K().txs)
      ensures IsLinearization(K(), lin) && lin == Flatten(parts)
      ensures Lists(Chunks(St()), parts) && Sets(parts) == Chunks(St()) && BestFirst(K(), rank, Chunks(St()), parts)
      ensures WeaklyTopological(K(), Chunks(St())) ==> ReachesDiagram(K(), lin, Chunks(St()))
    {
      hide Valid, Emission, Listing, TxsAt, BestFirst, BestTxFirst, ReadyChunks, Counted, Precedes, Acyclic, Lists,
          Sets;
      hide WeaklyTopological, ReachesDiagram, Chunks, IsLinearization, FeeRate, MaxRank;
      ghost var k, f := K(), St();
      var txFees, txRanks := map t | t in depgraph.entries :: depgraph.entries[t].feerate,
          map t | t in depgraph.entries :: rank(t);
      assert TxKeys(k, rank, txFees, txRanks) by {
        GraphKeys(depgraph, rank, txFees, txRanks);
      }
      hide ClusterOf, TxKeys;
      var fees, ranks := ChunkKeys(rank);
      var cnt := CountDependencies();
      var ready := ReadyChunks(cnt, chunkIdxs, {});
      lin, parts := [], [];
      ghost var done: set<nat> := {};
      EmissionStart(k, f, cnt);
      ListingStart(k, f, rank);
      while ready != {}
        invariant Emission(k, f, lin, done, cnt, ready) && lin == Flatten(parts) && Listing(k, f, rank, parts, done)
        decreases chunkIdxs - done
      {
        ReadyIdxs(k, f, lin, done, cnt, ready);
        var c := PopBest(ready, fees, ranks);
        BestReadyKeys(k, f, rank, ready, fees, ranks, c);
        var part, cnt', ready' := EmitChunk(rank, txFees, txRanks, c, lin, cnt, ready, done);
        ListingStep(k, f, rank, parts, done, cnt, ready, c, part);
        lin, cnt, ready := lin + part, cnt', ready';
        parts, done := parts + [part], done + {c};
      }
      EmissionEnd(k, f, rank, parts, done, cnt);
      ListingEnd(k, f, rank, parts, done);
    }

    /** The feerates of the chunks, the best ones first. */
    method GetDiagram() returns (ret: seq<FeeFrac>)
      requires Valid(K(), St())
      ensures IsDiagram(K(), Chunks(St()), ret) && |ret| == |chunkIdxs|
    {
      hide ClusterOf, Valid, TxsAt, FeeRate, Precedes, PartRates, Lists, Sets, Rate, NonIncreasing, ChunksAt;
      ghost var k, f := K(), St();
      var fees := map i | i in chunkIdxs :: if i < |setInfo| then setInfo[i].feerate else EMPTY;
      var ranks: map<nat, int> := map i | i in chunkIdxs :: i;
      forall i | i in chunkIdxs
        ensures fees[i] == FeeRate(k, TxsAt(f, i)) && fees[i].size > 0
      {
        ChunkStored(k, f, i);
      }
      var todo := chunkIdxs;
      ret := [];
      ghost var parts: seq<seq<nat>> := [];
      DiagramStart(k, f);
      while todo != {}
        invariant todo <= chunkIdxs && |ret| == |chunkIdxs| - |todo|
        invariant Diagrammed(k, ChunksAt(f, chunkIdxs - todo), parts, ret) && RatesAbove(k, f, ret, todo)
      {
        var best := PopBest(todo, fees, ranks);
        BestRates(k, f, todo, fees, ranks, best);
        DiagramStep(k, f, todo, parts, ret, best);
        ret := ret + [fees[best]];
        parts := parts + [SeqOf(TxsAt(f, best))];
        todo := todo - {best};
      }
      assert chunkIdxs - {} == chunkIdxs;
      AllChunksAt(f);
    }
  }
}
