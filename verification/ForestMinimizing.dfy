/** The minimization stage on a forest: what the queue of possibly non-minimal chunks records,
    and why splitting at equal-feerate dependencies keeps all chunks optimal. */
module ForestMinimizing {
  import opened FeeFracs
  import opened Clusters
  import opened Merging
  import opened Trees
  import opened Flow
  import opened Optimality
  import opened Forests
  import opened Deactivation
  import opened ForestFacts
  import opened ForestMerging
  import opened ForestImproving
  import opened Minimizing

  /** A queued chunk with its pivot, the direction in which the pivot is being moved, and whether
      the other direction has been tried already. */
  datatype Pending = Pending(chunk: nat, pivot: nat, down: bool, second: bool)

  ghost predicate AllOptimal(k: Cluster, f: Forest) {
    forall i | i in f.chunkIdxs :: ChunkOptimal(k, f, i)
  }

  ghost predicate PendingOk(k: Cluster, f: Forest, p: Pending) {
    && p.chunk in f.chunkIdxs && p.pivot in TxsAt(f, p.chunk)
    && (p.second ==> NoSplit(k, TxsAt(f, p.chunk), p.pivot, p.down))
  }

  /** Every queued chunk occurs once, and every chunk that is not queued is minimal. */
  ghost predicate Pruned(k: Cluster, f: Forest, queue: seq<Pending>) {
    && (forall a | 0 <= a < |queue| :: PendingOk(k, f, queue[a]))
    && (forall a, b | 0 <= a < b < |queue| :: queue[a].chunk != queue[b].chunk)
    && (forall i | i in f.chunkIdxs && (forall a | 0 <= a < |queue| :: queue[a].chunk != i) ::
                                          Unsplittable(k, TxsAt(f, i)))
  }

  // ---------------------------------------------------------------- top sets after equal-feerate changes

  /** After splitting off a top of equal feerate, both halves are optimal. */
  lemma EvenCutOptimal(k: Cluster, f: Forest, d: Dep, f': Forest)
    requires CanDeactivate(k, f, d) && Deactivated(k, f, d, f')
    requires ChunkOptimal(k, f, ChunkIdx(f.txData, d.0))
    requires RateOf(k, TopAt(f, d)) == RateOf(k, ChunkOf(f, d.0))
    ensures ChunkOptimal(k, f', ChunkIdx(f.txData, d.0)) && ChunkOptimal(k, f', TopIdx(f.txData, d))
    ensures RateOf(k, BottomAt(f, d)) == RateOf(k, ChunkOf(f, d.0))
  {
    hide Valid, CanDeactivate, Deactivated, Active, ChunkIdx, TopIdx, TxsAt, RateOf, Rated, Reached, Linked, Component;
    CanDeactivateFacts(k, f, d);
    DeactivatedCut(k, f, d, f');
    SplitFacts(k, f, d, f');
    EvenParts(k, ChunkOf(f, d.0), TopAt(f, d), BottomAt(f, d));
    forall e | e in Active(f'.txData) && (ChunkIdx(f'.txData, e.0) == ChunkIdx(f.txData, d.0)
                                          || ChunkIdx(f'.txData, e.0) == TopIdx(f.txData, d))
      ensures RateOf(k, TopAt(f', e)) <= RateOf(k, ChunkOf(f, d.0))
    {
      EvenCutTop(k, f, d, f', e);
    }
  }

  lemma EvenCutTop(k: Cluster, f: Forest, d: Dep, f': Forest, e: Dep)
    requires CanDeactivate(k, f, d) && Deactivated(k, f, d, f') && e in Active(f'.txData)
    requires ChunkOptimal(k, f, ChunkIdx(f.txData, d.0))
    requires RateOf(k, TopAt(f, d)) == RateOf(k, ChunkOf(f, d.0)) == RateOf(k, BottomAt(f, d))
    requires ChunkIdx(f'.txData, e.0) == ChunkIdx(f.txData, d.0) || ChunkIdx(f'.txData, e.0) == TopIdx(f.txData, d)
    ensures RateOf(k, TopAt(f', e)) <= RateOf(k, ChunkOf(f, d.0))
  {
    hide Valid, Deactivated, Active, ChunkIdx, TopIdx, TxsAt, RateOf, Rated, Reached, Linked, Component;
    CanDeactivateFacts(k, f, d);
    DeactivatedCut(k, f, d, f');
    DeactivatedValid(k, f, d, f');
    assert e in Active(f.txData) && e != d;
    CanDeactivateFacts(k, f, e);
    CanDeactivateFacts(k, f', e);
    CutOverlap(k, f, d, e);
    CutMember(k, f, d, f', e);
    var t, b, s := TopAt(f, d), BottomAt(f, d), TopAt(f, e);
    assert RateOf(k, s) <= RateOf(k, ChunkOf(f, d.0));
    if e.0 in t && d.0 in s {
      EvenJoin(k, ChunkOf(f, d.0), s - b, b);
      assert s - b + b == s;
    } else if e.0 in b && d.1 in s {
      EvenJoin(k, ChunkOf(f, d.0), s - t, t);
      assert s - t + t == s;
    }
  }

  lemma CutMember(k: Cluster, f: Forest, d: Dep, f': Forest, e: Dep)
    requires Valid(k, f) && Valid(k, f') && Cut(k, f, d, f') && e in Active(f.txData) && d in Active(f.txData)
             && e.0 in k.txs
    requires ChunkIdx(f'.txData, e.0) == ChunkIdx(f.txData, d.0) || ChunkIdx(f'.txData, e.0) == TopIdx(f.txData, d)
    ensures ChunkIdx(f.txData, e.0) == ChunkIdx(f.txData, d.0)
    ensures e.0 in TopAt(f, d) || e.0 in BottomAt(f, d)
  {
    ActiveChunk(k, f, e);
    ActiveChunk(k, f, d);
    TopInside(k, f, d);
    hide Valid, Active, TopIdx, ChunkIdx, TxsAt;
  }

  // ---------------------------------------------------------------- the queue

  lemma PrunedDrop(k: Cluster, f: Forest, queue: seq<Pending>)
    requires Pruned(k, f, queue) && queue != [] && Unsplittable(k, TxsAt(f, queue[0].chunk))
    ensures Pruned(k, f, queue[1..])
  {
    hide PendingOk, Unsplittable, TxsAt;
    var rest := queue[1..];
    forall i | i in f.chunkIdxs && (forall a | 0 <= a < |rest| :: rest[a].chunk != i)
      ensures Unsplittable(k, TxsAt(f, i))
    {
      if i != queue[0].chunk {
        assert forall a | 0 <= a < |queue| :: queue[a].chunk != i by {
          forall a | 0 <= a < |queue|
            ensures queue[a].chunk != i
          {
            if a > 0 {
              assert rest[a - 1] == queue[a];
            }
          }
        }
      }
    }
  }

  /** The chunks of f', apart from those newly queued, are the chunks of f that stay queued or
      are minimal. */
  lemma PrunedReplace(k: Cluster, f: Forest, queue: seq<Pending>, f': Forest, added: seq<Pending>)
    requires Pruned(k, f, queue) && queue != []
    requires forall a | 0 <= a < |added| :: PendingOk(k, f', added[a])
    requires forall a, b | 0 <= a < b < |added| :: added[a].chunk != added[b].chunk
    requires forall a | 0 <= a < |added| :: added[a].chunk !in f.chunkIdxs - {queue[0].chunk}
    requires forall i | i in f'.chunkIdxs :: i in f.chunkIdxs - {queue[0].chunk}
                                             || (exists a :: 0 <= a < |added| && added[a].chunk == i)
    requires forall i | i in f.chunkIdxs - {queue[0].chunk} :: i in f'.chunkIdxs && TxsAt(f', i) == TxsAt(f, i)
    ensures Pruned(k, f', queue[1..] + added)
  {
    hide Unsplittable, TxsAt, NoSplit, PendingOk;
    ReplacedPending(k, f, queue, f', added);
    ReplacedDistinct(k, f, queue, added);
    ReplacedRest(k, f, queue, f', added);
  }

  lemma ReplacedPending(k: Cluster, f: Forest, queue: seq<Pending>, f': Forest, added: seq<Pending>)
    requires Pruned(k, f, queue) && queue != []
    requires forall a | 0 <= a < |added| :: PendingOk(k, f', added[a])
    requires forall i | i in f.chunkIdxs - {queue[0].chunk} :: i in f'.chunkIdxs && TxsAt(f', i) == TxsAt(f, i)
    ensures forall a | 0 <= a < |queue[1..] + added| :: PendingOk(k, f', (queue[1..] + added)[a])
  {
    hide Unsplittable, TxsAt, NoSplit;
    var rest, q := queue[1..], queue[1..] + added;
    forall a | 0 <= a < |q|
      ensures PendingOk(k, f', q[a])
    {
      if a < |rest| {
        assert q[a] == queue[a + 1];
        assert PendingOk(k, f, queue[a + 1]);
      } else {
        assert q[a] == added[a - |rest|];
      }
    }
  }

  lemma ReplacedDistinct(k: Cluster, f: Forest, queue: seq<Pending>, added: seq<Pending>)
    requires Pruned(k, f, queue) && queue != []
    requires forall a, b | 0 <= a < b < |added| :: added[a].chunk != added[b].chunk
    requires forall a | 0 <= a < |added| :: added[a].chunk !in f.chunkIdxs - {queue[0].chunk}
    ensures forall a, b | 0 <= a < b < |queue[1..] + added| :: (queue[1..] + added)[a].chunk
                                                               != (queue[1..] + added)[b].chunk
  {
    hide Unsplittable, TxsAt, NoSplit;
    var rest, q := queue[1..], queue[1..] + added;
    forall a, b | 0 <= a < b < |q|
      ensures q[a].chunk != q[b].chunk
    {
      if b < |rest| {
        assert q[a] == queue[a + 1] && q[b] == queue[b + 1];
      } else if a >= |rest| {
        assert q[a] == added[a - |rest|] && q[b] == added[b - |rest|];
      } else {
        assert q[a] == queue[a + 1] && q[b] == added[b - |rest|];
        assert PendingOk(k, f, queue[a + 1]);
      }
    }
  }

  lemma ReplacedRest(k: Cluster, f: Forest, queue: seq<Pending>, f': Forest, added: seq<Pending>)
    requires Pruned(k, f, queue) && queue != []
    requires forall i | i in f'.chunkIdxs :: i in f.chunkIdxs - {queue[0].chunk}
                                             || (exists a :: 0 <= a < |added| && added[a].chunk == i)
    requires forall i | i in f.chunkIdxs - {queue[0].chunk} :: i in f'.chunkIdxs && TxsAt(f', i) == TxsAt(f, i)
    ensures forall i | i in f'.chunkIdxs && (forall a | 0 <= a < |queue[1..] + added| ::
                                               (queue[1..] + added)[a].chunk != i) ::
              Unsplittable(k, TxsAt(f', i))
  {
    hide Unsplittable, TxsAt, NoSplit, PendingOk;
    var rest, q := queue[1..], queue[1..] + added;
    forall i | i in f'.chunkIdxs && (forall a | 0 <= a < |q| :: q[a].chunk != i)
      ensures Unsplittable(k, TxsAt(f', i))
    {
      assert forall a | 0 <= a < |added| :: added[a] == q[a + |rest|];
      assert forall a | 0 < a < |queue| :: queue[a] == q[a - 1];
    }
  }

  // ---------------------------------------------------------------- one step

  /** The invariant of the minimization loop. */
  ghost predicate Minimal(k: Cluster, f: Forest, queue: seq<Pending>) {
    && Valid(k, f) && AllOptimal(k, f)
    && WeaklyTopological(k, Chunks(f)) && Acyclic(k, Chunks(f))
    && Pruned(k, f, queue)
  }

  /** d is an active dependency of the pending chunk whose top has the feerate of the chunk. */
  ghost predicate EvenDep(k: Cluster, f: Forest, p: Pending, d: Dep) {
    && CanDeactivate(k, f, d) && ChunkIdx(f.txData, d.0) == p.chunk
    && RateOf(k, TopAt(f, d)) == RateOf(k, ChunkOf(f, d.0))
  }

  /** A split followed by a self-merge: the same chunks, all optimal, the pending one renumbered. */
  lemma MinimizeSelfMerge(k: Cluster, f: Forest, queue: seq<Pending>, d: Dep, f1: Forest, f2: Forest, m: nat)
    requires queue != [] && Minimal(k, f, queue) && EvenDep(k, f, queue[0], d)
    requires Deactivated(k, f, d, f1)
    requires MergedInto(k, f1, ChunkIdx(f.txData, d.0), TopIdx(f.txData, d), f2, m) && m == TopIdx(f.txData, d)
             && Valid(k, f2)
    ensures Chunks(f2) == Chunks(f)
    ensures Minimal(k, f2, queue[1..] + [queue[0].(chunk := m)])
  {
    hide Valid, CanDeactivate, Deactivated, Active, ChunkIdx, TopIdx, TxsAt, RateOf, Chunks, ChunkOptimal, Pruned,
        NoSplit, WeaklyTopological, Acyclic;
    SelfMerged(k, f, d, f1, f2, m);
    SplitFacts(k, f, d, f1);
    CanDeactivateFacts(k, f, d);
    EvenCutOptimal(k, f, d, f1);
    forall i | i in f.chunkIdxs && i != ChunkIdx(f.txData, d.0)
      ensures i in f1.chunkIdxs && i != TopIdx(f.txData, d) && TxsAt(f1, i) == TxsAt(f, i) && ChunkOptimal(k, f1, i)
    {
      DeactivatedUntouched(k, f, d, f1, i);
    }
    var added := [queue[0].(chunk := m)];
    PrunedHead(k, f, queue);
    assert ChunkOf(f, d.0) == TxsAt(f, queue[0].chunk);
    assert TxsAt(f2, m) == TxsAt(f, queue[0].chunk);
    assert PendingOk(k, f2, added[0]) && added[0].chunk == m;
    PrunedReplace(k, f, queue, f2, added);
  }

  lemma PrunedHead(k: Cluster, f: Forest, queue: seq<Pending>)
    requires Pruned(k, f, queue) && queue != []
    ensures PendingOk(k, f, queue[0])
  {
  }

  /** A split that succeeds: two optimal chunks, the one with the pivot keeps its status. */
  lemma MinimizeSplit(k: Cluster, f: Forest, queue: seq<Pending>, d: Dep, f1: Forest, added: seq<Pending>)
    requires queue != [] && Minimal(k, f, queue) && EvenDep(k, f, queue[0], d)
    requires Deactivated(k, f, d, f1)
    requires queue[0].pivot in if queue[0].down then BottomAt(f, d) else TopAt(f, d)
    requires !DependsOn(k, TopAt(f, d), BottomAt(f, d))
    requires |added| == 2 && SplitPending(f, queue[0], d, added[0], added[1])
    ensures SameDiagram(k, Chunks(f1), Chunks(f))
    ensures Minimal(k, f1, queue[1..] + added) && Minimal(k, f1, queue[1..] + [added[1], added[0]])
  {
    hide Valid, CanDeactivate, Deactivated, Active, ChunkIdx, TopIdx, TxsAt, RateOf, Chunks, ChunkOptimal, Pruned,
        NoSplit, WeaklyTopological, Acyclic, SameDiagram, DependsOn;
    SplitFacts(k, f, d, f1);
    CanDeactivateFacts(k, f, d);
    EvenCutOptimal(k, f, d, f1);
    ChunksKnown(k, f);
    var x, t, b := ChunkOf(f, d.0), TopAt(f, d), BottomAt(f, d);
    assert EvenSplit(k, Chunks(f), x, t, b);
    EvenSplitWeak(k, Chunks(f), x, t, b);
    EvenSplitAcyclic(k, Chunks(f), x, t, b);
    EvenSplitDiagram(k, Chunks(f), x, t, b);
    forall i | i in f.chunkIdxs && i != ChunkIdx(f.txData, d.0)
      ensures i in f1.chunkIdxs && i != TopIdx(f.txData, d) && TxsAt(f1, i) == TxsAt(f, i) && ChunkOptimal(k, f1, i)
    {
      DeactivatedUntouched(k, f, d, f1, i);
    }
    PrunedHead(k, f, queue);
    var p := queue[0];
    if p.second && p.down {
      NoSplitBottom(k, Chunks(f), x, t, b, p.pivot);
    }
    if p.second && !p.down {
      NoSplitTop(k, Chunks(f), x, t, b, p.pivot);
    }
    assert PendingOk(k, f1, added[0]) && PendingOk(k, f1, added[1]);
    assert added[0].chunk == TopIdx(f.txData, d) && added[1].chunk == ChunkIdx(f.txData, d.0);
    PrunedReplace(k, f, queue, f1, added);
    var swapped := [added[1], added[0]];
    assert swapped[1].chunk == TopIdx(f.txData, d) && swapped[0].chunk == ChunkIdx(f.txData, d.0);
    PrunedReplace(k, f, queue, f1, swapped);
  }

  /** The queue entries for the two halves of a split: the half with the pivot keeps pivot and
      flags, the other one starts anew. */
  ghost predicate SplitPending(f: Forest, p: Pending, d: Dep, top: Pending, bottom: Pending) {
    && top.chunk == TopIdx(f.txData, d) && bottom.chunk == ChunkIdx(f.txData, d.0)
    && (if p.down then bottom == p && top.pivot in TopAt(f, d) && !top.second
        else top == p.(chunk := top.chunk) && bottom.pivot in BottomAt(f, d) && !bottom.second)
  }

  // ---------------------------------------------------------------- the scan of a chunk

  /** e is a scanned dependency of the pending chunk p: unless any is set its top is lower, and
      unless a candidate was found, an equal-feerate top has the pivot on the wrong side. */
  ghost predicate Scanned(k: Cluster, f: Forest, p: Pending, any: bool, found: bool, e: Dep) {
    && RateOf(k, TopAt(f, e)) <= RateOf(k, TxsAt(f, p.chunk))
    && (!any ==> RateOf(k, TopAt(f, e)) < RateOf(k, TxsAt(f, p.chunk)))
    && (!found && RateOf(k, TopAt(f, e)) == RateOf(k, TxsAt(f, p.chunk)) ==> (p.pivot in TopAt(f, e) <==> p.down))
  }

  ghost predicate ScannedAll(k: Cluster, f: Forest, p: Pending, any: bool, found: bool) {
    forall e | e in Active(f.txData) && e.0 in TxsAt(f, p.chunk) :: Scanned(k, f, p, any, found, e)
  }

  /** No equal-feerate dependency: the chunk is minimal. */
  lemma ScanNoneEven(k: Cluster, f: Forest, p: Pending, found: bool)
    requires Valid(k, f) && p.chunk in f.chunkIdxs && ScannedAll(k, f, p, false, found)
    ensures Unsplittable(k, TxsAt(f, p.chunk))
  {
    hide Valid, Active, TxsAt, TopIdx, RateOf, IsTree, Unsplittable;
    ForestTree(k, f, p.chunk);
    IsTreeTops(Active(f.txData), TxsAt(f, p.chunk), TopsMap(f));
    forall d | d in Active(f.txData) && d.0 in TxsAt(f, p.chunk)
      ensures RateOf(k, TopsMap(f)[d]) < RateOf(k, TxsAt(f, p.chunk))
    {
      assert Scanned(k, f, p, false, found, d);
    }
    AllTopsLower(k, Active(f.txData), TxsAt(f, p.chunk), TopsMap(f));
  }

  lemma IsTreeTops(active: set<Dep>, x: set<nat>, tops: map<Dep, set<nat>>)
    requires IsTree(active, x, tops)
    ensures forall d | d in active && d.0 in x :: d in tops
  {
  }

  /** All equal-feerate dependencies have the pivot on the wrong side: no split in this direction. */
  lemma ScanNoCandidate(k: Cluster, f: Forest, p: Pending, any: bool)
    requires Valid(k, f) && AllOptimal(k, f) && PendingOk(k, f, p) && ScannedAll(k, f, p, any, false)
    ensures NoSplit(k, TxsAt(f, p.chunk), p.pivot, !p.down)
    ensures p.second ==> Unsplittable(k, TxsAt(f, p.chunk))
  {
    var x, a, tops := TxsAt(f, p.chunk), Active(f.txData), TopsMap(f);
    var sign := if p.down then -1 else 1;
    hide Valid, Active, TxsAt, TopIdx, RateOf, IsTree, Unsplittable, NoHigherTop, ChunkOptimal, ClosedWithin;
    ForestTree(k, f, p.chunk);
    IsTreeTops(a, x, tops);
    ChunkOptimalTree(k, f, p.chunk);
    forall d | d in a && d.0 in x && RateOf(k, tops[d]) == RateOf(k, x)
      ensures p.pivot in tops[d] <==> sign == -1
    {
      assert Scanned(k, f, p, any, false, d);
    }
    forall s: set<nat> | ClosedWithin(k, x, s) && s != {} && s != x && (p.pivot in s <==> !p.down)
      ensures RateOf(k, s) != RateOf(k, x)
    {
      PivotExhausted(k, a, x, tops, p.pivot, sign, s);
    }
    if p.second {
      NoSplitBoth(k, x, p.pivot, p.down);
    }
  }

  /** The pending chunk is turned to the other direction. */
  lemma MinimizeTurn(k: Cluster, f: Forest, queue: seq<Pending>)
    requires queue != [] && Minimal(k, f, queue)
    requires NoSplit(k, TxsAt(f, queue[0].chunk), queue[0].pivot, !queue[0].down)
    ensures Minimal(k, f, queue[1..] + [queue[0].(down := !queue[0].down, second := true)])
  {
    hide Valid, TxsAt, Chunks, ChunkOptimal, Pruned, NoSplit, WeaklyTopological, Acyclic;
    PrunedHead(k, f, queue);
    var added := [queue[0].(down := !queue[0].down, second := true)];
    assert added[0].chunk == queue[0].chunk;
    PrunedReplace(k, f, queue, f, added);
  }

  lemma MinimizeDrop(k: Cluster, f: Forest, queue: seq<Pending>)
    requires queue != [] && Minimal(k, f, queue) && Unsplittable(k, TxsAt(f, queue[0].chunk))
    ensures Minimal(k, f, queue[1..])
  {
    hide Valid, TxsAt, Chunks, ChunkOptimal, Pruned, WeaklyTopological, Acyclic, Unsplittable;
    PrunedDrop(k, f, queue);
  }

  /** Comparing one top set during the scan. */
  lemma ScanStep(k: Cluster, f: Forest, p: Pending, e: Dep)
    requires Valid(k, f) && AllOptimal(k, f) && p.chunk in f.chunkIdxs && e in Active(f.txData)
             && e.0 in TxsAt(f, p.chunk)
    ensures e.0 in f.txData && e.1 in f.txData[e.0].depTop && TopIdx(f.txData, e) < |f.setInfo| && p.chunk < |f.setInfo|
    ensures TopIdx(f.txData, e) == f.txData[e.0].depTop[e.1]
    ensures TopAt(f, e) == f.setInfo[TopIdx(f.txData, e)].transactions
    ensures var lower := Lower(f.setInfo[TopIdx(f.txData, e)].feerate, f.setInfo[p.chunk].feerate);
            && (lower ==> forall any, found :: Scanned(k, f, p, any, found, e))
            && (!lower ==> EvenDep(k, f, p, e) && forall found :: (found || (p.pivot in TopAt(f, e) <==> p.down))
                                                                  ==> Scanned(k, f, p, true, found, e))
  {
    hide Valid, Active, RateOf, FeeRateCompare, ChunkOptimal;
    TopCompare(k, f, p.chunk, e);
    ScanOptimal(k, f, p.chunk, e);
    ChunkAccess(k, f, p.chunk);
  }

  lemma ScanOptimal(k: Cluster, f: Forest, i: nat, e: Dep)
    requires Valid(k, f) && ChunkOptimal(k, f, i) && e in Active(f.txData) && ChunkIdx(f.txData, e.0) == i
    ensures RateOf(k, TopAt(f, e)) <= RateOf(k, TxsAt(f, i)) && TxsAt(f, i) == ChunkOf(f, e.0)
  {
    hide Valid, Active, RateOf, TxsAt;
  }

  // ---------------------------------------------------------------- filling the queue

  /** The queue lists exactly the chunks in idxs, once each, in the first stage. */
  ghost predicate Listed(k: Cluster, f: Forest, queue: seq<Pending>, idxs: set<nat>) {
    && (forall a | 0 <= a < |queue| :: PendingOk(k, f, queue[a]))
    && (forall a, b | 0 <= a < b < |queue| :: queue[a].chunk != queue[b].chunk)
    && (forall i | i in idxs :: exists a :: 0 <= a < |queue| && queue[a].chunk == i)
    && (forall a | 0 <= a < |queue| :: queue[a].chunk in idxs)
  }

  lemma ListedAdd(k: Cluster, f: Forest, queue: seq<Pending>, idxs: set<nat>, p: Pending)
    requires Listed(k, f, queue, idxs) && PendingOk(k, f, p) && p.chunk !in idxs
    ensures Listed(k, f, queue + [p], idxs + {p.chunk})
  {
    hide PendingOk;
    var q := queue + [p];
    forall i | i in idxs + {p.chunk}
      ensures exists a :: 0 <= a < |q| && q[a].chunk == i
    {
      if i == p.chunk {
        assert q[|queue|].chunk == i;
      } else {
        var a :| 0 <= a < |queue| && queue[a].chunk == i;
        assert q[a].chunk == i;
      }
    }
  }

  lemma ListedSwap(k: Cluster, f: Forest, queue: seq<Pending>, idxs: set<nat>, i: nat, j: nat)
    requires Listed(k, f, queue, idxs) && i < j < |queue|
    ensures Listed(k, f, queue[i := queue[j]][j := queue[i]], idxs)
  {
    hide PendingOk;
    var q := queue[i := queue[j]][j := queue[i]];
    forall x | x in idxs
      ensures exists a :: 0 <= a < |q| && q[a].chunk == x
    {
      var a :| 0 <= a < |queue| && queue[a].chunk == x;
      assert q[if a == i then j else if a == j then i else a].chunk == x;
    }
  }

  lemma ListedAll(k: Cluster, f: Forest, queue: seq<Pending>)
    requires Listed(k, f, queue, f.chunkIdxs)
    ensures Pruned(k, f, queue)
  {
    hide PendingOk, Unsplittable;
  }

  lemma MinimalHead(k: Cluster, f: Forest, queue: seq<Pending>)
    requires Minimal(k, f, queue) && queue != []
    ensures Valid(k, f) && AllOptimal(k, f) && PendingOk(k, f, queue[0])
  {
    PrunedHead(k, f, queue);
  }

  lemma MinimalEnd(k: Cluster, f: Forest)
    requires Minimal(k, f, [])
    ensures forall i | i in f.chunkIdxs :: Unsplittable(k, TxsAt(f, i))
  {
    hide Unsplittable, TxsAt, Valid;
  }

  lemma SameDiagramSelf(k: Cluster, chunks: set<set<nat>>)
    ensures SameDiagram(k, chunks, chunks)
  {
  }

  lemma EvenDepFacts(k: Cluster, f: Forest, p: Pending, d: Dep)
    requires EvenDep(k, f, p, d) && p.pivot in TxsAt(f, p.chunk)
    ensures CanDeactivate(k, f, d) && ChunkIdx(f.txData, d.0) == p.chunk && TxsAt(f, p.chunk) == ChunkOf(f, d.0)
    ensures p.pivot in TopAt(f, d) || p.pivot in BottomAt(f, d)
  {
    hide CanDeactivate, RateOf;
  }
}
