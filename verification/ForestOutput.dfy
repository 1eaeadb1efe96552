/** Emitting the chunks of a forest: counters of unmet dependencies, the order of emission, and
    why emission never gets stuck. */
module ForestOutput {
  import opened FeeFracs
  import opened Clusters
  import opened DepGraphs
  import opened Merging
  import opened Forests
  import opened ForestMerging
  import opened Loading
  import opened Minimizing
  import opened Output
  import opened ChunkDiagrams

  // ---------------------------------------------------------------- the order of emission

  /** The comparison of both heaps: higher feerate first, then smaller size, then lower rank. */
  predicate Precedes(a: FeeFrac, ra: int, b: FeeFrac, rb: int) {
    var c := FeeRateCompare(a, b);
    if c != 0 then c > 0 else if a.size != b.size then a.size < b.size else ra < rb
  }

  lemma PrecedesOrder(a: FeeFrac, ra: int, b: FeeFrac, rb: int, c: FeeFrac, rc: int)
    requires a.size > 0 && b.size > 0 && c.size > 0
    ensures ra != rb ==> Precedes(a, ra, b, rb) || Precedes(b, rb, a, ra)
    ensures Precedes(a, ra, b, rb) && Precedes(b, rb, c, rc) ==> Precedes(a, ra, c, rc)
    ensures Precedes(a, ra, b, rb) ==> Rate(a) >= Rate(b) && !Precedes(b, rb, a, ra)
  {
    CompareIsRateOrder(a, b);
    CompareIsRateOrder(b, a);
    CompareIsRateOrder(b, c);
    CompareIsRateOrder(a, c);
    hide FeeRateCompare, Rate;
  }

  /** Pop the first element of a heap. */
  method PopBest(ready: set<nat>, fees: map<nat, FeeFrac>, ranks: map<nat, int>) returns (best: nat)
    requires ready != {} && ready <= fees.Keys && ready <= ranks.Keys
    requires forall u | u in ready :: fees[u].size > 0
    requires forall u, v | u in ready && v in ready && u != v :: ranks[u] != ranks[v]
    ensures best in ready
    ensures forall u | u in ready && u != best :: Precedes(fees[best], ranks[best], fees[u], ranks[u])
  {
    hide Precedes;
    best :| best in ready;
    var todo := ready - {best};
    while todo != {}
      invariant todo <= ready && best in ready && best !in todo
      invariant forall u | u in ready && u !in todo && u != best :: Precedes(fees[best], ranks[best], fees[u], ranks[u])
    {
      var t :| t in todo;
      todo := todo - {t};
      forall u | u in ready
        ensures Precedes(fees[t], ranks[t], fees[best], ranks[best])
                && Precedes(fees[best], ranks[best], fees[u], ranks[u])
                ==> Precedes(fees[t], ranks[t], fees[u], ranks[u])
      {
        PrecedesOrder(fees[t], ranks[t], fees[best], ranks[best], fees[u], ranks[u]);
      }
      PrecedesOrder(fees[t], ranks[t], fees[best], ranks[best], fees[best], ranks[best]);
      if Precedes(fees[t], ranks[t], fees[best], ranks[best]) {
        best := t;
      }
    }
  }

  // ---------------------------------------------------------------- orders of transactions

  /** lin has no repetitions, and every transaction comes after its parents. */
  ghost predicate Ordered(k: Cluster, lin: seq<nat>) {
    && (forall i, j | 0 <= i < j < |lin| :: lin[i] != lin[j])
    && (forall d, j | d in k.deps && 0 <= j < |lin| && lin[j] == d.1 :: d.0 in lin[..j])
  }

  lemma OrderedAppend(k: Cluster, lin: seq<nat>, t: nat)
    requires Ordered(k, lin) && t !in lin && forall d | d in k.deps && d.1 == t :: d.0 in lin
    ensures Ordered(k, lin + [t])
  {
    var lin' := lin + [t];
    forall d, j | d in k.deps && 0 <= j < |lin'| && lin'[j] == d.1
      ensures d.0 in lin'[..j]
    {
      if j < |lin| {
        assert lin'[..j] == lin[..j];
      } else {
        assert lin'[..j] == lin;
      }
    }
  }

  lemma OrderedLinearization(k: Cluster, lin: seq<nat>)
    requires Ordered(k, lin) && ToSet(lin) == k.txs
    ensures IsLinearization(k, lin)
  {
    forall i, j | 0 <= i < |lin| && 0 <= j < |lin| && (lin[i], lin[j]) in k.deps
      ensures i < j
    {
      var d := (lin[i], lin[j]);
      assert d.0 in lin[..j];
      var i' :| 0 <= i' < j && lin[..j][i'] == d.0;
      assert lin[i'] == lin[i];
    }
  }

  // ---------------------------------------------------------------- counters of unmet dependencies

  ghost function UnmetOfTx(unmet: set<Dep>, c: nat): set<Dep> {
    set d | d in unmet && d.1 == c
  }

  ghost function UnmetOfChunk(unmet: set<Dep>, x: set<nat>): set<Dep> {
    set d | d in unmet && d.1 in x && d.0 !in x
  }

  /** The number of unmet dependencies of every transaction and of every chunk. */
  datatype Counters = Counters(txDeps: map<nat, nat>, chunkDeps: map<nat, nat>)

  ghost predicate Counted(k: Cluster, f: Forest, unmet: set<Dep>, cnt: Counters) {
    && cnt.txDeps.Keys == k.txs && cnt.chunkDeps.Keys == f.chunkIdxs
    && (forall t | t in k.txs :: cnt.txDeps[t] == |UnmetOfTx(unmet, t)|)
    && (forall i | i in f.chunkIdxs :: cnt.chunkDeps[i] == |UnmetOfChunk(unmet, TxsAt(f, i))|)
  }

  /** The dependency d has been met. */
  function Met(cnt: Counters, d: Dep, parentChunk: nat, childChunk: nat): Counters
    requires d.1 in cnt.txDeps && childChunk in cnt.chunkDeps
    requires cnt.txDeps[d.1] > 0 && (parentChunk != childChunk ==> cnt.chunkDeps[childChunk] > 0)
  {
    Counters(cnt.txDeps[d.1 := cnt.txDeps[d.1] - 1],
             if parentChunk == childChunk then cnt.chunkDeps
                 else cnt.chunkDeps[childChunk := cnt.chunkDeps[childChunk] - 1])
  }

  lemma CountedPositive(k: Cluster, f: Forest, unmet: set<Dep>, cnt: Counters, d: Dep)
    requires Valid(k, f) && Counted(k, f, unmet, cnt) && d in unmet && d in k.deps
    ensures d.0 in k.txs && d.1 in k.txs && ChunkIdx(f.txData, d.1) in f.chunkIdxs
    ensures d.1 in cnt.txDeps && cnt.txDeps[d.1] > 0
    ensures ChunkIdx(f.txData, d.1) in cnt.chunkDeps
    ensures ChunkIdx(f.txData, d.0) != ChunkIdx(f.txData, d.1) ==> cnt.chunkDeps[ChunkIdx(f.txData, d.1)] > 0
  {
    hide Linked, Indexed, Connected, Topped, Rated, Reached, SetAt, ChunkIdx;
    assert d in UnmetOfTx(unmet, d.1);
    if ChunkIdx(f.txData, d.0) != ChunkIdx(f.txData, d.1) {
      assert d in UnmetOfChunk(unmet, ChunkOf(f, d.1));
    }
  }

  lemma UnmetRemoved(unmet: set<Dep>, d: Dep, x: set<nat>, t: nat)
    requires d in unmet
    ensures |UnmetOfTx(unmet - {d}, t)| == |UnmetOfTx(unmet, t)| - if t == d.1 then 1 else 0
    ensures |UnmetOfChunk(unmet - {d}, x)| == |UnmetOfChunk(unmet, x)| - if d.1 in x && d.0 !in x then 1 else 0
  {
    assert UnmetOfTx(unmet - {d}, t) == UnmetOfTx(unmet, t) - {d};
    assert UnmetOfChunk(unmet - {d}, x) == UnmetOfChunk(unmet, x) - {d};
  }

  lemma ValidLinks(k: Cluster, f: Forest)
    requires Valid(k, f)
    ensures k.Valid() && f.txData.Keys == k.txs
    ensures forall t | t in k.txs :: ChunkIdx(f.txData, t) == f.txData[t].chunkIdx
  {
  }

  lemma ChunkLinks(k: Cluster, f: Forest, t: nat)
    requires Valid(k, f) && t in k.txs
    ensures t in f.txData && f.txData[t].parents == ParentsOf(k, {t}) && f.txData[t].chunkIdx == ChunkIdx(f.txData, t)
    ensures var i := ChunkIdx(f.txData, t); i in f.chunkIdxs && i < |f.setInfo|
                                            && f.setInfo[i].transactions == TxsAt(f, i)
  {
  }

  lemma ChildLinks(k: Cluster, f: Forest, t: nat)
    requires Valid(k, f) && t in k.txs
    ensures t in f.txData && forall c :: c in f.txData[t].children <==> (t, c) in k.deps
  {
    forall c
      ensures c in ChildrenOf(k, {t}) <==> (t, c) in k.deps
    {
      assert (t, c) in k.deps ==> (t, c).1 in ChildrenOf(k, {t});
    }
  }

  lemma CountedKeys(k: Cluster, f: Forest, unmet: set<Dep>, cnt: Counters)
    requires Counted(k, f, unmet, cnt)
    ensures cnt.txDeps.Keys == k.txs && cnt.chunkDeps.Keys == f.chunkIdxs
  {
  }

  /** A transaction is in a chunk exactly when its index points there. */
  lemma ChunkMembers(k: Cluster, f: Forest, t: nat, i: nat)
    requires Valid(k, f) && t in k.txs && i in f.chunkIdxs
    ensures t in TxsAt(f, i) <==> i == ChunkIdx(f.txData, t)
  {
    hide Linked, Indexed, Connected, Topped, Rated, Reached, SetAt, ChunkIdx;
    assert t in ChunkOf(f, t);
  }

  lemma CountedMet(k: Cluster, f: Forest, unmet: set<Dep>, cnt: Counters, d: Dep)
    requires Valid(k, f) && Counted(k, f, unmet, cnt) && d in unmet && d in k.deps
    requires d.1 in cnt.txDeps && cnt.txDeps[d.1] > 0 && ChunkIdx(f.txData, d.1) in cnt.chunkDeps
    requires ChunkIdx(f.txData, d.0) != ChunkIdx(f.txData, d.1) ==> cnt.chunkDeps[ChunkIdx(f.txData, d.1)] > 0
    ensures Counted(k, f, unmet - {d}, Met(cnt, d, ChunkIdx(f.txData, d.0), ChunkIdx(f.txData, d.1)))
  {
    hide Valid, UnmetOfTx, UnmetOfChunk, ChunkIdx, TxsAt;
    CountedPositive(k, f, unmet, cnt, d);
    forall t | t in k.txs
      ensures |UnmetOfTx(unmet - {d}, t)| == |UnmetOfTx(unmet, t)| - if t == d.1 then 1 else 0
    {
      UnmetRemoved(unmet, d, {}, t);
    }
    forall i | i in f.chunkIdxs
      ensures |UnmetOfChunk(unmet - {d}, TxsAt(f, i))| ==
              |UnmetOfChunk(unmet, TxsAt(f, i))| - if i == ChunkIdx(f.txData, d.1)
                  && i != ChunkIdx(f.txData, d.0) then 1 else 0
    {
      ChunkMembers(k, f, d.0, i);
      ChunkMembers(k, f, d.1, i);
      UnmetRemoved(unmet, d, TxsAt(f, i), 0);
    }
  }

  // ---------------------------------------------------------------- progress

  lemma {:induction false} LeastAncestors(g: DepGraph, s: set<nat>) returns (t: nat)
    requires s != {}
    ensures t in s && forall u | u in s :: |g.Anc(t)| <= |g.Anc(u)|
    decreases |s|
  {
    t :| t in s;
    var rest := s - {t};
    if rest != {} {
      var u := LeastAncestors(g, rest);
      if |g.Anc(u)| < |g.Anc(t)| {
        t := u;
      }
    }
  }

  /** If all outside parents of x are emitted, some remaining transaction of x has all parents
      emitted. */
  lemma SomeTxReady(g: DepGraph, x: set<nat>, emitted: set<nat>) returns (t: nat)
    requires g.Valid() && x - emitted != {}
    requires forall d | d in ClusterOf(g).deps && d.1 in x && d.0 !in x :: d.0 in emitted
    ensures t in x && t !in emitted && forall d | d in ClusterOf(g).deps && d.1 == t :: d.0 in emitted
  {
    t := LeastAncestors(g, x - emitted);
    forall d | d in ClusterOf(g).deps && d.1 == t
      ensures d.0 in emitted
    {
      ClusterDeps(g, d);
      AncestorCount(g, d.0, t);
      assert d.0 in x ==> d.0 !in x - emitted;
    }
  }

  // ---------------------------------------------------------------- the state of the emission

  ghost function Unmet(k: Cluster, lin: seq<nat>): set<Dep> {
    set d | d in k.deps && d.0 !in lin
  }

  /** The transactions of x that can come next. */
  function ReadyTxs(cnt: Counters, x: set<nat>, lin: seq<nat>): set<nat> {
    set u | u in x && u !in lin && u in cnt.txDeps && cnt.txDeps[u] == 0
  }

  /** The chunks outside done that can come next. */
  function ReadyChunks(cnt: Counters, idxs: set<nat>, done: set<nat>): set<nat> {
    set i | i in idxs && i !in done && i in cnt.chunkDeps && cnt.chunkDeps[i] == 0
  }

  /** Exactly the chunks in done have been emitted. */
  ghost predicate Emission(k: Cluster, f: Forest, lin: seq<nat>, done: set<nat>, cnt: Counters, ready: set<nat>) {
    && Ordered(k, lin) && (forall t | t in lin :: t in k.txs)
    && (forall t | t in k.txs :: t in lin <==> ChunkIdx(f.txData, t) in done)
    && Counted(k, f, Unmet(k, lin), cnt) && ready == ReadyChunks(cnt, f.chunkIdxs, done)
  }

  /** Besides the chunks in done, the transactions in part of chunk c have been emitted. */
  ghost predicate InChunk(k: Cluster, f: Forest, lin: seq<nat>, done: set<nat>, c: nat, part: seq<nat>,
                          cnt: Counters, readyTx: set<nat>, ready: set<nat>)
  {
    && Ordered(k, lin + part) && (forall t | t in lin :: t in k.txs) && (forall t | t in part :: t in TxsAt(f, c))
    && (forall t | t in k.txs :: t in lin <==> ChunkIdx(f.txData, t) in done)
    && c in f.chunkIdxs && c !in done
    && (forall d | d in k.deps && d.1 in TxsAt(f, c) && d.0 !in TxsAt(f, c) :: d.0 in lin)
    && Counted(k, f, Unmet(k, lin + part), cnt)
    && readyTx == ReadyTxs(cnt, TxsAt(f, c), lin + part) && ready == ReadyChunks(cnt, f.chunkIdxs, done + {c})
  }

  /** Every unmet dependency is one of a transaction still to come. */
  lemma UnmetAhead(k: Cluster, lin: seq<nat>, d: Dep)
    requires Ordered(k, lin) && d in Unmet(k, lin)
    ensures d.1 !in lin
  {
    forall j | 0 <= j < |lin|
      ensures lin[j] != d.1
    {
      assert forall x | x in lin[..j] :: x in lin;
    }
  }

  lemma TxCount(k: Cluster, f: Forest, lin: seq<nat>, cnt: Counters, t: nat)
    requires Counted(k, f, Unmet(k, lin), cnt) && t in k.txs
    ensures t in cnt.txDeps
    ensures cnt.txDeps[t] == 0 <==> forall d | d in k.deps && d.1 == t :: d.0 in lin
  {
    if cnt.txDeps[t] == 0 {
      forall d | d in k.deps && d.1 == t
        ensures d.0 in lin
      {
        assert d !in UnmetOfTx(Unmet(k, lin), t);
      }
    } else {
      var d :| d in UnmetOfTx(Unmet(k, lin), t);
    }
  }

  lemma ChunkCount(k: Cluster, f: Forest, lin: seq<nat>, cnt: Counters, i: nat)
    requires Counted(k, f, Unmet(k, lin), cnt) && i in f.chunkIdxs
    ensures i in cnt.chunkDeps
    ensures cnt.chunkDeps[i] == 0 <==> forall d | d in k.deps && d.1 in TxsAt(f, i) && d.0 !in TxsAt(f, i) :: d.0 in lin
  {
    hide TxsAt;
    if cnt.chunkDeps[i] == 0 {
      forall d | d in k.deps && d.1 in TxsAt(f, i) && d.0 !in TxsAt(f, i)
        ensures d.0 in lin
      {
        assert d !in UnmetOfChunk(Unmet(k, lin), TxsAt(f, i));
      }
    } else {
      var d :| d in UnmetOfChunk(Unmet(k, lin), TxsAt(f, i));
    }
  }

  /** Entering chunk c. */
  lemma ChunkEntered(k: Cluster, f: Forest, lin: seq<nat>, done: set<nat>, c: nat, cnt: Counters, ready: set<nat>)
    requires Emission(k, f, lin, done, cnt, ready) && c in ready
    ensures InChunk(k, f, lin, done, c, [], cnt, ReadyTxs(cnt, TxsAt(f, c), lin), ready - {c})
  {
    hide Ordered, ChunkIdx, Counted, Unmet, TxsAt;
    ChunkCount(k, f, lin, cnt, c);
    assert lin + [] == lin;
  }

  /** A ready transaction can be appended, and then its dependencies on children are the ones
      that become met. */
  lemma TxAppended(k: Cluster, f: Forest, lin: seq<nat>, done: set<nat>, c: nat, part: seq<nat>,
                   cnt: Counters, readyTx: set<nat>, ready: set<nat>, t: nat)
    requires Valid(k, f) && InChunk(k, f, lin, done, c, part, cnt, readyTx, ready) && t in readyTx
    ensures t in k.txs && ChunkIdx(f.txData, t) == c
    ensures Ordered(k, lin + (part + [t])) && t in TxsAt(f, c)
    ensures Unmet(k, lin + (part + [t])) == set d | d in Unmet(k, lin + part) && d.0 != t
    ensures forall d | d in Unmet(k, lin + part) :: d.1 !in lin + (part + [t]) && ChunkIdx(f.txData, d.1) !in done
    ensures readyTx - {t} == ReadyTxs(cnt, TxsAt(f, c), lin + (part + [t]))
  {
    hide Linked, Indexed, Connected, Topped, Rated, Reached, SetAt, ChunkIdx, TxsAt, Ordered, Counted, Unmet;
    assert lin + (part + [t]) == (lin + part) + [t];
    assert t in k.txs && ChunkIdx(f.txData, t) == c;
    TxCount(k, f, lin + part, cnt, t);
    OrderedAppend(k, lin + part, t);
    UnmetAppended(k, lin + part, t);
    forall d | d in Unmet(k, lin + part)
      ensures d.1 !in lin + (part + [t]) && ChunkIdx(f.txData, d.1) !in done
    {
      UnmetAhead(k, lin + part, d);
      UnmetChild(k, lin + part, d);
      assert d.1 != t;
      assert d.1 !in lin;
    }
  }

  lemma UnmetAppended(k: Cluster, lin: seq<nat>, t: nat)
    ensures Unmet(k, lin + [t]) == set d | d in Unmet(k, lin) && d.0 != t
  {
  }

  lemma UnmetChild(k: Cluster, lin: seq<nat>, d: Dep)
    requires k.Valid() && d in Unmet(k, lin)
    ensures d in k.deps && d.1 in k.txs && d.0 !in lin
  {
  }

  lemma SomeReadyTx(g: DepGraph, f: Forest, lin: seq<nat>, done: set<nat>, c: nat, part: seq<nat>,
                    cnt: Counters, readyTx: set<nat>, ready: set<nat>)
    requires g.Valid() && Valid(ClusterOf(g), f) && InChunk(ClusterOf(g), f, lin, done, c, part, cnt, readyTx, ready)
    requires TxsAt(f, c) - ToSet(lin + part) != {}
    ensures readyTx != {}
  {
    var k := ClusterOf(g);
    hide ClusterOf, Linked, Indexed, Connected, Topped, Rated, Reached, SetAt, ChunkIdx, TxsAt, Ordered, Counted, Unmet;
    var t := SomeTxReady(g, TxsAt(f, c), ToSet(lin + part));
    TxCount(k, f, lin + part, cnt, t);
    assert t in ReadyTxs(cnt, TxsAt(f, c), lin + part);
  }

  /** When no transaction of the chunk is ready, all of it has been emitted. */
  lemma ChunkFinished(g: DepGraph, f: Forest, lin: seq<nat>, done: set<nat>, c: nat, part: seq<nat>,
                      cnt: Counters, ready: set<nat>)
    requires g.Valid() && Valid(ClusterOf(g), f) && InChunk(ClusterOf(g), f, lin, done, c, part, cnt, {}, ready)
    ensures ToSet(part) == TxsAt(f, c) && Emission(ClusterOf(g), f, lin + part, done + {c}, cnt, ready)
  {
    var k := ClusterOf(g);
    hide ClusterOf, Linked, Indexed, Connected, Topped, Rated, Reached, SetAt, ChunkIdx, TxsAt, Ordered, Counted, Unmet;
    if TxsAt(f, c) - ToSet(lin + part) != {} {
      SomeReadyTx(g, f, lin, done, c, part, cnt, {}, ready);
    }
    forall t | t in TxsAt(f, c)
      ensures t in part
    {
      assert t !in TxsAt(f, c) - ToSet(lin + part);
      assert t in lin + part;
      assert ChunkIdx(f.txData, t) == c;
    }
  }

  lemma EmissionStart(k: Cluster, f: Forest, cnt: Counters)
    requires Counted(k, f, k.deps, cnt)
    ensures Emission(k, f, [], {}, cnt, ReadyChunks(cnt, f.chunkIdxs, {}))
  {
    assert Unmet(k, []) == k.deps;
  }

  /** What becomes ready when a dependency is met. */
  lemma ReadyMet(cnt: Counters, d: Dep, ci: nat, cj: nat, x: set<nat>, lin: seq<nat>, idxs: set<nat>, done: set<nat>)
    requires d.1 in cnt.txDeps && cj in cnt.chunkDeps && cnt.txDeps[d.1] > 0 && (ci != cj ==> cnt.chunkDeps[cj] > 0)
    requires d.1 !in lin && cj in idxs && cj !in done
    ensures var after := Met(cnt, d, ci, cj);
            && ReadyTxs(after, x, lin) == ReadyTxs(cnt, x, lin) + (if after.txDeps[d.1] == 0
               && d.1 in x then {d.1} else {})
            && ReadyChunks(after, idxs, done + {ci}) ==
               ReadyChunks(cnt, idxs, done + {ci}) + if ci != cj && after.chunkDeps[cj] == 0 then {cj} else {}
  {
  }

  // ---------------------------------------------------------------- the order that results

  ghost predicate IsMaxRank(rank: nat -> int, x: set<nat>, r: int) {
    (exists t :: t in x && rank(t) == r) && forall t | t in x :: rank(t) <= r
  }

  /** The highest rank in a set. */
  ghost function MaxRank(rank: nat -> int, x: set<nat>): int {
    if exists r :: IsMaxRank(rank, x, r) then var r :| IsMaxRank(rank, x, r); r else 0
  }

  lemma MaxRankIs(rank: nat -> int, x: set<nat>, r: int)
    requires IsMaxRank(rank, x, r)
    ensures MaxRank(rank, x) == r
  {
    var r' := MaxRank(rank, x);
    assert IsMaxRank(rank, x, r');
    var t :| t in x && rank(t) == r;
    var t' :| t' in x && rank(t') == r';
  }

  /** The highest rank in a chunk. */
  method MaxFallback(rank: nat -> int, x: set<nat>) returns (r: int)
    requires x != {}
    ensures IsMaxRank(rank, x, r)
  {
    var best :| best in x;
    var todo := x - {best};
    while todo != {}
      invariant todo <= x && best in x
      invariant forall t | t in x && t !in todo :: rank(t) <= rank(best)
    {
      var t :| t in todo;
      if rank(t) > rank(best) {
        best := t;
      }
      todo := todo - {t};
    }
    r := rank(best);
  }

  ghost predicate Injective(rank: nat -> int, txs: set<nat>) {
    forall t, u | t in txs && u in txs && rank(t) == rank(u) :: t == u
  }

  /** Disjoint chunks have different highest ranks. */
  lemma MaxRanksDiffer(rank: nat -> int, txs: set<nat>, x: set<nat>, y: set<nat>, r: int, s: int)
    requires Injective(rank, txs) && x <= txs && y <= txs && x !! y && IsMaxRank(rank, x, r) && IsMaxRank(rank, y, s)
    ensures r != s
  {
    var t :| t in x && rank(t) == r;
    var u :| u in y && rank(u) == s;
  }

  /** Each listed chunk was ready, and comes first among the chunks that were. */
  ghost predicate BestChunkFirst(k: Cluster, rank: nat -> int, chunks: set<set<nat>>, parts: seq<seq<nat>>) {
    && (forall i | 0 <= i < |parts| :: Ready(k, chunks, Sets(parts[..i]), ToSet(parts[i])))
    && forall i, y | 0 <= i < |parts| && y in chunks && y !in Sets(parts[..i]) && Ready(k, chunks, Sets(parts[..i]), y)
                  && y != ToSet(parts[i]) ::
      Precedes(FeeRate(k, ToSet(parts[i])), MaxRank(rank, ToSet(parts[i])), FeeRate(k, y), MaxRank(rank, y))
  }

  /** All parents of u are among the transactions in lin. */
  ghost predicate TxReady(k: Cluster, lin: seq<nat>, u: nat) {
    forall d | d in k.deps && d.1 == u :: d.0 in lin
  }

  /** part lists transactions of x, once each; each of them, emitted after lin, was ready and comes
      first among the ones that were. */
  ghost predicate BestTxFirst(k: Cluster, rank: nat -> int, x: set<nat>, lin: seq<nat>, part: seq<nat>) {
    && (forall j | 0 <= j < |part| :: part[j] in x && part[j] !in part[..j] && TxReady(k, lin + part[..j], part[j]))
    && forall j, u | 0 <= j < |part| && u in x && u !in part[..j] && TxReady(k, lin + part[..j], u) && u != part[j] ::
      Precedes(k.FeeOf(part[j]), rank(part[j]), k.FeeOf(u), rank(u))
  }

  /** parts is an order of emission. */
  ghost predicate BestFirst(k: Cluster, rank: nat -> int, chunks: set<set<nat>>, parts: seq<seq<nat>>) {
    && BestChunkFirst(k, rank, chunks, parts)
    && (forall i | 0 <= i < |parts| :: BestTxFirst(k, rank, ToSet(parts[i]), Flatten(parts[..i]), parts[i]))
  }

  lemma BestTxAppended(k: Cluster, f: Forest, rank: nat -> int, lin: seq<nat>, c: nat, part: seq<nat>, cnt: Counters,
                       t: nat)
    requires Counted(k, f, Unmet(k, lin + part), cnt) && TxsAt(f, c) <= k.txs
             && BestTxFirst(k, rank, TxsAt(f, c), lin, part)
    requires forall u | u in TxsAt(f, c) && u in lin :: u in part
    requires t in ReadyTxs(cnt, TxsAt(f, c), lin + part)
    requires forall u | u in ReadyTxs(cnt, TxsAt(f, c), lin + part) && u != t ::
               Precedes(k.FeeOf(t), rank(t), k.FeeOf(u), rank(u))
    ensures BestTxFirst(k, rank, TxsAt(f, c), lin, part + [t])
  {
    hide Counted, Unmet, Precedes, TxsAt;
    var part' := part + [t];
    var x := TxsAt(f, c);
    forall j, u | 0 <= j < |part'| && u in x && u !in part'[..j] && TxReady(k, lin + part'[..j], u) && u != part'[j]
      ensures Precedes(k.FeeOf(part'[j]), rank(part'[j]), k.FeeOf(u), rank(u))
    {
      if j < |part| {
        assert part'[..j] == part[..j];
      } else {
        assert part'[..j] == part;
        TxCount(k, f, lin + part, cnt, u);
        assert u in ReadyTxs(cnt, x, lin + part);
      }
    }
    forall j | 0 <= j < |part'|
      ensures part'[j] in x && part'[j] !in part'[..j] && TxReady(k, lin + part'[..j], part'[j])
    {
      assert part'[..j] == if j < |part| then part[..j] else part;
      TxCount(k, f, lin + part, cnt, t);
    }
  }

  /** The chunks at some indexes. */
  ghost function ChunksAt(f: Forest, idxs: set<nat>): set<set<nat>> {
    set i | i in idxs :: TxsAt(f, i)
  }

  lemma ChunksApart(k: Cluster, f: Forest, i: nat, j: nat)
    requires Valid(k, f) && i in f.chunkIdxs && j in f.chunkIdxs && i != j
    ensures TxsAt(f, i) !! TxsAt(f, j) && TxsAt(f, i) != TxsAt(f, j)
  {
    ChunkAccess(k, f, i);
    hide Linked, Indexed, Connected, Topped, Rated, Reached, SetAt, ChunkIdx, TxsAt;
    forall t | t in TxsAt(f, i)
      ensures t !in TxsAt(f, j)
    {
      assert ChunkIdx(f.txData, t) == i;
    }
  }

  /** A chunk whose counter is zero is exactly one that is ready. */
  lemma ReadyCounted(k: Cluster, f: Forest, lin: seq<nat>, done: set<nat>, cnt: Counters, ready: set<nat>, i: nat)
    requires Valid(k, f) && Emission(k, f, lin, done, cnt, ready) && done <= f.chunkIdxs && i in f.chunkIdxs
             && i !in done
    ensures i in ready <==> Ready(k, Chunks(f), ChunksAt(f, done), TxsAt(f, i))
  {
    hide Linked, Indexed, Connected, Topped, Rated, Reached, SetAt, ChunkIdx, TxsAt, Ordered, Counted, Unmet;
    ChunkCount(k, f, lin, cnt, i);
    if i in ready {
      forall z | z in Chunks(f) && z != TxsAt(f, i) && z !in ChunksAt(f, done)
        ensures !DependsOn(k, TxsAt(f, i), z)
      {
        var j :| j in f.chunkIdxs && z == TxsAt(f, j);
        forall d | d in k.deps && d.1 in TxsAt(f, i)
          ensures d.0 !in z
        {
          assert d.0 in z ==> d.0 in k.txs && ChunkIdx(f.txData, d.0) == j;
          assert d.0 in TxsAt(f, i) ==> ChunkIdx(f.txData, d.0) == i;
        }
      }
    } else {
      var d :| d in k.deps && d.1 in TxsAt(f, i) && d.0 !in TxsAt(f, i) && d.0 !in lin;
      var j := ChunkIdx(f.txData, d.0);
      assert d.0 in ChunkOf(f, d.0) && j in f.chunkIdxs && j !in done;
      assert DependsOn(k, TxsAt(f, i), TxsAt(f, j));
      forall e | e in done
        ensures TxsAt(f, e) != TxsAt(f, j)
      {
        ChunksApart(k, f, e, j);
      }
    }
  }

  // ---------------------------------------------------------------- listing whole chunks

  /** parts lists the chunks at done in the order of emission. */
  ghost predicate Listing(k: Cluster, f: Forest, rank: nat -> int, parts: seq<seq<nat>>, done: set<nat>) {
    && done <= f.chunkIdxs && Lists(Chunks(f), parts) && Sets(parts) == ChunksAt(f, done)
    && BestFirst(k, rank, Chunks(f), parts)
  }

  /** Chunk c precedes all other chunks that are ready. */
  ghost predicate BestReady(k: Cluster, f: Forest, rank: nat -> int, ready: set<nat>, c: nat) {
    forall i | i in ready && i != c ::
      Precedes(FeeRate(k, TxsAt(f, c)), MaxRank(rank, TxsAt(f, c)), FeeRate(k, TxsAt(f, i)), MaxRank(rank, TxsAt(f, i)))
  }

  lemma FlattenAppend(parts: seq<seq<nat>>, part: seq<nat>)
    ensures Flatten(parts + [part]) == Flatten(parts) + part
    ensures Sets(parts + [part]) == Sets(parts) + {ToSet(part)}
  {
    var after := parts + [part];
    assert after[..|after| - 1] == parts;
  }

  lemma BestChunkAppended(k: Cluster, f: Forest, rank: nat -> int, parts: seq<seq<nat>>, done: set<nat>,
                          cnt: Counters, ready: set<nat>, c: nat, part: seq<nat>)
    requires Valid(k, f) && Emission(k, f, Flatten(parts), done, cnt, ready) && Listing(k, f, rank, parts, done)
    requires c in ready && BestReady(k, f, rank, ready, c) && ToSet(part) == TxsAt(f, c)
    ensures BestChunkFirst(k, rank, Chunks(f), parts + [part])
  {
    hide Valid, Emission, Precedes, Ready, MaxRank, FeeRate, TxsAt, Lists, ToSet;
    var after, chunks := parts + [part], Chunks(f);
    forall i, y | 0 <= i < |after| && y in chunks && y !in Sets(after[..i]) && Ready(k, chunks, Sets(after[..i]), y)
                  && y != ToSet(after[i])
      ensures Precedes(FeeRate(k, ToSet(after[i])), MaxRank(rank, ToSet(after[i])), FeeRate(k, y), MaxRank(rank, y))
    {
      if i < |parts| {
        assert after[..i] == parts[..i];
      } else {
        assert after[..i] == parts;
        var j :| j in f.chunkIdxs && y == TxsAt(f, j);
        ReadyCounted(k, f, Flatten(parts), done, cnt, ready, j);
      }
    }
    ReadyIdxs(k, f, Flatten(parts), done, cnt, ready);
    ReadyCounted(k, f, Flatten(parts), done, cnt, ready, c);
    forall i | 0 <= i < |after|
      ensures Ready(k, chunks, Sets(after[..i]), ToSet(after[i]))
    {
      assert after[..i] == if i < |parts| then parts[..i] else parts;
    }
  }

  lemma ListingStep(k: Cluster, f: Forest, rank: nat -> int, parts: seq<seq<nat>>, done: set<nat>,
                    cnt: Counters, ready: set<nat>, c: nat, part: seq<nat>)
    requires Valid(k, f) && Emission(k, f, Flatten(parts), done, cnt, ready) && Listing(k, f, rank, parts, done)
    requires c in ready && BestReady(k, f, rank, ready, c) && ToSet(part) == TxsAt(f, c)
    requires BestTxFirst(k, rank, TxsAt(f, c), Flatten(parts), part)
    ensures Listing(k, f, rank, parts + [part], done + {c}) && Flatten(parts + [part]) == Flatten(parts) + part
  {
    hide Valid, BestReady, TxsAt, ToSet, Ready, BestChunkFirst, BestTxFirst, Flatten, Counted, Ordered;
    FlattenAppend(parts, part);
    BestChunkAppended(k, f, rank, parts, done, cnt, ready, c, part);
    var after, chunks := parts + [part], Chunks(f);
    forall i | 0 <= i < |after|
      ensures BestTxFirst(k, rank, ToSet(after[i]), Flatten(after[..i]), after[i])
    {
      assert after[..i] == if i < |parts| then parts[..i] else parts;
    }
    forall i, j | 0 <= i < j < |after|
      ensures ToSet(after[i]) != ToSet(after[j])
    {
      if j == |parts| {
        assert ToSet(parts[i]) in Sets(parts);
        var e :| e in done && TxsAt(f, e) == ToSet(parts[i]);
        ChunksApart(k, f, e, c);
      }
    }
    assert ChunksAt(f, done + {c}) == ChunksAt(f, done) + {TxsAt(f, c)};
  }

  /** As long as chunks remain, one is ready. */
  lemma SomeReadyChunk(k: Cluster, f: Forest, lin: seq<nat>, done: set<nat>, cnt: Counters, ready: set<nat>)
    requires Valid(k, f) && Acyclic(k, Chunks(f)) && Emission(k, f, lin, done, cnt, ready) && done <= f.chunkIdxs
    requires done != f.chunkIdxs
    ensures ready != {}
  {
    hide Valid, Emission, Ready, TxsAt;
    var rest := set i | i in f.chunkIdxs && i !in done :: TxsAt(f, i);
    var i0 :| i0 in f.chunkIdxs && i0 !in done;
    assert TxsAt(f, i0) in rest && rest <= Chunks(f);
    var x :| Source(k, rest, x);
    var i :| i in f.chunkIdxs && i !in done && x == TxsAt(f, i);
    assert Ready(k, Chunks(f), ChunksAt(f, done), x) by {
      SourceReady(k, f, done, rest, x);
    }
    ReadyCounted(k, f, lin, done, cnt, ready, i);
  }

  lemma SourceReady(k: Cluster, f: Forest, done: set<nat>, rest: set<set<nat>>, x: set<nat>)
    requires rest == (set i | i in f.chunkIdxs && i !in done :: TxsAt(f, i)) && Source(k, rest, x)
    ensures Ready(k, Chunks(f), ChunksAt(f, done), x)
  {
    hide TxsAt, DependsOn;
    forall z | z in Chunks(f) && z != x && z !in ChunksAt(f, done)
      ensures !DependsOn(k, x, z)
    {
      var j :| j in f.chunkIdxs && z == TxsAt(f, j);
      assert z in rest;
    }
  }

  /** Everything has been emitted. */
  lemma EmissionEnd(k: Cluster, f: Forest, rank: nat -> int, parts: seq<seq<nat>>, done: set<nat>, cnt: Counters)
    requires Valid(k, f) && Acyclic(k, Chunks(f)) && Emission(k, f, Flatten(parts), done, cnt, {})
    requires Listing(k, f, rank, parts, done)
    ensures Sets(parts) == Chunks(f) && IsLinearization(k, Flatten(parts))
  {
    hide Linked, Indexed, Connected, Topped, Rated, Reached, SetAt, ChunkIdx, TxsAt, Ordered, Counted, Unmet, Flatten;
    hide Lists, BestFirst, Acyclic, ReadyChunks, Sets;
    if done != f.chunkIdxs {
      SomeReadyChunk(k, f, Flatten(parts), done, cnt, {});
    }
    assert ToSet(Flatten(parts)) == k.txs;
    OrderedLinearization(k, Flatten(parts));
  }

  lemma BestIsHighest(k: Cluster, rank: nat -> int, chunks: set<set<nat>>, parts: seq<seq<nat>>)
    requires BestChunkFirst(k, rank, chunks, parts) && Lists(chunks, parts) && {} !in chunks
    ensures HighestReadyFirst(k, chunks, parts)
  {
    hide Precedes, Ready, MaxRank, Sets, ToSet;
    forall i, y | 0 <= i < |parts| && y in chunks && y !in Sets(parts[..i]) && Ready(k, chunks, Sets(parts[..i]), y)
      ensures RateOf(k, y) <= RateOf(k, ToSet(parts[i]))
    {
      var x := ToSet(parts[i]);
      assert x in chunks;
      if y != x {
        PrecedesOrder(FeeRate(k, x), MaxRank(rank, x), FeeRate(k, y), MaxRank(rank, y), FeeRate(k, y),
                      MaxRank(rank, y));
      }
    }
  }

  // ---------------------------------------------------------------- counting the dependencies

  /** The dependencies of children outside todo. */
  ghost function DepsOutside(k: Cluster, todo: set<nat>): set<Dep> {
    set d | d in k.deps && d.1 !in todo
  }

  ghost function Pairs(s: set<nat>, t: nat): set<Dep> {
    set p | p in s :: (p, t)
  }

  lemma {:induction false} PairCard(s: set<nat>, t: nat)
    ensures |Pairs(s, t)| == |s|
    decreases s
  {
    if s == {} {
      assert Pairs(s, t) == {};
    } else {
      var p :| p in s;
      PairCard(s - {p}, t);
      assert Pairs(s, t) == Pairs(s - {p}, t) + {(p, t)};
    }
  }

  /** Counting the parents of t. */
  lemma TxDepsCounted(k: Cluster, todo: set<nat>, t: nat, parents: set<nat>, u: nat)
    requires t in todo && parents == ParentsOf(k, {t})
    ensures |UnmetOfTx(DepsOutside(k, todo - {t}), u)| ==
            if u == t then |parents| else |UnmetOfTx(DepsOutside(k, todo), u)|
  {
    if u == t {
      assert UnmetOfTx(DepsOutside(k, todo - {t}), t) == Pairs(parents, t);
      PairCard(parents, t);
    } else {
      assert UnmetOfTx(DepsOutside(k, todo - {t}), u) == UnmetOfTx(DepsOutside(k, todo), u);
    }
  }

  lemma ChunkDepsCounted(k: Cluster, todo: set<nat>, t: nat, parents: set<nat>, x: set<nat>)
    requires t in todo && parents == ParentsOf(k, {t})
    ensures |UnmetOfChunk(DepsOutside(k, todo - {t}), x)| ==
            |UnmetOfChunk(DepsOutside(k, todo), x)| + if t in x then |parents - x| else 0
  {
    if t in x {
      var added := Pairs(parents - x, t);
      assert UnmetOfChunk(DepsOutside(k, todo - {t}), x) == UnmetOfChunk(DepsOutside(k, todo), x) + added;
      assert UnmetOfChunk(DepsOutside(k, todo), x) !! added;
      PairCard(parents - x, t);
    } else {
      assert UnmetOfChunk(DepsOutside(k, todo - {t}), x) == UnmetOfChunk(DepsOutside(k, todo), x);
    }
  }

  lemma CountedStep(k: Cluster, f: Forest, todo: set<nat>, cnt: Counters, t: nat, ci: nat, parents: set<nat>)
    requires Valid(k, f) && Counted(k, f, DepsOutside(k, todo), cnt) && t in todo && t in k.txs
    requires ci == ChunkIdx(f.txData, t) && ci in cnt.chunkDeps && parents == ParentsOf(k, {t})
    ensures Counted(k, f, DepsOutside(k, todo - {t}),
                    Counters(cnt.txDeps[t := |parents|],
                             cnt.chunkDeps[ci := cnt.chunkDeps[ci] + |parents - TxsAt(f, ci)|]))
  {
    hide Valid, UnmetOfTx, UnmetOfChunk, DepsOutside, ChunkIdx, TxsAt, ParentsOf;
    forall u | u in k.txs
      ensures |UnmetOfTx(DepsOutside(k, todo - {t}), u)| ==
              if u == t then |parents| else |UnmetOfTx(DepsOutside(k, todo), u)|
    {
      TxDepsCounted(k, todo, t, parents, u);
    }
    forall i | i in f.chunkIdxs
      ensures |UnmetOfChunk(DepsOutside(k, todo - {t}), TxsAt(f, i))| ==
              |UnmetOfChunk(DepsOutside(k, todo), TxsAt(f, i))| + if i == ci then |parents - TxsAt(f, i)| else 0
    {
      ChunkMembers(k, f, t, i);
      ChunkDepsCounted(k, todo, t, parents, TxsAt(f, i));
    }
  }

  lemma CountedZero(k: Cluster, f: Forest, cnt: Counters)
    requires k.Valid() && cnt.txDeps == (map t | t in k.txs :: 0) && cnt.chunkDeps == (map i | i in f.chunkIdxs :: 0)
    ensures Counted(k, f, DepsOutside(k, k.txs), cnt) && DepsOutside(k, {}) == k.deps
  {
    hide TxsAt;
    assert DepsOutside(k, k.txs) == {};
    assert forall t :: UnmetOfTx({}, t) == {};
    assert forall x :: UnmetOfChunk({}, x) == {};
  }

  // ---------------------------------------------------------------- emitting a chunk

  lemma ChunkStored(k: Cluster, f: Forest, i: nat)
    requires Valid(k, f) && i in f.chunkIdxs
    ensures i < |f.setInfo| && f.setInfo[i].transactions == TxsAt(f, i) && TxsAt(f, i) != {} && TxsAt(f, i) <= k.txs
    ensures f.setInfo[i].feerate == FeeRate(k, TxsAt(f, i)) && f.setInfo[i].feerate.size > 0
  {
    ChunkAccess(k, f, i);
  }

  /** The sort keys of all transactions. */
  ghost predicate TxKeys(k: Cluster, rank: nat -> int, fees: map<nat, FeeFrac>, ranks: map<nat, int>) {
    && fees.Keys == ranks.Keys == k.txs && Injective(rank, k.txs)
    && (forall t | t in k.txs :: fees[t] == k.FeeOf(t) && ranks[t] == rank(t))
  }

  lemma ReadyIdxs(k: Cluster, f: Forest, lin: seq<nat>, done: set<nat>, cnt: Counters, ready: set<nat>)
    requires Emission(k, f, lin, done, cnt, ready)
    ensures ready <= f.chunkIdxs && ready !! done
  {
  }

  lemma BestTxNone(k: Cluster, rank: nat -> int, x: set<nat>, lin: seq<nat>)
    ensures BestTxFirst(k, rank, x, lin, [])
  {
  }

  lemma InChunkKeys(k: Cluster, f: Forest, rank: nat -> int, lin: seq<nat>, done: set<nat>, c: nat, part: seq<nat>,
                    cnt: Counters, readyTx: set<nat>, ready: set<nat>, fees: map<nat, FeeFrac>, ranks: map<nat, int>)
    requires InChunk(k, f, lin, done, c, part, cnt, readyTx, ready) && TxKeys(k, rank, fees, ranks)
    requires TxsAt(f, c) <= k.txs
    ensures readyTx <= TxsAt(f, c) && readyTx <= fees.Keys && readyTx <= ranks.Keys
    ensures forall u | u in readyTx :: fees[u].size > 0
    ensures forall u, v | u in readyTx && v in readyTx && u != v :: ranks[u] != ranks[v]
  {
    hide TxsAt, Ordered, Counted, Unmet, ChunkIdx;
  }

  lemma PartBest(k: Cluster, f: Forest, rank: nat -> int, lin: seq<nat>, done: set<nat>, c: nat, part: seq<nat>,
                 cnt: Counters, readyTx: set<nat>, ready: set<nat>, fees: map<nat, FeeFrac>, ranks: map<nat, int>,
                     t: nat)
    requires Valid(k, f) && InChunk(k, f, lin, done, c, part, cnt, readyTx, ready) && TxKeys(k, rank, fees, ranks)
    requires TxsAt(f, c) <= k.txs && t in readyTx && BestTxFirst(k, rank, TxsAt(f, c), lin, part)
    requires forall u | u in readyTx && u != t && t in fees && u in fees && t in ranks && u in ranks ::
               Precedes(fees[t], ranks[t], fees[u], ranks[u])
    ensures BestTxFirst(k, rank, TxsAt(f, c), lin, part + [t])
  {
    hide Valid, SetAt, TxsAt, Ordered, Counted, Unmet, ChunkIdx, Precedes, BestTxFirst, ReadyTxs, ReadyChunks, InChunk;
    InChunkKeys(k, f, rank, lin, done, c, part, cnt, readyTx, ready, fees, ranks);
    InChunkFresh(k, f, lin, done, c, part, cnt, readyTx, ready);
    BestTxAppended(k, f, rank, lin, c, part, cnt, t);
  }

  lemma InChunkFresh(k: Cluster, f: Forest, lin: seq<nat>, done: set<nat>, c: nat, part: seq<nat>,
                     cnt: Counters, readyTx: set<nat>, ready: set<nat>)
    requires Valid(k, f) && InChunk(k, f, lin, done, c, part, cnt, readyTx, ready)
    ensures forall u | u in TxsAt(f, c) :: u !in lin
    ensures Counted(k, f, Unmet(k, lin + part), cnt) && readyTx == ReadyTxs(cnt, TxsAt(f, c), lin + part)
  {
    hide Linked, Indexed, Connected, Topped, Rated, Reached, SetAt, TxsAt, Ordered, Counted, Unmet, ChunkIdx;
    forall u | u in TxsAt(f, c)
      ensures u !in lin
    {
      assert u in k.txs && ChunkIdx(f.txData, u) == c;
    }
  }

  lemma PartGrows(k: Cluster, f: Forest, lin: seq<nat>, done: set<nat>, c: nat, part: seq<nat>,
                  cnt: Counters, readyTx: set<nat>, ready: set<nat>, t: nat)
    requires InChunk(k, f, lin, done, c, part, cnt, readyTx, ready) && t in readyTx
    ensures |ToSet(part)| < |ToSet(part + [t])| <= |TxsAt(f, c)|
  {
    hide TxsAt, Ordered, Counted, Unmet, ChunkIdx;
    assert ToSet(part + [t]) == ToSet(part) + {t};
    SubsetCard(ToSet(part + [t]), TxsAt(f, c));
  }

  lemma SubsetCard(a: set<nat>, b: set<nat>)
    requires a <= b
    ensures |a| <= |b|
  {
    assert b == a + (b - a);
  }

  lemma InChunkUnmet(k: Cluster, f: Forest, lin: seq<nat>, done: set<nat>, c: nat, part: seq<nat>,
                     cnt: Counters, readyTx: set<nat>, ready: set<nat>, t: nat)
    requires InChunk(k, f, lin, done, c, part, cnt, readyTx, ready) && t in readyTx
    ensures Counted(k, f, Unmet(k, lin + part), cnt) && Unmet(k, lin + part) <= k.deps
    ensures forall d | d in k.deps && d.0 == t :: d in Unmet(k, lin + part)
    ensures ready == ReadyChunks(cnt, f.chunkIdxs, done + {c})
  {
    hide TxsAt, Ordered, Counted, ChunkIdx;
  }

  lemma InChunkNext(k: Cluster, f: Forest, lin: seq<nat>, done: set<nat>, c: nat, part: seq<nat>, t: nat,
                    cnt: Counters, readyTx: set<nat>, ready: set<nat>)
    requires exists cnt0, readyTx0, ready0 :: InChunk(k, f, lin, done, c, part, cnt0, readyTx0, ready0)
    requires Ordered(k, lin + (part + [t])) && t in TxsAt(f, c) && Counted(k, f, Unmet(k, lin + (part + [t])), cnt)
    requires readyTx == ReadyTxs(cnt, TxsAt(f, c), lin + (part + [t]))
             && ready == ReadyChunks(cnt, f.chunkIdxs, done + {c})
    ensures InChunk(k, f, lin, done, c, part + [t], cnt, readyTx, ready)
  {
    hide TxsAt, Ordered, Counted, ChunkIdx, Unmet, ReadyTxs, ReadyChunks;
    var cnt0, readyTx0, ready0 :| InChunk(k, f, lin, done, c, part, cnt0, readyTx0, ready0);
  }

  // ---------------------------------------------------------------- emitting all chunks

  lemma GraphKeys(g: DepGraph, rank: nat -> int, fees: map<nat, FeeFrac>, ranks: map<nat, int>)
    requires Injective(rank, ClusterOf(g).txs) && fees == (map t | t in g.entries :: g.entries[t].feerate)
    requires ranks == map t | t in g.entries :: rank(t)
    ensures TxKeys(ClusterOf(g), rank, fees, ranks)
  {
  }

  lemma ListingStart(k: Cluster, f: Forest, rank: nat -> int)
    ensures Listing(k, f, rank, [], {})
  {
    hide TxsAt;
    assert Sets([]) == {} == ChunksAt(f, {});
  }

  lemma BestReadyKeys(k: Cluster, f: Forest, rank: nat -> int, ready: set<nat>, fees: map<nat, FeeFrac>,
                      ranks: map<nat, int>, c: nat)
    requires ready <= f.chunkIdxs && fees.Keys == ranks.Keys == f.chunkIdxs && c in ready
    requires forall i | i in f.chunkIdxs :: fees[i] == FeeRate(k, TxsAt(f, i)) && ranks[i] == MaxRank(rank, TxsAt(f, i))
    requires forall i | i in ready && i != c :: Precedes(fees[c], ranks[c], fees[i], ranks[i])
    ensures BestReady(k, f, rank, ready, c)
  {
    hide TxsAt, FeeRate, MaxRank, Precedes;
  }

  lemma ListingEnd(k: Cluster, f: Forest, rank: nat -> int, parts: seq<seq<nat>>, done: set<nat>)
    requires Valid(k, f) && Acyclic(k, Chunks(f)) && Listing(k, f, rank, parts, done) && Sets(parts) == Chunks(f)
    ensures Lists(Chunks(f), parts) && BestFirst(k, rank, Chunks(f), parts)
    ensures WeaklyTopological(k, Chunks(f)) ==> ReachesDiagram(k, Flatten(parts), Chunks(f))
  {
    hide Valid, Acyclic, Lists, BestChunkFirst, BestTxFirst, TxsAt, Sets, WeaklyTopological, Flatten, ReachesDiagram;
    forall i | i in f.chunkIdxs
      ensures TxsAt(f, i) != {}
    {
      ChunkAccess(k, f, i);
    }
    ChunksPartition(k, f);
    BestIsHighest(k, rank, Chunks(f), parts);
    if WeaklyTopological(k, Chunks(f)) {
      ListingReachesDiagram(k, Chunks(f), parts);
    }
  }

  // ---------------------------------------------------------------- the order is determined

  lemma BestTxAt(k: Cluster, rank: nat -> int, x: set<nat>, lin: seq<nat>, part: seq<nat>, j: nat, u: nat)
    requires BestTxFirst(k, rank, x, lin, part) && j < |part|
    ensures part[j] in x && part[j] !in part[..j] && TxReady(k, lin + part[..j], part[j])
    ensures u in x && u !in part[..j] && TxReady(k, lin + part[..j], u) && u != part[j]
            ==> Precedes(k.FeeOf(part[j]), rank(part[j]), k.FeeOf(u), rank(u))
  {
    hide Precedes, TxReady;
  }

  /** The order inside a chunk is determined by what comes before. */
  lemma {:induction false} TxOrderUnique(k: Cluster, rank: nat -> int, x: set<nat>, lin: seq<nat>, a: seq<nat>,
                                         b: seq<nat>, n: nat)
    requires BestTxFirst(k, rank, x, lin, a) && BestTxFirst(k, rank, x, lin, b) && n <= |a| && n <= |b|
    ensures a[..n] == b[..n]
  {
    hide Precedes, TxReady, BestTxFirst;
    if n > 0 {
      TxOrderUnique(k, rank, x, lin, a, b, n - 1);
      var t, u := a[n - 1], b[n - 1];
      BestTxAt(k, rank, x, lin, a, n - 1, u);
      BestTxAt(k, rank, x, lin, b, n - 1, t);
      PrecedesOrder(k.FeeOf(t), rank(t), k.FeeOf(u), rank(u), k.FeeOf(u), rank(u));
      assert t == u;
      assert a[..n] == a[..n - 1] + [t] && b[..n] == b[..n - 1] + [u];
    }
  }

  lemma {:induction false} DistinctCard(s: seq<nat>)
    requires forall i | 0 <= i < |s| :: s[i] !in s[..i]
    ensures |ToSet(s)| == |s|
  {
    if s != [] {
      var init, last := s[..|s| - 1], s[|s| - 1];
      forall i | 0 <= i < |init|
        ensures init[i] !in init[..i]
      {
        assert init[..i] == s[..i];
      }
      DistinctCard(init);
      assert s == init + [last];
      assert ToSet(s) == ToSet(init) + {last};
    }
  }

  lemma ChunkOrderUnique(k: Cluster, rank: nat -> int, lin: seq<nat>, a: seq<nat>, b: seq<nat>)
    requires ToSet(a) == ToSet(b) && BestTxFirst(k, rank, ToSet(a), lin, a) && BestTxFirst(k, rank, ToSet(b), lin, b)
    ensures a == b
  {
    hide Precedes, TxReady;
    DistinctCard(a);
    DistinctCard(b);
    TxOrderUnique(k, rank, ToSet(a), lin, a, b, |a|);
    assert a == a[..|a|] == b[..|b|] == b;
  }

  lemma {:induction false} ListedDistinct(parts: seq<seq<nat>>)
    requires forall i, j | 0 <= i < j < |parts| :: ToSet(parts[i]) != ToSet(parts[j])
    ensures |Sets(parts)| == |parts|
  {
    if parts == [] {
      assert Sets(parts) == {};
    } else {
      var init, last := parts[..|parts| - 1], parts[|parts| - 1];
      ListedDistinct(init);
      assert parts == init + [last];
      FlattenAppend(init, last);
    }
  }

  lemma NextChunkSame(k: Cluster, rank: nat -> int, chunks: set<set<nat>>, a: seq<seq<nat>>, b: seq<seq<nat>>, n: nat)
    requires {} !in chunks && Lists(chunks, a) && Lists(chunks, b) && n < |a| && n < |b| && a[..n] == b[..n]
    requires BestChunkFirst(k, rank, chunks, a) && BestChunkFirst(k, rank, chunks, b)
    ensures ToSet(a[n]) == ToSet(b[n])
  {
    hide Precedes, Ready, MaxRank, ToSet, FeeRate;
    var x, y := ToSet(a[n]), ToSet(b[n]);
    PrecedesOrder(FeeRate(k, x), MaxRank(rank, x), FeeRate(k, y), MaxRank(rank, y), FeeRate(k, y), MaxRank(rank, y));
    assert x !in Sets(a[..n]) && y !in Sets(b[..n]);
  }

  lemma NextPartSame(k: Cluster, rank: nat -> int, chunks: set<set<nat>>, a: seq<seq<nat>>, b: seq<seq<nat>>, n: nat)
    requires {} !in chunks && Lists(chunks, a) && Lists(chunks, b) && n < |a| && n < |b| && a[..n] == b[..n]
    requires BestFirst(k, rank, chunks, a) && BestFirst(k, rank, chunks, b)
    ensures a[n] == b[n]
  {
    hide BestChunkFirst, BestTxFirst, Flatten, ToSet, Lists;
    NextChunkSame(k, rank, chunks, a, b, n);
    ChunkOrderUnique(k, rank, Flatten(a[..n]), a[n], b[n]);
  }

  lemma {:induction false} ListingUniqueTo(k: Cluster, rank: nat -> int, chunks: set<set<nat>>, a: seq<seq<nat>>,
                                           b: seq<seq<nat>>, n: nat)
    requires {} !in chunks && Lists(chunks, a) && Lists(chunks, b) && n <= |a| && n <= |b|
    requires BestFirst(k, rank, chunks, a) && BestFirst(k, rank, chunks, b)
    ensures a[..n] == b[..n]
  {
    hide BestFirst, Lists;
    if n > 0 {
      ListingUniqueTo(k, rank, chunks, a, b, n - 1);
      NextPartSame(k, rank, chunks, a, b, n - 1);
      assert a[..n] == a[..n - 1] + [a[n - 1]] && b[..n] == b[..n - 1] + [b[n - 1]];
    }
  }

  /** The chunks and the ranks alone determine the linearization: the spanning trees and the
      random choices that led to the chunks do not show in it. */
  lemma ListingUnique(k: Cluster, rank: nat -> int, chunks: set<set<nat>>, a: seq<seq<nat>>, b: seq<seq<nat>>)
    requires {} !in chunks && Lists(chunks, a) && Lists(chunks, b) && Sets(a) == Sets(b) == chunks
    requires BestFirst(k, rank, chunks, a) && BestFirst(k, rank, chunks, b)
    ensures a == b
  {
    hide BestFirst, Sets, ToSet;
    ListedDistinct(a);
    ListedDistinct(b);
    ListingUniqueTo(k, rank, chunks, a, b, |a|);
    assert a == a[..|a|] == b[..|b|] == b;
  }

  // ---------------------------------------------------------------- the diagram of the chunks

  /** The chunks in todo have no higher feerate than any of ret. */
  ghost predicate RatesAbove(k: Cluster, f: Forest, ret: seq<FeeFrac>, todo: set<nat>) {
    forall i, j | 0 <= i < |ret| && j in todo :: Rate(ret[i]) >= RateOf(k, TxsAt(f, j))
  }

  lemma DiagramStart(k: Cluster, f: Forest)
    ensures Diagrammed(k, ChunksAt(f, f.chunkIdxs - f.chunkIdxs), [], [])
  {
    assert f.chunkIdxs - f.chunkIdxs == {};
    assert ChunksAt(f, {}) == {} == Sets([]);
    assert PartRates(k, []) == [];
  }

  lemma AllChunksAt(f: Forest)
    ensures ChunksAt(f, f.chunkIdxs) == Chunks(f)
  {
  }

  lemma BestRates(k: Cluster, f: Forest, todo: set<nat>, fees: map<nat, FeeFrac>, ranks: map<nat, int>, best: nat)
    requires todo <= fees.Keys && todo <= ranks.Keys && best in todo
    requires forall i | i in todo :: fees[i] == FeeRate(k, TxsAt(f, i)) && fees[i].size > 0
    requires forall i | i in todo && i != best :: Precedes(fees[best], ranks[best], fees[i], ranks[i])
    ensures forall i | i in todo :: RateOf(k, TxsAt(f, best)) >= RateOf(k, TxsAt(f, i))
  {
    hide TxsAt, FeeRate, Precedes, Rate;
    forall i | i in todo
      ensures RateOf(k, TxsAt(f, best)) >= RateOf(k, TxsAt(f, i))
    {
      if i != best {
        PrecedesOrder(fees[best], ranks[best], fees[i], ranks[i], fees[i], ranks[i]);
      }
    }
  }

  lemma ListsMore(k: Cluster, f: Forest, done: set<nat>, parts: seq<seq<nat>>, best: nat)
    requires Valid(k, f) && done <= f.chunkIdxs && best in f.chunkIdxs && best !in done
    requires Lists(ChunksAt(f, done), parts)
    ensures Lists(ChunksAt(f, done + {best}), parts + [SeqOf(TxsAt(f, best))])
  {
    hide Valid, TxsAt, SeqOf, ToSet;
    var after := parts + [SeqOf(TxsAt(f, best))];
    forall i, j | 0 <= i < j < |after|
      ensures ToSet(after[i]) != ToSet(after[j])
    {
      if j == |parts| {
        assert ToSet(parts[i]) in ChunksAt(f, done);
        var e :| e in done && TxsAt(f, e) == ToSet(parts[i]);
        ChunksApart(k, f, e, best);
      }
    }
    forall i | 0 <= i < |after|
      ensures ToSet(after[i]) in ChunksAt(f, done + {best})
    {
      if i < |parts| {
        assert ToSet(parts[i]) in ChunksAt(f, done);
        var e :| e in done && TxsAt(f, e) == ToSet(parts[i]);
      }
    }
  }

  lemma DiagramStep(k: Cluster, f: Forest, todo: set<nat>, parts: seq<seq<nat>>, ret: seq<FeeFrac>, best: nat)
    requires Valid(k, f) && todo <= f.chunkIdxs && best in todo
    requires Diagrammed(k, ChunksAt(f, f.chunkIdxs - todo), parts, ret) && RatesAbove(k, f, ret, todo)
    requires forall i | i in todo :: RateOf(k, TxsAt(f, best)) >= RateOf(k, TxsAt(f, i))
    ensures var d := ret + [FeeRate(k, TxsAt(f, best))];
            && Diagrammed(k, ChunksAt(f, f.chunkIdxs - (todo - {best})), parts + [SeqOf(TxsAt(f, best))], d)
            && RatesAbove(k, f, d, todo - {best})
  {
    hide Valid, TxsAt, FeeRate, Rate, SeqOf;
    var x, done := TxsAt(f, best), f.chunkIdxs - todo;
    var after := parts + [SeqOf(x)];
    assert f.chunkIdxs - (todo - {best}) == done + {best};
    assert ChunksAt(f, done + {best}) == ChunksAt(f, done) + {x};
    FlattenAppend(parts, SeqOf(x));
    assert Lists(ChunksAt(f, done + {best}), after) by { ListsMore(k, f, done, parts, best); }
    hide Lists, Sets, ChunksAt, ToSet;
    var d := ret + [FeeRate(k, x)];
    assert PartRates(k, after) == d;
    forall i, j | 0 <= i < j < |d|
      ensures Rate(d[i]) >= Rate(d[j])
    {
      assert j == |ret| ==> Rate(ret[i]) >= RateOf(k, x);
    }
  }
}
