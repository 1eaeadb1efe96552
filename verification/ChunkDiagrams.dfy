/** The diagram of a collection of chunks: the feerates in non-increasing order. Its best corner at
    a reference feerate is the surplus of the chunks, so diagrams are compared by surplus. */
module ChunkDiagrams {
  import opened FeeFracs
  import opened Clusters
  import opened Loading
  import opened Output
  import opened Diagrams
  import opened Chunkings

  /** The feerates of the listed chunks. */
  ghost function PartRates(k: Cluster, parts: seq<seq<nat>>): seq<FeeFrac> {
    seq(|parts|, (i: nat) => if i < |parts| then FeeRate(k, ToSet(parts[i])) else EMPTY)
  }

  /** parts lists the chunks by non-increasing feerate, and d are the feerates. */
  ghost predicate Diagrammed(k: Cluster, chunks: set<set<nat>>, parts: seq<seq<nat>>, d: seq<FeeFrac>) {
    Lists(chunks, parts) && Sets(parts) == chunks && d == PartRates(k, parts) && NonIncreasing(d)
  }

  /** d is the diagram of the chunks. */
  ghost predicate IsDiagram(k: Cluster, chunks: set<set<nat>>, d: seq<FeeFrac>) {
    exists parts :: Diagrammed(k, chunks, parts, d)
  }

  lemma FlattenStep(parts: seq<seq<nat>>, n: nat)
    requires n < |parts|
    ensures Flatten(parts[..n + 1]) == Flatten(parts[..n]) + parts[n]
  {
    assert parts[..n + 1] == parts[..n] + [parts[n]];
    FlattenOne(parts[..n], parts[n]);
  }

  lemma LaterApart(chunks: set<set<nat>>, parts: seq<seq<nat>>, n: nat)
    requires Separate(chunks) && Lists(chunks, parts) && n < |parts|
    ensures ToSet(Flatten(parts[..n])) !! ToSet(parts[n]) && ToSet(parts[n]) != {}
  {
    hide ToSet, Flatten;
    FlattenCover(parts[..n]);
    ListsPrefix(chunks, parts, n);
    SetsPrefixSubset(chunks, parts, n);
    forall x | x in Sets(parts[..n])
      ensures x !! ToSet(parts[n])
    {
    }
  }

  /** The corners of the diagram are the totals of the leading chunks. */
  lemma {:induction false} PartCorner(k: Cluster, chunks: set<set<nat>>, parts: seq<seq<nat>>, n: nat)
    requires Separate(chunks) && Lists(chunks, parts) && n <= |parts|
    ensures Acc(PartRates(k, parts), n) == FeeRate(k, ToSet(Flatten(parts[..n])))
  {
    hide Acc, FeeRate, ToSet, Flatten, Lists, Separate;
    var d := PartRates(k, parts);
    if n == 0 {
      AccNone(d);
      FlattenNone();
      assert parts[..0] == [];
      var none: seq<nat> := [];
      NoFees(k, none);
      assert none[..0] == none;
    } else {
      PartCorner(k, chunks, parts, n - 1);
      AccStep(d, n - 1);
      LaterApart(chunks, parts, n - 1);
      FlattenStep(parts, n - 1);
      ToSetConcat(Flatten(parts[..n - 1]), parts[n - 1]);
      FeeRateUnion(k, ToSet(Flatten(parts[..n - 1])), ToSet(parts[n - 1]));
    }
  }

  lemma EarlierListed(parts: seq<seq<nat>>, i: nat, j: nat)
    requires i < |parts| && j < |parts|
    ensures j < i ==> ToSet(parts[j]) in Sets(parts[..i])
  {
    if j < i {
      SetsMember(parts, i, j);
    }
  }

  lemma RatesDescending(k: Cluster, chunks: set<set<nat>>, parts: seq<seq<nat>>)
    requires Lists(chunks, parts) && Sets(parts) == chunks && NonIncreasing(PartRates(k, parts))
    ensures Descending(k, chunks, parts)
  {
    hide ToSet, FeeRate, Rate;
    forall i, y | 0 <= i < |parts| && y in chunks && y !in Sets(parts[..i])
      ensures RateOf(k, y) <= RateOf(k, ToSet(parts[i]))
    {
      var j :| 0 <= j < |parts| && y == ToSet(parts[j]);
      EarlierListed(parts, i, j);
      assert PartRates(k, parts)[i] == FeeRate(k, ToSet(parts[i]))
             && PartRates(k, parts)[j] == FeeRate(k, ToSet(parts[j]));
    }
  }

  /** Leading chunks weigh at most the surplus. */
  lemma LeadingBelow(k: Cluster, l: real, chunks: set<set<nat>>, parts: seq<seq<nat>>, n: nat)
    requires Separate(chunks) && Lists(chunks, parts) && n <= |parts|
    ensures WeightOf(k, l, ToSet(Flatten(parts[..n]))) <= Surplus(k, l, chunks)
  {
    var sub := Sets(parts[..n]);
    SetsPrefixSubset(chunks, parts, n);
    hide WeightOf, Surplus, ToSet, Flatten, Sets;
    FlattenCover(parts[..n]);
    SurplusBoundsWeight(k, l, sub);
    SurplusNonNegative(k, l, chunks - sub);
    SurplusUnion(k, l, sub, chunks - sub);
    assert sub + (chunks - sub) == chunks;
  }

  /** The best corner of the diagram is the surplus. */
  lemma DiagramSurplus(k: Cluster, chunks: set<set<nat>>, d: seq<FeeFrac>, l: real)
    requires Separate(chunks) && IsDiagram(k, chunks, d)
    ensures Attains(d, l, Surplus(k, l, chunks))
    ensures forall n: nat | n <= |d| :: Weight(l, Acc(d, n)) <= Surplus(k, l, chunks)
    ensures Sized(d) && NonIncreasing(d) && Total(d) == FeeRate(k, Cover(chunks))
  {
    hide Acc, Weight, FeeRate, Surplus, CountAbove, Lists, Flatten, ToSet, NonIncreasing, Sets, Rate, Descending;
    var parts :| Diagrammed(k, chunks, parts, d);
    RatesDescending(k, chunks, parts);
    SurplusReached(k, l, chunks, parts);
    PartCorner(k, chunks, parts, CountAbove(k, l, parts));
    forall n: nat | n <= |d|
      ensures Weight(l, Acc(d, n)) <= Surplus(k, l, chunks)
    {
      PartCorner(k, chunks, parts, n);
      LeadingBelow(k, l, chunks, parts, n);
    }
    forall i | 0 <= i < |d|
      ensures d[i].size > 0
    {
      LaterApart(chunks, parts, i);
    }
    PartCorner(k, chunks, parts, |parts|);
    assert parts[..|parts|] == parts;
    FlattenCover(parts);
  }

  /** Between diagrams of the same transactions, a surplus that is nowhere smaller is a diagram
      that is nowhere below. */
  lemma GoodIsDominates(k: Cluster, a: set<set<nat>>, da: seq<FeeFrac>, b: set<set<nat>>, db: seq<FeeFrac>)
    requires Separate(a) && Separate(b) && Cover(a) == Cover(b) && IsDiagram(k, a, da) && IsDiagram(k, b, db)
    ensures AtLeastAsGood(k, a, b) <==> Dominates(da, db)
  {
    hide IsDiagram, Surplus, Separate, Cover, Acc, Weight, Dominates, Sized, NonIncreasing;
    forall l: real
      ensures Attains(da, l, Surplus(k, l, a)) && Attains(db, l, Surplus(k, l, b)) && Sized(da) && Sized(db)
              && NonIncreasing(da)
      ensures Total(da) == Total(db)
      ensures forall n: nat | n <= |db| :: Weight(l, Acc(db, n)) <= Surplus(k, l, b)
      ensures forall n: nat | n <= |da| :: Weight(l, Acc(da, n)) <= Surplus(k, l, a)
    {
      DiagramSurplus(k, a, da, l);
      DiagramSurplus(k, b, db, l);
    }
    assert Attains(da, 0.0, Surplus(k, 0.0, a));
    DominatesIffNoWorse(da, db);
    if AtLeastAsGood(k, a, b) {
      forall l: real, n: nat | n <= |db|
        ensures Attains(da, l, Weight(l, Acc(db, n)))
      {
        var m: nat :| m <= |da| && Weight(l, Acc(da, m)) >= Surplus(k, l, a);
      }
    }
    if NoWorse(da, db) {
      forall l: real
        ensures Surplus(k, l, a) >= Surplus(k, l, b)
      {
        var n: nat :| n <= |db| && Weight(l, Acc(db, n)) >= Surplus(k, l, b);
        assert Attains(da, l, Weight(l, Acc(db, n)));
      }
    }
  }

  /** Every prefix of lin lies under the diagram of the chunks. */
  ghost predicate Under(k: Cluster, lin: seq<nat>, chunks: set<set<nat>>) {
    forall l: real, n: nat | n <= |lin| :: WeightOf(k, l, ToSet(lin[..n])) <= Surplus(k, l, chunks)
  }

  /** A linearization that reaches the diagram of the chunks is as good as the diagram, and the
      diagram is as good as a linearization under it. */
  lemma LinearizationDiagram(k: Cluster, lin: seq<nat>, chunks: set<set<nat>>, d: seq<FeeFrac>)
    requires IsLinearization(k, lin) && Separate(chunks) && Cover(chunks) == k.txs && IsDiagram(k, chunks, d)
    ensures ReachesDiagram(k, lin, chunks) ==> Dominates(Chunking(FeesOf(k, lin)), d)
    ensures Under(k, lin, chunks) ==> Dominates(d, Chunking(FeesOf(k, lin)))
  {
    hide IsDiagram, Surplus, Separate, Cover, Acc, Weight, Dominates, Sized, NonIncreasing, FeesOf, Chunking, FeeRate,
        Under, ReachesDiagram,
         NoWorse, Attains;
    var fs := FeesOf(k, lin);
    FeesSized(k, lin);
    FeesAcc(k, lin, |lin|);
    assert lin[..|lin|] == lin;
    DiagramSurplus(k, chunks, d, 0.0);
    ChunkingExact(fs);
    DominatesIffNoWorse(Chunking(fs), d);
    DominatesIffNoWorse(d, Chunking(fs));
    if ReachesDiagram(k, lin, chunks) {
      ReachesNoWorse(k, lin, chunks, d);
      NoWorseTrans(Chunking(fs), fs, d);
    }
    if Under(k, lin, chunks) {
      UnderNoWorse(k, lin, chunks, d);
      NoWorseTrans(d, fs, Chunking(fs));
    }
  }

  lemma UnderNoWorse(k: Cluster, lin: seq<nat>, chunks: set<set<nat>>, d: seq<FeeFrac>)
    requires IsLinearization(k, lin) && Separate(chunks) && IsDiagram(k, chunks, d) && Under(k, lin, chunks)
    ensures NoWorse(d, FeesOf(k, lin))
  {
    hide IsDiagram, Surplus, Separate, Acc, Weight, FeesOf, ToSet, FeeRate;
    var fs := FeesOf(k, lin);
    FeesSized(k, lin);
    forall l: real, n: nat | n <= |fs|
      ensures Attains(d, l, Weight(l, Acc(fs, n)))
    {
      FeesAcc(k, lin, n);
      DiagramSurplus(k, chunks, d, l);
      assert WeightOf(k, l, ToSet(lin[..n])) <= Surplus(k, l, chunks);
      var m: nat :| m <= |d| && Weight(l, Acc(d, m)) >= Surplus(k, l, chunks);
    }
  }

  lemma ReachesNoWorse(k: Cluster, lin: seq<nat>, chunks: set<set<nat>>, d: seq<FeeFrac>)
    requires IsLinearization(k, lin) && Separate(chunks) && IsDiagram(k, chunks, d) && ReachesDiagram(k, lin, chunks)
    ensures NoWorse(FeesOf(k, lin), d)
  {
    hide IsDiagram, Surplus, Separate, Acc, Weight, FeesOf, ToSet, FeeRate;
    var fs := FeesOf(k, lin);
    FeesSized(k, lin);
    forall l: real, n: nat | n <= |d|
      ensures Attains(fs, l, Weight(l, Acc(d, n)))
    {
      DiagramSurplus(k, chunks, d, l);
      assert ReachesAt(k, lin, chunks, l);
      var m: nat :| m <= |lin| && WeightOf(k, l, ToSet(lin[..m])) >= Surplus(k, l, chunks);
      FeesAcc(k, lin, m);
    }
  }

  // ---------------------------------------------------------------- listing sets

  ghost function SeqOf(x: set<nat>): (s: seq<nat>)
    ensures ToSet(s) == x
  {
    if x == {} then [] else
      var t :| t in x;
      var s := SeqOf(x - {t});
      assert ToSet(s + [t]) == ToSet(s) + {t};
      s + [t]
  }
}
