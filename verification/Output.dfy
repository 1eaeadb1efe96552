/** Linearizations that list chunks one after the other: when they are valid, and when they are
    at least as good as the diagram of the chunks. */
module Output {
  import opened Clusters
  import opened Merging
  import opened Loading
  import opened Minimizing

  ghost function Flatten(parts: seq<seq<nat>>): seq<nat> {
    if parts == [] then [] else Flatten(parts[..|parts| - 1]) + parts[|parts| - 1]
  }

  /** The chunks listed by parts. */
  ghost function Sets(parts: seq<seq<nat>>): set<set<nat>> {
    set p | p in parts :: ToSet(p)
  }

  /** parts lists some of the chunks, each once and without repetition inside. */
  ghost predicate Lists(chunks: set<set<nat>>, parts: seq<seq<nat>>) {
    && (forall i | 0 <= i < |parts| :: ToSet(parts[i]) in chunks)
    && (forall i, j | 0 <= i < j < |parts| :: ToSet(parts[i]) != ToSet(parts[j]))
  }

  /** No chunk outside done is needed by chunk y. */
  ghost predicate Ready(k: Cluster, chunks: set<set<nat>>, done: set<set<nat>>, y: set<nat>) {
    forall z | z in chunks && z != y && z !in done :: !DependsOn(k, y, z)
  }

  /** Each listed chunk has the highest feerate among the chunks that were ready. */
  ghost predicate HighestReadyFirst(k: Cluster, chunks: set<set<nat>>, parts: seq<seq<nat>>) {
    forall i, y | 0 <= i < |parts| && y in chunks && y !in Sets(parts[..i]) && Ready(k, chunks, Sets(parts[..i]), y) ::
      RateOf(k, y) <= RateOf(k, ToSet(parts[i]))
  }

  /** Each listed chunk has the highest feerate among all chunks still to come. */
  ghost predicate Descending(k: Cluster, chunks: set<set<nat>>, parts: seq<seq<nat>>) {
    forall i, y | 0 <= i < |parts| && y in chunks && y !in Sets(parts[..i]) ::
      RateOf(k, y) <= RateOf(k, ToSet(parts[i]))
  }

  /** Among the chunks not yet done, one of highest feerate is ready. */
  lemma HighestIsReady(k: Cluster, chunks: set<set<nat>>, done: set<set<nat>>) returns (s: set<nat>)
    requires WeaklyTopological(k, chunks) && Acyclic(k, chunks) && chunks - done != {}
    ensures s in chunks && s !in done && Ready(k, chunks, done, s)
    ensures forall y | y in chunks && y !in done :: RateOf(k, y) <= RateOf(k, s)
  {
    hide RateOf, DependsOn;
    var rest := chunks - done;
    var top := HighestChunk(k, rest);
    var level := set x | x in rest && RateOf(k, x) == RateOf(k, top);
    assert top in level && level <= chunks;
    s :| Source(k, level, s);
  }

  /** If no dependency goes to a lower feerate, the highest ready chunk is the highest of all. */
  lemma ReadyIsHighest(k: Cluster, chunks: set<set<nat>>, parts: seq<seq<nat>>)
    requires WeaklyTopological(k, chunks) && Acyclic(k, chunks) && HighestReadyFirst(k, chunks, parts)
    ensures Descending(k, chunks, parts)
  {
    hide RateOf, DependsOn, WeaklyTopological, Acyclic, Ready, Sets, ToSet;
    forall i, y | 0 <= i < |parts| && y in chunks && y !in Sets(parts[..i])
      ensures RateOf(k, y) <= RateOf(k, ToSet(parts[i]))
    {
      assert y in chunks - Sets(parts[..i]);
      var s := HighestIsReady(k, chunks, Sets(parts[..i]));
    }
  }

  // ---------------------------------------------------------------- prefixes of whole chunks

  lemma ToSetConcat(a: seq<nat>, b: seq<nat>)
    ensures ToSet(a + b) == ToSet(a) + ToSet(b)
  {
  }

  lemma {:induction false} FlattenCover(parts: seq<seq<nat>>)
    ensures ToSet(Flatten(parts)) == Cover(Sets(parts))
  {
    if parts == [] {
      assert Sets(parts) == {};
    } else {
      var init, last := parts[..|parts| - 1], parts[|parts| - 1];
      FlattenCover(init);
      ToSetConcat(Flatten(init), last);
      assert parts == init + [last];
      assert Sets(parts) == Sets(init) + {ToSet(last)};
      assert Cover(Sets(init) + {ToSet(last)}) == Cover(Sets(init)) + ToSet(last);
    }
  }

  lemma {:induction false} FlattenPrefix(parts: seq<seq<nat>>, i: nat)
    requires i <= |parts|
    ensures Flatten(parts[..i]) <= Flatten(parts)
    decreases |parts|
  {
    if i == |parts| {
      assert parts[..i] == parts;
    } else {
      var init := parts[..|parts| - 1];
      FlattenPrefix(init, i);
      assert init[..i] == parts[..i];
    }
  }

  lemma ListsPrefix(chunks: set<set<nat>>, parts: seq<seq<nat>>, i: nat)
    requires Lists(chunks, parts) && i <= |parts|
    ensures Lists(chunks, parts[..i])
    ensures i < |parts| ==> ToSet(parts[i]) !in Sets(parts[..i])
  {
  }

  /** The number of leading chunks with a feerate above l. */
  ghost function CountAbove(k: Cluster, l: real, parts: seq<seq<nat>>): (n: nat)
    ensures n <= |parts|
  {
    if parts == [] then 0
    else
      var n := CountAbove(k, l, parts[..|parts| - 1]);
      if n == |parts| - 1 && RateOf(k, ToSet(parts[|parts| - 1])) > l then n + 1 else n
  }

  lemma {:induction false} CountAboveExact(k: Cluster, l: real, parts: seq<seq<nat>>)
    ensures forall i | 0 <= i < CountAbove(k, l, parts) :: RateOf(k, ToSet(parts[i])) > l
    ensures CountAbove(k, l, parts) < |parts| ==> RateOf(k, ToSet(parts[CountAbove(k, l, parts)])) <= l
  {
    hide RateOf, ToSet;
    if parts != [] {
      var init := parts[..|parts| - 1];
      CountAboveExact(k, l, init);
      assert forall i | 0 <= i < |init| :: init[i] == parts[i];
    }
  }

  lemma SetsPrefixSubset(chunks: set<set<nat>>, parts: seq<seq<nat>>, i: nat)
    requires Lists(chunks, parts) && i <= |parts|
    ensures Sets(parts[..i]) <= chunks && Sets(parts[..i]) <= Sets(parts)
  {
  }

  lemma SetsMember(parts: seq<seq<nat>>, i: nat, j: nat)
    requires j < i <= |parts|
    ensures ToSet(parts[j]) in Sets(parts[..i])
  {
    assert parts[..i][j] == parts[j];
  }

  /** The leading chunks above l are all chunks above l, so they make up the whole surplus. */
  lemma SurplusReached(k: Cluster, l: real, chunks: set<set<nat>>, parts: seq<seq<nat>>)
    requires Separate(chunks) && Lists(chunks, parts) && Sets(parts) == chunks && Descending(k, chunks, parts)
    ensures var n := CountAbove(k, l, parts);
            WeightOf(k, l, ToSet(Flatten(parts[..n]))) == Surplus(k, l, chunks)
  {
    hide RateOf, WeightOf, Surplus, CountAbove, ToSet, Flatten;
    var n := CountAbove(k, l, parts);
    CountAboveExact(k, l, parts);
    var above := Sets(parts[..n]);
    SetsPrefixSubset(chunks, parts, n);
    FlattenCover(parts[..n]);
    forall x | x in above
      ensures WeightOf(k, l, x) >= 0.0
    {
      var i :| 0 <= i < n && x == ToSet(parts[..n][i]);
      WeightOfSign(k, l, x);
    }
    forall j | 0 <= j < n
      ensures ToSet(parts[j]) in above
    {
      SetsMember(parts, n, j);
    }
    forall x | x in chunks - above
      ensures WeightOf(k, l, x) <= 0.0
    {
      assert x in Sets(parts);
      var j :| 0 <= j < |parts| && x == ToSet(parts[j]);
      assert n < |parts|;
      WeightOfSign(k, l, x);
    }
    SurplusIsWeight(k, l, above);
    SurplusZero(k, l, chunks - above);
    SurplusUnion(k, l, above, chunks - above);
    assert above + (chunks - above) == chunks;
  }

  /** Some prefix of lin is worth as much, at reference feerate l, as the diagram of the chunks. */
  ghost predicate ReachesAt(k: Cluster, lin: seq<nat>, chunks: set<set<nat>>, l: real) {
    exists n: nat :: n <= |lin| && WeightOf(k, l, ToSet(lin[..n])) >= Surplus(k, l, chunks)
  }

  /** The linearization is at least as good as the diagram of the chunks. */
  ghost predicate ReachesDiagram(k: Cluster, lin: seq<nat>, chunks: set<set<nat>>) {
    forall l: real :: ReachesAt(k, lin, chunks, l)
  }

  /** Listing the chunks highest-ready first gives a linearization at least as good as the
      diagram of the chunks. */
  lemma ListingReachesDiagram(k: Cluster, chunks: set<set<nat>>, parts: seq<seq<nat>>)
    requires Separate(chunks) && Lists(chunks, parts) && Sets(parts) == chunks
    requires WeaklyTopological(k, chunks) && Acyclic(k, chunks) && HighestReadyFirst(k, chunks, parts)
    ensures ReachesDiagram(k, Flatten(parts), chunks)
  {
    hide WeightOf, Surplus, CountAbove, Flatten, WeaklyTopological, Acyclic, HighestReadyFirst, Descending;
    ReadyIsHighest(k, chunks, parts);
    forall l: real
      ensures ReachesAt(k, Flatten(parts), chunks, l)
    {
      var c := CountAbove(k, l, parts);
      SurplusReached(k, l, chunks, parts);
      FlattenPrefix(parts, c);
      var n := |Flatten(parts[..c])|;
      assert Flatten(parts)[..n] == Flatten(parts[..c]);
      assert WeightOf(k, l, ToSet(Flatten(parts)[..n])) >= Surplus(k, l, chunks);
    }
  }
}
