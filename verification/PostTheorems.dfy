/** PostLinearize on sequences, and what it guarantees. */
module PostTheorems {
  import opened FeeFracs
  import opened Clusters
  import opened DepGraphs
  import opened Optimality
  import opened Loading
  import opened Output
  import opened Diagrams
  import opened Chunkings
  import opened ChunkDiagrams
  import opened Linearizing
  import opened PostPass
  import opened PostTree
  import opened PostReverse

  /** The result of the backward pass. */
  ghost function Backward(g: DepGraph, lin: seq<nat>): seq<nat> {
    Reverse(Flatten(Pass(Reversed(g), Reverse(lin))))
  }

  /** The result of both passes. */
  ghost function PostLinearization(g: DepGraph, lin: seq<nat>): seq<nat> {
    Flatten(Pass(g, Backward(g, lin)))
  }

  // ---------------------------------------------------------------- orderly and topological

  lemma OrderlyTopological(g: DepGraph, lin: seq<nat>)
    requires g.Valid()
    ensures IsTopological(g, lin) <==> Orderly(g, lin) && ToSet(lin) == g.Positions()
  {
    if IsTopological(g, lin) {
      forall i | 0 <= i < |lin|
        ensures lin[i] in g.entries
      {
        assert lin[i] in ToSet(lin);
      }
    }
    if Orderly(g, lin) {
      DistinctOrderly(g, lin);
    }
  }

  /** Two topological orders have the same total. */
  lemma SameTotal(g: DepGraph, a: seq<nat>, b: seq<nat>)
    requires g.Valid() && Orderly(g, a) && Orderly(g, b) && ToSet(a) == ToSet(b)
    ensures GroupFee(g, a) == GroupFee(g, b)
  {
    GroupRate(g, a);
    GroupRate(g, b);
  }

  lemma FeesSame(g: DepGraph, lin: seq<nat>)
    ensures FeesOf(ClusterOf(g), lin) == Fees(g, lin)
  {
  }

  /** No worse at every reference feerate is a diagram nowhere below. */
  lemma NoWorseAsGood(g: DepGraph, a: seq<nat>, b: seq<nat>)
    requires g.Valid() && IsTopological(g, a) && IsTopological(g, b)
    ensures AsGood(g, a, b) <==> NoWorse(Fees(g, a), Fees(g, b))
  {
    hide IsTopological, NoWorse, Dominates, Chunking, Fees, FeesOf, ClusterOf, Acc;
    OrderlyTopological(g, a);
    OrderlyTopological(g, b);
    SameTotal(g, a, b);
    FeesSame(g, a);
    FeesSame(g, b);
    FeesConcat(g, a, b);
    FeesConcat(g, b, a);
    ChunkingOrder(Fees(g, a), Fees(g, b));
  }

  // ---------------------------------------------------------------- validity and quality

  /** The backward pass: an orderly sequence of the same transactions that is no worse. */
  lemma BackwardImproves(g: DepGraph, lin: seq<nat>)
    requires g.Valid() && Orderly(g, lin)
    ensures Orderly(g, Backward(g, lin)) && ToSet(Backward(g, lin)) == ToSet(lin)
    ensures NoWorse(Fees(g, Backward(g, lin)), Fees(g, lin))
  {
    hide Orderly, NoWorse, Fees, Pass, Flatten, Reversed, ToSet, Reverse, Total, Sorted;
    var r, z := Reversed(g), Reverse(lin);
    ReversedValid(g);
    ReversedOrderly(g, lin);
    PassImproves(r, z);
    BackwardNoWorse(g, Flatten(Pass(r, z)), lin);
    ReverseSet(lin);
    ReverseSet(Flatten(Pass(r, z)));
  }

  /** What is no worse in reverse is no worse. */
  lemma BackwardNoWorse(g: DepGraph, z: seq<nat>, lin: seq<nat>)
    requires g.Valid() && Orderly(Reversed(g), z) && Orderly(g, lin)
    requires NoWorse(Fees(Reversed(g), z), Fees(Reversed(g), Reverse(lin)))
    requires GroupFee(Reversed(g), z) == GroupFee(Reversed(g), Reverse(lin))
    ensures Orderly(g, Reverse(z)) && NoWorse(Fees(g, Reverse(z)), Fees(g, lin))
  {
    hide NoWorse, Fees, Reversed, Reverse, Acc;
    ReverseTwice(z);
    ReversedOrderly(g, Reverse(z));
    OrderlyMembers(g, Reverse(z));
    OrderlyMembers(g, lin);
    ReversedFees(g, Reverse(z));
    ReversedFees(g, lin);
    NegatedNoWorse(Fees(Reversed(g), z), Fees(Reversed(g), Reverse(lin)));
    NegatedTwice(Fees(g, Reverse(z)));
    NegatedTwice(Fees(g, lin));
  }

  lemma OrderlyMembers(g: DepGraph, s: seq<nat>)
    requires Orderly(g, s)
    ensures forall t | t in s :: t in g.entries
  {
  }

  /** The result is topological and at least as good as the input. */
  lemma PostImproves(g: DepGraph, lin: seq<nat>)
    requires g.Valid() && IsTopological(g, lin)
    ensures IsTopological(g, PostLinearization(g, lin)) && AsGood(g, PostLinearization(g, lin), lin)
  {
    hide Orderly, NoWorse, Fees, Pass, Flatten, AsGood, IsTopological, Backward, ToSet, Sorted, GroupFee;
    var back := Backward(g, lin);
    OrderlyTopological(g, lin);
    BackwardImproves(g, lin);
    PassImproves(g, back);
    var res := Flatten(Pass(g, back));
    OrderlyTopological(g, res);
    NoWorseTrans(Fees(g, res), Fees(g, back), Fees(g, lin));
    NoWorseAsGood(g, res, lin);
  }

  // ---------------------------------------------------------------- connected chunks

  lemma {:induction false} FeesGroups(g: DepGraph, gl: seq<seq<nat>>)
    ensures Fees(g, Flatten(gl)) == Concat(seq(|gl|, (i: nat) => if i < |gl| then Fees(g, gl[i]) else []))
  {
    FeesOfFlatten(FullCluster(g), gl);
    assert PartFees(FullCluster(g), gl) == seq(|gl|, (i: nat) => if i < |gl| then Fees(g, gl[i]) else []);
  }

  /** In a sorted arrangement the groups are the chunks. */
  lemma GroupsAreChunks(g: DepGraph, gl: seq<seq<nat>>)
    requires Arranged(g, gl) && Sorted(g, gl)
    ensures Diagram(g, Flatten(gl)) == GroupFees(g, gl)
  {
    hide Tight, Fees, Flatten, Chunking, Total, Concat, ConnectedSet, Orderly, Rate;
    FeesGroups(g, gl);
    FeesSame(g, Flatten(gl));
    var parts := seq(|gl|, (i: nat) => if i < |gl| then Fees(g, gl[i]) else []);
    forall i | 0 <= i < |gl|
      ensures Tight(parts[i]) && GroupFees(g, gl)[i] == Total(parts[i])
    {
      assert GroupOk(g, gl[i]);
    }
    ChunkingOfGroups(parts, GroupFees(g, gl));
  }

  /** The chunks of the result are connected. */
  lemma PostConnected(g: DepGraph, lin: seq<nat>) returns (groups: seq<seq<nat>>)
    requires g.Valid() && IsTopological(g, lin)
    ensures PostLinearization(g, lin) == Flatten(groups)
            && Diagram(g, PostLinearization(g, lin)) == GroupFees(g, groups)
    ensures forall i | 0 <= i < |groups| :: ConnectedSet(g, ToSet(groups[i]))
  {
    hide NoWorse, Fees, Pass, Flatten, IsTopological, Backward, ToSet, Sorted, GroupFee, Tight, ConnectedSet, Orderly,
        Diagram;
    OrderlyTopological(g, lin);
    BackwardImproves(g, lin);
    groups := Pass(g, Backward(g, lin));
    PassImproves(g, Backward(g, lin));
    GroupsAreChunks(g, groups);
  }

  // ---------------------------------------------------------------- tree-shaped clusters

  /** Where the groups of an arrangement lie. */
  lemma GroupsApart(g: DepGraph, gl: seq<seq<nat>>, i: nat, j: nat)
    requires g.Valid() && Arranged(g, gl) && i < j < |gl|
    ensures ToSet(gl[i]) !! ToSet(gl[j]) && ToSet(gl[i]) != {} && ToSet(gl[j]) != {} && ToSet(gl[i]) != ToSet(gl[j])
  {
    hide Flatten, Orderly, Tight, ToSet;
    assert GroupOk(g, gl[i]) && GroupOk(g, gl[j]);
    var front := gl[..j];
    FlattenConcat(front, gl[j..]);
    assert gl == front + gl[j..];
    assert gl[j..] == [gl[j]] + gl[j + 1..];
    FlattenConcat([gl[j]], gl[j + 1..]);
    FlattenSingle(gl[j]);
    OrderlyDisjoint(g, Flatten(front), gl[j] + Flatten(gl[j + 1..]));
    ToSetConcat(gl[j], Flatten(gl[j + 1..]));
    FlattenCover(front);
    SetsMember(gl, j, i);
  }

  lemma GroupOrderly(g: DepGraph, gl: seq<seq<nat>>, i: nat)
    requires Arranged(g, gl) && i < |gl|
    ensures Orderly(g, gl[i])
  {
    hide Arranged;
    assert gl == gl[..i] + [gl[i]] + gl[i + 1..];
    AloneOrderly(g, gl[..i], gl[i], gl[i + 1..]);
  }

  lemma GroupsListed(g: DepGraph, gl: seq<seq<nat>>)
    requires g.Valid() && Arranged(g, gl)
    ensures Separate(Sets(gl)) && Lists(Sets(gl), gl)
  {
    hide Arranged, ToSet;
    forall i, j | 0 <= i < j < |gl|
      ensures ToSet(gl[i]) !! ToSet(gl[j]) && ToSet(gl[i]) != ToSet(gl[j])
    {
      GroupsApart(g, gl, i, j);
    }
    forall i | 0 <= i < |gl|
      ensures ToSet(gl[i]) != {}
    {
      GroupNonEmpty(g, gl, i);
    }
  }

  lemma GroupNonEmpty(g: DepGraph, gl: seq<seq<nat>>, i: nat)
    requires Arranged(g, gl) && i < |gl|
    ensures ToSet(gl[i]) != {}
  {
    assert GroupOk(g, gl[i]);
  }

  lemma GroupsDescending(g: DepGraph, gl: seq<seq<nat>>)
    requires g.Valid() && Arranged(g, gl) && Sorted(g, gl)
    ensures Descending(FullCluster(g), Sets(gl), gl)
  {
    hide Arranged, ToSet, FeeRate, GroupFee, FullCluster, Rate;
    forall i, y | 0 <= i < |gl| && y in Sets(gl) && y !in Sets(gl[..i])
      ensures RateOf(FullCluster(g), y) <= RateOf(FullCluster(g), ToSet(gl[i]))
    {
      var j :| 0 <= j < |gl| && y == ToSet(gl[j]);
      EarlierListed(gl, i, j);
      GroupOrderly(g, gl, i);
      GroupOrderly(g, gl, j);
      GroupRate(g, gl[i]);
      GroupRate(g, gl[j]);
      assert GroupFees(g, gl)[i] == GroupFee(g, gl[i]) && GroupFees(g, gl)[j] == GroupFee(g, gl[j]);
    }
  }

  /** A sorted arrangement reaches the diagram of its groups. */
  lemma GroupsReach(g: DepGraph, gl: seq<seq<nat>>)
    requires g.Valid() && Arranged(g, gl) && Sorted(g, gl)
    ensures ReachesDiagram(FullCluster(g), Flatten(gl), Sets(gl))
  {
    var k := FullCluster(g);
    hide Arranged, Sorted, FullCluster, Flatten, Surplus, WeightOf, Sets, ToSet, Descending, CountAbove, Lists;
    GroupsListed(g, gl);
    GroupsDescending(g, gl);
    forall l: real
      ensures ReachesAt(k, Flatten(gl), Sets(gl), l)
    {
      SurplusReached(k, l, Sets(gl), gl);
      var n := CountAbove(k, l, gl);
      FlattenPrefix(gl, n);
      assert Flatten(gl)[..|Flatten(gl[..n])|] == Flatten(gl[..n]);
    }
  }

  /** Every topological order lies under the diagram of locally optimal groups. */
  lemma TreeOver(g: DepGraph, gl: seq<seq<nat>>, other: seq<nat>)
    requires g.Valid() && Arranged(g, gl) && AllTree(g, gl) && ToSet(Flatten(gl)) == ToSet(other)
    requires IsLinearization(FullCluster(g), other)
    ensures Under(FullCluster(g), other, Sets(gl))
  {
    var k, chunks := FullCluster(g), Sets(gl);
    hide Arranged, FullCluster, Surplus, WeightOf, LocallyOptimal, Flatten, IsLinearization, Sets, Separate, AllTree,
        ToSet, Cover, Lists;
    FullValid(g);
    GroupsListed(g, gl);
    FlattenCover(gl);
    TreeChunks(g, gl);
    forall l: real, n: nat | n <= |other|
      ensures WeightOf(k, l, ToSet(other[..n])) <= Surplus(k, l, chunks)
    {
      PrefixClosed(k, other, n);
      ClosedSetUnderDiagram(k, l, chunks, ToSet(other[..n]));
      PrefixSubset(other, n);
      assert ToSet(other[..n]) * Cover(chunks) == ToSet(other[..n]);
    }
  }

  lemma PrefixSubset(s: seq<nat>, n: nat)
    requires n <= |s|
    ensures ToSet(s[..n]) <= ToSet(s)
  {
  }

  lemma TreeChunks(g: DepGraph, gl: seq<seq<nat>>)
    requires AllTree(g, gl)
    ensures forall x | x in Sets(gl) :: LocallyOptimal(FullCluster(g), x)
  {
    hide LocallyOptimal, Rooted, FullCluster, ToSet;
    forall x | x in Sets(gl)
      ensures LocallyOptimal(FullCluster(g), x)
    {
      var i :| 0 <= i < |gl| && x == ToSet(gl[i]);
      assert TreeGroup(g, gl[i]);
    }
  }

  lemma FullValid(g: DepGraph)
    requires g.Valid()
    ensures FullCluster(g).Valid()
  {
  }

  lemma FullLinearization(g: DepGraph, lin: seq<nat>)
    requires g.Valid() && IsTopological(g, lin)
    ensures IsLinearization(FullCluster(g), lin)
  {
    forall i, j | 0 <= i < |lin| && 0 <= j < |lin| && (lin[i], lin[j]) in FullCluster(g).deps
      ensures i < j
    {
      FullDeps(g, lin[i], lin[j]);
    }
  }

  /** A pass over a cluster with at most one child each is as good as every topological order. */
  lemma PassOptimal(g: DepGraph, lin: seq<nat>, other: seq<nat>)
    requires g.Valid() && AtMostOneChild(g) && IsTopological(g, lin) && IsTopological(g, other)
    ensures NoWorse(Fees(g, Flatten(Pass(g, lin))), Fees(g, other))
  {
    hide IsTopological, NoWorse, Pass, Flatten, IsLinearization, Under, ReachesDiagram, AtMostOneChild, Orderly, ToSet,
         FullCluster, Chunking, Dominates, AllTree, Sorted, Sets, FeesOf;
    OrderlyTopological(g, lin);
    OrderlyTopological(g, other);
    var gl := Pass(g, lin);
    var res := Flatten(gl);
    PassImproves(g, lin);
    PassTree(g, lin);
    OrderlyTopological(g, res);
    FullLinearization(g, other);
    FullLinearization(g, res);
    GroupsReach(g, gl);
    TreeOver(g, gl, other);
    ReachesUnder(FullCluster(g), res, other, Sets(gl));
    SameTotal(g, res, other);
    FeesConcat(g, res, other);
    FeesConcat(g, other, res);
    ChunkingOrder(Fees(g, res), Fees(g, other));
  }

  ghost predicate AtMostOneParent(g: DepGraph) {
    forall p, q, c | c in g.entries && IsReducedParent(g, p, c) && IsReducedParent(g, q, c) :: p == q
  }

  lemma ReversedChild(g: DepGraph)
    requires g.Valid() && AtMostOneParent(g)
    ensures AtMostOneChild(Reversed(g))
  {
    var r := Reversed(g);
    ReversedValid(g);
    forall p, c, d | c in r.entries && d in r.entries && IsReducedParent(r, p, c) && IsReducedParent(r, p, d)
      ensures c == d
    {
      hide Reversed;
      assert p in r.Anc(c) && p in r.entries;
      ReversedParent(g, c, p);
      ReversedParent(g, d, p);
    }
  }

  lemma BackwardOptimal(g: DepGraph, lin: seq<nat>, other: seq<nat>)
    requires g.Valid() && AtMostOneParent(g) && IsTopological(g, lin) && IsTopological(g, other)
    ensures NoWorse(Fees(g, Backward(g, lin)), Fees(g, other))
  {
    hide IsTopological, NoWorse, Fees, Pass, Flatten, AtMostOneParent, AtMostOneChild, Orderly, ToSet, Reversed,
        Reverse, Sorted, Total;
    var r := Reversed(g);
    ReversedValid(g);
    ReversedChild(g);
    ReversedTopological(g, lin);
    ReversedTopological(g, other);
    OrderlyTopological(r, Reverse(lin));
    OrderlyTopological(r, Reverse(other));
    OrderlyTopological(g, other);
    PassOptimal(r, Reverse(lin), Reverse(other));
    PassImproves(r, Reverse(lin));
    var z := Flatten(Pass(r, Reverse(lin)));
    SameTotal(r, z, Reverse(other));
    BackwardNoWorse(g, z, other);
  }

  lemma ReversedTopological(g: DepGraph, lin: seq<nat>)
    requires g.Valid() && IsTopological(g, lin)
    ensures IsTopological(Reversed(g), Reverse(lin))
  {
    hide IsTopological, Orderly, ToSet, Reversed, Reverse;
    ReversedValid(g);
    OrderlyTopological(g, lin);
    ReversedOrderly(g, lin);
    ReverseSet(lin);
    OrderlyTopological(Reversed(g), Reverse(lin));
  }

  /** On tree-shaped clusters, where every transaction has at most one child or every transaction
      has at most one parent, the result is optimal. */
  lemma PostOptimal(g: DepGraph, lin: seq<nat>, other: seq<nat>)
    requires g.Valid() && IsTopological(g, lin) && IsTopological(g, other)
    requires AtMostOneChild(g) || AtMostOneParent(g)
    ensures AsGood(g, PostLinearization(g, lin), other)
  {
    hide IsTopological, NoWorse, Fees, Pass, Flatten, AtMostOneParent, AtMostOneChild, AsGood, Backward, ToSet,
        Sorted, GroupFee, Orderly;
    OrderlyTopological(g, lin);
    BackwardImproves(g, lin);
    var back := Backward(g, lin);
    OrderlyTopological(g, back);
    var res := Flatten(Pass(g, back));
    PassImproves(g, back);
    OrderlyTopological(g, res);
    if AtMostOneChild(g) {
      PassOptimal(g, back, other);
    } else {
      BackwardOptimal(g, lin, other);
      NoWorseTrans(Fees(g, res), Fees(g, back), Fees(g, other));
    }
    NoWorseAsGood(g, res, other);
  }
}
