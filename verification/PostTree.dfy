/** A pass over a cluster in which every transaction has at most one child is optimal. */
module PostTree {
  import opened FeeFracs
  import opened Clusters
  import opened DepGraphs
  import opened Optimality
  import opened Loading
  import opened Output
  import opened Diagrams
  import opened Chunkings
  import opened PostPass

  // ---------------------------------------------------------------- the shape

  ghost predicate AtMostOneChild(g: DepGraph) {
    forall p, c, d | c in g.entries && d in g.entries && IsReducedParent(g, p, c) && IsReducedParent(g, p, d) :: c == d
  }

  ghost predicate Between(g: DepGraph, a: nat, x: nat, b: nat) {
    x in g.entries && a in g.Anc(x) && x != a && x in g.Anc(b)
  }

  /** The first step down from a towards b. */
  lemma {:induction false} FirstStep(g: DepGraph, a: nat, b: nat, x: nat) returns (c: nat)
    requires g.Valid() && b in g.entries && Between(g, a, x, b)
    ensures Between(g, a, c, b) && IsReducedParent(g, a, c)
    decreases |g.Anc(x)|
  {
    if IsReducedParent(g, a, x) {
      c := x;
    } else {
      var q :| q in g.Anc(x) && q != x && a in g.Anc(q) && q != a;
      AncestorCount(g, q, x);
      c := FirstStep(g, a, b, q);
    }
  }

  lemma AncBounded(g: DepGraph, a: nat)
    requires g.Valid()
    ensures |g.Anc(a)| <= |g.entries.Keys|
  {
    if a in g.entries {
      assert g.entries.Keys == g.Anc(a) + (g.entries.Keys - g.Anc(a));
    }
  }

  /** With at most one child each, the descendants of a transaction form a chain. */
  lemma {:induction false} DescendantsChain(g: DepGraph, a: nat, b: nat, c: nat)
    requires g.Valid() && AtMostOneChild(g) && b in g.entries && c in g.entries && a in g.Anc(b) && a in g.Anc(c)
    ensures b in g.Anc(c) || c in g.Anc(b)
    decreases |g.entries.Keys| - |g.Anc(a)|
  {
    if b != a && c != a {
      var x := FirstStep(g, a, b, b);
      var y := FirstStep(g, a, c, c);
      assert x == y;
      AncestorCount(g, a, x);
      AncBounded(g, x);
      DescendantsChain(g, x, b, c);
    }
  }

  // ---------------------------------------------------------------- groups of such a cluster

  /** All of c are ancestors of its last transaction. */
  ghost predicate Rooted(g: DepGraph, c: seq<nat>) {
    c != [] && c[|c| - 1] in g.entries && ToSet(c) <= g.Anc(c[|c| - 1])
  }

  ghost predicate TreeGroup(g: DepGraph, c: seq<nat>) {
    Rooted(g, c) && LocallyOptimal(FullCluster(g), ToSet(c))
  }

  /** Parts of c that leave out its last transaction have at most feerate b. */
  ghost predicate PartsBelow(g: DepGraph, c: seq<nat>, b: real) {
    forall s: set<nat> | ClosedWithin(FullCluster(g), ToSet(c), s) && s != {} && c != [] && c[|c| - 1] !in s ::
      RateOf(FullCluster(g), s) <= b
  }

  lemma FullDeps(g: DepGraph, a: nat, t: nat)
    ensures (a, t) in FullCluster(g).deps <==> t in g.entries && a in g.Anc(t) && a != t
  {
  }

  /** A part that includes the last transaction of a rooted group is all of it. */
  lemma RootedWhole(g: DepGraph, c: seq<nat>, s: set<nat>)
    requires Rooted(g, c) && ClosedWithin(FullCluster(g), ToSet(c), s) && c[|c| - 1] in s
    ensures s == ToSet(c)
  {
    var i := c[|c| - 1];
    forall a | a in ToSet(c)
      ensures a in s
    {
      FullDeps(g, a, i);
      assert a != i ==> (a, i).0 in s;
    }
  }

  lemma PartsLocally(g: DepGraph, c: seq<nat>, b: real)
    requires Rooted(g, c) && PartsBelow(g, c, b) && b <= RateOf(FullCluster(g), ToSet(c))
    ensures TreeGroup(g, c)
  {
    hide RateOf, FullCluster;
    forall s: set<nat> | ClosedWithin(FullCluster(g), ToSet(c), s) && s != {}
      ensures RateOf(FullCluster(g), s) <= RateOf(FullCluster(g), ToSet(c))
    {
      if c[|c| - 1] in s {
        RootedWhole(g, c, s);
      }
    }
  }

  lemma RootedMerge(g: DepGraph, p: seq<nat>, c: seq<nat>)
    requires g.Valid() && AtMostOneChild(g) && Rooted(g, p) && Rooted(g, c) && GroupDepends(g, c, p)
             && Independent(g, p, c)
    ensures Rooted(g, p + c)
  {
    hide AtMostOneChild;
    var t, a :| t in c && a in p && a in g.Anc(t);
    var i, j := c[|c| - 1], p[|p| - 1];
    assert t in ToSet(c) && a in ToSet(p);
    assert t in g.Anc(i) && t in g.entries;
    DescendantsChain(g, a, i, j);
    assert j in p && i in c;
    assert j in g.Anc(i);
    ToSetConcat(p, c);
  }

  lemma ClosedRestrict(k: Cluster, p: set<nat>, c: set<nat>, s: set<nat>)
    requires ClosedWithin(k, p + c, s)
    ensures ClosedWithin(k, p, s * p) && ClosedWithin(k, c, s * c)
  {
  }

  lemma PartsMerge(g: DepGraph, p: seq<nat>, c: seq<nat>, b: real)
    requires TreeGroup(g, p) && Rooted(g, c) && PartsBelow(g, c, b) && b <= RateOf(FullCluster(g), ToSet(p))
    requires ToSet(p) !! ToSet(c)
    ensures PartsBelow(g, p + c, RateOf(FullCluster(g), ToSet(p)))
  {
    assert c != [];
    hide RateOf, FullCluster, Rooted;
    var k, i := FullCluster(g), c[|c| - 1];
    ToSetConcat(p, c);
    forall s: set<nat> | ClosedWithin(k, ToSet(p + c), s) && s != {} && i !in s
      ensures RateOf(k, s) <= RateOf(k, ToSet(p))
    {
      var sp, sc := s * ToSet(p), s * ToSet(c);
      ClosedRestrict(k, ToSet(p), ToSet(c), s);
      assert s == sp + sc;
      if sp != {} && sc != {} {
        RateOfUnion(k, sp, sc);
      }
    }
  }

  // ---------------------------------------------------------------- the pass

  lemma DistinctOrderly(g: DepGraph, s: seq<nat>)
    requires g.Valid() && Orderly(g, s)
    ensures forall i, j | 0 <= i < j < |s| :: s[i] != s[j]
  {
    forall i, j | 0 <= i < j < |s|
      ensures s[i] != s[j]
    {
      assert s[i] in g.Anc(s[i]);
    }
  }

  lemma GroupRate(g: DepGraph, c: seq<nat>)
    requires g.Valid() && Orderly(g, c)
    ensures GroupFee(g, c) == FeeRate(FullCluster(g), ToSet(c))
  {
    DistinctOrderly(g, c);
    hide FeeRate, Acc, FeesOf;
    FeesSized(FullCluster(g), c);
    FeesAcc(FullCluster(g), c, |c|);
    assert c[..|c|] == c;
  }

  /** What an arrangement says about two neighbouring groups. */
  lemma PairOrderly(g: DepGraph, l: seq<seq<nat>>, p: seq<nat>, c: seq<nat>, r: seq<seq<nat>>)
    requires g.Valid() && Arranged(g, l + [p, c] + r)
    ensures Orderly(g, p) && Orderly(g, c) && Independent(g, p, c) && ToSet(p) !! ToSet(c)
  {
    hide Orderly, Independent, Flatten, GroupOk;
    FlattenPair(l, p, c, r);
    var x, y := Flatten(l), Flatten(r);
    OrderlyConcat(g, x + p + c, y);
    assert x + p + c == x + (p + c);
    OrderlyConcat(g, x, p + c);
    OrderlyConcat(g, p, c);
    OrderlyDisjoint(g, p, c);
  }

  lemma AloneOrderly(g: DepGraph, l: seq<seq<nat>>, c: seq<nat>, r: seq<seq<nat>>)
    requires Arranged(g, l + [c] + r)
    ensures Orderly(g, c)
  {
    hide Orderly, Independent, Flatten, GroupOk;
    FlattenPair(l, c, c, r);
    OrderlyConcat(g, Flatten(l) + c, Flatten(r));
    OrderlyConcat(g, Flatten(l), c);
  }

  ghost predicate AllTree(g: DepGraph, l: seq<seq<nat>>) {
    forall i | 0 <= i < |l| :: TreeGroup(g, l[i])
  }

  lemma AllTreeAppend(g: DepGraph, l: seq<seq<nat>>, c: seq<nat>)
    requires AllTree(g, l) && TreeGroup(g, c)
    ensures AllTree(g, l + [c])
  {
    hide TreeGroup;
  }

  /** The current group: b bounds its proper parts, and the feerates of the groups before it. */
  ghost predicate TreeCycle(g: DepGraph, l: seq<seq<nat>>, c: seq<nat>, b: real) {
    && AllTree(g, l) && Rooted(g, c) && PartsBelow(g, c, b) && b <= Rate(GroupFee(g, c))
    && (l != [] ==> b <= Rate(GroupFee(g, l[|l| - 1])))
  }

  lemma TreeMerge(g: DepGraph, l: seq<seq<nat>>, c: seq<nat>, r: seq<seq<nat>>, b: real)
    requires g.Valid() && AtMostOneChild(g) && Cycle(g, l, c, r) && TreeCycle(g, l, c, b)
    requires l != [] && GroupDepends(g, c, l[|l| - 1]) && Rate(GroupFee(g, l[|l| - 1])) < Rate(GroupFee(g, c))
    ensures var p, l' := l[|l| - 1], l[..|l| - 1]; TreeCycle(g, l', p + c, Rate(GroupFee(g, p)))
  {
    hide FullCluster, Rate, GroupFee, FeeRate, Rooted, PartsBelow, GroupDepends, Independent, Orderly, LocallyOptimal,
        GroupOk, Flatten;
    var p, l' := l[|l| - 1], l[..|l| - 1];
    CycleLast(g, l, c, r);
    PairOrderly(g, l', p, c, r);
    GroupRate(g, p);
    assert TreeGroup(g, p);
    RootedMerge(g, p, c);
    PartsMerge(g, p, c, b);
    MergeGroup(g, p, c);
    SortedParts(g, l, r);
    SortedLast(g, l);
  }

  lemma {:induction false} InsertTree(g: DepGraph, l: seq<seq<nat>>, c: seq<nat>, r: seq<seq<nat>>, b: real)
    requires g.Valid() && AtMostOneChild(g) && Cycle(g, l, c, r) && TreeCycle(g, l, c, b)
    ensures AllTree(g, Insert(g, l, c))
    decreases |l|
  {
    hide Cycle, TreeGroup, Rate, GroupFee, Rooted, PartsBelow, GroupDepends, Higher, GroupOk;
    if l == [] {
      TreePlaced(g, l, c, r, b);
    } else {
      var p, l' := l[|l| - 1], l[..|l| - 1];
      CycleLast(g, l, c, r);
      CompareGroups(g, c, p);
      if !Higher(GroupFee(g, c), GroupFee(g, p)) {
        TreePlaced(g, l, c, r, b);
      } else if GroupDepends(g, c, p) {
        CycleMerge(g, l, c, r);
        TreeMerge(g, l, c, r, b);
        InsertTree(g, l', p + c, r, Rate(GroupFee(g, p)));
      } else {
        CycleSwap(g, l, c, r);
        TreeSwap(g, l, c, r, b);
        InsertTree(g, l', c, [p] + r, b);
        AllTreeAppend(g, Insert(g, l', c), p);
      }
    }
  }

  lemma TreeSwap(g: DepGraph, l: seq<seq<nat>>, c: seq<nat>, r: seq<seq<nat>>, b: real)
    requires Cycle(g, l, c, r) && TreeCycle(g, l, c, b) && l != []
    ensures TreeCycle(g, l[..|l| - 1], c, b) && TreeGroup(g, l[|l| - 1])
  {
    hide TreeGroup, Rate, GroupFee, Rooted, PartsBelow, Arranged;
    SortedParts(g, l, r);
    SortedLast(g, l);
  }

  lemma TreePlaced(g: DepGraph, l: seq<seq<nat>>, c: seq<nat>, r: seq<seq<nat>>, b: real)
    requires g.Valid() && Cycle(g, l, c, r) && TreeCycle(g, l, c, b)
    ensures AllTree(g, l + [c])
  {
    hide FullCluster, Rate, GroupFee, FeeRate, Rooted, PartsBelow, TreeGroup, Arranged, Sorted, Orderly;
    AloneOrderly(g, l, c, r);
    GroupRate(g, c);
    PartsLocally(g, c, b);
    AllTreeAppend(g, l, c);
  }

  lemma TreeStart(g: DepGraph, l: seq<seq<nat>>, t: nat) returns (b: real)
    requires g.Valid() && AllTree(g, l) && t in g.entries
    ensures TreeCycle(g, l, [t], b)
  {
    var rc := Rate(GroupFee(g, [t]));
    var rl := if l == [] then rc else Rate(GroupFee(g, l[|l| - 1]));
    b := if rc <= rl then rc else rl;
    hide TreeGroup, Rate, GroupFee, RateOf, FullCluster;
    assert ToSet([t]) == {t};
  }

  /** Every group of a pass is locally optimal. */
  lemma {:induction false} PassTree(g: DepGraph, lin: seq<nat>)
    requires g.Valid() && AtMostOneChild(g) && Orderly(g, lin)
    ensures AllTree(g, Pass(g, lin))
  {
    if lin != [] {
      hide Insert, AllTree, Improves, TreeCycle, Cycle;
      var m := |lin| - 1;
      var l := Pass(g, lin[..m]);
      assert lin == lin[..m] + [lin[m]];
      OrderlyConcat(g, lin[..m], [lin[m]]);
      PassTree(g, lin[..m]);
      PassImproves(g, lin[..m]);
      CycleStart(g, l, lin[..m], lin[m]);
      var b := TreeStart(g, l, lin[m]);
      InsertTree(g, l, [lin[m]], [], b);
    }
  }
}
