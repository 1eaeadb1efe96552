/** One pass of PostLinearize, on lists of groups: every transaction starts a group at the end of
    the list; a group of higher feerate than the one before it absorbs that one if it depends on
    it, and moves before it if not. */
module PostPass {
  import opened FeeFracs
  import opened Clusters
  import opened DepGraphs
  import opened Loading
  import opened Output
  import opened ForestOutput
  import opened Diagrams
  import opened Chunkings
  import opened PostFees

  /** The cluster in which every ancestor is a dependency. */
  ghost function FullCluster(g: DepGraph): Cluster {
    Cluster(g.entries.Keys, map i | i in g.entries :: g.entries[i].feerate,
            set a, t | t in g.entries && a in g.entries[t].ancestors && a != t :: (a, t))
  }

  ghost function Fees(g: DepGraph, s: seq<nat>): seq<FeeFrac> {
    FeesOf(FullCluster(g), s)
  }

  /** The combined fee and size of a group. */
  ghost function GroupFee(g: DepGraph, c: seq<nat>): FeeFrac {
    Total(Fees(g, c))
  }

  /** Some transaction of c has an ancestor in p. */
  ghost predicate GroupDepends(g: DepGraph, c: seq<nat>, p: seq<nat>) {
    exists t, a :: t in c && a in p && a in g.Anc(t)
  }

  /** Group c, after the groups in l, absorbs or passes groups of lower feerate. */
  ghost function Insert(g: DepGraph, l: seq<seq<nat>>, c: seq<nat>): seq<seq<nat>> {
    if l == [] || !Higher(GroupFee(g, c), GroupFee(g, l[|l| - 1])) then l + [c]
    else if GroupDepends(g, c, l[|l| - 1]) then Insert(g, l[..|l| - 1], l[|l| - 1] + c)
    else Insert(g, l[..|l| - 1], c) + [l[|l| - 1]]
  }

  /** The groups after all transactions of lin. */
  ghost function Pass(g: DepGraph, lin: seq<nat>): seq<seq<nat>> {
    if lin == [] then [] else Insert(g, Pass(g, lin[..|lin| - 1]), [lin[|lin| - 1]])
  }

  // ---------------------------------------------------------------- fees of sequences

  lemma FeesConcat(g: DepGraph, a: seq<nat>, b: seq<nat>)
    ensures Fees(g, a + b) == Fees(g, a) + Fees(g, b) && |Fees(g, a)| == |a| && Sized(Fees(g, a))
    ensures GroupFee(g, a + b) == GroupFee(g, a).Plus(GroupFee(g, b))
  {
    assert Fees(g, a + b) == Fees(g, a) + Fees(g, b);
    FeesSized(FullCluster(g), a);
    hide Fees, Acc;
    AccConcat(Fees(g, a), Fees(g, b), |Fees(g, b)|);
  }

  lemma {:induction false} FlattenConcat(a: seq<seq<nat>>, b: seq<seq<nat>>)
    ensures Flatten(a + b) == Flatten(a) + Flatten(b)
  {
    hide Flatten;
    if b == [] {
      assert a + b == a;
      FlattenNone();
    } else {
      var m := |b| - 1;
      FlattenConcat(a, b[..m]);
      FlattenAppend(a + b[..m], b[m]);
      FlattenAppend(b[..m], b[m]);
      assert b == b[..m] + [b[m]];
      assert a + b == a + b[..m] + [b[m]];
    }
  }

  lemma FlattenSingle(c: seq<nat>)
    ensures Flatten([c]) == c
  {
    FlattenAppend([], c);
    assert [] + [c] == [c];
  }

  /** The transactions of a list with two neighbouring groups. */
  lemma FlattenPair(l: seq<seq<nat>>, p: seq<nat>, c: seq<nat>, r: seq<seq<nat>>)
    ensures Flatten(l + [p, c] + r) == Flatten(l) + p + c + Flatten(r)
    ensures Flatten(l + [p + c] + r) == Flatten(l) + p + c + Flatten(r)
    ensures Flatten(l + [p] + r) == Flatten(l) + p + Flatten(r)
  {
    hide Flatten;
    FlattenConcat(l + [p, c], r);
    FlattenConcat(l, [p, c]);
    FlattenConcat([p], [c]);
    assert [p] + [c] == [p, c];
    FlattenConcat(l + [p + c], r);
    FlattenConcat(l, [p + c]);
    FlattenConcat(l + [p], r);
    FlattenConcat(l, [p]);
    FlattenSingle(p);
    FlattenSingle(c);
    FlattenSingle(p + c);
    assert Flatten(l) + (p + c) == Flatten(l) + p + c;
  }

  // ---------------------------------------------------------------- orderly sequences

  /** No transaction comes before one of its ancestors, and none is repeated. */
  ghost predicate Orderly(g: DepGraph, s: seq<nat>) {
    && (forall i | 0 <= i < |s| :: s[i] in g.entries)
    && (forall i, j | 0 <= i < j < |s| :: s[j] !in g.Anc(s[i]))
  }

  /** b contains no ancestor of a. */
  ghost predicate Independent(g: DepGraph, a: seq<nat>, b: seq<nat>) {
    forall t, u | t in a && u in b :: u !in g.Anc(t)
  }

  lemma OrderlyConcat(g: DepGraph, a: seq<nat>, b: seq<nat>)
    ensures Orderly(g, a + b) <==> Orderly(g, a) && Orderly(g, b) && Independent(g, a, b)
  {
    var s := a + b;
    if Orderly(g, s) {
      forall t, u | t in a && u in b
        ensures u !in g.Anc(t)
      {
        var i :| 0 <= i < |a| && a[i] == t;
        var j :| 0 <= j < |b| && b[j] == u;
        assert s[i] == t && s[|a| + j] == u;
      }
      forall i, j | 0 <= i < j < |b|
        ensures b[j] !in g.Anc(b[i])
      {
        assert s[|a| + i] == b[i] && s[|a| + j] == b[j];
      }
      assert forall i | 0 <= i < |a| :: s[i] == a[i];
      assert forall i | 0 <= i < |b| :: s[|a| + i] == b[i];
    }
    if Orderly(g, a) && Orderly(g, b) && Independent(g, a, b) {
      forall i, j | 0 <= i < j < |s|
        ensures s[j] !in g.Anc(s[i])
      {
        assert i < |a| <= j ==> s[i] in a && s[j] in b;
      }
    }
  }

  lemma IndependentConcat(g: DepGraph, a: seq<nat>, b: seq<nat>, c: seq<nat>)
    ensures Independent(g, a + b, c) <==> Independent(g, a, c) && Independent(g, b, c)
    ensures Independent(g, c, a + b) <==> Independent(g, c, a) && Independent(g, c, b)
  {
    assert forall t :: t in a + b <==> t in a || t in b;
  }

  /** Two neighbouring pieces, the second independent of the first, can be exchanged. */
  lemma OrderlySwap(g: DepGraph, x: seq<nat>, p: seq<nat>, c: seq<nat>, y: seq<nat>)
    requires Orderly(g, x + p + c + y) && Independent(g, c, p)
    ensures Orderly(g, x + c + p + y)
  {
    hide Orderly, Independent;
    OrderlyConcat(g, x + p + c, y);
    OrderlyConcat(g, x + p, c);
    OrderlyConcat(g, x, p);
    IndependentConcat(g, x + p, c, y);
    IndependentConcat(g, x, p, y);
    IndependentConcat(g, x, p, c);
    OrderlyConcat(g, x + c + p, y);
    OrderlyConcat(g, x + c, p);
    OrderlyConcat(g, x, c);
    IndependentConcat(g, x + c, p, y);
    IndependentConcat(g, x, c, y);
    IndependentConcat(g, x, c, p);
  }

  // ---------------------------------------------------------------- connected groups

  ghost predicate Related(g: DepGraph, t: nat, u: nat) {
    t in g.Anc(u) || u in g.Anc(t)
  }

  ghost predicate Touches(g: DepGraph, a: set<nat>, b: set<nat>) {
    exists t, u :: t in a && u in b && Related(g, t, u)
  }

  /** Every division of s into two parts cuts an ancestor relation. */
  ghost predicate ConnectedSet(g: DepGraph, s: set<nat>) {
    s != {} && forall part: set<nat> | part <= s && part != {} && part != s :: Touches(g, part, s - part)
  }

  lemma ConnectedJoin(g: DepGraph, a: set<nat>, b: set<nat>)
    requires ConnectedSet(g, a) && ConnectedSet(g, b) && Touches(g, a, b) && a !! b
    ensures ConnectedSet(g, a + b)
  {
    var t, u :| t in a && u in b && Related(g, t, u);
    assert Related(g, u, t);
    forall part: set<nat> | part <= a + b && part != {} && part != a + b
      ensures Touches(g, part, a + b - part)
    {
      var pa, pb := part * a, part * b;
      if pa != {} && pa != a {
        assert Touches(g, pa, a - pa);
      } else if pb != {} && pb != b {
        assert Touches(g, pb, b - pb);
      } else {
        assert part == pa + pb;
      }
    }
  }

  // ---------------------------------------------------------------- arrangements

  /** A group no beginning of which has an equal or higher feerate, and which is connected. */
  ghost predicate GroupOk(g: DepGraph, c: seq<nat>) {
    Tight(Fees(g, c)) && ConnectedSet(g, ToSet(c))
  }

  ghost predicate Arranged(g: DepGraph, gl: seq<seq<nat>>) {
    Orderly(g, Flatten(gl)) && forall i | 0 <= i < |gl| :: GroupOk(g, gl[i])
  }

  ghost function GroupFees(g: DepGraph, gl: seq<seq<nat>>): seq<FeeFrac> {
    seq(|gl|, (i: nat) => if i < |gl| then GroupFee(g, gl[i]) else EMPTY)
  }

  ghost predicate Sorted(g: DepGraph, gl: seq<seq<nat>>) {
    NonIncreasing(GroupFees(g, gl))
  }

  /** The groups of b rearranged, or merged, without loss. */
  ghost predicate Better(g: DepGraph, a: seq<seq<nat>>, b: seq<seq<nat>>) {
    && ToSet(Flatten(a)) == ToSet(Flatten(b))
    && GroupFee(g, Flatten(a)) == GroupFee(g, Flatten(b)) && NoWorse(Fees(g, Flatten(a)), Fees(g, Flatten(b)))
  }

  lemma BetterTrans(g: DepGraph, a: seq<seq<nat>>, b: seq<seq<nat>>, c: seq<seq<nat>>)
    requires Better(g, a, b) && Better(g, b, c)
    ensures Better(g, a, c)
  {
    hide Flatten, Fees, Total;
    NoWorseTrans(Fees(g, Flatten(a)), Fees(g, Flatten(b)), Fees(g, Flatten(c)));
  }

  lemma GroupsIn(g: DepGraph, l: seq<seq<nat>>, p: seq<nat>, c: seq<nat>, r: seq<seq<nat>>)
    requires forall i | 0 <= i < |l + [p, c] + r| :: GroupOk(g, (l + [p, c] + r)[i])
    ensures GroupOk(g, p) && GroupOk(g, c)
    ensures forall i | 0 <= i < |l| :: GroupOk(g, l[i])
    ensures forall i | 0 <= i < |r| :: GroupOk(g, r[i])
  {
    hide GroupOk;
    var gl := l + [p, c] + r;
    assert gl[|l|] == p && gl[|l| + 1] == c;
    assert forall i | 0 <= i < |l| :: gl[i] == l[i];
    assert forall i | 0 <= i < |r| :: gl[|l| + 2 + i] == r[i];
  }

  lemma SwapArranged(g: DepGraph, l: seq<seq<nat>>, p: seq<nat>, c: seq<nat>, r: seq<seq<nat>>)
    requires Arranged(g, l + [p, c] + r) && !GroupDepends(g, c, p)
    requires Rate(GroupFee(g, p)) < Rate(GroupFee(g, c))
    ensures Arranged(g, l + [c, p] + r) && Better(g, l + [c, p] + r, l + [p, c] + r)
  {
    hide Flatten, GroupOk, Rate, Orderly, Acc;
    GroupsIn(g, l, p, c, r);
    FlattenPair(l, p, c, r);
    FlattenPair(l, c, p, r);
    var x, y := Flatten(l), Flatten(r);
    assert Independent(g, c, p);
    OrderlySwap(g, x, p, c, y);
    SwapBetter(g, x, p, c, y);
  }

  lemma SwapBetter(g: DepGraph, x: seq<nat>, p: seq<nat>, c: seq<nat>, y: seq<nat>)
    requires GroupOk(g, p) && GroupOk(g, c) && Rate(GroupFee(g, p)) <= Rate(GroupFee(g, c))
    ensures ToSet(x + c + p + y) == ToSet(x + p + c + y) && GroupFee(g, x + c + p + y) == GroupFee(g, x + p + c + y)
    ensures NoWorse(Fees(g, x + c + p + y), Fees(g, x + p + c + y))
  {
    assert ToSet(x + c + p + y) == ToSet(x + p + c + y);
    hide Fees, Rate, Tight, Total, NoWorse, ToSet, ConnectedSet;
    FeesConcat(g, x + p + c, y);
    FeesConcat(g, x + p, c);
    FeesConcat(g, x, p);
    FeesConcat(g, x + c + p, y);
    FeesConcat(g, x + c, p);
    FeesConcat(g, x, c);
    PlusOrder(GroupFee(g, x), GroupFee(g, p), GroupFee(g, c));
    TightTotals(Fees(g, p));
    TightTotals(Fees(g, c));
    SwapNoWorse(Fees(g, x), Fees(g, p), Fees(g, c), Fees(g, y));
  }

  lemma MergeGroup(g: DepGraph, p: seq<nat>, c: seq<nat>)
    requires GroupOk(g, p) && GroupOk(g, c) && GroupDepends(g, c, p) && ToSet(p) !! ToSet(c)
    requires Rate(GroupFee(g, p)) < Rate(GroupFee(g, c))
    ensures GroupOk(g, p + c) && Rate(GroupFee(g, p)) < Rate(GroupFee(g, p + c)) < Rate(GroupFee(g, c))
  {
    hide Fees, Rate, Tight, Total, ConnectedSet;
    FeesConcat(g, p, c);
    TightJoin(Fees(g, p), Fees(g, c));
    var t, a :| t in c && a in p && a in g.Anc(t);
    assert Related(g, a, t) && a in ToSet(p) && t in ToSet(c);
    ConnectedJoin(g, ToSet(p), ToSet(c));
    ToSetConcat(p, c);
  }

  lemma OrderlyDisjoint(g: DepGraph, a: seq<nat>, b: seq<nat>)
    requires g.Valid() && Orderly(g, a + b)
    ensures ToSet(a) !! ToSet(b)
  {
    OrderlyConcat(g, a, b);
    forall t | t in ToSet(a)
      ensures t !in ToSet(b)
    {
      assert t in g.Anc(t);
    }
  }

  lemma MergeArranged(g: DepGraph, l: seq<seq<nat>>, p: seq<nat>, c: seq<nat>, r: seq<seq<nat>>)
    requires g.Valid() && Arranged(g, l + [p, c] + r) && GroupDepends(g, c, p)
    requires Rate(GroupFee(g, p)) < Rate(GroupFee(g, c))
    ensures Arranged(g, l + [p + c] + r) && Better(g, l + [p + c] + r, l + [p, c] + r)
    ensures Rate(GroupFee(g, p)) < Rate(GroupFee(g, p + c))
  {
    hide Flatten, GroupOk, Rate, Orderly, Acc, GroupDepends, Independent;
    GroupsIn(g, l, p, c, r);
    FlattenPair(l, p, c, r);
    var x, y := Flatten(l), Flatten(r);
    OrderlyConcat(g, x + p + c, y);
    assert x + p + c == x + (p + c);
    OrderlyConcat(g, x, p + c);
    OrderlyDisjoint(g, p, c);
    MergeGroup(g, p, c);
    NoWorseSelf(Fees(g, Flatten(l + [p + c] + r)));
  }

  // ---------------------------------------------------------------- sorted lists

  lemma SortedParts(g: DepGraph, l: seq<seq<nat>>, r: seq<seq<nat>>)
    requires Sorted(g, l + r)
    ensures Sorted(g, l) && Sorted(g, r)
    ensures forall i, j | 0 <= i < |l| && 0 <= j < |r| :: Rate(GroupFee(g, l[i])) >= Rate(GroupFee(g, r[j]))
  {
    hide Rate, GroupFee;
    var all := GroupFees(g, l + r);
    assert forall i | 0 <= i < |l| :: all[i] == GroupFee(g, l[i]);
    assert forall j | 0 <= j < |r| :: all[|l| + j] == GroupFee(g, r[j]);
    assert forall j | 0 <= j < |r| :: GroupFees(g, r)[j] == all[|l| + j];
    assert forall i | 0 <= i < |l| :: GroupFees(g, l)[i] == all[i];
  }

  lemma SortedJoin(g: DepGraph, l: seq<seq<nat>>, r: seq<seq<nat>>)
    requires Sorted(g, l) && Sorted(g, r)
    requires forall i, j | 0 <= i < |l| && 0 <= j < |r| :: Rate(GroupFee(g, l[i])) >= Rate(GroupFee(g, r[j]))
    ensures Sorted(g, l + r)
  {
    hide Rate, GroupFee;
    var all := GroupFees(g, l + r);
    forall i, j | 0 <= i < j < |all|
      ensures Rate(all[i]) >= Rate(all[j])
    {
      if j < |l| {
        assert all[i] == GroupFees(g, l)[i] && all[j] == GroupFees(g, l)[j];
      } else if i >= |l| {
        assert all[i] == GroupFees(g, r)[i - |l|] && all[j] == GroupFees(g, r)[j - |l|];
      }
    }
  }

  /** A group fits between l and r. */
  lemma SortedBetween(g: DepGraph, l: seq<seq<nat>>, c: seq<nat>, r: seq<seq<nat>>)
    requires Sorted(g, l + r)
    requires l != [] ==> Rate(GroupFee(g, l[|l| - 1])) >= Rate(GroupFee(g, c))
    requires r != [] ==> Rate(GroupFee(g, r[0])) <= Rate(GroupFee(g, c))
    ensures Sorted(g, l + [c] + r)
  {
    hide Rate, GroupFee;
    SortedParts(g, l, r);
    SortedLast(g, l);
    SortedLast(g, r);
    SortedJoin(g, l, [c]);
    SortedJoin(g, l + [c], r);
  }

  lemma SortedLast(g: DepGraph, l: seq<seq<nat>>)
    requires Sorted(g, l)
    ensures forall i | 0 <= i < |l| :: Rate(GroupFee(g, l[i])) >= Rate(GroupFee(g, l[|l| - 1]))
    ensures forall i | 0 <= i < |l| :: Rate(GroupFee(g, l[i])) <= Rate(GroupFee(g, l[0]))
  {
    hide Rate, GroupFee;
    assert forall i | 0 <= i < |l| :: GroupFees(g, l)[i] == GroupFee(g, l[i]);
  }

  // ---------------------------------------------------------------- inserting a group

  /** The state of the merge/swap cycle: c stands between l and r. */
  ghost predicate Cycle(g: DepGraph, l: seq<seq<nat>>, c: seq<nat>, r: seq<seq<nat>>) {
    && Arranged(g, l + [c] + r) && Sorted(g, l + r)
    && (r != [] ==> Rate(GroupFee(g, r[0])) < Rate(GroupFee(g, c)))
  }

  lemma CompareGroups(g: DepGraph, c: seq<nat>, p: seq<nat>)
    requires GroupOk(g, c) && GroupOk(g, p)
    ensures Higher(GroupFee(g, c), GroupFee(g, p)) <==> Rate(GroupFee(g, c)) > Rate(GroupFee(g, p))
  {
    hide Tight, Fees, Total;
    TightTotals(Fees(g, c));
    TightTotals(Fees(g, p));
    HigherRate(GroupFee(g, c), GroupFee(g, p));
  }

  /** The list split at its last group. */
  lemma CycleLast(g: DepGraph, l: seq<seq<nat>>, c: seq<nat>, r: seq<seq<nat>>)
    requires Cycle(g, l, c, r) && l != []
    ensures var p, l' := l[|l| - 1], l[..|l| - 1];
            && GroupOk(g, c) && GroupOk(g, p) && l + [c] + r == l' + [p, c] + r && l + r == l' + ([p] + r)
            && (r != [] ==> Rate(GroupFee(g, r[0])) <= Rate(GroupFee(g, p)))
  {
    hide GroupOk, Rate, GroupFee, Flatten;
    var p, l' := l[|l| - 1], l[..|l| - 1];
    assert l == l' + [p];
    assert l + [c] + r == l' + [p, c] + r;
    GroupsIn(g, l', p, c, r);
    SortedParts(g, l, r);
  }

  lemma CycleSwap(g: DepGraph, l: seq<seq<nat>>, c: seq<nat>, r: seq<seq<nat>>)
    requires Cycle(g, l, c, r) && l != [] && !GroupDepends(g, c, l[|l| - 1])
    requires Rate(GroupFee(g, l[|l| - 1])) < Rate(GroupFee(g, c))
    ensures var p, l' := l[|l| - 1], l[..|l| - 1];
            Cycle(g, l', c, [p] + r) && Better(g, l' + [c] + ([p] + r), l + [c] + r)
  {
    hide GroupOk, Rate, GroupFee, Flatten, Sorted, Better, Arranged;
    var p, l' := l[|l| - 1], l[..|l| - 1];
    CycleLast(g, l, c, r);
    SwapArranged(g, l', p, c, r);
    assert l' + [c] + ([p] + r) == l' + [c, p] + r;
  }

  lemma CycleMerge(g: DepGraph, l: seq<seq<nat>>, c: seq<nat>, r: seq<seq<nat>>)
    requires g.Valid() && Cycle(g, l, c, r) && l != [] && GroupDepends(g, c, l[|l| - 1])
    requires Rate(GroupFee(g, l[|l| - 1])) < Rate(GroupFee(g, c))
    ensures var p, l' := l[|l| - 1], l[..|l| - 1];
            Cycle(g, l', p + c, r) && Better(g, l' + [p + c] + r, l + [c] + r)
  {
    hide GroupOk, Rate, GroupFee, Flatten, Sorted, Better, Arranged;
    var p, l' := l[|l| - 1], l[..|l| - 1];
    CycleLast(g, l, c, r);
    MergeArranged(g, l', p, c, r);
    SortedDrop(g, l', p, r);
  }

  lemma SortedDrop(g: DepGraph, l: seq<seq<nat>>, p: seq<nat>, r: seq<seq<nat>>)
    requires Sorted(g, l + ([p] + r))
    ensures Sorted(g, l + r)
  {
    hide Sorted;
    SortedParts(g, l, [p] + r);
    SortedParts(g, [p], r);
    hide Rate, GroupFee;
    assert forall j | 0 <= j < |r| :: ([p] + r)[j + 1] == r[j];
    SortedJoin(g, l, r);
  }

  lemma CycleEnd(g: DepGraph, l: seq<seq<nat>>, c: seq<nat>, r: seq<seq<nat>>)
    requires Cycle(g, l, c, r) && (l != [] ==> Rate(GroupFee(g, l[|l| - 1])) >= Rate(GroupFee(g, c)))
    ensures Arranged(g, l + [c] + r) && Sorted(g, l + [c] + r)
  {
    hide Rate, GroupFee, Arranged, Sorted;
    SortedBetween(g, l, c, r);
  }

  /** Inserting a group gives an arranged and sorted list, without loss. */
  lemma {:induction false} InsertKeeps(g: DepGraph, l: seq<seq<nat>>, c: seq<nat>, r: seq<seq<nat>>)
    requires g.Valid() && Cycle(g, l, c, r)
    ensures Arranged(g, Insert(g, l, c) + r) && Sorted(g, Insert(g, l, c) + r)
    ensures Better(g, Insert(g, l, c) + r, l + [c] + r)
    decreases |l|
  {
    hide Rate, GroupFee, Arranged, Sorted, Better, GroupOk, Cycle, GroupDepends, Higher;
    if l == [] {
      CycleEnd(g, l, c, r);
      BetterSelf(g, l + [c] + r);
    } else {
      var p, l' := l[|l| - 1], l[..|l| - 1];
      CycleLast(g, l, c, r);
      CompareGroups(g, c, p);
      if !Higher(GroupFee(g, c), GroupFee(g, p)) {
        CycleEnd(g, l, c, r);
        BetterSelf(g, l + [c] + r);
      } else if GroupDepends(g, c, p) {
        CycleMerge(g, l, c, r);
        InsertKeeps(g, l', p + c, r);
        BetterTrans(g, Insert(g, l, c) + r, l' + [p + c] + r, l + [c] + r);
      } else {
        CycleSwap(g, l, c, r);
        InsertKeeps(g, l', c, [p] + r);
        assert Insert(g, l', c) + ([p] + r) == Insert(g, l', c) + [p] + r;
        BetterTrans(g, Insert(g, l, c) + r, l' + [c] + ([p] + r), l + [c] + r);
      }
    }
  }

  lemma BetterSelf(g: DepGraph, a: seq<seq<nat>>)
    ensures Better(g, a, a)
  {
    NoWorseSelf(Fees(g, Flatten(a)));
  }

  // ---------------------------------------------------------------- a whole pass

  /** gl is an arrangement of the transactions of lin, sorted, and no worse than lin. */
  ghost predicate Improves(g: DepGraph, gl: seq<seq<nat>>, lin: seq<nat>) {
    && Arranged(g, gl) && Sorted(g, gl) && ToSet(Flatten(gl)) == ToSet(lin)
    && GroupFee(g, Flatten(gl)) == GroupFee(g, lin) && NoWorse(Fees(g, Flatten(gl)), Fees(g, lin))
  }

  lemma SingleOk(g: DepGraph, t: nat)
    ensures GroupOk(g, [t])
  {
    var k := FullCluster(g);
    assert Fees(g, [t]) == [k.FeeOf(t)];
    TightSingle(k.FeeOf(t));
    assert ToSet([t]) == {t};
    assert forall part: set<nat> | part <= {t} && part != {} :: part == {t};
  }

  /** The next transaction of the old linearization begins a group at the end. */
  lemma CycleStart(g: DepGraph, l: seq<seq<nat>>, q: seq<nat>, t: nat)
    requires Improves(g, l, q) && Orderly(g, q + [t])
    ensures Cycle(g, l, [t], [])
    ensures ToSet(Flatten(l + [[t]])) == ToSet(q + [t]) && GroupFee(g, Flatten(l + [[t]])) == GroupFee(g, q + [t])
    ensures NoWorse(Fees(g, Flatten(l + [[t]])), Fees(g, q + [t]))
  {
    hide GroupOk, Fees, Total, NoWorse, Sorted, Flatten, Independent;
    var f := Flatten(l);
    FlattenAppend(l, [t]);
    SingleOk(g, t);
    OrderlyConcat(g, q, [t]);
    assert Independent(g, f, [t]) by { SameIndependent(g, f, q, [t]); }
    OrderlyConcat(g, f, [t]);
    FeesConcat(g, f, [t]);
    FeesConcat(g, q, [t]);
    FrontNoWorse(Fees(g, f), Fees(g, q), Fees(g, [t]));
    ToSetConcat(f, [t]);
    ToSetConcat(q, [t]);
    assert l + [] == l && l + [[t]] + [] == l + [[t]];
  }

  lemma SameIndependent(g: DepGraph, a: seq<nat>, b: seq<nat>, c: seq<nat>)
    requires ToSet(a) == ToSet(b) && Independent(g, b, c)
    ensures Independent(g, a, c)
  {
    assert forall t | t in a :: t in ToSet(a);
  }

  lemma InsertImproves(g: DepGraph, l: seq<seq<nat>>, q: seq<nat>, t: nat)
    requires g.Valid() && Improves(g, l, q) && Orderly(g, q + [t])
    ensures Improves(g, Insert(g, l, [t]), q + [t])
  {
    hide Arranged, Sorted, GroupFee, Fees, Flatten, Insert;
    CycleStart(g, l, q, t);
    InsertKeeps(g, l, [t], []);
    var gl := Insert(g, l, [t]);
    assert gl + [] == gl && l + [[t]] + [] == l + [[t]];
    NoWorseTrans(Fees(g, Flatten(gl)), Fees(g, Flatten(l + [[t]])), Fees(g, q + [t]));
  }

  /** A pass over an orderly sequence: an arrangement of the same transactions in connected groups
      of non-increasing feerate that is no worse. */
  lemma {:induction false} PassImproves(g: DepGraph, lin: seq<nat>)
    requires g.Valid() && Orderly(g, lin)
    ensures Improves(g, Pass(g, lin), lin)
  {
    if lin == [] {
      NoWorseSelf(Fees(g, []));
    } else {
      hide Improves, Insert;
      var m := |lin| - 1;
      assert lin == lin[..m] + [lin[m]];
      OrderlyConcat(g, lin[..m], [lin[m]]);
      PassImproves(g, lin[..m]);
      InsertImproves(g, Pass(g, lin[..m]), lin[..m], lin[m]);
    }
  }
}
