/** A leaf transaction moved to the end, possibly with a higher fee: PostLinearize brings it back
    to a place that is no worse than the one it had. */
module PostMoved {
  import opened FeeFracs
  import opened DepGraphs
  import opened Loading
  import opened Output
  import opened ForestOutput
  import opened Diagrams
  import opened Chunkings
  import opened Linearizing
  import opened PostFees
  import opened PostPass
  import opened PostReverse
  import opened PostTheorems

  /** t is an ancestor of nothing in s. */
  ghost predicate FreeOf(g: DepGraph, t: nat, s: seq<nat>) {
    forall x | x in s :: t !in g.Anc(x)
  }

  lemma NoHigher(g: DepGraph, c: seq<nat>, p: seq<nat>)
    requires c != [] && p != []
    ensures Higher(GroupFee(g, c), GroupFee(g, p)) <==> Rate(GroupFee(g, c)) > Rate(GroupFee(g, p))
  {
    hide Fees, Acc;
    FeesConcat(g, c, []);
    FeesConcat(g, p, []);
    TotalSize(Fees(g, c));
    TotalSize(Fees(g, p));
    HigherRate(GroupFee(g, c), GroupFee(g, p));
  }

  /** Inserting a group that does not depend on t does not care about a group [t] in the list. */
  lemma {:induction false} InsertAround(g: DepGraph, a: seq<seq<nat>>, t: nat, b: seq<seq<nat>>, c: seq<nat>)
    returns (a': seq<seq<nat>>, b': seq<seq<nat>>)
    requires c != [] && FreeOf(g, t, c) && (forall i | 0 <= i < |b| :: FreeOf(g, t, b[i]))
    requires a != [] ==> a[|a| - 1] != [] && Rate(GroupFee(g, a[|a| - 1])) >= Rate(GroupFee(g, [t]))
    ensures Insert(g, a + [[t]] + b, c) == a' + [[t]] + b' && Insert(g, a + b, c) == a' + b'
    decreases |b|
  {
    hide Rate, GroupFee, Higher, Insert, GroupDepends;
    if b == [] {
      a', b' := InsertBehind(g, a, t, c);
      assert a + [[t]] + b == a + [[t]] && a + b == a;
    } else {
      var m := |b| - 1;
      var p, init := b[m], b[..m];
      ListSplit(a, t, init, p);
      assert b == init + [p];
      InsertCases(g, a + [[t]] + init, p, c);
      InsertCases(g, a + init, p, c);
      if !Higher(GroupFee(g, c), GroupFee(g, p)) {
        a', b' := a, b + [c];
        ListSplit(a, t, b, c);
      } else if GroupDepends(g, c, p) {
        a', b' := InsertAround(g, a, t, init, p + c);
      } else {
        var b0;
        a', b0 := InsertAround(g, a, t, init, c);
        b' := b0 + [p];
        ListSplit(a', t, b0, p);
      }
    }
  }

  /** The same when [t] is the last group. */
  lemma InsertBehind(g: DepGraph, a: seq<seq<nat>>, t: nat, c: seq<nat>) returns (a': seq<seq<nat>>, b': seq<seq<nat>>)
    requires c != [] && FreeOf(g, t, c)
    requires a != [] ==> a[|a| - 1] != [] && Rate(GroupFee(g, a[|a| - 1])) >= Rate(GroupFee(g, [t]))
    ensures Insert(g, a + [[t]], c) == a' + [[t]] + b' && Insert(g, a, c) == a' + b'
  {
    hide Rate, GroupFee, Higher, Insert;
    InsertCases(g, a, [t], c);
    NoHigher(g, c, [t]);
    if Higher(GroupFee(g, c), GroupFee(g, [t])) {
      assert !GroupDepends(g, c, [t]);
      a', b' := Insert(g, a, c), [];
    } else {
      a', b' := a, [c];
      if a == [] {
        InsertStart(g, c);
      } else {
        var m := |a| - 1;
        NoHigher(g, c, a[m]);
        InsertCases(g, a[..m], a[m], c);
        assert a == a[..m] + [a[m]];
      }
    }
  }

  lemma InsertCases(g: DepGraph, init: seq<seq<nat>>, p: seq<nat>, c: seq<nat>)
    ensures Insert(g, init + [p], c) ==
            if !Higher(GroupFee(g, c), GroupFee(g, p)) then init + [p] + [c]
            else if GroupDepends(g, c, p) then Insert(g, init, p + c) else Insert(g, init, c) + [p]
  {
    hide GroupFee, Higher, GroupDepends;
    assert (init + [p])[..|init|] == init;
  }

  lemma InsertStart(g: DepGraph, c: seq<nat>)
    ensures Insert(g, [], c) == [c]
  {
  }

  lemma ListSplit(a: seq<seq<nat>>, t: nat, init: seq<seq<nat>>, p: seq<nat>)
    ensures a + [[t]] + (init + [p]) == a + [[t]] + init + [p] && a + (init + [p]) == a + init + [p]
  {
  }

  lemma PassStep(g: DepGraph, q: seq<nat>, x: nat)
    ensures Pass(g, q + [x]) == Insert(g, Pass(g, q), [x])
  {
    assert (q + [x])[..|q|] == q;
  }

  lemma GroupSubset(gl: seq<seq<nat>>, i: nat)
    requires i < |gl|
    ensures ToSet(gl[i]) <= ToSet(Flatten(gl))
  {
    hide Flatten, ToSet;
    FlattenCover(gl);
    assert gl[..|gl|] == gl;
    SetsMember(gl, |gl|, i);
  }

  lemma GroupsFree(g: DepGraph, t: nat, a: seq<seq<nat>>, b: seq<seq<nat>>, xs: seq<nat>)
    requires FreeOf(g, t, xs) && ToSet(Flatten(a + b)) == ToSet(xs)
    ensures forall i | 0 <= i < |b| :: FreeOf(g, t, b[i])
  {
    hide Flatten;
    forall i | 0 <= i < |b|
      ensures FreeOf(g, t, b[i])
    {
      GroupSubset(a + b, |a| + i);
      assert (a + b)[|a| + i] == b[i];
      forall x | x in b[i]
        ensures t !in g.Anc(x)
      {
        assert x in ToSet(b[i]);
        assert x in ToSet(xs);
      }
    }
  }

  /** A pass with t in front is the pass without t, with [t] put in at its place. */
  lemma {:induction false} PassAround(g: DepGraph, t: nat, xs: seq<nat>) returns (a: seq<seq<nat>>, b: seq<seq<nat>>)
    requires g.Valid() && Orderly(g, [t] + xs) && FreeOf(g, t, xs)
    ensures Pass(g, [t] + xs) == a + [[t]] + b && Pass(g, xs) == a + b
  {
    if xs == [] {
      assert [t] + xs == [] + [t];
      PassStep(g, [], t);
      a, b := [], [];
    } else {
      var m := |xs| - 1;
      var q, x := xs[..m], xs[m];
      assert xs == q + [x] && [t] + xs == ([t] + q) + [x];
      OrderlyConcat(g, [t] + q, [x]);
      OrderlyConcat(g, [t], q);
      var a0, b0 := PassAround(g, t, q);
      hide Pass, Insert, Flatten, Rate, GroupFee;
      PassStep(g, q, x);
      PassStep(g, [t] + q, x);
      PassImproves(g, q);
      PassImproves(g, [t] + q);
      GroupsFree(g, t, a0, b0, q);
      LastBefore(g, a0, [t], b0);
      assert x in xs;
      a, b := InsertAround(g, a0, t, b0, [x]);
    }
  }

  lemma LastBefore(g: DepGraph, a: seq<seq<nat>>, c: seq<nat>, b: seq<seq<nat>>)
    requires Arranged(g, a + [c] + b) && Sorted(g, a + [c] + b)
    ensures a != [] ==> a[|a| - 1] != [] && Rate(GroupFee(g, a[|a| - 1])) >= Rate(GroupFee(g, c))
    ensures forall j | 0 <= j < |b| :: Rate(GroupFee(g, b[j])) <= Rate(GroupFee(g, c)) && GroupOk(g, b[j])
    ensures GroupOk(g, c)
  {
    hide Rate, GroupFee, Flatten, Orderly;
    var l := a + [c] + b;
    assert l[|a|] == c && GroupOk(g, l[|a|]);
    if a != [] {
      assert l[|a| - 1] == a[|a| - 1] && GroupOk(g, l[|a| - 1]);
      OkNonEmpty(g, a[|a| - 1]);
    }
    forall j | 0 <= j < |b|
      ensures GroupOk(g, b[j])
    {
      assert l[|a| + 1 + j] == b[j];
    }
    hide GroupOk;
    SortedParts(g, a + [c], b);
    SortedParts(g, a, [c]);
    assert (a + [c])[|a|] == c;
  }

  lemma OkNonEmpty(g: DepGraph, c: seq<nat>)
    requires GroupOk(g, c)
    ensures c != []
  {
  }

  // ---------------------------------------------------------------- back to the end

  /** Moving [t] from its sorted place to the end is no better. */
  lemma {:induction false} MoveBack(g: DepGraph, x: seq<nat>, t: nat, b: seq<seq<nat>>)
    requires GroupOk(g, [t])
    requires forall j | 0 <= j < |b| :: Rate(GroupFee(g, b[j])) <= Rate(GroupFee(g, [t])) && GroupOk(g, b[j])
    ensures NoWorse(Fees(g, x + [t] + Flatten(b)), Fees(g, x + Flatten(b) + [t]))
    decreases |b|
  {
    hide GroupOk, Rate, GroupFee, Fees, NoWorse, Flatten;
    if b == [] {
      FlattenNone();
      assert x + [t] + [] == x + [t] && x + [] + [t] == x + [t];
      NoWorseSelf(Fees(g, x + [t]));
    } else {
      var p, rest := b[0], b[1..];
      var y := Flatten(rest);
      assert b == [p] + rest;
      FlattenConcat([p], rest);
      FlattenSingle(p);
      SwapBetter(g, x, p, [t], y);
      MoveBack(g, x + p, t, rest);
      assert x + [t] + (p + y) == x + [t] + p + y && x + (p + y) + [t] == x + p + y + [t];
      NoWorseTrans(Fees(g, x + [t] + p + y), Fees(g, x + p + [t] + y), Fees(g, x + p + y + [t]));
    }
  }

  /** The pass with t in front is no worse than the sequence with t behind. */
  lemma MovedFront(g: DepGraph, t: nat, xs: seq<nat>)
    requires g.Valid() && Orderly(g, [t] + xs) && FreeOf(g, t, xs)
    ensures NoWorse(Fees(g, Flatten(Pass(g, [t] + xs))), Fees(g, xs + [t]))
  {
    hide Pass, Flatten, Fees, NoWorse, Orderly, FreeOf, Sorted, Rate, Total, GroupOk;
    OrderlyConcat(g, [t], xs);
    PassImproves(g, [t] + xs);
    PassImproves(g, xs);
    var a, b := PassAround(g, t, xs);
    LastBefore(g, a, [t], b);
    MoveBack(g, Flatten(a), t, b);
    FlattenPair(a, [t], [t], b);
    FlattenConcat(a, b);
    FrontNoWorse(Fees(g, Flatten(a + b)), Fees(g, xs), Fees(g, [t]));
    FeesConcat(g, Flatten(a + b), [t]);
    FeesConcat(g, xs, [t]);
    NoWorseTrans(Fees(g, Flatten(Pass(g, [t] + xs))), Fees(g, Flatten(a + b) + [t]), Fees(g, xs + [t]));
  }

  // ---------------------------------------------------------------- continuing a pass

  lemma InsertNoWorse(g: DepGraph, q: seq<nat>, y: nat)
    requires g.Valid() && Orderly(g, q + [y])
    ensures NoWorse(Fees(g, Flatten(Pass(g, q + [y]))), Fees(g, Flatten(Pass(g, q)) + [y]))
  {
    hide Pass, Insert, Flatten, Fees, NoWorse, Orderly, Sorted, Total, Cycle, Improves, Arranged;
    var l := Pass(g, q);
    OrderlyConcat(g, q, [y]);
    PassImproves(g, q);
    PassStep(g, q, y);
    CycleStart(g, l, q, y);
    InsertKeeps(g, l, [y], []);
    FlattenAppend(l, [y]);
    assert Insert(g, l, [y]) + [] == Insert(g, l, [y]) && l + [[y]] + [] == l + [[y]];
  }

  /** Going on with a pass is no worse than leaving the rest as it is. */
  lemma {:induction false} PassContinues(g: DepGraph, q: seq<nat>, ys: seq<nat>)
    requires g.Valid() && Orderly(g, q + ys)
    ensures NoWorse(Fees(g, Flatten(Pass(g, q + ys))), Fees(g, Flatten(Pass(g, q)) + ys))
  {
    hide Pass, Flatten, Fees, NoWorse, Orderly, Sorted, Total, Arranged;
    var f := Flatten(Pass(g, q));
    if ys == [] {
      assert q + ys == q && f + ys == f;
      NoWorseSelf(Fees(g, f));
    } else {
      var m := |ys| - 1;
      var zs, y := ys[..m], ys[m];
      assert ys == zs + [y] && q + ys == (q + zs) + [y] && f + ys == f + zs + [y];
      OrderlyConcat(g, q + zs, [y]);
      OrderlyConcat(g, q, zs);
      PassContinues(g, q, zs);
      InsertNoWorse(g, q + zs, y);
      PassImproves(g, q + zs);
      PassImproves(g, q);
      var h := Flatten(Pass(g, q + zs));
      FeesConcat(g, q, zs);
      FeesConcat(g, f, zs);
      FeesConcat(g, h, [y]);
      FeesConcat(g, f + zs, [y]);
      FrontNoWorse(Fees(g, h), Fees(g, f + zs), Fees(g, [y]));
      NoWorseTrans(Fees(g, Flatten(Pass(g, q + ys))), Fees(g, h + [y]), Fees(g, f + ys));
    }
  }

  /** A pass with t in front is no worse than the sequence with t in the middle. */
  lemma MovedNoWorse(g: DepGraph, t: nat, xs: seq<nat>, ys: seq<nat>)
    requires g.Valid() && Orderly(g, [t] + xs + ys) && FreeOf(g, t, xs)
    ensures NoWorse(Fees(g, Flatten(Pass(g, [t] + xs + ys))), Fees(g, xs + [t] + ys))
  {
    hide Pass, Flatten, Fees, NoWorse, Orderly, FreeOf, Sorted, Total, Arranged;
    OrderlyConcat(g, [t] + xs, ys);
    MovedFront(g, t, xs);
    PassContinues(g, [t] + xs, ys);
    PassImproves(g, [t] + xs);
    var f := Flatten(Pass(g, [t] + xs));
    FeesConcat(g, [t], xs);
    FeesConcat(g, xs, [t]);
    PlusSwap(GroupFee(g, [t]), GroupFee(g, xs));
    FeesConcat(g, f, ys);
    FeesConcat(g, xs + [t], ys);
    FrontNoWorse(Fees(g, f), Fees(g, xs + [t]), Fees(g, ys));
    NoWorseTrans(Fees(g, Flatten(Pass(g, [t] + xs + ys))), Fees(g, f + ys), Fees(g, xs + [t] + ys));
  }

  // ---------------------------------------------------------------- the guarantee

  /** t has no descendants but itself. */
  ghost predicate Leaf(g: DepGraph, t: nat) {
    t in g.entries && forall x | x in g.entries && t in g.Anc(x) :: x == t
  }

  lemma LeafToEnd(g: DepGraph, u: seq<nat>, t: nat, v: seq<nat>)
    requires g.Valid() && IsTopological(g, u + [t] + v) && Leaf(g, t)
    ensures IsTopological(g, u + v + [t]) && Orderly(g, u + v + [t])
    ensures forall x | x in v :: x in g.entries && x !in g.Anc(t)
  {
    hide IsTopological, Orderly, Independent;
    OrderlyTopological(g, u + [t] + v);
    OrderlyConcat(g, u + [t], v);
    OrderlyConcat(g, u, [t]);
    IndependentConcat(g, u, [t], v);
    assert Independent(g, v, [t]) by { LeafIndependent(g, t, v); }
    assert u + [t] + v + [] == u + [t] + v && u + v + [t] + [] == u + v + [t];
    OrderlySwap(g, u, [t], v, []);
    MovedSet(u, t, v);
    OrderlyTopological(g, u + v + [t]);
    BehindLeaf(g, t, v);
  }

  lemma LeafIndependent(g: DepGraph, t: nat, v: seq<nat>)
    requires g.Valid() && Leaf(g, t) && Orderly(g, v) && Independent(g, [t], v)
    ensures Independent(g, v, [t])
  {
    forall x | x in v
      ensures t !in g.Anc(x)
    {
      assert x != t by {
        assert t in [t] && t in g.Anc(t);
      }
    }
  }

  lemma MovedSet(u: seq<nat>, t: nat, v: seq<nat>)
    ensures ToSet(u + [t] + v) == ToSet(u + v + [t])
  {
  }

  lemma BehindLeaf(g: DepGraph, t: nat, v: seq<nat>)
    requires Orderly(g, v) && Independent(g, [t], v)
    ensures forall x | x in v :: x in g.entries && x !in g.Anc(t)
  {
    assert t in [t];
  }

  /** The backward pass over the moved sequence is no worse than the sequence before the move. */
  lemma MovedBackward(g: DepGraph, u: seq<nat>, t: nat, v: seq<nat>)
    requires g.Valid() && IsTopological(g, u + [t] + v) && Leaf(g, t)
    ensures NoWorse(Fees(g, Backward(g, u + v + [t])), Fees(g, u + [t] + v))
  {
    hide IsTopological, Orderly, Reversed, Reverse, Pass, Flatten, Fees, NoWorse, ToSet, Leaf, Sorted, Total, Arranged;
    var r := Reversed(g);
    var ys, xs := Reverse(u), Reverse(v);
    LeafToEnd(g, u, t, v);
    ReversedValid(g);
    OrderlyTopological(g, u + [t] + v);
    ReversedOrderly(g, u + [t] + v);
    ReversedOrderly(g, u + v + [t]);
    ReverseMoved(u, t, v);
    assert FreeOf(r, t, xs) by { ReversedFree(g, t, v); }
    MovedNoWorse(r, t, xs, ys);
    PassImproves(r, [t] + xs + ys);
    var z := Flatten(Pass(r, [t] + xs + ys));
    assert Orderly(r, z) by { ArrangedOrderly(r, Pass(r, [t] + xs + ys)); }
    MovedSet(u, t, v);
    ReverseSet(u + [t] + v);
    ReverseSet(u + v + [t]);
    SameTotal(r, z, xs + [t] + ys);
    BackwardNoWorse(g, z, u + [t] + v);
  }

  lemma ArrangedOrderly(g: DepGraph, gl: seq<seq<nat>>)
    requires Arranged(g, gl)
    ensures Orderly(g, Flatten(gl))
  {
  }

  lemma ReverseMoved(u: seq<nat>, t: nat, v: seq<nat>)
    ensures Reverse(u + [t] + v) == Reverse(v) + [t] + Reverse(u)
    ensures Reverse(u + v + [t]) == [t] + Reverse(v) + Reverse(u)
  {
    hide Reverse;
    ReverseOne(t);
    ReverseConcat(u + [t], v);
    ReverseConcat(u, [t]);
    ReverseConcat(u + v, [t]);
    ReverseConcat(u, v);
    ConcatThree(Reverse(v), [t], Reverse(u));
    ConcatThree([t], Reverse(v), Reverse(u));
  }

  lemma ReverseOne(t: nat)
    ensures Reverse([t]) == [t]
  {
  }

  lemma ConcatThree(a: seq<nat>, b: seq<nat>, c: seq<nat>)
    ensures a + (b + c) == a + b + c
  {
  }

  lemma ReversedFree(g: DepGraph, t: nat, v: seq<nat>)
    requires g.Valid() && forall x | x in v :: x in g.entries && x !in g.Anc(t)
    ensures FreeOf(Reversed(g), t, Reverse(v))
  {
    forall x | x in Reverse(v)
      ensures t !in Reversed(g).Anc(x)
    {
      assert x in v;
      ReversedAnc(g, t, x);
    }
  }

  /** g' is g with a fee of transaction t that is no lower. */
  ghost predicate FeeRaised(g: DepGraph, g': DepGraph, t: nat) {
    && g'.entries.Keys == g.entries.Keys
    && (forall i | i in g.entries ::
          && g'.entries[i].ancestors == g.entries[i].ancestors && g'.entries[i].descendants == g.entries[i].descendants
          && g'.entries[i].feerate.size == g.entries[i].feerate.size
             && g'.entries[i].feerate.fee >= g.entries[i].feerate.fee
          && (i != t ==> g'.entries[i].feerate == g.entries[i].feerate))
  }

  lemma {:induction false} RaisedCorner(g: DepGraph, g': DepGraph, t: nat, s: seq<nat>, n: nat)
    requires FeeRaised(g, g', t) && n <= |s|
    ensures Acc(Fees(g', s), n).size == Acc(Fees(g, s), n).size && Acc(Fees(g', s), n).fee >= Acc(Fees(g, s), n).fee
  {
    if n == 0 {
      AccNone(Fees(g, s));
      AccNone(Fees(g', s));
    } else {
      RaisedCorner(g, g', t, s, n - 1);
      hide Acc;
      AccStep(Fees(g, s), n - 1);
      AccStep(Fees(g', s), n - 1);
    }
  }

  lemma WeightFee(l: real, a: FeeFrac, b: FeeFrac)
    requires a.size == b.size && a.fee >= b.fee
    ensures Weight(l, a) >= Weight(l, b)
  {
    hide Weight, Gain;
    WeightGain(l, a);
    WeightGain(l, b);
  }

  lemma RaisedNoWorse(g: DepGraph, g': DepGraph, t: nat, s: seq<nat>)
    requires FeeRaised(g, g', t)
    ensures NoWorse(Fees(g', s), Fees(g, s))
  {
    var a, b := Fees(g', s), Fees(g, s);
    assert |a| == |b|;
    hide Acc, Fees, FeeRaised, Weight;
    forall l: real, n: nat | n <= |b|
      ensures Attains(a, l, Weight(l, Acc(b, n)))
    {
      RaisedCorner(g, g', t, s, n);
      WeightFee(l, Acc(a, n), Acc(b, n));
      assert n <= |a| && Weight(l, Acc(a, n)) >= Weight(l, Acc(b, n));
    }
  }

  lemma RaisedGraph(g: DepGraph, g': DepGraph, t: nat)
    requires g.Valid() && FeeRaised(g, g', t)
    ensures g'.Valid() && g'.Positions() == g.Positions() && forall i :: g'.Anc(i) == g.Anc(i)
  {
  }

  lemma RaisedTopological(g: DepGraph, g': DepGraph, t: nat, s: seq<nat>)
    requires g.Valid() && FeeRaised(g, g', t) && IsTopological(g, s)
    ensures IsTopological(g', s)
  {
    RaisedGraph(g, g', t);
    hide FeeRaised;
  }

  /** Diagrams whose totals may differ in the fee. */
  lemma NoWorseDominates(a: seq<FeeFrac>, b: seq<FeeFrac>)
    requires Sized(a) && Sized(b) && NoWorse(a, b) && Total(a).size == Total(b).size && Total(a).fee >= Total(b).fee
    ensures Dominates(Chunking(a), Chunking(b))
  {
    hide Chunking, Acc, Height, Sized, NonIncreasing, NoWorse;
    ChunkingExact(a);
    ChunkingExact(b);
    NoWorseTrans(Chunking(a), a, b);
    NoWorseTrans(Chunking(a), b, Chunking(b));
    forall x: real | x >= 0.0
      ensures Height(Chunking(a), x) >= Height(Chunking(b), x)
    {
      AttainsAbove(Chunking(a), Chunking(b), x);
    }
  }

  /** Replacing a leaf by a transaction of the same size and no lower fee, appended at the end and
      postlinearized, does not make the linearization worse. */
  lemma MovedLeaf(g: DepGraph, g': DepGraph, u: seq<nat>, t: nat, v: seq<nat>)
    requires g.Valid() && FeeRaised(g, g', t) && IsTopological(g, u + [t] + v) && Leaf(g, t)
    ensures IsTopological(g', PostLinearization(g', u + v + [t]))
    ensures Dominates(Diagram(g', PostLinearization(g', u + v + [t])), Diagram(g, u + [t] + v))
  {
    hide IsTopological, Pass, Flatten, Fees, NoWorse, ToSet, Sorted, Backward, FeeRaised, AsGood, Dominates, Orderly,
        Improves, Acc, FeesOf, ClusterOf, Chunking;
    var before, moved := u + [t] + v, u + v + [t];
    RaisedGraph(g, g', t);
    RaisedTopological(g, g', t, before);
    LeafRaised(g, g', t);
    LeafToEnd(g', u, t, v);
    PostImproves(g', moved);
    var res, back := PostLinearization(g', moved), Backward(g', moved);
    MovedBackward(g', u, t, v);
    BackwardImproves(g', moved);
    assert NoWorse(Fees(g', res), Fees(g', back)) by { PassNoWorse(g', back); }
    NoWorseTrans(Fees(g', res), Fees(g', back), Fees(g', before));
    RaisedNoWorse(g, g', t, before);
    NoWorseTrans(Fees(g', res), Fees(g', before), Fees(g, before));
    OrderlyTopological(g', res);
    OrderlyTopological(g', before);
    SameTotal(g', res, before);
    FeesConcat(g', res, []);
    FeesConcat(g', before, []);
    FeesConcat(g, before, []);
    RaisedCorner(g, g', t, before, |before|);
    NoWorseDominates(Fees(g', res), Fees(g, before));
    FeesSame(g', res);
    FeesSame(g, before);
  }

  lemma PassNoWorse(g: DepGraph, lin: seq<nat>)
    requires g.Valid() && Orderly(g, lin)
    ensures NoWorse(Fees(g, Flatten(Pass(g, lin))), Fees(g, lin))
  {
    PassImproves(g, lin);
  }

  lemma LeafRaised(g: DepGraph, g': DepGraph, t: nat)
    requires g.Valid() && FeeRaised(g, g', t) && Leaf(g, t)
    ensures Leaf(g', t)
  {
    RaisedGraph(g, g', t);
  }
}
