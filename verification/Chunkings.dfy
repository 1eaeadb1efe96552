/** Chunkings: the feerates of a linearization, merged from the back as long as the feerate would
    increase. The chunking is the least concave diagram above all prefixes. */
module Chunkings {
  import opened FeeFracs
  import opened Clusters
  import opened DepGraphs
  import opened Forests
  import opened Loading
  import opened Output
  import opened Diagrams

  /** A new chunk absorbs the last ones as long as it has the higher feerate. */
  function Absorb(ret: seq<FeeFrac>, c: FeeFrac): seq<FeeFrac> {
    if ret != [] && Higher(c, ret[|ret| - 1]) then Absorb(ret[..|ret| - 1], c.Plus(ret[|ret| - 1])) else ret + [c]
  }

  function Chunking(fs: seq<FeeFrac>): seq<FeeFrac> {
    if fs == [] then [] else Absorb(Chunking(fs[..|fs| - 1]), fs[|fs| - 1])
  }

  // ---------------------------------------------------------------- groups of transactions

  ghost function Total(p: seq<FeeFrac>): FeeFrac {
    Acc(p, |p|)
  }

  /** No beginning of p has a higher feerate than all of p. */
  ghost predicate Whole(p: seq<FeeFrac>) {
    p != [] && Sized(p) && forall n: nat | n <= |p| :: Weight(Rate(Total(p)), Acc(p, n)) <= 0.0
  }

  ghost function Concat(parts: seq<seq<FeeFrac>>): seq<FeeFrac> {
    if parts == [] then [] else Concat(parts[..|parts| - 1]) + parts[|parts| - 1]
  }

  /** cs are the totals of whole groups that make up fs. */
  ghost predicate Grouped(fs: seq<FeeFrac>, parts: seq<seq<FeeFrac>>, cs: seq<FeeFrac>) {
    && Concat(parts) == fs && |parts| == |cs|
    && (forall i | 0 <= i < |cs| :: Whole(parts[i]) && cs[i] == Total(parts[i]))
  }

  lemma TotalSize(p: seq<FeeFrac>)
    requires Sized(p) && p != []
    ensures Total(p).size > 0
  {
    AccSize(p, 0, |p|);
  }

  /** Beginnings of a whole group never beat both its ends. */
  lemma WholeEnds(p: seq<FeeFrac>, l: real, n: nat)
    requires Whole(p) && n <= |p|
    ensures Weight(l, Acc(p, n)) <= if Rate(Total(p)) <= l then 0.0 else Weight(l, Total(p))
  {
    var c, x := Total(p), Acc(p, n).size as real;
    TotalSize(p);
    AccSize(p, n, |p|);
    hide Gain, Weight, Rate, Acc;
    WeightGain(Rate(c), Acc(p, n));
    WeightGain(l, Acc(p, n));
    LineEnds(l, c, x);
  }

  lemma WholeSingle(c: FeeFrac)
    requires c.size > 0
    ensures Whole([c]) && Total([c]) == c
  {
    AccStep([c], 0);
    AccNone([c]);
    WeightSign(Rate(c), c);
    assert Weight(Rate(c), EMPTY) == 0.0;
    hide Weight, Rate, Acc;
    forall n: nat | n <= 1
      ensures Weight(Rate(c), Acc([c], n)) <= 0.0
    {
      assert n == 0 || n == 1;
    }
  }

  lemma SizedConcat(p: seq<FeeFrac>, q: seq<FeeFrac>)
    requires Sized(p) && Sized(q)
    ensures Sized(p + q)
  {
  }

  /** A group followed by one of higher feerate is whole. */
  lemma WholeJoin(p: seq<FeeFrac>, q: seq<FeeFrac>)
    requires Whole(p) && Whole(q) && Rate(Total(p)) < Rate(Total(q))
    ensures Whole(p + q) && Total(p + q) == Total(p).Plus(Total(q))
  {
    hide Weight, Rate, Acc, Sized;
    var t, tp, tq := Total(p + q), Total(p), Total(q);
    AccConcat(p, q, |q|);
    SizedConcat(p, q);
    TotalSize(p);
    TotalSize(q);
    Mediant(tp, tq);
    var l := Rate(t);
    WeightPlus(l, tp, tq);
    WeightSign(l, t);
    forall n: nat | n <= |p + q|
      ensures Weight(l, Acc(p + q, n)) <= 0.0
    {
      if n <= |p| {
        AccPrefix(p, q, n);
        WholeEnds(p, l, n);
      } else {
        var m := n - |p|;
        AccConcat(p, q, m);
        WholeEnds(q, l, m);
        WeightPlus(l, tp, Acc(q, m));
      }
    }
  }

  // ---------------------------------------------------------------- merging keeps groups

  lemma NonIncreasingAppend(s: seq<FeeFrac>, c: FeeFrac)
    requires NonIncreasing(s) && (s != [] ==> Rate(s[|s| - 1]) >= Rate(c))
    ensures NonIncreasing(s + [c])
  {
    hide Rate;
    var s' := s + [c];
    forall i, j | 0 <= i < j < |s'|
      ensures Rate(s'[i]) >= Rate(s'[j])
    {
      assert j < |s| || i == |s| - 1 || Rate(s[i]) >= Rate(s[|s| - 1]);
    }
  }

  lemma ConcatAppend(parts: seq<seq<FeeFrac>>, p: seq<FeeFrac>)
    ensures Concat(parts + [p]) == Concat(parts) + p
  {
    assert (parts + [p])[..|parts|] == parts;
  }

  lemma ConcatLast(parts: seq<seq<FeeFrac>>)
    requires parts != []
    ensures Concat(parts) == Concat(parts[..|parts| - 1]) + parts[|parts| - 1]
  {
  }

  lemma {:induction false} AbsorbGrouped(parts: seq<seq<FeeFrac>>, ret: seq<FeeFrac>, p: seq<FeeFrac>)
    returns (parts': seq<seq<FeeFrac>>)
    requires Grouped(Concat(parts), parts, ret) && NonIncreasing(ret) && Whole(p)
    ensures Grouped(Concat(parts) + p, parts', Absorb(ret, Total(p))) && NonIncreasing(Absorb(ret, Total(p)))
    decreases |ret|
  {
    hide Whole, Rate, Concat, Total, Higher;
    if ret == [] {
      parts' := parts + [p];
      ConcatAppend(parts, p);
      NonIncreasingAppend(ret, Total(p));
    } else {
      var last, lastPart := ret[|ret| - 1], parts[|ret| - 1];
      LastCompared(lastPart, p);
      if Higher(Total(p), last) {
        WholeJoin(lastPart, p);
        PlusSwap(Total(lastPart), Total(p));
        var init := parts[..|ret| - 1];
        parts' := AbsorbGrouped(init, ret[..|ret| - 1], lastPart + p);
        ConcatLast(parts);
        assert Concat(init) + (lastPart + p) == Concat(parts) + p;
      } else {
        parts' := parts + [p];
        ConcatAppend(parts, p);
        NonIncreasingAppend(ret, Total(p));
      }
    }
  }

  lemma PlusSwap(a: FeeFrac, b: FeeFrac)
    ensures a.Plus(b) == b.Plus(a)
  {
  }

  lemma LastCompared(p: seq<FeeFrac>, q: seq<FeeFrac>)
    requires Whole(p) && Whole(q)
    ensures Higher(Total(q), Total(p)) <==> Rate(Total(p)) < Rate(Total(q))
  {
    TotalSize(p);
    TotalSize(q);
    CompareIsRateOrder(Total(q), Total(p));
  }

  lemma {:induction false} ChunkingGrouped(fs: seq<FeeFrac>) returns (parts: seq<seq<FeeFrac>>)
    requires Sized(fs)
    ensures Grouped(fs, parts, Chunking(fs)) && NonIncreasing(Chunking(fs))
  {
    if fs == [] {
      parts := [];
    } else {
      var init, last := fs[..|fs| - 1], fs[|fs| - 1];
      var before := ChunkingGrouped(init);
      hide Whole, Rate, Concat, Total, Absorb, Acc;
      WholeSingle(last);
      parts := AbsorbGrouped(before, Chunking(init), [last]);
      assert fs == init + [last];
    }
  }

  // ---------------------------------------------------------------- corners of groups

  lemma GroupedInit(fs: seq<FeeFrac>, parts: seq<seq<FeeFrac>>, cs: seq<FeeFrac>)
    requires Grouped(fs, parts, cs) && cs != []
    ensures var n := |cs| - 1; Grouped(Concat(parts[..n]), parts[..n], cs[..n]) && fs == Concat(parts[..n]) + parts[n]
    ensures Whole(parts[|cs| - 1]) && cs == cs[..|cs| - 1] + [Total(parts[|cs| - 1])]
  {
    hide Whole, Total;
    ConcatLast(parts);
  }

  lemma AccAppend(cs: seq<FeeFrac>, c: FeeFrac)
    ensures Acc(cs + [c], |cs| + 1) == Acc(cs, |cs|).Plus(c)
  {
    AccStep(cs + [c], |cs|);
    AccPrefix(cs, [c], |cs|);
    hide Acc;
  }

  lemma {:induction false} GroupedTotal(fs: seq<FeeFrac>, parts: seq<seq<FeeFrac>>, cs: seq<FeeFrac>)
    requires Grouped(fs, parts, cs)
    ensures Total(cs) == Total(fs) && Sized(cs) && Sized(fs)
    decreases |cs|
  {
    if cs != [] {
      var n := |cs| - 1;
      GroupedInit(fs, parts, cs);
      GroupedTotal(Concat(parts[..n]), parts[..n], cs[..n]);
      hide Acc, Concat, Whole;
      WholeSized(parts[n]);
      SizedConcat(Concat(parts[..n]), parts[n]);
      SizedConcat(cs[..n], [Total(parts[n])]);
      AccConcat(Concat(parts[..n]), parts[n], |parts[n]|);
      AccAppend(cs[..n], Total(parts[n]));
    }
  }

  lemma WholeSized(p: seq<FeeFrac>)
    requires Whole(p)
    ensures Sized(p) && Total(p).size > 0
  {
    TotalSize(p);
  }

  /** No corner of fs beats all corners of its groups. */
  lemma {:induction false} GroupedUnder(fs: seq<FeeFrac>, parts: seq<seq<FeeFrac>>, cs: seq<FeeFrac>, l: real,
                                        n: nat) returns (m: nat)
    requires Grouped(fs, parts, cs) && n <= |fs|
    ensures m <= |cs| && Weight(l, Acc(fs, n)) <= Weight(l, Acc(cs, m))
    decreases |cs|
  {
    m := 0;
    if cs != [] {
      GroupedInit(fs, parts, cs);
      var i := |cs| - 1;
      var front, p, c := Concat(parts[..i]), parts[i], Total(parts[i]);
      hide Acc, Concat, Whole, Weight, Total, Rate;
      if n <= |front| {
        m := GroupedUnder(front, parts[..i], cs[..i], l, n);
        AccPrefix(front, p, n);
        AccPrefix(cs[..i], [c], m);
      } else {
        var k := n - |front|;
        AccConcat(front, p, k);
        WholeEnds(p, l, k);
        FrontTotal(front, parts[..i], cs[..i]);
        WeightPlus(l, Acc(front, |front|), Acc(p, k));
        WeightPlus(l, Acc(front, |front|), c);
        AccPrefix(cs[..i], [c], i);
        AccAppend(cs[..i], c);
        m := if Rate(c) <= l then i else i + 1;
      }
    }
  }

  lemma FrontTotal(fs: seq<FeeFrac>, parts: seq<seq<FeeFrac>>, cs: seq<FeeFrac>)
    requires Grouped(fs, parts, cs)
    ensures Acc(fs, |fs|) == Acc(cs, |cs|)
  {
    GroupedTotal(fs, parts, cs);
  }

  /** Every corner of the groups is a corner of fs. */
  lemma {:induction false} GroupedOver(fs: seq<FeeFrac>, parts: seq<seq<FeeFrac>>, cs: seq<FeeFrac>,
                                       m: nat) returns (n: nat)
    requires Grouped(fs, parts, cs) && m <= |cs|
    ensures n <= |fs| && Acc(fs, n) == Acc(cs, m)
    decreases |cs|
  {
    if m == |cs| {
      FrontTotal(fs, parts, cs);
      n := |fs|;
    } else {
      GroupedInit(fs, parts, cs);
      var i := |cs| - 1;
      hide Acc, Concat, Whole, Total;
      n := GroupedOver(Concat(parts[..i]), parts[..i], cs[..i], m);
      AccPrefix(Concat(parts[..i]), parts[i], n);
      AccPrefix(cs[..i], [Total(parts[i])], m);
    }
  }

  // ---------------------------------------------------------------- what the chunking is

  /** The chunking: same total, non-increasing feerates, and as good as the transactions
      themselves at every reference feerate. */
  lemma ChunkingExact(fs: seq<FeeFrac>)
    requires Sized(fs)
    ensures Sized(Chunking(fs)) && NonIncreasing(Chunking(fs)) && Total(Chunking(fs)) == Total(fs)
    ensures NoWorse(Chunking(fs), fs) && NoWorse(fs, Chunking(fs))
  {
    hide Grouped, Chunking, Sized, NonIncreasing, Acc, Weight;
    var cs := Chunking(fs);
    var parts := ChunkingGrouped(fs);
    GroupedTotal(fs, parts, cs);
    forall l: real, n: nat | n <= |fs|
      ensures Attains(cs, l, Weight(l, Acc(fs, n)))
    {
      var m := GroupedUnder(fs, parts, cs, l, n);
    }
    forall l: real, m: nat | m <= |cs|
      ensures Attains(fs, l, Weight(l, Acc(cs, m)))
    {
      var n := GroupedOver(fs, parts, cs, m);
      assert Weight(l, Acc(fs, n)) >= Weight(l, Acc(cs, m));
    }
  }

  lemma NoWorseTrans(a: seq<FeeFrac>, b: seq<FeeFrac>, c: seq<FeeFrac>)
    requires NoWorse(a, b) && NoWorse(b, c)
    ensures NoWorse(a, c)
  {
    hide Acc, Weight;
    forall l: real, n: nat | n <= |c|
      ensures Attains(a, l, Weight(l, Acc(c, n)))
    {
      assert Attains(b, l, Weight(l, Acc(c, n)));
      var m: nat :| m <= |b| && Weight(l, Acc(b, m)) >= Weight(l, Acc(c, n));
      assert Attains(a, l, Weight(l, Acc(b, m)));
    }
  }

  /** The chunking is above the transactions, and below every other concave diagram that is. */
  lemma ChunkingLeast(fs: seq<FeeFrac>, d: seq<FeeFrac>)
    requires Sized(fs) && Sized(d) && NonIncreasing(d) && Total(d) == Total(fs)
    ensures Dominates(Chunking(fs), fs)
    ensures Dominates(d, fs) ==> Dominates(d, Chunking(fs))
  {
    hide Chunking, Acc, Sized, NonIncreasing, Dominates, NoWorse;
    var cs := Chunking(fs);
    ChunkingExact(fs);
    DominatesIffNoWorse(cs, fs);
    DominatesIffNoWorse(d, fs);
    DominatesIffNoWorse(d, cs);
    if Dominates(d, fs) {
      NoWorseTrans(d, fs, cs);
    }
  }

  /** Comparing diagrams of chunkings is comparing the transactions at every reference feerate. */
  lemma ChunkingOrder(a: seq<FeeFrac>, b: seq<FeeFrac>)
    requires Sized(a) && Sized(b) && Total(a) == Total(b)
    ensures Dominates(Chunking(a), Chunking(b)) <==> NoWorse(a, b)
  {
    hide Chunking, Acc, Sized, NonIncreasing, Dominates, NoWorse;
    ChunkingExact(a);
    ChunkingExact(b);
    DominatesIffNoWorse(Chunking(a), Chunking(b));
    if NoWorse(a, b) {
      NoWorseTrans(Chunking(a), a, b);
      NoWorseTrans(Chunking(a), b, Chunking(b));
    }
    if NoWorse(Chunking(a), Chunking(b)) {
      NoWorseTrans(a, Chunking(a), Chunking(b));
      NoWorseTrans(a, Chunking(b), b);
    }
  }

  // ---------------------------------------------------------------- when groups are the chunking

  /** Every proper beginning of p has a lower feerate than all of p. */
  ghost predicate Tight(p: seq<FeeFrac>) {
    p != [] && Sized(p) && forall n: nat | 0 < n < |p| :: Rate(Acc(p, n)) < Rate(Total(p))
  }

  lemma ConcatFirst(parts: seq<seq<FeeFrac>>)
    requires parts != []
    ensures |Concat(parts)| >= |parts[0]| && Concat(parts)[..|parts[0]|] == parts[0]
    decreases |parts|
  {
    ConcatLast(parts);
    if |parts| == 1 {
      assert parts[..0] == [];
      assert Concat([]) == [];
    } else {
      ConcatFirst(parts[..|parts| - 1]);
    }
  }

  lemma ConcatMore(parts: seq<seq<FeeFrac>>)
    requires |parts| > 1 && forall i | 0 <= i < |parts| :: parts[i] != []
    ensures |Concat(parts)| > |parts[0]|
  {
    ConcatLast(parts);
    ConcatFirst(parts[..|parts| - 1]);
  }

  lemma {:induction false} BelowTotal(cs: seq<FeeFrac>, n: nat)
    requires Sized(cs) && NonIncreasing(cs) && 0 < n <= |cs|
    ensures Acc(cs, n).size > 0 && Rate(Acc(cs, n)) <= Rate(cs[0])
  {
    hide Rate;
    AccSize(cs, 0, n);
    if n == 1 {
      AccStep(cs, 0);
      AccNone(cs);
      assert EMPTY.Plus(cs[0]) == cs[0];
    } else {
      BelowTotal(cs, n - 1);
      AccStep(cs, n - 1);
      AccSize(cs, 0, n - 1);
      Mediant(Acc(cs, n - 1), cs[n - 1]);
    }
  }

  /** A tight group is one chunk. */
  lemma TightIsChunk(p: seq<FeeFrac>)
    requires Tight(p)
    ensures Chunking(p) == [Total(p)]
  {
    hide Rate, Concat, Chunking, Acc, NonIncreasing;
    var cs := Chunking(p);
    var parts := ChunkingGrouped(p);
    GroupedTotal(p, parts, cs);
    TotalSize(p);
    assert cs != [] by {
      AccNone(cs);
    }
    hide Whole;
    BelowTotal(cs, |cs|);
    ConcatFirst(parts);
    WholeSized(parts[0]);
    WholeNonEmpty(parts, |cs|);
    var n := |parts[0]|;
    AccPrefix(p[..n], p[n..], n);
    assert p == p[..n] + p[n..];
    assert cs[0] == Acc(p, n);
    if |cs| > 1 {
      ConcatMore(parts);
    } else {
      SingleTotal(cs);
    }
  }

  lemma WholeNonEmpty(parts: seq<seq<FeeFrac>>, n: nat)
    requires |parts| == n && forall i | 0 <= i < n :: Whole(parts[i])
    ensures forall i | 0 <= i < n :: parts[i] != []
  {
  }

  lemma SingleTotal(cs: seq<FeeFrac>)
    requires |cs| == 1
    ensures cs == [Total(cs)]
  {
    AccStep(cs, 0);
    AccNone(cs);
  }

  /** Chunks of no lower feerate in front are not touched. */
  lemma {:induction false} AbsorbBehind(front: seq<FeeFrac>, ds: seq<FeeFrac>, c: FeeFrac)
    requires c.size > 0 && Sized(ds) && Sized(front)
    requires front != [] ==> Rate(Total(ds).Plus(c)) <= Rate(front[|front| - 1])
    ensures Absorb(front + ds, c) == front + Absorb(ds, c)
    decreases |ds|
  {
    hide Rate, Acc, Higher, Absorb, Total;
    var all := front + ds;
    if ds == [] {
      assert all == front;
      AbsorbBehindNone(front, c);
    } else {
      var m := |ds| - 1;
      var last, init := ds[m], ds[..m];
      AbsorbLast(ds, c);
      AbsorbLast(all, c);
      assert all[|all| - 1] == last && all[..|all| - 1] == front + init;
      if Higher(c, last) {
        TotalRegrouped(ds, c);
        AbsorbBehind(front, init, c.Plus(last));
      } else {
        assert all + [c] == front + (ds + [c]);
      }
    }
  }

  lemma AbsorbBehindNone(front: seq<FeeFrac>, c: FeeFrac)
    requires c.size > 0 && Sized(front) && (front != [] ==> Rate(Total([]).Plus(c)) <= Rate(front[|front| - 1]))
    ensures Absorb(front, c) == front + Absorb([], c)
  {
    hide Rate, Acc, Higher, Absorb;
    AccNone([]);
    AbsorbNone(c);
    assert EMPTY.Plus(c) == c;
    if front != [] {
      HigherRate(c, front[|front| - 1]);
      AbsorbLast(front, c);
    } else {
      assert front + [c] == [c];
    }
  }

  lemma TotalRegrouped(ds: seq<FeeFrac>, c: FeeFrac)
    requires ds != []
    ensures Total(ds[..|ds| - 1]).Plus(c.Plus(ds[|ds| - 1])) == Total(ds).Plus(c)
  {
    hide Acc;
    var last, init := ds[|ds| - 1], ds[..|ds| - 1];
    assert ds == init + [last];
    AccAppend(init, last);
  }

  lemma {:induction false} AbsorbLast(ds: seq<FeeFrac>, c: FeeFrac)
    requires ds != []
    ensures Absorb(ds, c) == if Higher(c, ds[|ds| - 1]) then Absorb(ds[..|ds| - 1], c.Plus(ds[|ds| - 1])) else ds + [c]
  {
  }

  lemma HigherRate(a: FeeFrac, b: FeeFrac)
    requires a.size > 0 && b.size > 0
    ensures Higher(a, b) <==> Rate(a) > Rate(b)
  {
    CompareIsRateOrder(a, b);
  }

  lemma ChunkingStepBehind(fs: seq<FeeFrac>, p: seq<FeeFrac>, n: nat)
    requires n < |p|
    ensures Chunking(fs + p[..n + 1]) == Absorb(Chunking(fs + p[..n]), p[n])
  {
    hide Chunking, Absorb;
    var all, m := fs + p[..n + 1], |fs| + n;
    ChunkingStep(all, m);
    assert all[..m] == fs + p[..n] && all[..m + 1] == all && all[m] == p[n];
  }

  lemma ChunkingPrefix(p: seq<FeeFrac>, n: nat)
    requires Sized(p) && n < |p|
    ensures Sized(Chunking(p[..n])) && Total(Chunking(p[..n])).Plus(p[n]) == Acc(p, n + 1)
  {
    hide Chunking, Acc, NonIncreasing, NoWorse;
    ChunkingExact(p[..n]);
    AccStep(p, n);
    AccPrefix(p[..n], p[n..], n);
    assert p == p[..n] + p[n..];
  }

  lemma {:induction false} ChunkingBehind(fs: seq<FeeFrac>, p: seq<FeeFrac>, n: nat)
    requires Sized(fs) && Tight(p) && n <= |p|
    requires Chunking(fs) != [] ==> Rate(Total(p)) <= Rate(Chunking(fs)[|Chunking(fs)| - 1])
    ensures Chunking(fs + p[..n]) == Chunking(fs) + Chunking(p[..n])
  {
    hide Rate, Acc, Chunking, Absorb, NonIncreasing, NoWorse;
    if n == 0 {
      ChunkingNone();
      assert fs + p[..0] == fs;
    } else {
      ChunkingBehind(fs, p, n - 1);
      ChunkingStepBehind(fs, p, n - 1);
      ChunkingStep(p, n - 1);
      ChunkingPrefix(p, n - 1);
      ChunkingExact(fs);
      AbsorbBehind(Chunking(fs), Chunking(p[..n - 1]), p[n - 1]);
    }
  }

  /** Tight groups of non-increasing feerate are the chunks. */
  lemma {:induction false} ChunkingOfGroups(parts: seq<seq<FeeFrac>>, cs: seq<FeeFrac>)
    requires |parts| == |cs| && forall i | 0 <= i < |cs| :: Tight(parts[i]) && cs[i] == Total(parts[i])
    requires NonIncreasing(cs)
    ensures Chunking(Concat(parts)) == cs && Sized(Concat(parts))
    decreases |cs|
  {
    if cs == [] {
      ChunkingNone();
    } else {
      var m := |cs| - 1;
      ChunkingOfGroups(parts[..m], cs[..m]);
      hide Tight, Total, Concat, Chunking, Rate;
      ConcatLast(parts);
      GroupBehind(Concat(parts[..m]), parts[m], cs[..m]);
      assert cs == cs[..m] + [cs[m]];
    }
  }

  /** One more tight group of no higher feerate is one more chunk. */
  lemma GroupBehind(front: seq<FeeFrac>, p: seq<FeeFrac>, ds: seq<FeeFrac>)
    requires Sized(front) && Chunking(front) == ds && Tight(p)
    requires ds != [] ==> Rate(Total(p)) <= Rate(ds[|ds| - 1])
    ensures Chunking(front + p) == ds + [Total(p)] && Sized(front + p)
  {
    hide Tight, Total, Chunking, Rate, NonIncreasing;
    TightIsChunk(p);
    ChunkingBehind(front, p, |p|);
    assert p[..|p|] == p;
    TightSized(p);
    SizedConcat(front, p);
  }

  lemma TightSized(p: seq<FeeFrac>)
    requires Tight(p)
    ensures Sized(p)
  {
  }

  // ---------------------------------------------------------------- chunkings of linearizations

  /** The feerates of the transactions of lin. */
  ghost function FeesOf(k: Cluster, lin: seq<nat>): seq<FeeFrac> {
    seq(|lin|, (i: nat) => if i < |lin| then k.FeeOf(lin[i]) else EMPTY)
  }

  lemma FeesSized(k: Cluster, lin: seq<nat>)
    ensures Sized(FeesOf(k, lin)) && |FeesOf(k, lin)| == |lin|
    ensures forall n: nat | n <= |lin| :: FeesOf(k, lin[..n]) == FeesOf(k, lin)[..n]
  {
  }

  lemma {:induction false} FeesAcc(k: Cluster, lin: seq<nat>, n: nat)
    requires n <= |lin| && forall i, j | 0 <= i < j < |lin| :: lin[i] != lin[j]
    ensures Acc(FeesOf(k, lin), n) == FeeRate(k, ToSet(lin[..n]))
  {
    hide Acc, FeeRate, FeesOf, ToSet;
    var fs := FeesOf(k, lin);
    FeesSized(k, lin);
    if n == 0 {
      AccNone(fs);
      NoFees(k, lin);
    } else {
      FeesAcc(k, lin, n - 1);
      var s, t := ToSet(lin[..n - 1]), lin[n - 1];
      AccStep(fs, n - 1);
      FeesAt(k, lin, n - 1);
      PrefixGrows(lin, n);
      FeeRateUnion(k, s, {t});
      FeeRateSingleton(k, t);
    }
  }

  lemma FeesAt(k: Cluster, lin: seq<nat>, i: nat)
    requires i < |lin|
    ensures FeesOf(k, lin)[i] == k.FeeOf(lin[i])
  {
  }

  lemma NoFees(k: Cluster, lin: seq<nat>)
    ensures FeeRate(k, ToSet(lin[..0])) == EMPTY
  {
    assert ToSet(lin[..0]) == {};
  }

  lemma PrefixGrows(lin: seq<nat>, n: nat)
    requires 0 < n <= |lin| && forall i, j | 0 <= i < j < |lin| :: lin[i] != lin[j]
    ensures ToSet(lin[..n]) == ToSet(lin[..n - 1]) + {lin[n - 1]} && lin[n - 1] !in ToSet(lin[..n - 1])
  {
    assert lin[..n] == lin[..n - 1] + [lin[n - 1]];
  }

  /** ChunkLinearization. */
  method ChunkLinearization(g: DepGraph, lin: seq<nat>) returns (ret: seq<FeeFrac>)
    requires forall t | t in lin :: t in g.entries
    ensures ret == Chunking(FeesOf(ClusterOf(g), lin))
  {
    ghost var fs := FeesOf(ClusterOf(g), lin);
    ret := [];
    for n := 0 to |lin|
      invariant ret == Chunking(fs[..n])
    {
      var newChunk: FeeFrac := g.entries[lin[n]].feerate;
      assert fs[..n + 1][..n] == fs[..n];
      while ret != [] && Higher(newChunk, ret[|ret| - 1])
        invariant Absorb(ret, newChunk) == Chunking(fs[..n + 1])
        decreases |ret|
      {
        newChunk, ret := newChunk.Plus(ret[|ret| - 1]), ret[..|ret| - 1];
      }
      ret := ret + [newChunk];
    }
    assert fs[..|lin|] == fs;
  }

  ghost function Rates(s: seq<SetInfo>): seq<FeeFrac> {
    seq(|s|, (i: nat) => if i < |s| then s[i].feerate else EMPTY)
  }

  /** The sets of ret are the transactions of consecutive pieces. */
  ghost predicate Cuts(lin: seq<nat>, pieces: seq<seq<nat>>, ret: seq<SetInfo>) {
    && Flatten(pieces) == lin && |pieces| == |ret|
    && (forall i | 0 <= i < |ret| :: ret[i].transactions == ToSet(pieces[i]))
  }

  lemma CutsBack(pieces: seq<seq<nat>>, ret: seq<SetInfo>, piece: seq<nat>)
    requires Cuts(Flatten(pieces), pieces, ret) && ret != []
    ensures var m := |ret| - 1; Cuts(Flatten(pieces[..m]), pieces[..m], ret[..m])
                                && Flatten(pieces[..m]) + (pieces[m] + piece) == Flatten(pieces) + piece
    ensures ToSet(pieces[|ret| - 1] + piece) == ToSet(piece) + ret[|ret| - 1].transactions
  {
  }

  lemma CutsAppend(pieces: seq<seq<nat>>, ret: seq<SetInfo>, piece: seq<nat>, c: SetInfo)
    requires Cuts(Flatten(pieces), pieces, ret) && c.transactions == ToSet(piece)
    ensures Cuts(Flatten(pieces) + piece, pieces + [piece], ret + [c])
  {
    FlattenOne(pieces, piece);
  }

  lemma AbsorbStep(ret: seq<SetInfo>, c: FeeFrac)
    requires ret != []
    ensures var last := ret[|ret| - 1];
            Absorb(Rates(ret), c) == if Higher(c, last.feerate)
                then Absorb(Rates(ret[..|ret| - 1]), c.Plus(last.feerate))
                                     else Rates(ret) + [c]
  {
    assert Rates(ret)[..|ret| - 1] == Rates(ret[..|ret| - 1]);
  }

  /** The loop that absorbs the last chunks into a new one. */
  method AbsorbInfo(before: seq<SetInfo>, added: SetInfo, ghost piecesBefore: seq<seq<nat>>, ghost pieceAdded: seq<nat>)
    returns (ret: seq<SetInfo>, ghost pieces: seq<seq<nat>>)
    requires Cuts(Flatten(piecesBefore), piecesBefore, before) && added.transactions == ToSet(pieceAdded)
    ensures Rates(ret) == Absorb(Rates(before), added.feerate) && Cuts(Flatten(piecesBefore) + pieceAdded, pieces, ret)
  {
    hide Flatten, ToSet, Absorb;
    ret, pieces := before, piecesBefore;
    var newChunk := added;
    ghost var piece := pieceAdded;
    while ret != [] && Higher(newChunk.feerate, ret[|ret| - 1].feerate)
      invariant Absorb(Rates(ret), newChunk.feerate) == Absorb(Rates(before), added.feerate)
      invariant Cuts(Flatten(pieces), pieces, ret) && Flatten(pieces) + piece == Flatten(piecesBefore) + pieceAdded
      invariant newChunk.transactions == ToSet(piece) && |pieces| == |ret|
      decreases |ret|
    {
      var m := |ret| - 1;
      CutsBack(pieces, ret, piece);
      AbsorbStep(ret, newChunk.feerate);
      newChunk, ret := newChunk.Join(ret[m]), ret[..m];
      pieces, piece := pieces[..m], pieces[m] + piece;
    }
    CutsAppend(pieces, ret, piece, newChunk);
    if ret != [] {
      AbsorbStep(ret, newChunk.feerate);
    } else {
      AbsorbNone(newChunk.feerate);
    }
    assert Rates(ret + [newChunk]) == Rates(ret) + [newChunk.feerate];
    ret, pieces := ret + [newChunk], pieces + [piece];
  }

  lemma AbsorbNone(c: FeeFrac)
    ensures Absorb([], c) == [c]
  {
  }

  lemma ChunkingStep(fs: seq<FeeFrac>, n: nat)
    requires n < |fs|
    ensures Chunking(fs[..n + 1]) == Absorb(Chunking(fs[..n]), fs[n])
  {
    assert fs[..n + 1][..n] == fs[..n];
  }

  /** ChunkLinearizationInfo: the feerates of ChunkLinearization, and the sets of the consecutive
      pieces they belong to. */
  method ChunkLinearizationInfo(g: DepGraph, lin: seq<nat>) returns (ret: seq<SetInfo>, ghost pieces: seq<seq<nat>>)
    requires forall t | t in lin :: t in g.entries
    ensures Rates(ret) == Chunking(FeesOf(ClusterOf(g), lin)) && Cuts(lin, pieces, ret)
  {
    ghost var fs := FeesOf(ClusterOf(g), lin);
    assert |fs| == |lin| && forall n | 0 <= n < |lin| :: fs[n] == g.entries[lin[n]].feerate;
    hide FeesOf, ClusterOf, Flatten, Chunking, Absorb;
    ret, pieces := [], [];
    assert Flatten([]) == [] by { FlattenNone(); }
    assert Chunking(fs[..0]) == [] by { ChunkingNone(); }
    for n := 0 to |lin|
      invariant Rates(ret) == Chunking(fs[..n]) && Cuts(lin[..n], pieces, ret)
    {
      ChunkingStep(fs, n);
      assert lin[..n + 1] == lin[..n] + [lin[n]];
      ret, pieces := AbsorbInfo(ret, SetInfo({lin[n]}, g.entries[lin[n]].feerate), pieces, [lin[n]]);
    }
    assert fs[..|lin|] == fs && lin[..|lin|] == lin;
  }

  lemma FlattenNone()
    ensures Flatten([]) == []
  {
  }

  lemma ChunkingNone()
    ensures Chunking([]) == []
  {
  }

  lemma FlattenOne(pieces: seq<seq<nat>>, piece: seq<nat>)
    ensures Flatten(pieces + [piece]) == Flatten(pieces) + piece
  {
    assert (pieces + [piece])[..|pieces|] == pieces;
  }
}
