/** Moving groups of transactions past each other, at the level of fees and sizes. */
module PostFees {
  import opened FeeFracs
  import opened Diagrams
  import opened Chunkings

  lemma TightTotals(p: seq<FeeFrac>)
    requires Tight(p)
    ensures Sized(p) && Total(p).size > 0 && Whole(p)
  {
    TotalSize(p);
    hide Rate, Weight, Acc;
    AccNone(p);
    WeightSign(Rate(Total(p)), Total(p));
    assert Weight(Rate(Total(p)), EMPTY) == 0.0 by { EmptyWeight(Rate(Total(p))); }
    forall n: nat | n <= |p|
      ensures Weight(Rate(Total(p)), Acc(p, n)) <= 0.0
    {
      if 0 < n < |p| {
        AccSize(p, 0, n);
        WeightSign(Rate(Total(p)), Acc(p, n));
      }
    }
  }

  lemma EmptyWeight(l: real)
    ensures Weight(l, EMPTY) == 0.0
  {
  }

  lemma TightSingle(c: FeeFrac)
    requires c.size > 0
    ensures Tight([c]) && Total([c]) == c
  {
    WholeSingle(c);
  }

  /** A proper beginning of a tight group weighs less than the group below its feerate. */
  lemma TightBelow(p: seq<FeeFrac>, l: real, n: nat)
    requires Tight(p) && l < Rate(Total(p)) && n < |p|
    ensures Weight(l, Acc(p, n)) < Weight(l, Total(p))
  {
    TightTotals(p);
    hide Rate, Weight, Acc, Gain;
    var c, b, r := Total(p), Acc(p, n), Rate(Total(p));
    AccSize(p, n, |p|);
    WeightGain(l, c);
    WeightGain(l, b);
    WeightGain(r, c);
    WeightGain(r, b);
    WeightSign(r, c);
    assert Weight(r, b) <= 0.0;
    var x, y := b.size as real, c.size as real - b.size as real;
    GainPlus(l, x, y);
    GainPlus(r, x, y);
    GainStrict(l, r, y);
  }

  lemma GainStrict(l: real, r: real, x: real)
    requires x > 0.0 && l < r
    ensures Gain(l, x) < Gain(r, x)
  {
  }

  /** A tight group followed by one of higher feerate is tight. */
  lemma TightJoin(p: seq<FeeFrac>, q: seq<FeeFrac>)
    requires Tight(p) && Tight(q) && Rate(Total(p)) < Rate(Total(q))
    ensures Tight(p + q) && Total(p + q) == Total(p).Plus(Total(q))
    ensures Rate(Total(p)) < Rate(Total(p + q)) < Rate(Total(q))
  {
    TightTotals(p);
    TightTotals(q);
    hide Weight, Rate, Acc, Sized, Whole;
    var t, tp, tq := Total(p + q), Total(p), Total(q);
    AccConcat(p, q, |q|);
    SizedConcat(p, q);
    Mediant(tp, tq);
    var l := Rate(t);
    WeightPlus(l, tp, tq);
    WeightSign(l, t);
    forall n: nat | 0 < n < |p + q|
      ensures Rate(Acc(p + q, n)) < l
    {
      AccSize(p + q, 0, n);
      if n <= |p| {
        AccPrefix(p, q, n);
        assert Rate(Acc(p, n)) <= Rate(tp);
      } else {
        var m := n - |p|;
        AccConcat(p, q, m);
        TightBelow(q, l, m);
        WeightPlus(l, tp, Acc(q, m));
        AccNone(p + q);
        WeightSign(l, Acc(p + q, n));
      }
    }
  }

  // ---------------------------------------------------------------- swapping two groups

  lemma FourCorners(x: seq<FeeFrac>, p: seq<FeeFrac>, c: seq<FeeFrac>, y: seq<FeeFrac>)
    ensures |x + p + c + y| == |x| + |p| + |c| + |y|
    ensures Acc(x + p + c + y, |x|) == Total(x)
    ensures Acc(x + p + c + y, |x| + |p|) == Total(x).Plus(Total(p))
    ensures Acc(x + p + c + y, |x| + |p| + |c|) == Total(x).Plus(Total(p)).Plus(Total(c))
  {
    hide Acc;
    AccPrefix(x + p + c, y, |x|);
    AccPrefix(x + p, c, |x|);
    AccPrefix(x, p, |x|);
    AccPrefix(x + p + c, y, |x| + |p|);
    AccPrefix(x + p, c, |x| + |p|);
    AccConcat(x, p, |p|);
    AccPrefix(x + p + c, y, |x| + |p| + |c|);
    AccConcat(x + p, c, |c|);
  }

  /** A corner of x + p + c + y, by the part in which it lies. */
  lemma CornerIn(x: seq<FeeFrac>, p: seq<FeeFrac>, c: seq<FeeFrac>, y: seq<FeeFrac>, n: nat)
    requires n <= |x + p + c + y|
    ensures n <= |x| ==> Acc(x + p + c + y, n) == Acc(x, n)
    ensures |x| <= n <= |x| + |p| ==> Acc(x + p + c + y, n) == Total(x).Plus(Acc(p, n - |x|))
    ensures |x| + |p| <= n <= |x| + |p| + |c| ==>
              Acc(x + p + c + y, n) == Total(x).Plus(Total(p)).Plus(Acc(c, n - |x| - |p|))
    ensures |x| + |p| + |c| <= n ==>
              Acc(x + p + c + y, n) == Total(x).Plus(Total(p)).Plus(Total(c)).Plus(Acc(y, n - |x| - |p| - |c|))
  {
    hide Acc;
    if n <= |x| {
      AccPrefix(x + p + c, y, n);
      AccPrefix(x + p, c, n);
      AccPrefix(x, p, n);
    }
    if |x| <= n <= |x| + |p| {
      AccPrefix(x + p + c, y, n);
      AccPrefix(x + p, c, n);
      AccConcat(x, p, n - |x|);
    }
    if |x| + |p| <= n <= |x| + |p| + |c| {
      AccPrefix(x + p + c, y, n);
      AccConcat(x + p, c, n - |x| - |p|);
      AccConcat(x, p, |p|);
    }
    if |x| + |p| + |c| <= n {
      AccConcat(x + p + c, y, n - |x| - |p| - |c|);
      AccConcat(x + p, c, |c|);
      AccConcat(x, p, |p|);
    }
  }

  /** Moving a group before one of no higher feerate is no worse. */
  lemma SwapNoWorse(x: seq<FeeFrac>, p: seq<FeeFrac>, c: seq<FeeFrac>, y: seq<FeeFrac>)
    requires Whole(p) && Whole(c) && Rate(Total(p)) <= Rate(Total(c))
    ensures NoWorse(x + c + p + y, x + p + c + y)
  {
    hide Weight, Acc, Rate, Whole, Total;
    forall l: real, n: nat | n <= |x + p + c + y|
      ensures Attains(x + c + p + y, l, Weight(l, Acc(x + p + c + y, n)))
    {
      SwapAttains(x, p, c, y, l, n);
    }
  }

  lemma SwapAttains(x: seq<FeeFrac>, p: seq<FeeFrac>, c: seq<FeeFrac>, y: seq<FeeFrac>, l: real, n: nat)
    requires Whole(p) && Whole(c) && Rate(Total(p)) <= Rate(Total(c)) && n <= |x + p + c + y|
    ensures Attains(x + c + p + y, l, Weight(l, Acc(x + p + c + y, n)))
  {
    hide Weight, Acc, Rate, Whole, Total;
    CornerIn(x, p, c, y, n);
    var s := x + c + p + y;
    var m: nat;
    if n <= |x| {
      CornerIn(x, c, p, y, n);
      m := n;
    } else if n <= |x| + |p| + |c| {
      m := SwapCorner(x, p, c, y, l, n);
    } else {
      CornerIn(x, c, p, y, n);
      PlusOrder(Total(x), Total(p), Total(c));
      m := n;
    }
    assert m <= |s| && Weight(l, Acc(s, m)) >= Weight(l, Acc(x + p + c + y, n));
  }

  lemma PlusOrder(a: FeeFrac, b: FeeFrac, c: FeeFrac)
    ensures a.Plus(b).Plus(c) == a.Plus(c).Plus(b)
  {
  }

  /** Corners inside the two groups: the best is one of the ends of both together. */
  lemma SwapCorner(x: seq<FeeFrac>, p: seq<FeeFrac>, c: seq<FeeFrac>, y: seq<FeeFrac>, l: real, n: nat) returns (m: nat)
    requires Whole(p) && Whole(c) && Rate(Total(p)) <= Rate(Total(c)) && |x| < n <= |x| + |p| + |c|
    ensures m <= |x + c + p + y| && Weight(l, Acc(x + c + p + y, m)) >= Weight(l, Acc(x + p + c + y, n))
  {
    hide Acc, Rate, Whole, Weight, Total;
    var tx, tp, tc := Total(x), Total(p), Total(c);
    TotalPositive(p);
    TotalPositive(c);
    FourCorners(x, c, p, y);
    CornerIn(x, p, c, y, n);
    WeightSign(l, tp);
    WeightSign(l, tc);
    WeightPlus(l, tx, tc);
    WeightPlus(l, tx.Plus(tc), tp);
    WeightPlus(l, tx, tp);
    if n <= |x| + |p| {
      WholeEnds(p, l, n - |x|);
      WeightPlus(l, tx, Acc(p, n - |x|));
      m := if Rate(tp) <= l then |x| else |x| + |c| + |p|;
    } else {
      WholeEnds(c, l, n - |x| - |p|);
      WeightPlus(l, tx.Plus(tp), Acc(c, n - |x| - |p|));
      m := if Rate(tc) <= l then |x| else |x| + |c| + |p|;
    }
  }

  lemma TotalPositive(p: seq<FeeFrac>)
    requires Whole(p)
    ensures Total(p).size > 0
  {
    TotalSize(p);
  }

  /** Replacing a beginning by one that is no worse, with the same total, is no worse. */
  lemma FrontNoWorse(a: seq<FeeFrac>, b: seq<FeeFrac>, y: seq<FeeFrac>)
    requires NoWorse(a, b) && Total(a) == Total(b)
    ensures NoWorse(a + y, b + y)
  {
    hide Acc, Weight;
    forall l: real, n: nat | n <= |b + y|
      ensures Attains(a + y, l, Weight(l, Acc(b + y, n)))
    {
      if n <= |b| {
        AccPrefix(b, y, n);
        assert Attains(a, l, Weight(l, Acc(b, n)));
        var m: nat :| m <= |a| && Weight(l, Acc(a, m)) >= Weight(l, Acc(b, n));
        AccPrefix(a, y, m);
        assert Weight(l, Acc(a + y, m)) >= Weight(l, Acc(b + y, n));
      } else {
        AccConcat(b, y, n - |b|);
        AccConcat(a, y, n - |b|);
        assert Weight(l, Acc(a + y, |a| + (n - |b|))) >= Weight(l, Acc(b + y, n));
      }
    }
  }

  lemma NoWorseSelf(a: seq<FeeFrac>)
    ensures NoWorse(a, a)
  {
    hide Acc, Weight;
    forall l: real, n: nat | n <= |a|
      ensures Attains(a, l, Weight(l, Acc(a, n)))
    {
      assert Weight(l, Acc(a, n)) >= Weight(l, Acc(a, n));
    }
  }
}
