/** Feerate diagrams: the piecewise linear curve through the accumulated fees and sizes of a list
    of chunks, continued horizontally. For lists in non-increasing feerate order, one diagram
    lies above another exactly when it wins at every reference feerate. Also CompareChunks of
    util/feefrac.cpp, which decides the order of two diagrams from their corner points. */
module Diagrams {
  import opened FeeFracs

  /** The corner point reached after n chunks. */
  ghost function Acc(s: seq<FeeFrac>, n: nat): FeeFrac {
    if n == 0 || n > |s| then EMPTY else Acc(s, n - 1).Plus(s[n - 1])
  }

  ghost predicate Sized(s: seq<FeeFrac>) {
    forall i | 0 <= i < |s| :: s[i].size > 0
  }

  ghost predicate NonIncreasing(s: seq<FeeFrac>) {
    forall i, j | 0 <= i < j < |s| :: Rate(s[i]) >= Rate(s[j])
  }

  /** The fee gained over size x at feerate r. */
  ghost function Gain(r: real, x: real): real {
    r * x
  }

  /** The fee of the diagram at size x. */
  ghost function Height(s: seq<FeeFrac>, x: real): real {
    if s == [] then 0.0
    else if x <= s[0].size as real then Gain(Rate(s[0]), x)
    else s[0].fee as real + Height(s[1..], x - s[0].size as real)
  }

  /** The diagram of a is nowhere below that of b. */
  ghost predicate Dominates(a: seq<FeeFrac>, b: seq<FeeFrac>) {
    forall x: real | x >= 0.0 :: Height(a, x) >= Height(b, x)
  }

  /** Some corner of a has at least weight w at reference feerate l. */
  ghost predicate Attains(a: seq<FeeFrac>, l: real, w: real) {
    exists m: nat :: m <= |a| && Weight(l, Acc(a, m)) >= w
  }

  /** At every reference feerate, the best corner of a is at least as good as every corner of b. */
  ghost predicate NoWorse(a: seq<FeeFrac>, b: seq<FeeFrac>) {
    forall l: real, n: nat | n <= |b| :: Attains(a, l, Weight(l, Acc(b, n)))
  }

  // ---------------------------------------------------------------- gains

  lemma GainPlus(r: real, x: real, y: real)
    ensures Gain(r, x + y) == Gain(r, x) + Gain(r, y)
    ensures Gain(r, 0.0) == 0.0 && Gain(0.0, x) == 0.0
  {
  }

  lemma GainRate(a: FeeFrac)
    requires a.size > 0
    ensures Gain(Rate(a), a.size as real) == a.fee as real
  {
    RateTimesSize(a);
  }

  lemma GainOrder(l: real, r: real, x: real)
    requires x >= 0.0
    ensures l <= r ==> Gain(l, x) <= Gain(r, x)
  {
  }

  lemma WeightGain(l: real, a: FeeFrac)
    ensures Weight(l, a) == a.fee as real - Gain(l, a.size as real)
  {
  }

  // ---------------------------------------------------------------- corners

  lemma {:induction false} AccFront(s: seq<FeeFrac>, m: nat)
    requires m < |s|
    ensures Acc(s, m + 1) == s[0].Plus(Acc(s[1..], m))
  {
    if m > 0 {
      AccFront(s, m - 1);
      assert Acc(s[1..], m) == Acc(s[1..], m - 1).Plus(s[1..][m - 1]);
    }
  }

  lemma {:induction false} AccPrefix(s: seq<FeeFrac>, t: seq<FeeFrac>, n: nat)
    requires n <= |s|
    ensures Acc(s + t, n) == Acc(s, n)
  {
    if n > 0 {
      AccPrefix(s, t, n - 1);
    }
  }

  lemma AccStep(s: seq<FeeFrac>, n: nat)
    requires n < |s|
    ensures Acc(s, n + 1) == Acc(s, n).Plus(s[n])
  {
  }

  lemma AccNone(s: seq<FeeFrac>)
    ensures Acc(s, 0) == EMPTY
  {
  }

  lemma {:induction false} AccConcat(s: seq<FeeFrac>, t: seq<FeeFrac>, n: nat)
    requires n <= |t|
    ensures Acc(s + t, |s| + n) == Acc(s, |s|).Plus(Acc(t, n))
  {
    hide Acc;
    var all, m := s + t, |s| + n;
    if n == 0 {
      AccPrefix(s, t, |s|);
      AccNone(t);
    } else {
      AccConcat(s, t, n - 1);
      assert all[m - 1] == t[n - 1];
      AccStep(all, m - 1);
      AccStep(t, n - 1);
    }
  }

  lemma {:induction false} AccSize(s: seq<FeeFrac>, m: nat, n: nat)
    requires Sized(s) && m <= n <= |s|
    ensures Acc(s, m).size <= Acc(s, n).size && (m < n ==> Acc(s, m).size < Acc(s, n).size)
    decreases n
  {
    if m < n {
      AccSize(s, m, n - 1);
    }
  }

  ghost function Slope(s: seq<FeeFrac>, i: nat): real {
    if i < |s| then Rate(s[i]) else 0.0
  }

  lemma HeightFront(s: seq<FeeFrac>, x: real)
    requires Sized(s) && s != []
    ensures x <= s[0].size as real ==> Height(s, x) == Gain(Rate(s[0]), x)
    ensures x >= s[0].size as real ==> Height(s, x) == s[0].fee as real + Height(s[1..], x - s[0].size as real)
  {
    if x == s[0].size as real {
      GainRate(s[0]);
      hide Gain, Rate;
      if |s| > 1 {
        GainPlus(Rate(s[1]), 0.0, 0.0);
      }
    }
  }

  /** Between two corners the diagram is a straight line. */
  lemma {:induction false} HeightSegment(s: seq<FeeFrac>, i: nat, x: real)
    requires Sized(s) && i <= |s| && Acc(s, i).size as real <= x && (i < |s| ==> x <= Acc(s, i + 1).size as real)
    ensures Height(s, x) == Acc(s, i).fee as real + Gain(Slope(s, i), x - Acc(s, i).size as real)
    decreases |s|
  {
    if s == [] {
      GainPlus(0.0, x, 0.0);
    } else {
      hide Rate, Gain, Height;
      HeightFront(s, x);
      if i == 0 {
        AccFront(s, 0);
      } else {
        HeightSegmentRest(s, i, x);
        HeightSegment(s[1..], i - 1, x - s[0].size as real);
        assert x - s[0].size as real - Acc(s[1..], i - 1).size as real == x - Acc(s, i).size as real;
      }
    }
  }

  lemma HeightSegmentRest(s: seq<FeeFrac>, i: nat, x: real)
    requires Sized(s) && 0 < i <= |s| && Acc(s, i).size as real <= x && (i < |s| ==> x <= Acc(s, i + 1).size as real)
    ensures var y := x - s[0].size as real;
            && y >= 0.0 && Sized(s[1..]) && Slope(s[1..], i - 1) == Slope(s, i)
               && Acc(s, i) == s[0].Plus(Acc(s[1..], i - 1))
            && Acc(s[1..], i - 1).size as real <= y && (i < |s| ==> y <= Acc(s[1..], i).size as real)
  {
    hide Rate;
    AccFront(s, i - 1);
    if i < |s| {
      AccFront(s, i);
    }
  }

  lemma HeightCorner(s: seq<FeeFrac>, n: nat)
    requires Sized(s) && n <= |s|
    ensures Height(s, Acc(s, n).size as real) == Acc(s, n).fee as real
  {
    hide Rate, Gain, Height;
    if n < |s| {
      AccSize(s, n, n + 1);
    }
    HeightSegment(s, n, Acc(s, n).size as real);
    GainPlus(Slope(s, n), 0.0, 0.0);
  }

  // ---------------------------------------------------------------- reference feerates

  /** Along one segment, the better end at reference feerate l is at least as good as any point. */
  lemma LineEnds(l: real, a: FeeFrac, x: real)
    requires a.size > 0 && 0.0 <= x <= a.size as real
    ensures Gain(Rate(a), x) - Gain(l, x) <= if Rate(a) <= l then 0.0 else Weight(l, a)
  {
    var r, rest := Rate(a), a.size as real - x;
    GainRate(a);
    WeightGain(l, a);
    hide Rate, Gain, Weight;
    GainOrder(r, l, x);
    GainOrder(l, r, rest);
    GainPlus(r, x, rest);
    GainPlus(l, x, rest);
  }

  /** No point of a diagram beats all corners. */
  lemma {:induction false} CornerWins(s: seq<FeeFrac>, l: real, x: real) returns (m: nat)
    requires Sized(s) && 0.0 <= x <= Acc(s, |s|).size as real
    ensures m <= |s| && Height(s, x) - Gain(l, x) <= Weight(l, Acc(s, m))
    decreases |s|
  {
    hide Rate, Gain, Height, Weight;
    m := 0;
    WeightGain(l, EMPTY);
    GainPlus(l, 0.0, 0.0);
    if s == [] {
      EmptyHeight(x);
    } else {
      var rest, s0 := s[1..], s[0].size as real;
      AccFront(s, |rest|);
      HeightFront(s, x);
      if x <= s0 {
        AccFront(s, 0);
        LineEnds(l, s[0], x);
        m := if Rate(s[0]) <= l then 0 else 1;
      } else {
        var m' := CornerWins(rest, l, x - s0);
        AccFront(s, m');
        m := m' + 1;
        WeightPlus(l, s[0], Acc(rest, m'));
        WeightGain(l, s[0]);
        GainPlus(l, s0, x - s0);
      }
    }
  }

  lemma EmptyHeight(x: real)
    ensures Height([], x) == 0.0
  {
  }

  lemma {:induction false} CornersBelow(s: seq<FeeFrac>, l: real, n: nat)
    requires Sized(s) && n <= |s| && forall i | 0 <= i < |s| :: Rate(s[i]) <= l
    ensures Weight(l, Acc(s, n)) <= 0.0
  {
    if n > 0 {
      CornersBelow(s, l, n - 1);
      WeightPlus(l, Acc(s, n - 1), s[n - 1]);
      WeightSign(l, s[n - 1]);
    }
  }

  /** At reference feerate l no corner beats the point at size x. */
  ghost predicate PointBest(s: seq<FeeFrac>, x: real, l: real) {
    forall m: nat | m <= |s| :: Weight(l, Acc(s, m)) <= Height(s, x) - Gain(l, x)
  }

  /** Every point of a concave diagram is best at some reference feerate. */
  lemma {:induction false} PointWins(s: seq<FeeFrac>, x: real) returns (l: real)
    requires Sized(s) && NonIncreasing(s) && s != [] && 0.0 <= x <= Acc(s, |s|).size as real
    ensures l <= Rate(s[0]) && PointBest(s, x, l)
    decreases |s|
  {
    hide Rate, Weight, Gain, Height;
    var rest, s0 := s[1..], s[0].size as real;
    AccFront(s, |rest|);
    HeightFront(s, x);
    if x <= s0 {
      l := Rate(s[0]);
      forall m: nat | m <= |s|
        ensures Weight(l, Acc(s, m)) <= 0.0
      {
        CornersBelow(s, l, m);
      }
    } else {
      hide PointBest;
      assert rest != [] by {
        assert Acc([], 0).size == 0;
      }
      assert forall i | 0 <= i < |rest| :: rest[i] == s[i + 1];
      l := PointWins(rest, x - s0);
      PointWinsRest(s, x, l);
    }
  }

  lemma PointWinsRest(s: seq<FeeFrac>, x: real, l: real)
    requires Sized(s) && s != [] && x > s[0].size as real && l <= Rate(s[0])
             && PointBest(s[1..], x - s[0].size as real, l)
    ensures PointBest(s, x, l)
  {
    hide Rate, Weight, Gain, Height;
    var rest, s0 := s[1..], s[0].size as real;
    HeightFront(s, x);
    WeightSign(l, s[0]);
    WeightGain(l, s[0]);
    WeightGain(l, EMPTY);
    GainPlus(l, 0.0, 0.0);
    GainPlus(l, s0, x - s0);
    assert Weight(l, Acc(rest, 0)) <= Height(rest, x - s0) - Gain(l, x - s0);
    forall m: nat | m <= |s|
      ensures Weight(l, Acc(s, m)) <= Height(s, x) - Gain(l, x)
    {
      if m > 0 {
        AccFront(s, m - 1);
        WeightPlus(l, s[0], Acc(rest, m - 1));
      }
    }
  }

  /** Domination of concave diagrams is domination at every reference feerate. */
  lemma DominatesIffNoWorse(a: seq<FeeFrac>, b: seq<FeeFrac>)
    requires Sized(a) && Sized(b) && NonIncreasing(a) && Acc(a, |a|) == Acc(b, |b|)
    ensures Dominates(a, b) <==> NoWorse(a, b)
  {
    hide Acc, Height, Weight, NonIncreasing, Sized, Attains;
    if Dominates(a, b) {
      forall l: real, n: nat | n <= |b|
        ensures Attains(a, l, Weight(l, Acc(b, n)))
      {
        AboveAttains(a, b, l, n);
      }
    }
    if NoWorse(a, b) {
      forall x: real | x >= 0.0
        ensures Height(a, x) >= Height(b, x)
      {
        AttainsAbove(a, b, x);
      }
    }
  }

  lemma AboveAttains(a: seq<FeeFrac>, b: seq<FeeFrac>, l: real, n: nat)
    requires Sized(a) && Sized(b) && Acc(a, |a|) == Acc(b, |b|) && Dominates(a, b) && n <= |b|
    ensures Attains(a, l, Weight(l, Acc(b, n)))
  {
    hide Height, Acc, Weight, Gain, Sized;
    var x := Acc(b, n).size as real;
    HeightCorner(b, n);
    AccSize(b, n, |b|);
    WeightGain(l, Acc(b, n));
    var m := CornerWins(a, l, x);
    assert Height(a, x) >= Height(b, x);
  }

  /** The totals may differ in the fee: then the diagrams do at the end. */
  lemma AttainsAbove(a: seq<FeeFrac>, b: seq<FeeFrac>, x: real)
    requires Sized(a) && Sized(b) && NonIncreasing(a) && NoWorse(a, b) && x >= 0.0
    requires Acc(a, |a|).size == Acc(b, |b|).size && Acc(a, |a|).fee >= Acc(b, |b|).fee
    ensures Height(a, x) >= Height(b, x)
  {
    hide Height, NonIncreasing, Gain, Weight;
    if x >= Acc(a, |a|).size as real {
      HeightSegment(a, |a|, x);
      HeightSegment(b, |b|, x);
      GainZero(x - Acc(a, |a|).size as real);
    } else if a != [] {
      var l := PointWins(a, x);
      var n := CornerWins(b, l, x);
      assert Attains(a, l, Weight(l, Acc(b, n)));
    }
  }

  // ---------------------------------------------------------------- comparing two diagrams

  datatype Ordering = Less | Equivalent | Greater | Unordered

  /** The diagram of a is above that of b at size x. */
  ghost predicate Above(a: seq<FeeFrac>, b: seq<FeeFrac>, x: real) {
    Height(a, x) > Height(b, x)
  }

  /** better says whether the diagram of a is above that of b somewhere up to size x. */
  ghost predicate BetterUpTo(a: seq<FeeFrac>, b: seq<FeeFrac>, x: real, better: bool) {
    better <==> exists y: real :: 0.0 <= y <= x && Above(a, b, y)
  }

  /** better says whether the diagram of a is above that of b somewhere. */
  ghost predicate BetterSomewhere(a: seq<FeeFrac>, b: seq<FeeFrac>, better: bool) {
    better <==> exists y: real :: 0.0 <= y && Above(a, b, y)
  }

  /** Corner i of s and size x lie on the same segment, which begins at corner i. */
  ghost predicate OnSegment(s: seq<FeeFrac>, i: nat, x: real) {
    i <= |s| && Acc(s, i).size as real <= x && (i < |s| ==> x <= Acc(s, i + 1).size as real)
  }

  /** Along one segment of each, the difference of two diagrams is largest at an end. */
  lemma DifferenceAtEnds(a: seq<FeeFrac>, i: nat, b: seq<FeeFrac>, j: nat, x: real, y: real, z: real)
    requires Sized(a) && Sized(b) && x <= y <= z
    requires OnSegment(a, i, x) && OnSegment(a, i, z) && OnSegment(b, j, x) && OnSegment(b, j, z)
    requires !Above(a, b, x) && !Above(a, b, z)
    ensures !Above(a, b, y)
  {
    hide Height, Gain, Slope;
    HeightSegment(a, i, x);
    HeightSegment(a, i, y);
    HeightSegment(a, i, z);
    HeightSegment(b, j, x);
    HeightSegment(b, j, y);
    HeightSegment(b, j, z);
    var ra, rb := Slope(a, i), Slope(b, j);
    var pa, pb := Acc(a, i).size as real, Acc(b, j).size as real;
    GainPlus(ra, x - pa, y - x);
    GainPlus(ra, y - pa, z - y);
    GainPlus(rb, x - pb, y - x);
    GainPlus(rb, y - pb, z - y);
    GainOrder(ra, rb, y - x);
    GainOrder(rb, ra, z - y);
  }

  /** One step of the comparison, from size x to size z. */
  lemma BetterStep(a: seq<FeeFrac>, i: nat, b: seq<FeeFrac>, j: nat, x: real, z: real, better: bool)
    requires Sized(a) && Sized(b) && 0.0 <= x <= z && BetterUpTo(a, b, x, better)
    requires OnSegment(a, i, x) && OnSegment(a, i, z) && OnSegment(b, j, x) && OnSegment(b, j, z)
    ensures BetterUpTo(a, b, z, better || Above(a, b, z))
  {
    hide Above, OnSegment;
    if !better && !Above(a, b, z) {
      forall y: real | 0.0 <= y <= z
        ensures !Above(a, b, y)
      {
        if y > x {
          DifferenceAtEnds(a, i, b, j, x, y, z);
        }
      }
    }
  }

  /** The comparison of slopes in the source: P, a corner of a, against the segment of b from A. */
  lemma SlopeCompare(a: seq<FeeFrac>, i: nat, b: seq<FeeFrac>, j: nat, ap: FeeFrac, ab: FeeFrac)
    requires Sized(a) && Sized(b) && i <= |a| && OnSegment(b, j, Acc(a, i).size as real)
             && Acc(b, j).size < Acc(a, i).size
    requires ap == Acc(a, i).Minus(Acc(b, j)) && ab == if j < |b| then b[j] else FeeFrac(0, 1)
    ensures var x := Acc(a, i).size as real;
            (FeeRateCompare(ap, ab) > 0 <==> Above(a, b, x)) && (FeeRateCompare(ap, ab) < 0 <==> Above(b, a, x))
  {
    hide Height, Gain, FeeRateCompare, Rate, Weight, Acc, OnSegment;
    var x := Acc(a, i).size as real;
    HeightCorner(a, i);
    SegmentAt(b, j, x);
    SlopeRate(b, j, ab);
    SlopeSign(Acc(a, i), Acc(b, j), ab);
  }

  lemma SegmentAt(s: seq<FeeFrac>, i: nat, x: real)
    requires Sized(s) && OnSegment(s, i, x)
    ensures Height(s, x) == Acc(s, i).fee as real + Gain(Slope(s, i), x - Acc(s, i).size as real)
  {
    hide Height, Gain, Acc, Slope;
    HeightSegment(s, i, x);
  }

  lemma SlopeRate(s: seq<FeeFrac>, j: nat, ab: FeeFrac)
    requires Sized(s) && ab == if j < |s| then s[j] else FeeFrac(0, 1)
    ensures ab.size > 0 && Rate(ab) == Slope(s, j)
  {
    ZeroRate();
    hide Rate;
  }

  lemma SlopeSign(p: FeeFrac, a: FeeFrac, ab: FeeFrac)
    requires a.size < p.size && ab.size > 0
    ensures var line := a.fee as real + Gain(Rate(ab), p.size as real - a.size as real);
            && (FeeRateCompare(p.Minus(a), ab) > 0 <==> p.fee as real > line)
            && (FeeRateCompare(p.Minus(a), ab) < 0 <==> p.fee as real < line)
  {
    hide Gain, FeeRateCompare, Rate, Weight;
    CompareIsRateOrder(p.Minus(a), ab);
    WeightSign(Rate(ab), p.Minus(a));
    WeightGain(Rate(ab), p.Minus(a));
  }

  lemma ZeroRate()
    ensures Rate(FeeFrac(0, 1)) == 0.0
  {
  }

  /** After the last corners the two diagrams stay apart as they are. */
  lemma BetterEnd(a: seq<FeeFrac>, b: seq<FeeFrac>, x: real, better: bool)
    requires Sized(a) && Sized(b) && x >= 0.0 && x >= Acc(a, |a|).size as real && x >= Acc(b, |b|).size as real
    requires BetterUpTo(a, b, x, better)
    ensures BetterSomewhere(a, b, better)
  {
    hide Height, Gain, Acc;
    forall y: real | y >= x
      ensures Above(a, b, y) <==> Above(a, b, x)
    {
      HeightSegment(a, |a|, x);
      HeightSegment(a, |a|, y);
      HeightSegment(b, |b|, x);
      HeightSegment(b, |b|, y);
      GainPlus(0.0, x - Acc(a, |a|).size as real, y - x);
      GainPlus(0.0, x - Acc(b, |b|).size as real, y - x);
      assert Gain(0.0, y - x) == 0.0 by { GainZero(y - x); }
    }
  }

  lemma GainZero(x: real)
    ensures Gain(0.0, x) == 0.0
  {
  }

  /** A position in a diagram: the corner after the first next chunks. */
  datatype Cursor = Cursor(chunks: seq<FeeFrac>, next: nat, accum: FeeFrac) {
    predicate Done() {
      next >= |chunks|
    }

    function NextPoint(): FeeFrac
      requires !Done()
    {
      chunks[next].Plus(accum)
    }

    function Advance(): Cursor
      requires !Done()
    {
      Cursor(chunks, next + 1, accum.Plus(chunks[next]))
    }

    /** The cursor is at the last corner up to size x. */
    ghost predicate At(x: nat) {
      && Sized(chunks) && next <= |chunks| && accum == Acc(chunks, next) && accum.size <= x
      && (next < |chunks| ==> x < Acc(chunks, next + 1).size)
    }
  }

  lemma AdvanceAt(c: Cursor, x: nat)
    requires c.At(x) && !c.Done()
    ensures c.NextPoint() == Acc(c.chunks, c.next + 1) == c.Advance().accum && c.NextPoint().size > x
    ensures c.Advance().At(c.NextPoint().size)
  {
    AccStep(c.chunks, c.next);
    if c.next + 1 < |c.chunks| {
      AccSize(c.chunks, c.next + 1, c.next + 2);
    }
    hide Acc;
  }

  /** The segment at which a cursor stands, up to size z. */
  lemma CursorSegment(c: Cursor, x: nat, z: nat)
    requires c.At(x) && x <= z && (!c.Done() ==> z <= c.NextPoint().size)
    ensures OnSegment(c.chunks, c.next, x as real) && OnSegment(c.chunks, c.next, z as real)
  {
    if !c.Done() {
      AdvanceAt(c, x);
    }
    hide Acc;
  }

  /** Comparing the next corner P of u with the diagram of o, as the source does. */
  method ComparePoint(u: Cursor, o: Cursor, ghost x: nat, ghost betterU: bool, ghost betterO: bool) returns (cmp: int)
    requires u.At(x) && o.At(x) && !u.Done() && (!o.Done() ==> u.NextPoint().size <= o.NextPoint().size)
    requires BetterUpTo(u.chunks, o.chunks, x as real, betterU) && BetterUpTo(o.chunks, u.chunks, x as real, betterO)
    ensures var z := u.NextPoint().size as real;
            && BetterUpTo(u.chunks, o.chunks, z, betterU || cmp > 0)
               && BetterUpTo(o.chunks, u.chunks, z, betterO || cmp < 0)
  {
    hide BetterUpTo, Above, OnSegment, FeeRateCompare, Acc, Sized;
    AdvanceAt(u, x);
    ghost var z := u.NextPoint().size;
    CursorSegment(u, x, z);
    CursorSegment(o, x, z);
    var slopeAP := u.NextPoint().Minus(o.accum);
    if o.Done() {
      cmp := FeeRateCompare(slopeAP, FeeFrac(0, 1));
      SlopeCompare(u.chunks, u.next + 1, o.chunks, o.next, slopeAP, FeeFrac(0, 1));
    } else {
      var slopeAB := o.NextPoint().Minus(o.accum);
      cmp := FeeRateCompare(slopeAP, slopeAB);
      SlopeCompare(u.chunks, u.next + 1, o.chunks, o.next, slopeAP, slopeAB);
    }
    BetterStep(u.chunks, u.next, o.chunks, o.next, x as real, z as real, betterU);
    BetterStep(o.chunks, o.next, u.chunks, u.next, x as real, z as real, betterO);
  }

  /** CompareChunks: whether each diagram is above the other somewhere, over all sizes. */
  method CompareChunks(chunks0: seq<FeeFrac>, chunks1: seq<FeeFrac>) returns (r: Ordering)
    requires Sized(chunks0) && Sized(chunks1)
    ensures BetterSomewhere(chunks0, chunks1, r.Greater? || r.Unordered?)
    ensures BetterSomewhere(chunks1, chunks0, r.Less? || r.Unordered?)
  {
    hide BetterUpTo, BetterSomewhere, Above, Acc, Sized;
    var dia := [Cursor(chunks0, 0, EMPTY), Cursor(chunks1, 0, EMPTY)];
    var better := [false, false];
    ghost var x: nat := 0;
    CursorStart(chunks0);
    CursorStart(chunks1);
    BetterStart(chunks0, chunks1);
    BetterStart(chunks1, chunks0);
    while !dia[0].Done() || !dia[1].Done()
      invariant |dia| == |better| == 2 && dia[0].chunks == chunks0 && dia[1].chunks == chunks1 && dia[0].At(x)
                && dia[1].At(x)
      invariant !(better[0] && better[1])
      invariant BetterUpTo(chunks0, chunks1, x as real, better[0]) && BetterUpTo(chunks1, chunks0, x as real, better[1])
      decreases |chunks0| - dia[0].next + |chunks1| - dia[1].next
    {
      var u := if dia[0].Done() then 1 else if dia[1].Done() then 0
               else if dia[0].NextPoint().size > dia[1].NextPoint().size then 1 else 0;
      var o := 1 - u;
      var cmp := ComparePoint(dia[u], dia[o], x, better[u], better[o]);
      var z := dia[u].NextPoint().size;
      AdvanceAt(dia[u], x);
      if !dia[o].Done() {
        AdvanceAt(dia[o], x);
        if dia[o].NextPoint().size == z {
          dia := dia[o := dia[o].Advance()];
        }
      }
      better := better[u := better[u] || cmp > 0][o := better[o] || cmp < 0];
      dia := dia[u := dia[u].Advance()];
      x := z;
      if better[0] && better[1] {
        BetterFound(chunks0, chunks1, x as real);
        BetterFound(chunks1, chunks0, x as real);
        return Unordered;
      }
    }
    BetterEnd(chunks0, chunks1, x as real, better[0]);
    BetterEnd(chunks1, chunks0, x as real, better[1]);
    r := if better[0] then Greater else if better[1] then Less else Equivalent;
  }

  lemma CursorStart(s: seq<FeeFrac>)
    requires Sized(s)
    ensures Cursor(s, 0, EMPTY).At(0)
  {
  }

  lemma BetterStart(a: seq<FeeFrac>, b: seq<FeeFrac>)
    requires Sized(a) && Sized(b)
    ensures BetterUpTo(a, b, 0.0, false)
  {
    HeightCorner(a, 0);
    HeightCorner(b, 0);
  }

  lemma BetterFound(a: seq<FeeFrac>, b: seq<FeeFrac>, x: real)
    requires BetterUpTo(a, b, x, true)
    ensures BetterSomewhere(a, b, true)
  {
    hide Above;
  }

  /** The result in terms of domination. */
  lemma ComparedDominates(a: seq<FeeFrac>, b: seq<FeeFrac>, better: bool)
    requires BetterSomewhere(b, a, better)
    ensures Dominates(a, b) <==> !better
  {
    hide Height;
    if !better {
      forall x: real | x >= 0.0
        ensures Height(a, x) >= Height(b, x)
      {
        assert !Above(b, a, x);
      }
    }
  }
}
