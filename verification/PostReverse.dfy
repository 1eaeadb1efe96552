/** Passes from back to front: the cluster with ancestors and descendants exchanged and fees
    negated. */
module PostReverse {
  import opened FeeFracs
  import opened DepGraphs
  import opened Loading
  import opened Diagrams
  import opened Chunkings
  import opened PostFees
  import opened PostPass

  function Reverse<T>(s: seq<T>): (r: seq<T>)
    ensures |r| == |s| && forall i | 0 <= i < |s| :: r[i] == s[|s| - 1 - i]
  {
    if s == [] then [] else Reverse(s[1..]) + [s[0]]
  }

  lemma ReverseTwice<T>(s: seq<T>)
    ensures Reverse(Reverse(s)) == s
  {
  }

  lemma ReverseConcat<T>(a: seq<T>, b: seq<T>)
    ensures Reverse(a + b) == Reverse(b) + Reverse(a)
  {
  }

  lemma ReverseSet(s: seq<nat>)
    ensures ToSet(Reverse(s)) == ToSet(s)
  {
    forall t
      ensures t in Reverse(s) <==> t in s
    {
      if t in s {
        var i :| 0 <= i < |s| && s[i] == t;
        assert Reverse(s)[|s| - 1 - i] == t;
      }
    }
  }

  /** Ancestors and descendants exchanged, fees negated. */
  ghost function Reversed(g: DepGraph): DepGraph {
    DepGraph(map i | i in g.entries :: Entry(g.entries[i].feerate.Negate(), g.entries[i].descendants,
                                             g.entries[i].ancestors))
  }

  lemma ReversedAnc(g: DepGraph, a: nat, t: nat)
    requires g.Valid()
    ensures a in Reversed(g).Anc(t) <==> t in g.Anc(a)
  {
  }

  lemma ReversedValid(g: DepGraph)
    requires g.Valid()
    ensures Reversed(g).Valid() && Reversed(g).Positions() == g.Positions()
  {
    var r := Reversed(g);
    forall i, j | i in r.entries && j in r.entries[i].ancestors && j in r.entries
      ensures r.entries[j].ancestors <= r.entries[i].ancestors
    {
      forall x | x in r.entries[j].ancestors
        ensures x in r.entries[i].ancestors
      {
        assert j in g.entries[x].ancestors && i in g.entries[j].ancestors;
      }
    }
  }

  lemma ReversedOrderly(g: DepGraph, s: seq<nat>)
    requires g.Valid()
    ensures Orderly(g, s) <==> Orderly(Reversed(g), Reverse(s))
  {
    var r, z := Reversed(g), Reverse(s);
    forall i, j | 0 <= i < |s| && 0 <= j < |s|
      ensures s[j] in g.Anc(s[i]) <==> z[|s| - 1 - i] in r.Anc(z[|s| - 1 - j])
    {
      ReversedAnc(g, s[i], s[j]);
    }
    hide Reversed;
    assert r.entries.Keys == g.entries.Keys by { ReversedValid(g); }
    if Orderly(g, s) {
      forall i, j | 0 <= i < j < |z|
        ensures z[j] !in r.Anc(z[i])
      {
        assert z[j] == z[|s| - 1 - (|s| - 1 - j)] && z[i] == z[|s| - 1 - (|s| - 1 - i)];
      }
    }
    if Orderly(r, z) {
      forall i, j | 0 <= i < j < |s|
        ensures s[j] !in g.Anc(s[i])
      {
        assert s[j] == z[|s| - 1 - j] && s[i] == z[|s| - 1 - i];
      }
      forall i | 0 <= i < |s|
        ensures s[i] in g.entries
      {
        assert z[|s| - 1 - i] in r.entries;
      }
    }
  }

  lemma ReversedParent(g: DepGraph, p: nat, c: nat)
    requires g.Valid() && p in g.entries && c in g.entries
    ensures IsReducedParent(Reversed(g), c, p) <==> IsReducedParent(g, p, c)
  {
    var r := Reversed(g);
    forall q, t
      ensures q in r.Anc(t) <==> t in g.Anc(q)
    {
      ReversedAnc(g, q, t);
    }
    hide Reversed;
  }

  // ---------------------------------------------------------------- fees in reverse

  ghost function Negated(s: seq<FeeFrac>): seq<FeeFrac> {
    seq(|s|, (i: nat) => if i < |s| then s[|s| - 1 - i].Negate() else EMPTY)
  }

  lemma ReversedFees(g: DepGraph, s: seq<nat>)
    requires forall t | t in s :: t in g.entries
    ensures Fees(Reversed(g), Reverse(s)) == Negated(Fees(g, s))
  {
  }

  /** The corners of the reversed diagram are the corners of the diagram, seen from its end. */
  lemma {:induction false} NegatedCorner(s: seq<FeeFrac>, l: real, n: nat)
    requires n <= |s|
    ensures Weight(-l, Acc(Negated(s), n)) == Weight(l, Acc(s, |s| - n)) - Weight(l, Acc(s, |s|))
  {
    hide Weight, Acc;
    if n == 0 {
      AccNone(Negated(s));
      EmptyWeight(-l);
    } else {
      NegatedCorner(s, l, n - 1);
      AccStep(Negated(s), n - 1);
      AccStep(s, |s| - n);
      WeightPlus(-l, Acc(Negated(s), n - 1), Negated(s)[n - 1]);
      WeightPlus(l, Acc(s, |s| - n), s[|s| - n]);
      WeightNegate(l, s[|s| - n]);
    }
  }

  lemma NegatedNoWorse(a: seq<FeeFrac>, b: seq<FeeFrac>)
    requires NoWorse(a, b) && Total(a) == Total(b)
    ensures NoWorse(Negated(a), Negated(b))
  {
    hide Weight, Acc;
    forall l: real, n: nat | n <= |b|
      ensures Attains(Negated(a), l, Weight(l, Acc(Negated(b), n)))
    {
      NegatedCorner(b, -l, n);
      assert Attains(a, -l, Weight(-l, Acc(b, |b| - n)));
      var m: nat :| m <= |a| && Weight(-l, Acc(a, m)) >= Weight(-l, Acc(b, |b| - n));
      NegatedCorner(a, -l, |a| - m);
      assert -(-l) == l;
      assert Weight(l, Acc(Negated(a), |a| - m)) >= Weight(l, Acc(Negated(b), n));
    }
  }

  lemma NegatedTwice(s: seq<FeeFrac>)
    ensures Negated(Negated(s)) == s
  {
    var t := Negated(s);
    forall i | 0 <= i < |s|
      ensures Negated(t)[i] == s[i]
    {
      assert Negated(t)[i] == t[|s| - 1 - i].Negate();
      assert t[|s| - 1 - i] == s[i].Negate();
    }
  }
}
