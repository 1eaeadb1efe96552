/** Splitting chunks into equal-feerate parts, at the level of chunks. */
module Minimizing {
  import opened Clusters
  import opened Merging
  import opened Improving
  import opened Optimality

  /** No dependency between two chunks goes to a lower feerate. */
  ghost predicate WeaklyTopological(k: Cluster, chunks: set<set<nat>>) {
    forall y, z | y in chunks && z in chunks && y != z && DependsOn(k, y, z) :: RateOf(k, y) <= RateOf(k, z)
  }

  /** Chunk x depends on no other chunk of sub. */
  ghost predicate Source(k: Cluster, sub: set<set<nat>>, x: set<nat>) {
    x in sub && forall z | z in sub && z != x :: !DependsOn(k, x, z)
  }

  /** The chunk-level dependency graph has no cycle: every non-empty collection has a source. */
  ghost predicate Acyclic(k: Cluster, chunks: set<set<nat>>) {
    forall sub: set<set<nat>> | sub <= chunks && sub != {} :: exists x :: Source(k, sub, x)
  }

  /** The same diagram, possibly in more segments. */
  ghost predicate SameDiagram(k: Cluster, a: set<set<nat>>, b: set<set<nat>>) {
    forall l: real :: Surplus(k, l, a) == Surplus(k, l, b)
  }

  lemma {:induction false} HighestChunk(k: Cluster, sub: set<set<nat>>) returns (x: set<nat>)
    requires sub != {}
    ensures x in sub && forall z | z in sub :: RateOf(k, z) <= RateOf(k, x)
    decreases |sub|
  {
    var y :| y in sub;
    var rest := sub - {y};
    if rest == {} {
      assert sub == {y};
      x := y;
    } else {
      var h := HighestChunk(k, rest);
      x := if RateOf(k, h) >= RateOf(k, y) then h else y;
    }
  }

  lemma TopologicalAcyclic(k: Cluster, chunks: set<set<nat>>)
    requires Topological(k, chunks)
    ensures WeaklyTopological(k, chunks) && Acyclic(k, chunks)
  {
    hide RateOf, DependsOn;
    forall sub: set<set<nat>> | sub <= chunks && sub != {}
      ensures exists x :: Source(k, sub, x)
    {
      var x := HighestChunk(k, sub);
      assert Source(k, sub, x);
    }
  }

  /** x is about to be split into t and b of its own feerate, where t does not depend on b. */
  ghost predicate EvenSplit(k: Cluster, chunks: set<set<nat>>, x: set<nat>, t: set<nat>, b: set<nat>) {
    && Separate(chunks) && x in chunks && x == t + b && t !! b && t != {} && b != {}
    && RateOf(k, t) == RateOf(k, x) && RateOf(k, b) == RateOf(k, x)
    && !DependsOn(k, t, b)
  }

  lemma EvenParts(k: Cluster, x: set<nat>, t: set<nat>, b: set<nat>)
    requires x == t + b && t !! b && t != {} && b != {} && RateOf(k, t) == RateOf(k, x)
    ensures RateOf(k, b) == RateOf(k, x)
  {
    RateOfUnion(k, t, b);
  }

  lemma EvenSplitWeak(k: Cluster, chunks: set<set<nat>>, x: set<nat>, t: set<nat>, b: set<nat>)
    requires EvenSplit(k, chunks, x, t, b) && WeaklyTopological(k, chunks)
    ensures WeaklyTopological(k, Split(chunks, x, t, b))
  {
    hide RateOf;
    var after := Split(chunks, x, t, b);
    forall y, z | y in after && z in after && y != z && DependsOn(k, y, z)
      ensures RateOf(k, y) <= RateOf(k, z)
    {
      var y', z' := if y == t || y == b then x else y, if z == t || z == b then x else z;
      assert DependsOn(k, y', z');
    }
  }

  lemma EvenSplitAcyclic(k: Cluster, chunks: set<set<nat>>, x: set<nat>, t: set<nat>, b: set<nat>)
    requires EvenSplit(k, chunks, x, t, b) && Acyclic(k, chunks)
    ensures Acyclic(k, Split(chunks, x, t, b))
  {
    hide RateOf;
    var after := Split(chunks, x, t, b);
    SplitSeparate(chunks, x, t, b);
    forall sub: set<set<nat>> | sub <= after && sub != {}
      ensures exists s :: Source(k, sub, s)
    {
      if t in sub || b in sub {
        var whole := sub - {t, b} + {x};
        assert whole <= chunks;
        var s :| Source(k, whole, s);
        var s' := if s != x then s else if t in sub then t else b;
        forall z | z in sub && z != s'
          ensures !DependsOn(k, s', z)
        {
          var z' := if z == t || z == b then x else z;
          assert DependsOn(k, s', z) ==> DependsOn(k, s, z');
        }
        assert Source(k, sub, s');
      } else {
        assert sub <= chunks;
      }
    }
  }

  lemma EvenSplitDiagram(k: Cluster, chunks: set<set<nat>>, x: set<nat>, t: set<nat>, b: set<nat>)
    requires EvenSplit(k, chunks, x, t, b)
    ensures SameDiagram(k, Split(chunks, x, t, b), chunks)
  {
    SplitSeparate(chunks, x, t, b);
    hide RateOf, WeightOf, Surplus, DependsOn, Cover;
    forall l: real
      ensures Surplus(k, l, Split(chunks, x, t, b)) == Surplus(k, l, chunks)
    {
      SurplusAfter(k, l, chunks - {x}, t, b);
      SurplusRemove(k, l, chunks, x);
      WeightUnion(k, l, t, b);
      WeightOfSign(k, l, t);
      WeightOfSign(k, l, b);
      WeightOfSign(k, l, x);
    }
  }

  // ---------------------------------------------------------------- pivots

  /** No proper part that could go first, of the feerate of x, has the pivot inside (outside). */
  ghost predicate NoSplit(k: Cluster, x: set<nat>, pivot: nat, inside: bool) {
    forall s: set<nat> | ClosedWithin(k, x, s) && s != {} && s != x && (pivot in s <==> inside) ::
      RateOf(k, s) != RateOf(k, x)
  }

  lemma NoSplitBoth(k: Cluster, x: set<nat>, pivot: nat, inside: bool)
    requires NoSplit(k, x, pivot, inside) && NoSplit(k, x, pivot, !inside)
    ensures Unsplittable(k, x)
  {
    hide RateOf, ClosedWithin;
    forall s: set<nat> | ClosedWithin(k, x, s) && s != {} && s != x
      ensures RateOf(k, s) != RateOf(k, x)
    {
      if (pivot in s) == inside {
        assert pivot in s <==> inside;
      } else {
        assert pivot in s <==> !inside;
      }
    }
  }

  /** The bottom inherits that no split has the pivot above. */
  lemma NoSplitBottom(k: Cluster, chunks: set<set<nat>>, x: set<nat>, t: set<nat>, b: set<nat>, pivot: nat)
    requires EvenSplit(k, chunks, x, t, b) && pivot in b && NoSplit(k, x, pivot, true)
    ensures NoSplit(k, b, pivot, true)
  {
    hide RateOf;
    forall s: set<nat> | ClosedWithin(k, b, s) && s != {} && s != b && pivot in s
      ensures RateOf(k, s) != RateOf(k, b)
    {
      var u := t + s;
      assert ClosedWithin(k, x, u) by {
        forall d | d in k.deps && d.1 in u && d.0 in x
          ensures d.0 in u
        {
          assert d.1 in t && d.0 in b ==> DependsOn(k, t, b);
        }
      }
      assert u != x by {
        var v :| v in b && v !in s;
        assert v in x && v !in u;
      }
      if RateOf(k, s) == RateOf(k, b) {
        RateOfUnion(k, t, s);
      }
    }
  }

  /** The top inherits that no split has the pivot below. */
  lemma NoSplitTop(k: Cluster, chunks: set<set<nat>>, x: set<nat>, t: set<nat>, b: set<nat>, pivot: nat)
    requires EvenSplit(k, chunks, x, t, b) && pivot in t && NoSplit(k, x, pivot, false)
    ensures NoSplit(k, t, pivot, false)
  {
    hide RateOf;
    forall s: set<nat> | ClosedWithin(k, t, s) && s != {} && s != t && pivot !in s
      ensures RateOf(k, s) != RateOf(k, t)
    {
      assert ClosedWithin(k, x, s) by {
        forall d | d in k.deps && d.1 in s && d.0 in x
          ensures d.0 in s
        {
          assert d.0 in b ==> DependsOn(k, t, b);
        }
      }
    }
  }
}
