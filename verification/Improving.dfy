/** One improvement step at the level of chunks: a chunk is split into a top and a bottom, the
    top climbs, the bottom descends. The result is topological and strictly better. */
module Improving {
  import opened FeeFracs
  import opened Clusters
  import opened Merging

  // ---------------------------------------------------------------- reversal of chunk relations

  lemma DependsOnReversed(k: Cluster, y: set<nat>, z: set<nat>)
    ensures DependsOn(k.Reversed(), y, z) <==> DependsOn(k, z, y)
  {
    var r := k.Reversed();
    if DependsOn(r, y, z) {
      var d :| d in r.deps && d.0 in z && d.1 in y;
      assert (d.1, d.0) in k.deps;
    }
    if DependsOn(k, z, y) {
      var d :| d in k.deps && d.0 in y && d.1 in z;
      assert (d.1, d.0) in r.deps;
    }
  }

  ghost predicate Known(k: Cluster, chunks: set<set<nat>>) {
    forall x | x in chunks :: x <= k.fees.Keys
  }

  lemma TopologicalReversed(k: Cluster, chunks: set<set<nat>>)
    requires Known(k, chunks)
    ensures Topological(k.Reversed(), chunks) <==> Topological(k, chunks)
  {
    hide RateOf, DependsOn;
    forall y | y in chunks
      ensures RateOf(k.Reversed(), y) == -RateOf(k, y)
    {
      RateReversed(k, y);
    }
    forall y, z | y in chunks && z in chunks
      ensures DependsOn(k.Reversed(), y, z) <==> DependsOn(k, z, y)
    {
      DependsOnReversed(k, y, z);
    }
  }

  // ---------------------------------------------------------------- splitting

  /** x is a chunk of a topological collection, about to be split into t and b, where t has a
      higher feerate than x and does not depend on b. */
  ghost predicate Splittable(k: Cluster, chunks: set<set<nat>>, x: set<nat>, t: set<nat>, b: set<nat>) {
    && Separate(chunks) && Known(k, chunks) && Topological(k, chunks)
    && x in chunks && x == t + b && t !! b && t != {} && b != {}
    && RateOf(k, t) > RateOf(k, x)
    && !DependsOn(k, t, b)
  }

  ghost function Split(chunks: set<set<nat>>, x: set<nat>, t: set<nat>, b: set<nat>): set<set<nat>> {
    chunks - {x} + {t, b}
  }

  lemma SplitSeparate(chunks: set<set<nat>>, x: set<nat>, t: set<nat>, b: set<nat>)
    requires Separate(chunks) && x in chunks && x == t + b && t !! b && t != {} && b != {}
    ensures Separate(Split(chunks, x, t, b))
    ensures t !in chunks && b !in chunks && t != b
    ensures Cover(Split(chunks, x, t, b)) == Cover(chunks)
  {
    var after := Split(chunks, x, t, b);
    var p :| p in t;
    var q :| q in b;
    assert p in x && q in x;
    forall u | u in Cover(chunks)
      ensures u in Cover(after)
    {
      var y :| y in chunks && u in y;
      if y == x {
        assert t in after && b in after;
        assert u in t || u in b;
      } else {
        assert y in after;
      }
    }
    forall u | u in Cover(after)
      ensures u in Cover(chunks)
    {
      var y :| y in after && u in y;
    }
  }

  lemma SplitRates(k: Cluster, t: set<nat>, b: set<nat>)
    requires t !! b && t != {} && b != {} && RateOf(k, t) > RateOf(k, t + b)
    ensures RateOf(k, b) < RateOf(k, t + b)
  {
    RateOfUnion(k, t, b);
  }

  /** How chunks other than x relate to the parts of x. */
  lemma SplitNeighbours(k: Cluster, chunks: set<set<nat>>, x: set<nat>, t: set<nat>, b: set<nat>, y: set<nat>)
    requires Splittable(k, chunks, x, t, b) && y in chunks && y != x
    ensures DependsOn(k, t, y) || DependsOn(k, b, y) ==> RateOf(k, y) > RateOf(k, x)
    ensures DependsOn(k, y, t) || DependsOn(k, y, b) ==> RateOf(k, y) < RateOf(k, x)
  {
    hide RateOf;
    DependsOnUnion(k, t, b, y);
  }

  /** After the split the top may climb, with the bottom out of scope. */
  lemma SplitClimbing(k: Cluster, chunks: set<set<nat>>, x: set<nat>, t: set<nat>, b: set<nat>)
    requires Splittable(k, chunks, x, t, b)
    ensures Climbing(k, Split(chunks, x, t, b), Split(chunks, x, t, b) - {b}, t)
    ensures Above(k, Split(chunks, x, t, b), t, RateOf(k, x))
  {
    var after := Split(chunks, x, t, b);
    var scope := after - {b};
    hide RateOf, Cover;
    SplitSeparate(chunks, x, t, b);
    assert scope - {t} <= chunks - {x};
    forall z | ParentOf(k, after, t, z)
      ensures z in scope && RateOf(k, z) > RateOf(k, x)
    {
      assert z in chunks && z != x;
      SplitNeighbours(k, chunks, x, t, b, z);
    }
    forall y | Lagging(k, after, scope, t, y)
      ensures RateOf(k, y) < RateOf(k, x)
    {
      assert y in chunks && y != x;
      SplitNeighbours(k, chunks, x, t, b, y);
      assert forall z | z in after && z !in scope :: z == b;
    }
    forall y | y in scope && y != t && DependsOn(k, y, t)
      ensures RateOf(k, y) < RateOf(k, t)
    {
      assert Lagging(k, after, scope, t, y);
    }
  }

  /** The state reached when the top has finished climbing. */
  ghost predicate Climbed(k: Cluster, chunks: set<set<nat>>, x: set<nat>, t: set<nat>, b: set<nat>,
                          mid: set<set<nat>>, t': set<nat>, ups: set<set<nat>>) {
    && Splittable(k, chunks, x, t, b)
    && Absorbed(Split(chunks, x, t, b), t, mid, t', ups)
    && Gained(k, Split(chunks, x, t, b), t, mid, t', ups)
    && Climbing(k, mid, mid - {b}, t')
    && NothingToMerge(k, mid, t')
  }

  /** Facts about the middle state: b is still a chunk, and everything that is not b is either
      t' or an untouched chunk of the original collection. */
  lemma ClimbedFacts(k: Cluster, chunks: set<set<nat>>, x: set<nat>, t: set<nat>, b: set<nat>,
                     mid: set<set<nat>>, t': set<nat>, ups: set<set<nat>>)
    requires Climbed(k, chunks, x, t, b, mid, t', ups)
    ensures b in mid && t' in mid && t' != b && b !in ups
    ensures ups <= chunks - {x}
    ensures mid == (chunks - {x} - ups) + {t', b}
    ensures t' !in chunks - {x} - ups && b !in chunks
    ensures Known(k, mid) && t' !! b
    ensures RateOf(k, t') > RateOf(k, x) > RateOf(k, b)
    ensures Topological(k, mid - {b})
    ensures forall m | m in ups :: RateOf(k, m) > RateOf(k, x)
  {
    ClimbedRates(k, chunks, x, t, b, mid, t', ups);
    hide RateOf, Cover, DependsOn, Topological, Climbing, Gained, NothingToMerge;
    SplitSeparate(chunks, x, t, b);
    AbsorbedFresh(Split(chunks, x, t, b), t, mid, t', ups);
    ClimbedShape(k, chunks, x, t, b, mid, t', ups);
    KnownUnion(k, chunks, x, t, ups);
    KnownMid(k, chunks - {x} - ups, mid, t', b);
    hide Known, Separate;
  }

  lemma KnownMid(k: Cluster, rest: set<set<nat>>, mid: set<set<nat>>, t': set<nat>, b: set<nat>)
    requires Known(k, rest) && mid == rest + {t', b} && t' <= k.fees.Keys && b <= k.fees.Keys
    ensures Known(k, mid)
  {
  }

  /** Everything that takes part in the climb stays above the split chunk, and b below it. */
  lemma ClimbedRates(k: Cluster, chunks: set<set<nat>>, x: set<nat>, t: set<nat>, b: set<nat>,
                     mid: set<set<nat>>, t': set<nat>, ups: set<set<nat>>)
    requires Climbed(k, chunks, x, t, b, mid, t', ups)
    ensures RateOf(k, t') > RateOf(k, x) > RateOf(k, b) && b !in ups
    ensures Topological(k, mid - {b})
    ensures forall m | m in ups :: RateOf(k, m) > RateOf(k, x)
  {
    SplitRates(k, t, b);
    hide RateOf, Cover, DependsOn, Topological, Climbing, Absorbed, NothingToMerge, Surplus, WeightOf, Pos;
    SplitClimbing(k, chunks, x, t, b);
    ClimbEnd(k, mid, mid - {b}, t');
  }

  lemma ClimbedShape(k: Cluster, chunks: set<set<nat>>, x: set<nat>, t: set<nat>, b: set<nat>,
                     mid: set<set<nat>>, t': set<nat>, ups: set<set<nat>>)
    requires Separate(chunks) && x in chunks && t + b == x && t != b
    requires t !in chunks && b !in chunks
    requires Absorbed(Split(chunks, x, t, b), t, mid, t', ups) && b !in ups
    requires t' !in Split(chunks, x, t, b) - ups - {t}
    ensures ups <= chunks - {x}
    ensures mid == (chunks - {x} - ups) + {t', b}
    ensures t' != b && t' !! b
  {
    var after := Split(chunks, x, t, b);
    assert t in after && b in after;
    forall u | u in t'
      ensures u !in b
    {
      if u !in t {
        var m :| m in ups && u in m;
        assert m in after;
      }
    }
  }

  lemma KnownUnion(k: Cluster, chunks: set<set<nat>>, x: set<nat>, t: set<nat>, ups: set<set<nat>>)
    requires Known(k, chunks) && x in chunks && t <= x && ups <= chunks + {t}
    ensures t + Cover(ups) <= k.fees.Keys
  {
    forall u | u in Cover(ups)
      ensures u in k.fees.Keys
    {
      var m :| m in ups && u in m;
      assert m in chunks || m == t;
    }
  }

  /** After the climb, the bottom may descend: it climbs in the reversed cluster. */
  lemma ClimbedDescending(k: Cluster, chunks: set<set<nat>>, x: set<nat>, t: set<nat>, b: set<nat>,
                          mid: set<set<nat>>, t': set<nat>, ups: set<set<nat>>)
    requires Climbed(k, chunks, x, t, b, mid, t', ups)
    ensures Climbing(k.Reversed(), mid, mid, b)
    ensures Above(k.Reversed(), mid, b, -RateOf(k, x))
  {
    var r := k.Reversed();
    hide RateOf, DependsOn, Cover, Absorbed, Gained, Topological;
    ClimbedFacts(k, chunks, x, t, b, mid, t', ups);
    assert Topological(r, mid - {b}) by {
      TopologicalReversed(k, mid - {b});
    }
    forall y | y in mid
      ensures RateOf(r, y) == -RateOf(k, y)
      ensures y != b && DependsOn(r, b, y) ==> RateOf(k, y) < RateOf(k, x)
      ensures y != b && DependsOn(r, y, b) ==> RateOf(k, y) > RateOf(k, x)
    {
      RateReversed(k, y);
      DependsOnReversed(k, b, y);
      DependsOnReversed(k, y, b);
      if y == t' {
        assert !DependsOn(k, t', b) by {
          assert ParentOf(k, mid, t', b) ==> b in mid - {b};
        }
      } else if y != b {
        SplitNeighbours(k, chunks, x, t, b, y);
      }
    }
  }

  /** The state reached when the bottom has finished descending. */
  ghost predicate Improved(k: Cluster, chunks: set<set<nat>>, x: set<nat>, t: set<nat>, b: set<nat>,
                           mid: set<set<nat>>, t': set<nat>, ups: set<set<nat>>,
                           fin: set<set<nat>>, b': set<nat>, downs: set<set<nat>>) {
    && Climbed(k, chunks, x, t, b, mid, t', ups)
    && Absorbed(mid, b, fin, b', downs)
    && Gained(k.Reversed(), mid, b, fin, b', downs)
    && Climbing(k.Reversed(), fin, fin, b')
    && NothingToMerge(k.Reversed(), fin, b')
  }

  lemma ImprovedFacts(k: Cluster, chunks: set<set<nat>>, x: set<nat>, t: set<nat>, b: set<nat>,
                      mid: set<set<nat>>, t': set<nat>, ups: set<set<nat>>,
                      fin: set<set<nat>>, b': set<nat>, downs: set<set<nat>>)
    requires Improved(k, chunks, x, t, b, mid, t', ups, fin, b', downs)
    ensures t' !in downs && downs <= chunks - {x} - ups
    ensures fin == (chunks - {x} - ups - downs) + {t', b'}
    ensures t' != b' && t' !in chunks - {x} - ups && b' !in chunks - {x} - ups - downs
    ensures forall m | m in downs :: RateOf(k, m) < RateOf(k, x)
    ensures Known(k, fin)
  {
    var r := k.Reversed();
    hide RateOf, DependsOn, Cover, Topological, Climbing;
    ClimbedFacts(k, chunks, x, t, b, mid, t', ups);
    ClimbedDescending(k, chunks, x, t, b, mid, t', ups);
    AbsorbedFresh(mid, b, fin, b', downs);
    forall m | m in downs
      ensures RateOf(k, m) < RateOf(k, x)
    {
      RateReversed(k, m);
    }
    KnownUnion(k, mid, b, b, downs);
  }

  /** An improvement step without self-merge ends in a topological collection of chunks. */
  lemma ImprovedTopological(k: Cluster, chunks: set<set<nat>>, x: set<nat>, t: set<nat>, b: set<nat>,
                            mid: set<set<nat>>, t': set<nat>, ups: set<set<nat>>,
                            fin: set<set<nat>>, b': set<nat>, downs: set<set<nat>>)
    requires Improved(k, chunks, x, t, b, mid, t', ups, fin, b', downs)
    ensures Topological(k, fin)
  {
    ClimbEnd(k.Reversed(), fin, fin, b');
    ImprovedFacts(k, chunks, x, t, b, mid, t', ups, fin, b', downs);
    TopologicalReversed(k, fin);
  }

  lemma AbsorbedWeight(k: Cluster, l: real, start: set<set<nat>>, first: set<nat>, chunks: set<set<nat>>,
                       cur: set<nat>, merged: set<set<nat>>)
    requires Absorbed(start, first, chunks, cur, merged)
    ensures Separate(merged)
    ensures WeightOf(k, l, cur) == WeightOf(k, l, first) + WeightOf(k, l, Cover(merged))
  {
    hide WeightOf;
    forall u | u in first
      ensures u !in Cover(merged)
    {
      assert forall m | m in merged :: m in start && m != first;
    }
    WeightUnion(k, l, first, Cover(merged));
  }

  lemma SurplusBefore(k: Cluster, l: real, rest: set<set<nat>>, ups: set<set<nat>>, downs: set<set<nat>>, x: set<nat>)
    requires rest !! ups && rest !! downs && ups !! downs && x !in rest && x !in ups && x !in downs
    ensures Surplus(k, l, rest + ups + downs + {x})
            == Surplus(k, l, rest) + Surplus(k, l, ups) + Surplus(k, l, downs) + Pos(WeightOf(k, l, x))
  {
    hide Surplus, WeightOf;
    SurplusAdd(k, l, rest + ups + downs, x);
    SurplusUnion(k, l, rest + ups, downs);
    SurplusUnion(k, l, rest, ups);
  }

  lemma SurplusAfter(k: Cluster, l: real, rest: set<set<nat>>, t: set<nat>, b: set<nat>)
    requires t !in rest && b !in rest && t != b
    ensures Surplus(k, l, rest + {t, b})
            == Surplus(k, l, rest) + Pos(WeightOf(k, l, t)) + Pos(WeightOf(k, l, b))
  {
    hide Surplus, WeightOf;
    assert rest + {t} + {b} == rest + {t, b};
    SurplusAdd(k, l, rest, t);
    SurplusAdd(k, l, rest + {t}, b);
  }

  /** At reference feerates at or above the split chunk, neither it nor what is below counts. */
  lemma ImprovedHigh(k: Cluster, l: real, x: set<nat>, downs: set<set<nat>>)
    requires x != {} && {} !in downs && l >= RateOf(k, x)
    requires forall m | m in downs :: RateOf(k, m) < RateOf(k, x)
    ensures Surplus(k, l, downs) == 0.0 && Pos(WeightOf(k, l, x)) == 0.0
  {
    hide Surplus, WeightOf, RateOf;
    WeightOfSign(k, l, x);
    forall m | m in downs
      ensures WeightOf(k, l, m) <= 0.0
    {
      WeightOfSign(k, l, m);
    }
    SurplusZero(k, l, downs);
  }

  lemma ImprovedUps(k: Cluster, l: real, x: set<nat>, t: set<nat>, t': set<nat>, ups: set<set<nat>>)
    requires Separate(ups) && l <= RateOf(k, x)
    requires forall m | m in ups :: RateOf(k, m) > RateOf(k, x)
    requires WeightOf(k, l, t') == WeightOf(k, l, t) + WeightOf(k, l, Cover(ups))
    ensures Pos(WeightOf(k, l, t')) >= WeightOf(k, l, t) + Surplus(k, l, ups)
  {
    hide Surplus, WeightOf, RateOf, Cover;
    forall m | m in ups
      ensures WeightOf(k, l, m) >= 0.0
    {
      WeightOfSign(k, l, m);
    }
    SurplusIsWeight(k, l, ups);
  }

  lemma ImprovedDowns(k: Cluster, l: real, b: set<nat>, b': set<nat>, downs: set<set<nat>>)
    requires Separate(downs) && Cover(downs) <= k.fees.Keys && b' <= k.fees.Keys
    requires Pos(WeightOf(k.Reversed(), -l, b')) >= Surplus(k.Reversed(), -l, downs)
    requires WeightOf(k, l, b') == WeightOf(k, l, b) + WeightOf(k, l, Cover(downs))
    ensures Pos(WeightOf(k, l, b')) >= WeightOf(k, l, b) + Surplus(k, l, downs)
  {
    hide Surplus, WeightOf, Cover;
    SurplusReversed(k, l, downs);
    WeightReversed(k, l, b');
  }

  lemma ImprovedParts(k: Cluster, l: real, chunks: set<set<nat>>, x: set<nat>, t: set<nat>, b: set<nat>,
                      mid: set<set<nat>>, t': set<nat>, ups: set<set<nat>>,
                      fin: set<set<nat>>, b': set<nat>, downs: set<set<nat>>)
    requires Improved(k, chunks, x, t, b, mid, t', ups, fin, b', downs)
    ensures Surplus(k, l, fin) - Surplus(k, l, chunks)
            == Pos(WeightOf(k, l, t')) + Pos(WeightOf(k, l, b'))
               - (Surplus(k, l, ups) + Surplus(k, l, downs) + Pos(WeightOf(k, l, x)))
    ensures WeightOf(k, l, x) == WeightOf(k, l, t) + WeightOf(k, l, b)
    ensures Separate(ups) && WeightOf(k, l, t') == WeightOf(k, l, t) + WeightOf(k, l, Cover(ups))
    ensures Separate(downs) && WeightOf(k, l, b') == WeightOf(k, l, b) + WeightOf(k, l, Cover(downs))
    ensures Cover(downs) <= k.fees.Keys && b' <= k.fees.Keys
  {
    var rest := chunks - {x} - ups - downs;
    hide Surplus, WeightOf, RateOf, Cover, Climbing, NothingToMerge, Gained, Topological;
    ClimbedFacts(k, chunks, x, t, b, mid, t', ups);
    ImprovedFacts(k, chunks, x, t, b, mid, t', ups, fin, b', downs);
    assert chunks == rest + ups + downs + {x};
    SurplusBefore(k, l, rest, ups, downs, x);
    SurplusAfter(k, l, rest, t', b');
    AbsorbedWeight(k, l, Split(chunks, x, t, b), t, mid, t', ups);
    AbsorbedWeight(k, l, mid, b, fin, b', downs);
    WeightUnion(k, l, t, b);
    KnownUnion(k, mid, b, b, downs);
  }

  lemma ImprovedSurplus(k: Cluster, l: real, chunks: set<set<nat>>, x: set<nat>, t: set<nat>, b: set<nat>,
                        mid: set<set<nat>>, t': set<nat>, ups: set<set<nat>>,
                        fin: set<set<nat>>, b': set<nat>, downs: set<set<nat>>)
    requires Improved(k, chunks, x, t, b, mid, t', ups, fin, b', downs)
    ensures Surplus(k, l, fin) >= Surplus(k, l, chunks)
    ensures l == RateOf(k, x) ==> Surplus(k, l, fin) > Surplus(k, l, chunks)
  {
    hide Surplus, WeightOf, RateOf, Cover, Climbing, NothingToMerge, Absorbed, Topological;
    ClimbedFacts(k, chunks, x, t, b, mid, t', ups);
    ImprovedFacts(k, chunks, x, t, b, mid, t', ups, fin, b', downs);
    ImprovedParts(k, l, chunks, x, t, b, mid, t', ups, fin, b', downs);
    assert Pos(WeightOf(k.Reversed(), -l, b')) >= Surplus(k.Reversed(), -l, downs);
    WeightOfSign(k, l, x);
    WeightOfSign(k, l, t);
    if l >= RateOf(k, x) {
      ImprovedHigh(k, l, x, downs);
    }
    if l <= RateOf(k, x) {
      ImprovedUps(k, l, x, t, t', ups);
      ImprovedDowns(k, l, b, b', downs);
    }
  }

  /** Documented in the source: a step without self-merge strictly improves the diagram. */
  lemma ImprovedStrictly(k: Cluster, chunks: set<set<nat>>, x: set<nat>, t: set<nat>, b: set<nat>,
                         mid: set<set<nat>>, t': set<nat>, ups: set<set<nat>>,
                         fin: set<set<nat>>, b': set<nat>, downs: set<set<nat>>)
    requires Improved(k, chunks, x, t, b, mid, t', ups, fin, b', downs)
    ensures AtLeastAsGood(k, fin, chunks) && !AtLeastAsGood(k, chunks, fin)
  {
    hide Improved, Surplus;
    forall l: real
      ensures Surplus(k, l, fin) >= Surplus(k, l, chunks)
    {
      ImprovedSurplus(k, l, chunks, x, t, b, mid, t', ups, fin, b', downs);
    }
    ImprovedSurplus(k, RateOf(k, x), chunks, x, t, b, mid, t', ups, fin, b', downs);
  }
}
