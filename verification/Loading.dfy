/** Building a topological collection of chunks from an existing linearization with upward
    merges alone, at the level of chunks. */
module Loading {
  import opened FeeFracs
  import opened Clusters
  import opened Merging
  import opened Optimality

  ghost function ToSet(s: seq<nat>): set<nat> {
    set t | t in s
  }

  /** lin contains every transaction once, parents before children. */
  ghost predicate IsLinearization(k: Cluster, lin: seq<nat>) {
    && ToSet(lin) == k.txs
    && (forall i, j | 0 <= i < j < |lin| :: lin[i] != lin[j])
    && (forall i, j | 0 <= i < |lin| && 0 <= j < |lin| && (lin[i], lin[j]) in k.deps :: i < j)
  }

  lemma PrefixClosed(k: Cluster, lin: seq<nat>, n: nat)
    requires k.Valid() && IsLinearization(k, lin) && n <= |lin|
    ensures TopologicallyClosed(k, ToSet(lin[..n]))
  {
    forall d | d in k.deps && d.1 in ToSet(lin[..n])
      ensures d.0 in ToSet(lin[..n])
    {
      var j :| 0 <= j < n && lin[j] == d.1;
      assert d.0 in ToSet(lin);
      var i :| 0 <= i < |lin| && lin[i] == d.0;
      assert i < j;
      assert lin[i] == lin[..n][i];
    }
  }

  /** The chunks that lie in the loaded set. */
  ghost function Inside(chunks: set<set<nat>>, loaded: set<nat>): set<set<nat>> {
    set x | x in chunks && x <= loaded
  }

  /** Chunks lie in the loaded set, where they are topological, or are unloaded singletons. */
  ghost predicate Loaded(k: Cluster, chunks: set<set<nat>>, loaded: set<nat>) {
    && IsPartition(k.txs, chunks)
    && TopologicallyClosed(k, loaded) && loaded <= k.txs
    && (forall x | x in chunks :: x <= loaded || (exists u :: x == {u} && u !in loaded))
    && Topological(k, Inside(chunks, loaded))
  }

  /** The chunks that loading t must leave alone. */
  ghost function Unloaded(chunks: set<set<nat>>, loaded: set<nat>): set<set<nat>> {
    set x | x in chunks && !(x <= loaded)
  }

  lemma LoadedCover(k: Cluster, chunks: set<set<nat>>, loaded: set<nat>)
    requires Loaded(k, chunks, loaded)
    ensures Cover(Inside(chunks, loaded)) == loaded && Separate(Inside(chunks, loaded))
  {
    hide Topological;
    forall t | t in loaded
      ensures t in Cover(Inside(chunks, loaded))
    {
      assert t in Cover(chunks);
      var x :| x in chunks && t in x;
      assert x in Inside(chunks, loaded);
    }
  }

  /** The next transaction of a valid linearization may climb among the loaded chunks. */
  lemma LoadClimbing(k: Cluster, chunks: set<set<nat>>, loaded: set<nat>, t: nat)
    requires Loaded(k, chunks, loaded) && k.Valid() && t in k.txs && t !in loaded
    requires TopologicallyClosed(k, loaded + {t})
    requires (t, t) !in k.deps
    ensures {t} in chunks
    ensures Climbing(k, chunks, chunks - Unloaded(chunks, loaded + {t}), {t})
  {
    hide RateOf;
    var cur := {t};
    assert t in Cover(chunks);
    var x :| x in chunks && t in x;
    assert x == cur;
    var out := Unloaded(chunks, loaded + {t});
    var scope := chunks - out;
    forall y | y in scope && y != cur
      ensures y in Inside(chunks, loaded)
    {
      assert y <= loaded + {t};
      assert t !in y;
    }
    assert scope - {cur} <= Inside(chunks, loaded);
    forall z | ParentOf(k, chunks, cur, z)
      ensures z in scope
    {
      var d :| d in k.deps && d.0 in z && d.1 in cur;
      assert d.0 in loaded;
    }
    forall y, z | y in scope && y != cur && z in chunks && (z == cur || z !in scope)
      ensures !DependsOn(k, y, z)
    {
      assert y <= loaded;
      forall d | d in k.deps && d.1 in y
        ensures d.0 !in z
      {
        assert d.0 in loaded;
      }
    }
  }

  /** What a finished climb of t leaves. */
  ghost predicate Hoisted(k: Cluster, chunks: set<set<nat>>, loaded: set<nat>, t: nat,
                          after: set<set<nat>>, cur: set<nat>, merged: set<set<nat>>) {
    && Loaded(k, chunks, loaded) && k.Valid() && t in k.txs && t !in loaded
    && TopologicallyClosed(k, loaded + {t}) && {t} in chunks
    && Sequence(k, Unloaded(chunks, loaded + {t}), chunks, {t}, after, cur, merged)
    && NothingToMerge(k, after, cur)
  }

  lemma LoadedMerged(k: Cluster, chunks: set<set<nat>>, loaded: set<nat>, t: nat,
                      after: set<set<nat>>, cur: set<nat>, merged: set<set<nat>>)
    requires Hoisted(k, chunks, loaded, t, after, cur, merged)
    ensures merged <= Inside(chunks, loaded) && {t} !in merged
    ensures cur <= loaded + {t} && t in cur && cur !in chunks - merged - {{t}}
    ensures Inside(after, loaded + {t}) == Inside(chunks, loaded) - merged + {cur}
    ensures Inside(after, loaded + {t}) == after - Unloaded(chunks, loaded + {t})
  {
    hide RateOf, Climbing, Gained, NothingToMerge, Topological;
    var out := Unloaded(chunks, loaded + {t});
    AbsorbedFresh(chunks, {t}, after, cur, merged);
    assert t in cur;
    forall m | m in merged
      ensures m in Inside(chunks, loaded)
    {
      assert m in chunks && m != {t} && t !in m;
      assert m != cur;
      assert m !in after;
      assert m !in out;
    }
    assert Cover(merged) <= loaded;
    var in' := Inside(after, loaded + {t});
    forall x | x in chunks && x != {t} && x !in merged
      ensures x <= loaded <==> x <= loaded + {t}
    {
      assert t !in x;
    }
    forall x
      ensures x in in' <==> x in Inside(chunks, loaded) - merged + {cur}
      ensures x in in' <==> x in after - out
    {
    }
  }

  /** Loading t keeps the loaded part topological, and its diagram gets no worse. */
  lemma LoadStep(k: Cluster, chunks: set<set<nat>>, loaded: set<nat>, t: nat,
                 after: set<set<nat>>, cur: set<nat>, merged: set<set<nat>>)
    requires Hoisted(k, chunks, loaded, t, after, cur, merged) && IsPartition(k.txs, after)
    ensures Loaded(k, after, loaded + {t})
    ensures AtLeastAsGood(k, Inside(after, loaded + {t}), Inside(chunks, loaded))
  {
    LoadedMerged(k, chunks, loaded, t, after, cur, merged);
    hide RateOf, Surplus, WeightOf, Gained;
    var out := Unloaded(chunks, loaded + {t});
    ClimbEnd(k, after, after - out, cur);
    forall x | x in after
      ensures x <= loaded + {t} || (exists u :: x == {u} && u !in loaded + {t})
    {
    }
    forall l: real
      ensures Surplus(k, l, Inside(after, loaded + {t})) >= Surplus(k, l, Inside(chunks, loaded))
    {
      LoadSurplus(k, l, chunks, loaded, t, after, cur, merged);
    }
  }

  lemma LoadSurplus(k: Cluster, l: real, chunks: set<set<nat>>, loaded: set<nat>, t: nat,
                    after: set<set<nat>>, cur: set<nat>, merged: set<set<nat>>)
    requires Hoisted(k, chunks, loaded, t, after, cur, merged)
    ensures Surplus(k, l, Inside(after, loaded + {t})) >= Surplus(k, l, Inside(chunks, loaded))
  {
    LoadedMerged(k, chunks, loaded, t, after, cur, merged);
    hide RateOf, Surplus, WeightOf, Climbing, Topological, NothingToMerge;
    var inside := Inside(chunks, loaded);
    assert cur !in inside by {
      assert {t} !in inside;
    }
    SurplusAdd(k, l, inside - merged, cur);
    SurplusUnion(k, l, inside - merged, merged);
    assert inside - merged + merged == inside;
    assert Pos(WeightOf(k, l, cur)) >= Surplus(k, l, merged);
  }
}
