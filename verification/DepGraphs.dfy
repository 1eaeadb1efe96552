/** Transaction graphs given by ancestor and descendant sets, and the reduced dependencies that
    are inferred from them. */
module DepGraphs {
  import opened Clusters
  import opened Optimality

  datatype Entry = Entry(feerate: TxFee, ancestors: set<nat>, descendants: set<nat>)

  datatype DepGraph = DepGraph(entries: map<nat, Entry>) {
    function Positions(): set<nat> {
      entries.Keys
    }

    /** Ancestor sets are reflexive, transitively closed and acyclic, and descendant sets are
        their converse. */
    ghost predicate Valid() {
      && (forall i | i in entries :: i in entries[i].ancestors && entries[i].ancestors <= entries.Keys)
      && (forall i, j | i in entries && j in entries[i].ancestors && j in entries ::
            entries[j].ancestors <= entries[i].ancestors)
      && (forall i, j | i in entries && j in entries && i in entries[j].ancestors
          && j in entries[i].ancestors :: i == j)
      && (forall i | i in entries :: entries[i].descendants <= entries.Keys)
      && (forall i, j | i in entries && j in entries :: j in entries[i].descendants <==> i in entries[j].ancestors)
    }

    /** The ancestors of i; empty outside the graph. */
    ghost function Anc(i: nat): set<nat> {
      if i in entries then entries[i].ancestors else {}
    }
  }

  /** p is a proper ancestor of i with no other proper ancestor of i in between. */
  ghost predicate IsReducedParent(g: DepGraph, p: nat, i: nat) {
    && p in g.Anc(i) && p != i
    && (forall q | q in g.Anc(i) && q != i && p in g.Anc(q) :: q == p)
  }

  ghost function ReducedParents(g: DepGraph, i: nat): set<nat> {
    set p | p in g.Anc(i) && IsReducedParent(g, p, i)
  }

  /** DepGraph::GetReducedParents: whatever the order of iteration, exactly the maximal proper
      ancestors remain. */
  method GetReducedParents(g: DepGraph, i: nat) returns (parents: set<nat>)
    requires g.Valid() && i in g.entries
    ensures parents == ReducedParents(g, i)
  {
    var all := g.entries[i].ancestors - {i};
    parents := all;
    var todo := all;
    while todo != {}
      invariant todo <= all && parents <= all
      invariant forall m | m in all && IsReducedParent(g, m, i) :: m in parents
      invariant forall x | x in all && x !in parents :: exists r :: r in parents && x in g.Anc(r)
      invariant forall p, q | p in parents && p !in todo && q in parents && q in g.Anc(p) :: q == p
      decreases todo
    {
      var parent :| parent in todo;
      if parent in parents {
        ghost var before := parents;
        parents := parents - g.entries[parent].ancestors + {parent};
        forall x | x in all && x !in parents
          ensures exists r :: r in parents && x in g.Anc(r)
        {
          if x !in g.Anc(parent) {
            var r :| r in before && x in g.Anc(r);
            assert r in parents;
          } else {
            assert parent in parents;
          }
        }
      }
      todo := todo - {parent};
    }
    forall p | p in parents
      ensures IsReducedParent(g, p, i)
    {
      forall q | q in g.Anc(i) && q != i && p in g.Anc(q)
        ensures q == p
      {
        assert q in parents ==> q in g.Anc(q);
        var r :| r in parents && q in g.Anc(r);
        assert p in g.Anc(r);
      }
    }
  }

  // ---------------------------------------------------------------- the cluster of a graph

  /** The cluster whose direct dependencies are the reduced ones. */
  ghost function ClusterOf(g: DepGraph): Cluster {
    Cluster(g.entries.Keys,
            map i | i in g.entries :: g.entries[i].feerate,
            set p, c | c in g.entries && p in ReducedParents(g, c) :: (p, c))
  }

  lemma ClusterDeps(g: DepGraph, d: Dep)
    requires g.Valid()
    ensures d in ClusterOf(g).deps <==> d.1 in g.entries && IsReducedParent(g, d.0, d.1)
  {
  }

  lemma ClusterValid(g: DepGraph)
    requires g.Valid()
    ensures ClusterOf(g).Valid() && ClusterOf(g).txs == ClusterOf(g).fees.Keys == g.Positions()
    ensures forall d | d in ClusterOf(g).deps :: d.0 != d.1
  {
  }

  lemma ProperSubsetCard(a: set<nat>, b: set<nat>)
    requires a <= b && a != b
    ensures |a| < |b|
  {
    assert a + (b - a) == b;
    var x :| x in b && x !in a;
    assert x in b - a;
  }

  lemma AncestorCount(g: DepGraph, p: nat, c: nat)
    requires g.Valid() && p in g.Anc(c) && p != c
    ensures |g.Anc(p)| < |g.Anc(c)|
  {
    assert c in g.Anc(c) && c !in g.Anc(p);
    ProperSubsetCard(g.Anc(p), g.Anc(c));
  }

  /** Every proper ancestor is an ancestor of a reduced parent. */
  lemma {:induction false} ReducedParentAbove(g: DepGraph, a: nat, c: nat, from: nat) returns (p: nat)
    requires g.Valid() && from in g.Anc(c) && from != c && a in g.Anc(from)
    ensures IsReducedParent(g, p, c) && a in g.Anc(p)
    decreases |g.Anc(c)| - |g.Anc(from)|
  {
    AncestorCount(g, from, c);
    if IsReducedParent(g, from, c) {
      p := from;
    } else {
      var q :| q in g.Anc(c) && q != c && from in g.Anc(q) && q != from;
      AncestorCount(g, from, q);
      AncestorCount(g, q, c);
      p := ReducedParentAbove(g, a, c, q);
    }
  }

  ghost predicate AncestorClosed(g: DepGraph, s: set<nat>) {
    forall c | c in s :: g.Anc(c) <= s
  }

  lemma {:induction false} ClosedReaches(g: DepGraph, s: set<nat>, a: nat, c: nat)
    requires g.Valid() && TopologicallyClosed(ClusterOf(g), s) && c in s && c in g.entries && a in g.Anc(c)
    ensures a in s
    decreases |g.Anc(c)|
  {
    if a != c {
      var p := ReducedParentAbove(g, a, c, a);
      ClusterDeps(g, (p, c));
      assert p in s;
      AncestorCount(g, p, c);
      ClosedReaches(g, s, a, p);
    }
  }

  /** Respecting the reduced dependencies is the same as respecting all ancestors. */
  lemma ReducedSuffices(g: DepGraph, s: set<nat>)
    requires g.Valid() && s <= g.Positions()
    ensures TopologicallyClosed(ClusterOf(g), s) <==> AncestorClosed(g, s)
  {
    if TopologicallyClosed(ClusterOf(g), s) {
      forall c, a | c in s && a in g.Anc(c)
        ensures a in s
      {
        ClosedReaches(g, s, a, c);
      }
    }
    if AncestorClosed(g, s) {
      forall d | d in ClusterOf(g).deps && d.1 in s
        ensures d.0 in s
      {
        ClusterDeps(g, d);
      }
    }
  }
}
