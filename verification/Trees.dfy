/** Chunks as connected components of the active dependencies, and the top set of an active
    dependency as the parent-side component left when that dependency is removed. Everything
    is stated with closed sets, without paths. */
module Trees {
  import opened Clusters

  /** No active dependency leaves s or enters it. */
  ghost predicate Closed(active: set<Dep>, s: set<nat>) {
    forall d | d in active :: d.0 in s <==> d.1 in s
  }

  /** x is a connected component: closed, and contained in every closed set it meets. */
  ghost predicate Component(active: set<Dep>, x: set<nat>) {
    && x != {}
    && Closed(active, x)
    && (forall s: set<nat> | Closed(active, s) && s * x != {} :: x <= s)
  }

  /** s separates the parent of d from its child inside x, and only d crosses it. */
  ghost predicate TopOf(active: set<Dep>, x: set<nat>, d: Dep, s: set<nat>) {
    && s <= x
    && d.0 in s && d.1 in x && d.1 !in s
    && Closed(active - {d}, s)
  }

  /** Every active dependency of x has a top set. */
  ghost predicate IsTree(active: set<Dep>, x: set<nat>, tops: map<Dep, set<nat>>) {
    && Component(active, x)
    && (forall d | d in active && d.0 in x :: d in tops && TopOf(active, x, d, tops[d]))
  }

  lemma ClosedInside(active: set<Dep>, x: set<nat>, s: set<nat>)
    requires Component(active, x) && Closed(active, s) && s <= x && s != {}
    ensures s == x
  {
    assert s * x == s;
  }

  lemma ClosedMinus(active: set<Dep>, d: Dep, s: set<nat>)
    requires Closed(active - {d}, s) && (d.0 in s <==> d.1 in s)
    ensures Closed(active, s)
  {
    forall e | e in active
      ensures e.0 in s <==> e.1 in s
    {
      if e != d {
        assert e in active - {d};
      }
    }
  }

  // ---------------------------------------------------------------- activation

  lemma ActivateComponent(active: set<Dep>, p: set<nat>, c: set<nat>, d: Dep)
    requires Component(active, p) && Component(active, c) && p !! c && d.0 in p && d.1 in c
    ensures Component(active + {d}, p + c)
  {
    var after := active + {d};
    forall s: set<nat> | Closed(after, s) && s * (p + c) != {}
      ensures p + c <= s
    {
      assert forall e | e in active :: e in after;
      assert Closed(active, s);
      assert s * p != {} || s * c != {};
      assert d in after;
      assert d.0 in s ==> d.0 in s * p && d.1 in s * c;
    }
  }

  lemma ActivateOther(active: set<Dep>, x: set<nat>, d: Dep)
    requires Component(active, x) && d.0 !in x && d.1 !in x
    ensures Component(active + {d}, x)
  {
    forall s: set<nat> | Closed(active + {d}, s) && s * x != {}
      ensures x <= s
    {
      assert Closed(active, s) by {
        assert forall e | e in active :: e in active + {d};
      }
    }
  }

  /** A top set of chunk x, when x is joined through its transaction v to other: it grows by
      other exactly if it contains v. */
  lemma ActivateTop(active: set<Dep>, x: set<nat>, other: set<nat>, e: Dep, s: set<nat>, d: Dep, v: nat)
    requires TopOf(active, x, e, s) && x !! other && Closed(active, other) && e in active
    requires (d.0 == v && d.1 in other) || (d.1 == v && d.0 in other)
    requires v in x && d !in active
    ensures TopOf(active + {d}, x + other, e, if v in s then s + other else s)
  {
    var s' := if v in s then s + other else s;
    forall f | f in active + {d} - {e}
      ensures f.0 in s' <==> f.1 in s'
    {
      if f != d {
        assert f in active - {e};
      }
    }
  }

  lemma ActivateTopOther(active: set<Dep>, x: set<nat>, e: Dep, s: set<nat>, d: Dep)
    requires TopOf(active, x, e, s) && d.0 !in x && d.1 !in x
    ensures TopOf(active + {d}, x, e, s)
  {
    forall f | f in active + {d} - {e}
      ensures f.0 in s <==> f.1 in s
    {
      if f != d {
        assert f in active - {e};
      }
    }
  }

  lemma ActivateNewTop(active: set<Dep>, p: set<nat>, c: set<nat>, d: Dep)
    requires Closed(active, p) && p !! c && d.0 in p && d.1 in c && d !in active
    ensures TopOf(active + {d}, p + c, d, p)
  {
    assert active + {d} - {d} == active;
  }

  // ---------------------------------------------------------------- deactivation

  /** Removing d leaves its top and its bottom connected. */
  lemma DeactivateHalf(active: set<Dep>, x: set<nat>, d: Dep, t: set<nat>, half: set<nat>)
    requires Component(active, x) && d in active && TopOf(active, x, d, t)
    requires half == t || half == x - t
    ensures Component(active - {d}, half)
  {
    var after := active - {d};
    assert Closed(after, x) by {
      assert forall e | e in after :: e in active;
    }
    assert Closed(after, half);
    assert (d.0 in half || d.1 in half) && d.0 in x;
    forall s: set<nat> | Closed(after, s) && s * half != {}
      ensures half <= s
    {
      var i, o := s * half, half - s;
      assert Closed(after, i) && Closed(after, o);
      if o != {} {
        var part := if d.0 in i || d.1 in i then o else i;
        assert d.0 !in part && d.1 !in part by {
          assert !(d.0 in half && d.1 in half);
        }
        ClosedMinus(active, d, part);
        ClosedInside(active, x, part);
      }
      assert forall u | u in half :: u !in o;
    }
  }

  lemma DeactivateTopOther(active: set<Dep>, x: set<nat>, e: Dep, s: set<nat>, d: Dep)
    requires TopOf(active, x, e, s)
    ensures TopOf(active - {d}, x, e, s)
  {
    assert forall f | f in active - {d} - {e} :: f in active - {e};
  }

  lemma DeactivateOther(active: set<Dep>, x: set<nat>, d: Dep)
    requires Component(active, x) && d.0 !in x && d.1 !in x
    ensures Component(active - {d}, x)
  {
    var after := active - {d};
    forall s: set<nat> | Closed(after, s) && s * x != {}
      ensures x <= s
    {
      var i := s * x;
      assert Closed(after, i) by {
        assert forall e | e in after :: e in active;
      }
      ClosedMinus(active, d, i);
      ClosedInside(active, x, i);
    }
  }

  /** Another top set of the chunk lies in the half of its dependency, plus all of the other
      half exactly if it holds the endpoint v of d on its own side. */
  lemma DeactivateOverlap(active: set<Dep>, x: set<nat>, d: Dep, e: Dep, s: set<nat>, half: set<nat>, v: nat)
    requires Component(active, x) && d in active && e in active && d != e
    requires TopOf(active, x, e, s)
    requires half <= x && Closed(active - {d}, half) && e.0 in half
    requires d.0 in x && d.1 in x && (d.0 in half <==> d.1 !in half)
    requires v == if d.0 in half then d.0 else d.1
    ensures if v in s then x - half <= s else s <= half
  {
    var other := x - half;
    assert e in active - {d};
    assert d in active - {e};
    var part := if v in s then other - s else other * s;
    forall f | f in active
      ensures f.0 in part <==> f.1 in part
    {
      if f != d && f != e {
        assert f in active - {d} && f in active - {e};
        assert f.0 in x <==> f.1 in x;
      }
    }
    assert v in x && v !in part;
    if part != {} {
      ClosedInside(active, x, part);
    }
  }

  lemma DeactivateTop(active: set<Dep>, x: set<nat>, d: Dep, e: Dep, s: set<nat>, half: set<nat>, v: nat)
    requires Component(active, x) && d in active && e in active && d != e
    requires TopOf(active, x, e, s)
    requires half <= x && Closed(active - {d}, half) && e.0 in half
    requires d.0 in x && d.1 in x && (d.0 in half <==> d.1 !in half)
    requires v == if d.0 in half then d.0 else d.1
    ensures TopOf(active - {d}, half, e, if v in s then s - (x - half) else s)
  {
    DeactivateOverlap(active, x, d, e, s, half, v);
    var s' := if v in s then s - (x - half) else s;
    assert s' == s * half;
    assert e in active - {d};
    forall f | f in active - {d} - {e}
      ensures f.0 in s' <==> f.1 in s'
    {
      assert f in active - {e} && f in active - {d};
    }
  }

  // ---------------------------------------------------------------- tops are components

  /** The top set is exactly the component of the parent once d is removed, and the bottom
      exactly the component of the child. */
  lemma TopIsComponent(active: set<Dep>, x: set<nat>, d: Dep, t: set<nat>)
    requires Component(active, x) && d in active && TopOf(active, x, d, t)
    ensures Component(active - {d}, t) && d.0 in t
    ensures Component(active - {d}, x - t) && d.1 in x - t
    ensures forall s: set<nat> | Component(active - {d}, s) && d.0 in s :: s == t
  {
    DeactivateHalf(active, x, d, t, t);
    DeactivateHalf(active, x, d, t, x - t);
    forall s: set<nat> | Component(active - {d}, s) && d.0 in s
      ensures s == t
    {
      assert d.0 in s * t;
      assert d.0 in t * s;
    }
  }

  /** The active dependencies inside x. */
  ghost function Inner(active: set<Dep>, x: set<nat>): set<Dep> {
    set d | d in active && d.0 in x
  }

  /** After removing d, each half is a tree again, with the tops cut down to the half. */
  lemma HalfIsTree(active: set<Dep>, x: set<nat>, tops: map<Dep, set<nat>>, d: Dep,
                   half: set<nat>) returns (tops': map<Dep, set<nat>>)
    requires IsTree(active, x, tops) && d in active && d.0 in x
    requires half == tops[d] || half == x - tops[d]
    ensures IsTree(active - {d}, half, tops')
  {
    var t := tops[d];
    var after := active - {d};
    DeactivateHalf(active, x, d, t, half);
    var v := if d.0 in half then d.0 else d.1;
    tops' := map e | e in after && e.0 in half && e in tops :: if v in tops[e] then tops[e] - (x - half) else tops[e];
    forall e | e in after && e.0 in half
      ensures e in tops' && TopOf(after, half, e, tops'[e])
    {
      assert e in active && e.0 in x;
      DeactivateTop(active, x, d, e, tops[e], half, v);
    }
  }

  /** A chunk of n transactions has exactly n - 1 active dependencies. */
  lemma {:induction false} TreeCount(active: set<Dep>, x: set<nat>, tops: map<Dep, set<nat>>)
    requires IsTree(active, x, tops)
    ensures |Inner(active, x)| == |x| - 1
    decreases |x|
  {
    if Inner(active, x) == {} {
      var v :| v in x;
      assert Closed(active, {v}) by {
        forall e | e in active
          ensures e.0 in {v} <==> e.1 in {v}
        {
          assert e !in Inner(active, x);
        }
      }
      ClosedInside(active, x, {v});
    } else {
      var d :| d in Inner(active, x);
      var t := tops[d];
      var b := x - t;
      var topsT := HalfIsTree(active, x, tops, d, t);
      var topsB := HalfIsTree(active, x, tops, d, b);
      assert |t| < |x| && |b| < |x| && |t| + |b| == |x| by {
        assert t < x && b < x;
        StrictSubset(t, x);
        StrictSubset(b, x);
        assert t + b == x;
      }
      TreeCount(active - {d}, t, topsT);
      TreeCount(active - {d}, b, topsB);
      InnerSplit(active, x, d, t);
    }
  }

  lemma InnerSplit(active: set<Dep>, x: set<nat>, d: Dep, t: set<nat>)
    requires d in active && d.0 in x && t <= x
    ensures |Inner(active, x)| == |Inner(active - {d}, t)| + |Inner(active - {d}, x - t)| + 1
  {
    var it, ib := Inner(active - {d}, t), Inner(active - {d}, x - t);
    assert Inner(active, x) == it + ib + {d};
    assert it !! ib;
  }

  lemma StrictSubset(a: set<nat>, b: set<nat>)
    requires a < b
    ensures |a| < |b|
  {
    assert a + (b - a) == b;
    var x :| x in b - a;
  }
}
