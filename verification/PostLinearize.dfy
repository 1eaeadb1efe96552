/** PostLinearize, with its groups kept in singly-linked lists from back to front, which are
    themselves linked from back to front. Transaction t is entry t + 1; entry 0 is the sentinel. */
module PostLinearizing {
  import opened FeeFracs
  import opened DepGraphs
  import opened Loading
  import opened Output
  import opened ForestOutput
  import opened Diagrams
  import opened Chunkings
  import opened Linearizing
  import opened PostPass
  import opened PostTree
  import opened PostReverse
  import opened PostTheorems
  import opened PostMoved

  const SENTINEL: nat := 0
  const NO_PREV_TX: nat := 0

  /** firstTx and the fields after it are meaningful for the last transaction of a group. */
  datatype TxEntry = TxEntry(prevTx: nat, firstTx: nat, prevGroup: nat, group: set<nat>, deps: set<nat>,
                             feerate: FeeFrac)

  type Entries = map<nat, TxEntry>

  const BLANK_ENTRY := TxEntry(NO_PREV_TX, SENTINEL, SENTINEL, {}, {}, EMPTY)

  // ---------------------------------------------------------------- what the links represent

  /** The entry of the last transaction of a group. */
  ghost function TailOf(c: seq<nat>): nat {
    if c == [] then SENTINEL else c[|c| - 1] + 1
  }

  /** The entry of the last transaction of a list of groups. */
  ghost function Tail(gl: seq<seq<nat>>): nat {
    if gl == [] then SENTINEL else TailOf(gl[|gl| - 1])
  }

  ghost function At(e: Entries, i: nat): TxEntry {
    if i in e then e[i] else BLANK_ENTRY
  }

  ghost function AncestorsOf(g: DepGraph, c: seq<nat>): set<nat> {
    set t, a | t in c && a in g.Anc(t) :: a
  }

  /** The transactions of c are linked from back to front. */
  ghost predicate Chained(e: Entries, c: seq<nat>) {
    && c != [] && (forall j | 0 <= j < |c| :: c[j] + 1 in e)
    && (forall j | 0 <= j < |c| :: At(e, c[j] + 1).prevTx == if j == 0 then NO_PREV_TX else c[j - 1] + 1)
  }

  ghost predicate RepGroup(g: DepGraph, e: Entries, c: seq<nat>) {
    && Chained(e, c) && At(e, TailOf(c)).firstTx == c[0] + 1 && At(e, TailOf(c)).group == ToSet(c)
    && At(e, TailOf(c)).deps == AncestorsOf(g, c) && At(e, TailOf(c)).feerate == GroupFee(g, c)
  }

  /** The entries represent the list of groups gl. */
  ghost predicate Rep(g: DepGraph, e: Entries, gl: seq<seq<nat>>) {
    && SENTINEL in e && At(e, SENTINEL).feerate == EMPTY && At(e, SENTINEL).prevGroup == Tail(gl)
    && (forall i | 0 <= i < |gl| :: RepGroup(g, e, gl[i]))
    && (forall i | 0 <= i < |gl| :: At(e, TailOf(gl[i])).prevGroup == Tail(gl[..i]))
  }

  /** e' agrees with e on the entries of c. */
  ghost predicate SameOn(e: Entries, e': Entries, c: seq<nat>) {
    forall t | t in c :: (t + 1 in e ==> t + 1 in e') && At(e', t + 1) == At(e, t + 1)
  }

  lemma RepGroupSame(g: DepGraph, e: Entries, e': Entries, c: seq<nat>)
    requires RepGroup(g, e, c) && SameOn(e, e', c)
    ensures RepGroup(g, e', c) && At(e', TailOf(c)) == At(e, TailOf(c))
  {
    hide GroupFee, AncestorsOf, ToSet;
    assert forall j | 0 <= j < |c| :: c[j] in c;
  }

  /** e' agrees with e on the entries of c, except that the last one may have another link to the
      previous group. */
  lemma RepGroupRelinked(g: DepGraph, e: Entries, e': Entries, c: seq<nat>, p: nat)
    requires RepGroup(g, e, c) && (forall t | t in c && t != c[|c| - 1] :: t + 1 in e' && At(e', t + 1) == At(e, t + 1))
    requires TailOf(c) in e' && At(e', TailOf(c)) == At(e, TailOf(c)).(prevGroup := p)
    ensures RepGroup(g, e', c) && At(e', TailOf(c)).prevGroup == p
  {
    hide GroupFee, AncestorsOf, ToSet;
    assert forall j | 0 <= j < |c| :: c[j] in c;
  }

  /** No transaction occurs twice. */
  ghost predicate Distinct(s: seq<nat>) {
    forall i, j | 0 <= i < j < |s| :: s[i] != s[j]
  }

  // ---------------------------------------------------------------- a new group at the end

  ghost function Appended(g: DepGraph, e: Entries, t: nat): Entries {
    e[t + 1 := TxEntry(NO_PREV_TX, t + 1, At(e, SENTINEL).prevGroup, {t}, g.Anc(t), FullCluster(g).FeeOf(t))]
     [SENTINEL := At(e, SENTINEL).(prevGroup := t + 1)]
  }

  lemma AppendedAt(g: DepGraph, e: Entries, t: nat)
    ensures var e' := Appended(g, e, t);
            && t + 1 in e' && SENTINEL in e' && (forall i | i in e :: i in e')
            && (forall i | i != t + 1 && i != SENTINEL :: At(e', i) == At(e, i))
            && At(e', SENTINEL) == At(e, SENTINEL).(prevGroup := t + 1)
            && At(e', t + 1) == TxEntry(NO_PREV_TX, t + 1, At(e, SENTINEL).prevGroup, {t}, g.Anc(t),
                                        FullCluster(g).FeeOf(t))
  {
    hide FullCluster;
  }

  lemma AppendedRep(g: DepGraph, e: Entries, gl: seq<seq<nat>>, t: nat)
    requires Rep(g, e, gl) && t !in Flatten(gl)
    ensures Rep(g, Appended(g, e, t), gl + [[t]])
  {
    hide Flatten, RepGroup, Appended, FullCluster, At, Tail, TailOf;
    var e', gl' := Appended(g, e, t), gl + [[t]];
    AppendedAt(g, e, t);
    SingleRep(g, e', t);
    TailSingle(t);
    TailLast(gl');
    forall i | 0 <= i < |gl'|
      ensures RepGroup(g, e', gl'[i]) && At(e', TailOf(gl'[i])).prevGroup == Tail(gl'[..i])
    {
      if i < |gl| {
        GroupMembers(gl, i);
        RepGroupSame(g, e, e', gl[i]);
        assert gl'[..i] == gl[..i];
      } else {
        assert gl'[..i] == gl;
      }
    }
  }

  lemma GroupMembers(gl: seq<seq<nat>>, i: nat)
    requires i < |gl|
    ensures forall t | t in gl[i] :: t in Flatten(gl)
  {
    GroupSubset(gl, i);
    assert forall t | t in gl[i] :: t in ToSet(gl[i]);
  }

  lemma SingleRep(g: DepGraph, e: Entries, t: nat)
    requires t + 1 in e && At(e, t + 1).prevTx == NO_PREV_TX && At(e, t + 1).firstTx == t + 1
             && At(e, t + 1).group == {t}
    requires At(e, t + 1).deps == g.Anc(t) && At(e, t + 1).feerate == FullCluster(g).FeeOf(t)
    ensures RepGroup(g, e, [t])
  {
    SingleSets(g, t);
    SingleFee(g, t);
    hide GroupFee, AncestorsOf, ToSet, FullCluster;
  }

  lemma SingleFee(g: DepGraph, t: nat)
    ensures GroupFee(g, [t]) == FullCluster(g).FeeOf(t)
  {
    hide FullCluster;
    assert Fees(g, [t]) == [FullCluster(g).FeeOf(t)];
    WholeSingle(FullCluster(g).FeeOf(t));
  }

  lemma SingleSets(g: DepGraph, t: nat)
    ensures ToSet([t]) == {t} && AncestorsOf(g, [t]) == g.Anc(t)
  {
    assert ToSet([t]) == {t};
    assert AncestorsOf(g, [t]) == g.Anc(t);
  }

  // ---------------------------------------------------------------- where the groups are

  /** The groups of l are stored, with the links that begin with link. */
  ghost predicate RepRun(g: DepGraph, e: Entries, l: seq<seq<nat>>, link: nat) {
    forall i | 0 <= i < |l| :: RepGroup(g, e, l[i]) && At(e, TailOf(l[i])).prevGroup == TailAfter(link, l[..i])
  }

  /** The last entry after the groups of l, which follow the one at link. */
  ghost function TailAfter(link: nat, l: seq<seq<nat>>): nat {
    if l == [] then link else TailOf(l[|l| - 1])
  }

  lemma TailAfterConcat(link: nat, a: seq<seq<nat>>, b: seq<seq<nat>>)
    ensures TailAfter(link, a + b) == TailAfter(TailAfter(link, a), b)
  {
    hide TailOf;
  }

  /** A run can be divided anywhere. */
  lemma RepRunConcat(g: DepGraph, e: Entries, a: seq<seq<nat>>, b: seq<seq<nat>>, link: nat)
    ensures RepRun(g, e, a + b, link) <==> RepRun(g, e, a, link) && RepRun(g, e, b, TailAfter(link, a))
  {
    hide RepGroup, TailOf, At;
    var l := a + b;
    forall i | 0 <= i < |a|
      ensures l[i] == a[i] && TailAfter(link, l[..i]) == TailAfter(link, a[..i])
    {
      assert l[..i] == a[..i];
    }
    forall i | 0 <= i < |b|
      ensures l[|a| + i] == b[i] && TailAfter(link, l[..|a| + i]) == TailAfter(TailAfter(link, a), b[..i])
    {
      assert l[..|a| + i] == a + b[..i];
      TailAfterConcat(link, a, b[..i]);
    }
    hide TailAfter;
    if RepRun(g, e, l, link) {
      forall i | 0 <= i < |a|
        ensures RepGroup(g, e, a[i]) && At(e, TailOf(a[i])).prevGroup == TailAfter(link, a[..i])
      {
        assert RepGroup(g, e, l[i]);
      }
      forall i | 0 <= i < |b|
        ensures RepGroup(g, e, b[i]) && At(e, TailOf(b[i])).prevGroup == TailAfter(TailAfter(link, a), b[..i])
      {
        assert RepGroup(g, e, l[|a| + i]);
      }
    }
    if RepRun(g, e, a, link) && RepRun(g, e, b, TailAfter(link, a)) {
      forall i | 0 <= i < |l|
        ensures RepGroup(g, e, l[i]) && At(e, TailOf(l[i])).prevGroup == TailAfter(link, l[..i])
      {
        if i < |a| {
          assert RepGroup(g, e, a[i]);
        } else {
          assert l[|a| + (i - |a|)] == b[i - |a|];
        }
      }
    }
  }

  /** A run of one group. */
  lemma RepRunOne(g: DepGraph, e: Entries, c: seq<nat>, link: nat)
    ensures RepRun(g, e, [c], link) <==> RepGroup(g, e, c) && At(e, TailOf(c)).prevGroup == link
    ensures TailAfter(link, [c]) == TailOf(c)
  {
    hide RepGroup, TailOf, At;
    assert [c][..0] == [];
  }

  lemma RepIsRun(g: DepGraph, e: Entries, gl: seq<seq<nat>>)
    ensures Rep(g, e, gl) <==> SENTINEL in e && At(e, SENTINEL).feerate == EMPTY
                               && At(e, SENTINEL).prevGroup == TailAfter(SENTINEL, gl)
                               && RepRun(g, e, gl, SENTINEL)
    ensures Tail(gl) == TailAfter(SENTINEL, gl)
  {
    hide RepGroup, TailOf, At;
    assert forall i | 0 <= i < |gl| :: Tail(gl[..i]) == TailAfter(SENTINEL, gl[..i]);
  }

  /** What the entries say about two neighbouring groups, and the others. */
  lemma PairRep(g: DepGraph, e: Entries, l: seq<seq<nat>>, p: seq<nat>, c: seq<nat>, r: seq<seq<nat>>)
    ensures Rep(g, e, l + [p, c] + r) <==>
              && SENTINEL in e && At(e, SENTINEL).feerate == EMPTY
                 && At(e, SENTINEL).prevGroup == TailAfter(TailOf(c), r)
              && RepGroup(g, e, p) && RepGroup(g, e, c) && RepRun(g, e, l, SENTINEL) && RepRun(g, e, r, TailOf(c))
              && At(e, TailOf(p)).prevGroup == Tail(l) && At(e, TailOf(c)).prevGroup == TailOf(p)
  {
    hide RepGroup, TailOf, At, Rep, RepRun, TailAfter, Tail;
    RepIsRun(g, e, l + [p, c] + r);
    RepIsRun(g, e, l);
    assert l + [p, c] + r == l + ([p] + ([c] + r));
    RepRunConcat(g, e, l, [p] + ([c] + r), SENTINEL);
    RepRunConcat(g, e, [p], [c] + r, TailAfter(SENTINEL, l));
    RepRunConcat(g, e, [c], r, TailOf(p));
    RepRunOne(g, e, p, TailAfter(SENTINEL, l));
    RepRunOne(g, e, c, TailOf(p));
    TailAfterConcat(SENTINEL, l, [p] + ([c] + r));
    TailAfterConcat(TailAfter(SENTINEL, l), [p], [c] + r);
    TailAfterConcat(TailOf(p), [c], r);
  }

  /** And about one group between others. */
  lemma OneRep(g: DepGraph, e: Entries, l: seq<seq<nat>>, c: seq<nat>, r: seq<seq<nat>>)
    ensures Rep(g, e, l + [c] + r) <==>
              && SENTINEL in e && At(e, SENTINEL).feerate == EMPTY
                 && At(e, SENTINEL).prevGroup == TailAfter(TailOf(c), r)
              && RepGroup(g, e, c) && RepRun(g, e, l, SENTINEL) && RepRun(g, e, r, TailOf(c))
              && At(e, TailOf(c)).prevGroup == Tail(l)
  {
    hide RepGroup, TailOf, At, Rep, RepRun, TailAfter, Tail;
    RepIsRun(g, e, l + [c] + r);
    RepIsRun(g, e, l);
    assert l + [c] + r == l + ([c] + r);
    RepRunConcat(g, e, l, [c] + r, SENTINEL);
    RepRunConcat(g, e, [c], r, TailAfter(SENTINEL, l));
    RepRunOne(g, e, c, TailAfter(SENTINEL, l));
    TailAfterConcat(SENTINEL, l, [c] + r);
    TailAfterConcat(TailAfter(SENTINEL, l), [c], r);
  }

  /** All groups share no transactions. */
  ghost predicate GroupsDisjoint(l: seq<seq<nat>>, p: seq<nat>, c: seq<nat>, r: seq<seq<nat>>) {
    && ToSet(p) !! ToSet(c)
    && (forall i | 0 <= i < |l| :: ToSet(l[i]) !! ToSet(p) + ToSet(c))
    && (forall i | 0 <= i < |r| :: ToSet(r[i]) !! ToSet(p) + ToSet(c))
    && (forall i, j | 0 <= i < j < |r| :: ToSet(r[i]) !! ToSet(r[j]))
    && (forall i, j | 0 <= i < |l| && 0 <= j < |r| :: ToSet(l[i]) !! ToSet(r[j]))
  }

  lemma ArrangedDisjoint(g: DepGraph, l: seq<seq<nat>>, p: seq<nat>, c: seq<nat>, r: seq<seq<nat>>)
    requires g.Valid() && Arranged(g, l + [p, c] + r)
    ensures GroupsDisjoint(l, p, c, r)
  {
    hide Arranged, ToSet;
    var gl := l + [p, c] + r;
    assert gl[|l|] == p && gl[|l| + 1] == c;
    GroupsApart(g, gl, |l|, |l| + 1);
    forall i | 0 <= i < |l|
      ensures ToSet(l[i]) !! ToSet(p) + ToSet(c)
    {
      GroupsApart(g, gl, i, |l|);
      GroupsApart(g, gl, i, |l| + 1);
    }
    forall i | 0 <= i < |r|
      ensures ToSet(r[i]) !! ToSet(p) + ToSet(c)
    {
      assert gl[|l| + 2 + i] == r[i];
      GroupsApart(g, gl, |l|, |l| + 2 + i);
      GroupsApart(g, gl, |l| + 1, |l| + 2 + i);
    }
    forall i, j | 0 <= i < j < |r|
      ensures ToSet(r[i]) !! ToSet(r[j])
    {
      assert gl[|l| + 2 + i] == r[i] && gl[|l| + 2 + j] == r[j];
      GroupsApart(g, gl, |l| + 2 + i, |l| + 2 + j);
    }
    forall i, j | 0 <= i < |l| && 0 <= j < |r|
      ensures ToSet(l[i]) !! ToSet(r[j])
    {
      assert gl[|l| + 2 + j] == r[j];
      GroupsApart(g, gl, i, |l| + 2 + j);
    }
  }

  // ---------------------------------------------------------------- merging

  /** Group prev becomes the front part of group cur. */
  function Merged(e: Entries, cur: nat, prev: nat): Entries
    requires cur in e && prev in e && e[cur].firstTx in e
  {
    var first := e[cur].firstTx;
    var joined := e[cur := e[cur].(group := e[cur].group + e[prev].group, deps := e[cur].deps + e[prev].deps,
                                   feerate := e[cur].feerate.Plus(e[prev].feerate))];
    var linked := joined[first := joined[first].(prevTx := prev)];
    linked[cur := linked[cur].(firstTx := linked[prev].firstTx, prevGroup := linked[prev].prevGroup)]
  }

  /** The entries after a merge, one by one. */
  lemma MergedAt(e: Entries, cur: nat, prev: nat)
    requires cur in e && prev in e && e[cur].firstTx in e && prev != cur && prev != e[cur].firstTx
    ensures var e', first := Merged(e, cur, prev), e[cur].firstTx;
            && e'.Keys == e.Keys && (forall i | i != cur && i != first :: At(e', i) == At(e, i))
            && At(e', first).prevTx == prev && (first != cur ==> At(e', cur).prevTx == At(e, cur).prevTx)
            && At(e', cur).firstTx == At(e, prev).firstTx && At(e', cur).prevGroup == At(e, prev).prevGroup
            && At(e', cur).group == At(e, cur).group + At(e, prev).group
               && At(e', cur).deps == At(e, cur).deps + At(e, prev).deps
            && At(e', cur).feerate == At(e, cur).feerate.Plus(At(e, prev).feerate)
  {
  }

  lemma MergedKeys(g: DepGraph, e: Entries, p: seq<nat>, c: seq<nat>)
    requires RepGroup(g, e, p) && RepGroup(g, e, c) && ToSet(p) !! ToSet(c)
    ensures TailOf(c) in e && TailOf(p) in e && e[TailOf(c)].firstTx in e && e[TailOf(c)].firstTx == c[0] + 1
    ensures TailOf(p) != TailOf(c) && TailOf(p) != c[0] + 1
  {
    hide GroupFee, AncestorsOf;
    assert c[0] in ToSet(c) && c[|c| - 1] in ToSet(c) && p[|p| - 1] in ToSet(p);
  }

  lemma MergedChain(g: DepGraph, e: Entries, e': Entries, p: seq<nat>, c: seq<nat>)
    requires RepGroup(g, e, p) && RepGroup(g, e, c) && ToSet(p) !! ToSet(c) && Distinct(c) && e'.Keys == e.Keys
    requires forall i | i != TailOf(c) && i != c[0] + 1 :: At(e', i) == At(e, i)
    requires At(e', c[0] + 1).prevTx == TailOf(p)
             && (c[0] + 1 != TailOf(c) ==> At(e', TailOf(c)).prevTx == At(e, TailOf(c)).prevTx)
    ensures Chained(e', p + c)
  {
    RepChained(g, e, p);
    RepChained(g, e, c);
    hide RepGroup, Chained, ToSet, Distinct, At, TailOf;
    forall j: nat | j < |p|
      ensures LinkedTo(e', p, j, NO_PREV_TX)
    {
      ApartEntry(p, c, j);
      LinkAt(e, p, j);
    }
    forall m: nat | m < |c|
      ensures LinkedTo(e', c, m, TailOf(p))
    {
      DistinctEnds(c, m);
      LinkAt(e, c, m);
    }
    ChainedJoin(e', p, c);
  }

  /** The entry at position j of c is linked to the one before, the first to the given one. */
  ghost predicate LinkedTo(e: Entries, c: seq<nat>, j: nat, first: nat) {
    j < |c| && c[j] + 1 in e && At(e, c[j] + 1).prevTx == if j == 0 then first else c[j - 1] + 1
  }

  lemma RepChained(g: DepGraph, e: Entries, c: seq<nat>)
    requires RepGroup(g, e, c)
    ensures Chained(e, c) && c != []
  {
    hide GroupFee, AncestorsOf, ToSet;
  }

  lemma LinkAt(e: Entries, c: seq<nat>, j: nat)
    requires Chained(e, c) && j < |c|
    ensures LinkedTo(e, c, j, NO_PREV_TX)
  {
  }

  /** Two chains, the second linked to the end of the first. */
  lemma ChainedJoin(e: Entries, p: seq<nat>, c: seq<nat>)
    requires p != [] && c != []
    requires forall j: nat | j < |p| :: LinkedTo(e, p, j, NO_PREV_TX)
    requires forall m: nat | m < |c| :: LinkedTo(e, c, m, TailOf(p))
    ensures Chained(e, p + c)
  {
    hide At;
    var s := p + c;
    forall j: nat | j < |s|
      ensures LinkedTo(e, s, j, NO_PREV_TX)
    {
      if j < |p| {
        assert LinkedTo(e, p, j, NO_PREV_TX);
      } else {
        assert LinkedTo(e, c, j - |p|, TailOf(p));
      }
    }
    hide LinkedTo, Chained;
    ChainedFrom(e, s);
  }

  lemma ChainedFrom(e: Entries, c: seq<nat>)
    requires c != [] && forall j: nat | j < |c| :: LinkedTo(e, c, j, NO_PREV_TX)
    ensures Chained(e, c)
  {
    forall j | 0 <= j < |c|
      ensures c[j] + 1 in e
    {
      assert LinkedTo(e, c, j, NO_PREV_TX);
    }
    forall j | 0 <= j < |c|
      ensures At(e, c[j] + 1).prevTx == if j == 0 then NO_PREV_TX else c[j - 1] + 1
    {
      assert LinkedTo(e, c, j, NO_PREV_TX);
    }
  }

  lemma ApartEntry(p: seq<nat>, c: seq<nat>, j: nat)
    requires ToSet(p) !! ToSet(c) && j < |p| && c != []
    ensures p[j] != c[0] && p[j] + 1 != TailOf(c)
  {
    assert p[j] in ToSet(p) && c[0] in ToSet(c) && c[|c| - 1] in ToSet(c);
  }

  lemma DistinctEnds(c: seq<nat>, m: nat)
    requires Distinct(c) && m < |c|
    ensures c[m] == c[0] <==> m == 0
    ensures c[m] + 1 == TailOf(c) <==> m == |c| - 1
  {
  }

  lemma MergedGroup(g: DepGraph, e: Entries, p: seq<nat>, c: seq<nat>)
    requires RepGroup(g, e, p) && RepGroup(g, e, c) && ToSet(p) !! ToSet(c) && Distinct(c)
    ensures TailOf(c) in e && TailOf(p) in e && e[TailOf(c)].firstTx in e
    ensures RepGroup(g, Merged(e, TailOf(c), TailOf(p)), p + c)
    ensures At(Merged(e, TailOf(c), TailOf(p)), TailOf(p + c)).prevGroup == At(e, TailOf(p)).prevGroup
  {
    hide GroupFee, ToSet, AncestorsOf, Merged, Distinct;
    MergedKeys(g, e, p, c);
    MergedAt(e, TailOf(c), TailOf(p));
    MergedFields(g, p, c);
    MergedChain(g, e, Merged(e, TailOf(c), TailOf(p)), p, c);
  }

  lemma MergedFields(g: DepGraph, p: seq<nat>, c: seq<nat>)
    ensures ToSet(p + c) == ToSet(c) + ToSet(p) && AncestorsOf(g, p + c) == AncestorsOf(g, c) + AncestorsOf(g, p)
    ensures GroupFee(g, p + c) == GroupFee(g, c).Plus(GroupFee(g, p))
  {
    ToSetConcat(p, c);
    FeesConcat(g, p, c);
    PlusSwap(GroupFee(g, p), GroupFee(g, c));
    hide Fees, Acc;
    assert forall t :: t in p + c <==> t in p || t in c;
  }

  lemma MergedSame(g: DepGraph, e: Entries, p: seq<nat>, c: seq<nat>, d: seq<nat>)
    requires RepGroup(g, e, p) && RepGroup(g, e, c) && ToSet(d) !! ToSet(c) && e[TailOf(c)].firstTx in e
    ensures SameOn(e, Merged(e, TailOf(c), TailOf(p)), d)
  {
    hide GroupFee, AncestorsOf;
    assert c[0] in ToSet(c) && c[|c| - 1] in ToSet(c);
    assert forall t | t in d :: t in ToSet(d);
  }

  lemma MergedRep(g: DepGraph, e: Entries, l: seq<seq<nat>>, p: seq<nat>, c: seq<nat>, r: seq<seq<nat>>)
    requires Rep(g, e, l + [p, c] + r) && GroupsDisjoint(l, p, c, r) && Distinct(c)
    ensures TailOf(c) in e && TailOf(p) in e && e[TailOf(c)].firstTx in e
    ensures Rep(g, Merged(e, TailOf(c), TailOf(p)), l + [p + c] + r)
  {
    hide RepGroup, RepRun, ToSet, AncestorsOf, GroupFee, Rep, Merged, Distinct, TailAfter, Tail, TailOf, At;
    PairRep(g, e, l, p, c, r);
    MergedGroup(g, e, p, c);
    var e' := Merged(e, TailOf(c), TailOf(p));
    SentinelKept(g, e, p, c);
    assert RepRun(g, e', l, SENTINEL) by { MergedRun(g, e, p, c, l, SENTINEL); }
    assert RepRun(g, e', r, TailOf(c)) by { MergedRun(g, e, p, c, r, TailOf(c)); }
    TailJoin(p, c, g, e);
    OneRep(g, e', l, p + c, r);
  }

  lemma MergedRun(g: DepGraph, e: Entries, p: seq<nat>, c: seq<nat>, l: seq<seq<nat>>, link: nat)
    requires RepGroup(g, e, p) && RepGroup(g, e, c) && e[TailOf(c)].firstTx in e && RepRun(g, e, l, link)
    requires forall i | 0 <= i < |l| :: ToSet(l[i]) !! ToSet(p) + ToSet(c)
    ensures RepRun(g, Merged(e, TailOf(c), TailOf(p)), l, link)
  {
    GroupTail(g, e, p);
    GroupTail(g, e, c);
    hide RepGroup, ToSet, SameOn, Merged, TailOf, At;
    var e' := Merged(e, TailOf(c), TailOf(p));
    forall i | 0 <= i < |l|
      ensures RepGroup(g, e', l[i]) && At(e', TailOf(l[i])) == At(e, TailOf(l[i]))
    {
      MergedSame(g, e, p, c, l[i]);
      RepGroupSame(g, e, e', l[i]);
    }
  }

  lemma TailJoin(p: seq<nat>, c: seq<nat>, g: DepGraph, e: Entries)
    requires RepGroup(g, e, c)
    ensures TailOf(p + c) == TailOf(c)
  {
  }

  lemma SentinelKept(g: DepGraph, e: Entries, p: seq<nat>, c: seq<nat>)
    requires RepGroup(g, e, p) && RepGroup(g, e, c) && SENTINEL in e && e[TailOf(c)].firstTx in e
    ensures var e' := Merged(e, TailOf(c), TailOf(p)); SENTINEL in e' && At(e', SENTINEL) == At(e, SENTINEL)
  {
    hide GroupFee, AncestorsOf, ToSet;
  }

  // ---------------------------------------------------------------- swapping

  /** Group prev moves behind group cur, before group next. */
  function Swapped(e: Entries, next: nat, cur: nat, prev: nat): Entries
    requires cur in e && prev in e && next in e
  {
    var preprev := e[prev].prevGroup;
    var e1 := e[next := e[next].(prevGroup := prev)];
    var e2 := e1[prev := e1[prev].(prevGroup := cur)];
    e2[cur := e2[cur].(prevGroup := preprev)]
  }

  lemma SwappedAt(e: Entries, next: nat, cur: nat, prev: nat)
    requires cur in e && prev in e && next in e && cur != prev && next != cur && next != prev
    ensures var e' := Swapped(e, next, cur, prev);
            && e'.Keys == e.Keys && (forall i | i != cur && i != prev && i != next :: At(e', i) == At(e, i))
            && At(e', next) == At(e, next).(prevGroup := prev) && At(e', prev) == At(e, prev).(prevGroup := cur)
            && At(e', cur) == At(e, cur).(prevGroup := At(e, prev).prevGroup)
  {
  }

  /** The entry of the group after the current one. */
  ghost function NextOf(r: seq<seq<nat>>): nat {
    if r == [] then SENTINEL else TailOf(r[0])
  }

  lemma SwappedKeys(g: DepGraph, e: Entries, p: seq<nat>, c: seq<nat>, r: seq<seq<nat>>)
    requires RepGroup(g, e, p) && RepGroup(g, e, c) && ToSet(p) !! ToSet(c) && SENTINEL in e
    requires r != [] ==> RepGroup(g, e, r[0]) && ToSet(r[0]) !! ToSet(p) + ToSet(c)
    ensures TailOf(c) in e && TailOf(p) in e && NextOf(r) in e
    ensures TailOf(p) != TailOf(c) && NextOf(r) != TailOf(c) && NextOf(r) != TailOf(p) && TailOf(c) != SENTINEL
            && TailOf(p) != SENTINEL
    ensures r != [] ==> NextOf(r) != SENTINEL
  {
    hide GroupFee, AncestorsOf;
    assert c[|c| - 1] in ToSet(c) && p[|p| - 1] in ToSet(p);
    if r != [] {
      assert r[0][|r[0]| - 1] in ToSet(r[0]);
    }
  }

  /** Groups other than the three that are relinked stay as they are. */
  lemma SwappedOther(g: DepGraph, e: Entries, e': Entries, d: seq<nat>, p: seq<nat>, c: seq<nat>, next: nat)
    requires RepGroup(g, e, d) && RepGroup(g, e, p) && RepGroup(g, e, c) && e'.Keys == e.Keys
    requires ToSet(d) !! ToSet(p) + ToSet(c) && (forall t | t in d :: t + 1 != next)
    requires forall i | i != TailOf(c) && i != TailOf(p) && i != next :: At(e', i) == At(e, i)
    ensures RepGroup(g, e', d) && At(e', TailOf(d)) == At(e, TailOf(d))
  {
    assert c[|c| - 1] in ToSet(c) && p[|p| - 1] in ToSet(p);
    assert forall t | t in d :: t in ToSet(d);
    RepGroupSame(g, e, e', d);
  }

  /** A group whose last entry alone is relinked. */
  lemma SwappedOne(g: DepGraph, e: Entries, e': Entries, d: seq<nat>, others: set<nat>, link: nat)
    requires RepGroup(g, e, d) && e'.Keys == e.Keys && Distinct(d) && (forall t | t in d :: t + 1 !in others)
    requires forall i | i != TailOf(d) && i !in others :: At(e', i) == At(e, i)
    requires At(e', TailOf(d)) == At(e, TailOf(d)).(prevGroup := link)
    ensures RepGroup(g, e', d) && At(e', TailOf(d)).prevGroup == link
  {
    forall t | t in d && t != d[|d| - 1]
      ensures t + 1 in e' && At(e', t + 1) == At(e, t + 1)
    {
      assert exists j :: 0 <= j < |d| && d[j] == t;
    }
    RepGroupRelinked(g, e, e', d, link);
  }

  lemma TailIn(d: seq<nat>, s: seq<nat>)
    requires s != [] && ToSet(d) !! ToSet(s)
    ensures forall t | t in d :: t + 1 != TailOf(s)
  {
    assert s[|s| - 1] in ToSet(s);
    assert forall t | t in d :: t in ToSet(d);
  }

  lemma RepNonEmpty(g: DepGraph, e: Entries, c: seq<nat>)
    requires RepGroup(g, e, c)
    ensures c != []
  {
  }

  /** Runs of groups that are not relinked stay as they are. */
  lemma SwappedRun(g: DepGraph, e: Entries, e': Entries, l: seq<seq<nat>>, link: nat, p: seq<nat>, c: seq<nat>,
                   next: nat)
    requires RepGroup(g, e, p) && RepGroup(g, e, c) && e'.Keys == e.Keys && RepRun(g, e, l, link)
    requires forall i | 0 <= i < |l| :: ToSet(l[i]) !! ToSet(p) + ToSet(c) && forall t | t in l[i] :: t + 1 != next
    requires forall i | i != TailOf(c) && i != TailOf(p) && i != next :: At(e', i) == At(e, i)
    ensures RepRun(g, e', l, link)
  {
    hide RepGroup, ToSet, TailOf, At;
    forall i | 0 <= i < |l|
      ensures RepGroup(g, e', l[i]) && At(e', TailOf(l[i])) == At(e, TailOf(l[i]))
    {
      SwappedOther(g, e, e', l[i], p, c, next);
    }
  }

  /** The groups behind: the first is relinked. */
  lemma SwappedBehind(g: DepGraph, e: Entries, e': Entries, r: seq<seq<nat>>, p: seq<nat>, c: seq<nat>)
    requires RepGroup(g, e, p) && RepGroup(g, e, c) && p != [] && c != [] && e'.Keys == e.Keys && r != []
    requires RepRun(g, e, r, TailOf(c)) && Distinct(r[0])
    requires forall i | 0 <= i < |r| :: ToSet(r[i]) !! ToSet(p) + ToSet(c)
    requires forall i, j | 0 <= i < j < |r| :: ToSet(r[i]) !! ToSet(r[j])
    requires forall i | i != TailOf(c) && i != TailOf(p) && i != TailOf(r[0]) :: At(e', i) == At(e, i)
    requires At(e', TailOf(r[0])) == At(e, TailOf(r[0])).(prevGroup := TailOf(p))
    ensures RepRun(g, e', r, TailOf(p)) && TailAfter(TailOf(p), r) == TailAfter(TailOf(c), r)
  {
    hide RepGroup, ToSet, TailOf, At, Distinct, RepRun;
    var d, rest := r[0], r[1..];
    assert r == [d] + rest;
    RepRunConcat(g, e, [d], rest, TailOf(c));
    RepRunOne(g, e, d, TailOf(c));
    RepNonEmpty(g, e, d);
    TailIn(d, p);
    TailIn(d, c);
    SwappedOne(g, e, e', d, {TailOf(c), TailOf(p)}, TailOf(p));
    forall i | 0 <= i < |rest|
      ensures ToSet(rest[i]) !! ToSet(p) + ToSet(c) && forall t | t in rest[i] :: t + 1 != TailOf(d)
    {
      assert rest[i] == r[i + 1];
      TailIn(rest[i], d);
    }
    SwappedRun(g, e, e', rest, TailOf(d), p, c, TailOf(d));
    RepRunOne(g, e', d, TailOf(p));
    RepRunConcat(g, e', [d], rest, TailOf(p));
  }

  lemma SwappedRep(g: DepGraph, e: Entries, l: seq<seq<nat>>, p: seq<nat>, c: seq<nat>, r: seq<seq<nat>>)
    requires Rep(g, e, l + [p, c] + r) && GroupsDisjoint(l, p, c, r) && Distinct(c) && Distinct(p)
    requires r != [] ==> Distinct(r[0])
    ensures TailOf(c) in e && TailOf(p) in e && NextOf(r) in e
    ensures Rep(g, Swapped(e, NextOf(r), TailOf(c), TailOf(p)), l + [c, p] + r)
  {
    hide RepGroup, ToSet, Swapped, Distinct, At, TailOf, Tail, Rep, RepRun, TailAfter;
    PairRep(g, e, l, p, c, r);
    if r != [] {
      RunFirst(g, e, r, TailOf(c));
      RepNonEmpty(g, e, r[0]);
      TailIn(p, r[0]);
      TailIn(c, r[0]);
    }
    SwappedKeys(g, e, p, c, r);
    var next, cur, prev := NextOf(r), TailOf(c), TailOf(p);
    var e' := Swapped(e, next, cur, prev);
    SwappedAt(e, next, cur, prev);
    RepNonEmpty(g, e, p);
    RepNonEmpty(g, e, c);
    TailIn(p, c);
    TailIn(c, p);
    SwappedOne(g, e, e', p, {cur, next}, cur);
    SwappedOne(g, e, e', c, {prev, next}, At(e, prev).prevGroup);
    SwappedFront(g, e, e', l, p, c, r);
    if r != [] {
      SwappedBehind(g, e, e', r, p, c);
    } else {
      EmptyRun(g, e', prev);
      EmptyRun(g, e, cur);
    }
    PairRep(g, e', l, c, p, r);
  }

  lemma SwappedFront(g: DepGraph, e: Entries, e': Entries, l: seq<seq<nat>>, p: seq<nat>, c: seq<nat>, r: seq<seq<nat>>)
    requires RepGroup(g, e, p) && RepGroup(g, e, c) && e'.Keys == e.Keys && RepRun(g, e, l, SENTINEL)
             && GroupsDisjoint(l, p, c, r)
    requires r != [] ==> r[0] != []
    requires forall i | i != TailOf(c) && i != TailOf(p) && i != NextOf(r) :: At(e', i) == At(e, i)
    ensures RepRun(g, e', l, SENTINEL)
  {
    hide RepGroup, ToSet, TailOf, At, RepRun;
    forall i | 0 <= i < |l|
      ensures forall t | t in l[i] :: t + 1 != NextOf(r)
    {
      if r != [] {
        TailIn(l[i], r[0]);
      }
    }
    SwappedRun(g, e, e', l, SENTINEL, p, c, NextOf(r));
  }

  lemma RunFirst(g: DepGraph, e: Entries, r: seq<seq<nat>>, link: nat)
    requires RepRun(g, e, r, link) && r != []
    ensures RepGroup(g, e, r[0])
  {
    hide RepGroup, TailOf, At;
  }

  lemma EmptyRun(g: DepGraph, e: Entries, link: nat)
    ensures RepRun(g, e, [], link) && TailAfter(link, []) == link
  {
  }

  // ---------------------------------------------------------------- one transaction

  /** The graph of a pass: reversed in even passes. */
  ghost function PassGraph(g: DepGraph, rev: bool): DepGraph {
    if rev then Reversed(g) else g
  }

  lemma PassGraphValid(g: DepGraph, rev: bool)
    requires g.Valid()
    ensures PassGraph(g, rev).Valid() && PassGraph(g, rev).Positions() == g.Positions()
  {
    ReversedValid(g);
  }

  /** What the loop reads from the entries. */
  lemma CycleReads(g: DepGraph, e: Entries, l: seq<seq<nat>>, c: seq<nat>, r: seq<seq<nat>>)
    requires Rep(g, e, l + [c] + r)
    ensures TailOf(c) in e && Tail(l) in e && e[TailOf(c)].feerate == GroupFee(g, c)
            && e[TailOf(c)].prevGroup == Tail(l)
    ensures l == [] ==> e[Tail(l)].feerate == EMPTY
    ensures l != [] ==> e[Tail(l)].feerate == GroupFee(g, l[|l| - 1]) && e[Tail(l)].prevGroup == Tail(l[..|l| - 1])
    ensures l != [] ==> (e[TailOf(c)].deps * e[Tail(l)].group != {} <==> GroupDepends(g, c, l[|l| - 1]))
  {
    var gl := l + [c] + r;
    hide GroupFee;
    assert gl[|l|] == c && gl[..|l|] == l && RepGroup(g, e, gl[|l|]);
    if l != [] {
      var p := l[|l| - 1];
      assert gl[|l| - 1] == p && gl[..|l| - 1] == l[..|l| - 1] && RepGroup(g, e, gl[|l| - 1]);
      DependsOverlap(g, c, p);
    }
  }

  lemma DependsOverlap(g: DepGraph, c: seq<nat>, p: seq<nat>)
    ensures AncestorsOf(g, c) * ToSet(p) != {} <==> GroupDepends(g, c, p)
  {
    if AncestorsOf(g, c) * ToSet(p) != {} {
      var a :| a in AncestorsOf(g, c) * ToSet(p);
    }
    if GroupDepends(g, c, p) {
      var t, a :| t in c && a in p && a in g.Anc(t);
      assert a in AncestorsOf(g, c) * ToSet(p);
    }
  }

  lemma NotHigherEmpty(c: FeeFrac)
    ensures !Higher(c, EMPTY)
  {
  }

  lemma CycleDistinct(g: DepGraph, l: seq<seq<nat>>, c: seq<nat>, r: seq<seq<nat>>)
    requires g.Valid() && Cycle(g, l, c, r) && l != []
    ensures var p, l' := l[|l| - 1], l[..|l| - 1];
            && l + [c] + r == l' + [p, c] + r && GroupsDisjoint(l', p, c, r) && Distinct(p) && Distinct(c)
            && (r != [] ==> Distinct(r[0]))
  {
    hide Orderly, GroupOk, GroupsDisjoint, Flatten, Sorted, Rate;
    var p, l' := l[|l| - 1], l[..|l| - 1];
    CycleLast(g, l, c, r);
    ArrangedDisjoint(g, l', p, c, r);
    PairOrderly(g, l', p, c, r);
    DistinctOrderly(g, p);
    DistinctOrderly(g, c);
    if r != [] {
      var gl := l + [c] + r;
      assert gl[|l| + 1] == r[0];
      GroupOrderly(g, gl, |l| + 1);
      DistinctOrderly(g, r[0]);
    }
  }

  /** The loop invariant: the entries represent the list with the current group between l and r. */
  ghost predicate CycleState(g: DepGraph, e: Entries, next: nat, cur: nat, prev: nat, l: seq<seq<nat>>, c: seq<nat>,
                             r: seq<seq<nat>>) {
    && cur in e && prev in e && cur == TailOf(c) && prev == Tail(l) && next == NextOf(r)
    && Cycle(g, l, c, r) && Rep(g, e, l + [c] + r)
  }

  /** One iteration: absorb or pass the previous group. */
  method CycleStep(before: Entries, next: nat, cur: nat, prev: nat, ghost g: DepGraph,
                   ghost l: seq<seq<nat>>, ghost c: seq<nat>, ghost r: seq<seq<nat>>)
    returns (e: Entries, next': nat, prev': nat, ghost c': seq<nat>, ghost r': seq<seq<nat>>)
    requires g.Valid() && CycleState(g, before, next, cur, prev, l, c, r)
    requires Higher(before[cur].feerate, before[prev].feerate)
    ensures l != [] && CycleState(g, e, next', cur, prev', l[..|l| - 1], c', r')
    ensures Insert(g, l[..|l| - 1], c') + r' == Insert(g, l, c) + r
  {
    hide Rep, Insert, Cycle, Merged, Swapped, GroupFee, GroupDepends, TailOf, Tail, NextOf, Rate, GroupsDisjoint,
        Distinct, Higher, GroupOk;
    CycleReads(g, before, l, c, r);
    NotHigherEmpty(before[cur].feerate);
    ghost var p, l' := l[|l| - 1], l[..|l| - 1];
    CycleDistinct(g, l, c, r);
    CycleLast(g, l, c, r);
    CompareGroups(g, c, p);
    InsertUnfolds(g, l, c, r);
    TailLast(l);
    if before[cur].deps * before[prev].group != {} {
      MergedRep(g, before, l', p, c, r);
      CycleMerge(g, l, c, r);
      e := Merged(before, cur, prev);
      TailJoined(g, p, c);
      c', r' := p + c, r;
      CycleReads(g, e, l', c', r');
      next', prev' := next, e[cur].prevGroup;
    } else {
      SwappedRep(g, before, l', p, c, r);
      CycleSwap(g, l, c, r);
      e := Swapped(before, next, cur, prev);
      NextFront(p, r);
      assert l' + [c, p] + r == l' + [c] + ([p] + r);
      c', r' := c, [p] + r;
      CycleReads(g, e, l', c', r');
      next', prev' := prev, before[prev].prevGroup;
    }
  }

  /** What the pass reads about a transaction. */
  lemma PassGraphEntry(g: DepGraph, rev: bool, idx: nat)
    requires idx in g.entries
    ensures PassGraph(g, rev).Anc(idx) == if rev then g.entries[idx].descendants else g.entries[idx].ancestors
    ensures FullCluster(PassGraph(g, rev)).FeeOf(idx) == if rev then g.entries[idx].feerate.Negate()
            else g.entries[idx].feerate
  {
  }

  /** The new entry, linked in before the sentinel. */
  method AppendEntry(g: DepGraph, rev: bool, before: Entries, idx: nat) returns (e: Entries)
    requires idx in g.entries && SENTINEL in before
    ensures e == Appended(PassGraph(g, rev), before, idx)
  {
    var cur := idx + 1;
    var fee: FeeFrac := g.entries[idx].feerate;
    e := before[cur := TxEntry(NO_PREV_TX, cur, before[SENTINEL].prevGroup, {idx},
                               if rev then g.entries[idx].descendants else g.entries[idx].ancestors,
                               if rev then fee.Negate() else fee)];
    e := e[SENTINEL := e[SENTINEL].(prevGroup := cur)];
    hide PassGraph, FullCluster;
    PassGraphEntry(g, rev, idx);
  }

  /** With the new group, the loop starts. */
  lemma AppendedState(h: DepGraph, before: Entries, gl: seq<seq<nat>>, q: seq<nat>, idx: nat)
    requires h.Valid() && Rep(h, before, gl) && Improves(h, gl, q) && Orderly(h, q + [idx]) && SENTINEL in before
    ensures var e := Appended(h, before, idx);
            idx + 1 in e && CycleState(h, e, SENTINEL, idx + 1, e[idx + 1].prevGroup, gl, [idx], [])
  {
    hide Rep, Improves, Orderly, Cycle, TailOf, Tail, NextOf, GroupFee, GroupDepends, Appended;
    NewMember(h, gl, q, idx);
    AppendedRep(h, before, gl, idx);
    CycleStart(h, gl, q, idx);
    assert gl + [[idx]] + [] == gl + [[idx]];
    CycleReads(h, Appended(h, before, idx), gl, [idx], []);
    TailSingle(idx);
    NextNone();
  }

  /** A new group at the end of the list. */
  method AppendGroup(g: DepGraph, rev: bool, before: Entries, idx: nat, ghost gl: seq<seq<nat>>, ghost q: seq<nat>)
    returns (e: Entries)
    requires g.Valid() && idx in g.entries && Rep(PassGraph(g, rev), before, gl)
    requires Improves(PassGraph(g, rev), gl, q) && Orderly(PassGraph(g, rev), q + [idx])
    ensures idx + 1 in e && CycleState(PassGraph(g, rev), e, SENTINEL, idx + 1, e[idx + 1].prevGroup, gl, [idx], [])
  {
    hide Rep, PassGraph, Improves, Orderly, CycleState, Appended;
    RepSentinel(PassGraph(g, rev), before, gl);
    PassGraphValid(g, rev);
    AppendedState(PassGraph(g, rev), before, gl, q, idx);
    e := AppendEntry(g, rev, before, idx);
  }

  /** Append idx as a group, and run the merge/swap cycle. */
  method InsertTransaction(g: DepGraph, rev: bool, before: Entries, idx: nat, ghost gl: seq<seq<nat>>,
                           ghost q: seq<nat>)
    returns (e: Entries)
    requires g.Valid() && idx in g.entries && Rep(PassGraph(g, rev), before, gl)
    requires Improves(PassGraph(g, rev), gl, q) && Orderly(PassGraph(g, rev), q + [idx])
    ensures Rep(PassGraph(g, rev), e, Insert(PassGraph(g, rev), gl, [idx]))
  {
    hide Rep, PassGraph, Improves, Insert, Orderly, GroupFee, Higher, Cycle, Tail, TailOf, NextOf;
    ghost var h := PassGraph(g, rev);
    PassGraphValid(g, rev);
    e := AppendGroup(g, rev, before, idx, gl, q);
    var cur, next := idx + 1, SENTINEL;
    var prev := e[cur].prevGroup;
    ghost var l, c, r: seq<seq<nat>> := gl, [idx], [];
    while Higher(e[cur].feerate, e[prev].feerate)
      invariant CycleState(h, e, next, cur, prev, l, c, r) && Insert(h, l, c) + r == Insert(h, gl, [idx])
      decreases |l|
    {
      e, next, prev, c, r := CycleStep(e, next, cur, prev, h, l, c, r);
      l := l[..|l| - 1];
    }
    CycleReads(h, e, l, c, r);
    InsertStops(h, l, c);
  }

  lemma NewMember(g: DepGraph, gl: seq<seq<nat>>, q: seq<nat>, t: nat)
    requires g.Valid() && Improves(g, gl, q) && Orderly(g, q + [t])
    ensures t !in Flatten(gl)
  {
    hide Flatten, Arranged, Sorted, NoWorse, GroupFee;
    OrderlyDisjoint(g, q, [t]);
    assert t in ToSet([t]);
    assert t in Flatten(gl) ==> t in ToSet(Flatten(gl));
  }

  lemma TailSingle(t: nat)
    ensures TailOf([t]) == t + 1
  {
  }

  lemma TailLast(l: seq<seq<nat>>)
    requires l != []
    ensures Tail(l) == TailOf(l[|l| - 1])
  {
  }

  lemma TailJoined(g: DepGraph, p: seq<nat>, c: seq<nat>)
    requires GroupOk(g, c)
    ensures TailOf(p + c) == TailOf(c)
  {
    OkNonEmpty(g, c);
  }

  lemma NextNone()
    ensures NextOf([]) == SENTINEL
  {
  }

  lemma NextFront(p: seq<nat>, r: seq<seq<nat>>)
    ensures NextOf([p] + r) == TailOf(p)
  {
  }

  lemma InsertUnfolds(g: DepGraph, l: seq<seq<nat>>, c: seq<nat>, r: seq<seq<nat>>)
    requires l != [] && Higher(GroupFee(g, c), GroupFee(g, l[|l| - 1]))
    ensures var p, l' := l[|l| - 1], l[..|l| - 1];
            Insert(g, l, c) + r == if GroupDepends(g, c, p) then Insert(g, l', p + c) + r
                else Insert(g, l', c) + ([p] + r)
  {
    hide GroupFee;
    var p, l' := l[|l| - 1], l[..|l| - 1];
    assert Insert(g, l', c) + [p] + r == Insert(g, l', c) + ([p] + r);
  }

  lemma InsertStops(g: DepGraph, l: seq<seq<nat>>, c: seq<nat>)
    requires l == [] || !Higher(GroupFee(g, c), GroupFee(g, l[|l| - 1]))
    ensures Insert(g, l, c) == l + [c]
  {
  }

  // ---------------------------------------------------------------- writing the result

  /** The end s of the result has been written: in reverse from the front in even passes, from
      the back in odd ones. */
  ghost predicate Written(a: seq<nat>, rev: bool, s: seq<nat>) {
    |s| <= |a| && if rev then a[..|s|] == Reverse(s) else a[|a| - |s|..] == s
  }

  lemma WrittenMore(a: seq<nat>, a': seq<nat>, rev: bool, t: nat, s: seq<nat>)
    requires Written(a, rev, s) && |s| < |a| && a' == a[(if rev then |s| else |a| - |s| - 1) := t]
    ensures Written(a', rev, [t] + s)
  {
    if rev {
      ReverseConcat([t], s);
      assert Reverse([t]) == [t];
      assert a'[..|s| + 1] == a[..|s|] + [t];
    } else {
      assert a'[|a| - |s| - 1..] == [t] + a[|a| - |s|..];
    }
  }

  /** The end of c from j on, and s. */
  ghost function Suffix(c: seq<nat>, j: nat, s: seq<nat>): seq<nat> {
    if j <= |c| then c[j..] + s else s
  }

  lemma SuffixStep(c: seq<nat>, j: nat, s: seq<nat>)
    requires 0 < j <= |c|
    ensures Suffix(c, j - 1, s) == [c[j - 1]] + Suffix(c, j, s) && |Suffix(c, j, s)| == |c| - j + |s|
  {
    var x, t := c[j - 1], c[j..];
    assert c[j - 1..] == [x] + t;
    ConcatSplit(x, t, s);
  }

  lemma ConcatSplit(x: nat, t: seq<nat>, s: seq<nat>)
    ensures [x] + t + s == [x] + (t + s)
  {
  }

  lemma SuffixEnds(c: seq<nat>, s: seq<nat>)
    ensures Suffix(c, |c|, s) == s && Suffix(c, 0, s) == c + s
  {
    assert c[|c|..] == [] && c[0..] == c;
  }

  lemma ChainedLink(e: Entries, c: seq<nat>, j: nat)
    requires Chained(e, c) && 0 < j <= |c|
    ensures c[j - 1] + 1 in e && e[c[j - 1] + 1].prevTx == if j == 1 then NO_PREV_TX else c[j - 2] + 1
  {
    assert At(e, c[j - 1] + 1).prevTx == if j - 1 == 0 then NO_PREV_TX else c[(j - 1) - 1] + 1;
  }

  /** Write the transactions of one group, from back to front. */
  method WriteGroup(a: array<nat>, e: Entries, rev: bool, start: nat, curGroup: nat, ghost c: seq<nat>,
                    ghost s: seq<nat>)
    returns (done: nat)
    requires Chained(e, c) && curGroup == TailOf(c) && start == |s| && |c| + |s| <= a.Length && Written(a[..], rev, s)
    modifies a
    ensures done == |c| + |s| && Written(a[..], rev, c + s)
  {
    hide Written, Chained, At, Suffix, TailOf;
    ChainedTail(e, c);
    done := start;
    var curTx := curGroup;
    ghost var j := |c|;
    SuffixEnds(c, s);
    while curTx != NO_PREV_TX
      invariant 0 <= j <= |c| && curTx == (if j == 0 then NO_PREV_TX else c[j - 1] + 1)
      invariant done == |c| - j + |s| && Written(a[..], rev, Suffix(c, j, s))
      decreases j
    {
      ChainedLink(e, c, j);
      SuffixStep(c, j, s);
      WriteOne(a, rev, done, curTx - 1, Suffix(c, j, s));
      done := done + 1;
      curTx := e[curTx].prevTx;
      j := j - 1;
    }
  }

  lemma ChainedTail(e: Entries, c: seq<nat>)
    requires Chained(e, c)
    ensures c != [] && TailOf(c) == c[|c| - 1] + 1
  {
  }

  method WriteOne(a: array<nat>, rev: bool, done: nat, t: nat, ghost s: seq<nat>)
    requires done == |s| < a.Length && Written(a[..], rev, s)
    modifies a
    ensures Written(a[..], rev, [t] + s)
  {
    hide Written;
    ghost var was := a[..];
    var pos := if rev then done else a.Length - done - 1;
    a[pos] := t;
    assert a[..] == was[pos := t];
    WrittenMore(was, a[..], rev, t, s);
  }

  /** Overwrite the linearization with the groups, from the last to the first. */
  method WriteGroups(a: array<nat>, e: Entries, rev: bool, ghost g: DepGraph, ghost gl: seq<seq<nat>>)
    requires Rep(g, e, gl) && |Flatten(gl)| == a.Length
    modifies a
    ensures a[..] == if rev then Reverse(Flatten(gl)) else Flatten(gl)
  {
    hide Written, Flatten, GroupFee, AncestorsOf, ToSet, Chained;
    var curGroup := e[SENTINEL].prevGroup;
    var done: nat := 0;
    ghost var i := |gl|;
    WrittenNone(a[..], rev);
    FlattenNone();
    assert gl[i..] == [] && gl[..i] == gl;
    while curGroup != SENTINEL
      invariant 0 <= i <= |gl| && curGroup == Tail(gl[..i])
      invariant done == |Flatten(gl[i..])| && Written(a[..], rev, Flatten(gl[i..]))
      decreases i
    {
      ghost var c, s := gl[i - 1], Flatten(gl[i..]);
      assert RepGroup(g, e, gl[i - 1]);
      SplitAt(gl, i - 1);
      GroupTail(g, e, c);
      done := WriteGroup(a, e, rev, done, curGroup, c, s);
      curGroup := e[curGroup].prevGroup;
      i := i - 1;
    }
    assert i == 0 by {
      if i > 0 {
        assert RepGroup(g, e, gl[i - 1]);
        GroupTail(g, e, gl[i - 1]);
      }
    }
    assert gl[0..] == gl;
    WrittenAll(a[..], rev, Flatten(gl));
  }

  lemma WrittenNone(a: seq<nat>, rev: bool)
    ensures Written(a, rev, [])
  {
  }

  lemma WrittenAll(a: seq<nat>, rev: bool, s: seq<nat>)
    requires Written(a, rev, s) && |s| == |a|
    ensures a == if rev then Reverse(s) else s
  {
  }

  lemma SplitAt(gl: seq<seq<nat>>, i: nat)
    requires i < |gl|
    ensures Flatten(gl[i..]) == gl[i] + Flatten(gl[i + 1..]) && |gl[i]| + |Flatten(gl[i + 1..])| <= |Flatten(gl)|
  {
    hide Flatten;
    assert gl[i..] == [gl[i]] + gl[i + 1..] && gl == gl[..i] + gl[i..];
    FlattenConcat([gl[i]], gl[i + 1..]);
    FlattenSingle(gl[i]);
    FlattenConcat(gl[..i], gl[i..]);
  }

  lemma GroupTail(g: DepGraph, e: Entries, c: seq<nat>)
    requires RepGroup(g, e, c)
    ensures Chained(e, c) && TailOf(c) in e && TailOf(c) != SENTINEL
  {
    hide GroupFee, AncestorsOf, ToSet;
  }

  // ---------------------------------------------------------------- the passes

  /** What a pass makes of a linearization. */
  ghost function PassResult(g: DepGraph, rev: bool, lin: seq<nat>): seq<nat> {
    if rev then Backward(g, lin) else Flatten(Pass(g, lin))
  }

  lemma EmptyRep(g: DepGraph, e: Entries)
    requires SENTINEL in e && e[SENTINEL].feerate == EMPTY && e[SENTINEL].prevGroup == SENTINEL
    ensures Rep(g, e, [])
  {
  }

  lemma RepSentinel(g: DepGraph, e: Entries, gl: seq<seq<nat>>)
    requires Rep(g, e, gl)
    ensures SENTINEL in e && e[SENTINEL].feerate == EMPTY
  {
  }

  /** The order in which a pass reads the linearization. */
  ghost function ReadOrder(rev: bool, lin: seq<nat>): seq<nat> {
    if rev then Reverse(lin) else lin
  }

  lemma ReadOrderly(g: DepGraph, rev: bool, lin: seq<nat>)
    requires g.Valid() && Orderly(g, lin)
    ensures Orderly(PassGraph(g, rev), ReadOrder(rev, lin)) && |ReadOrder(rev, lin)| == |lin|
    ensures forall i | 0 <= i < |lin| :: lin[i] in g.entries && ReadOrder(rev, lin)[i] == if rev
                                         then lin[|lin| - 1 - i] else lin[i]
  {
    assert forall i | 0 <= i < |lin| :: lin[i] in g.entries;
    hide Orderly, Reversed;
    ReversedOrderly(g, lin);
  }

  lemma PrefixOrderly(g: DepGraph, s: seq<nat>, n: nat)
    requires Orderly(g, s) && n < |s|
    ensures Orderly(g, s[..n]) && Orderly(g, s[..n] + [s[n]]) && s[..n + 1] == s[..n] + [s[n]]
  {
    assert s[..n + 1] == s[..n] + [s[n]];
    assert s == s[..n + 1] + s[n + 1..];
    OrderlyConcat(g, s[..n + 1], s[n + 1..]);
    OrderlyConcat(g, s[..n], [s[n]]);
  }

  /** One pass over the linearization, in place. */
  method RunPass(g: DepGraph, rev: bool, before: Entries, linearization: array<nat>) returns (e: Entries)
    requires g.Valid() && Orderly(g, linearization[..]) && SENTINEL in before && before[SENTINEL].feerate == EMPTY
    modifies linearization
    ensures linearization[..] == PassResult(g, rev, old(linearization[..]))
    ensures SENTINEL in e && e[SENTINEL].feerate == EMPTY
  {
    ghost var lin, h := linearization[..], PassGraph(g, rev);
    ghost var z := ReadOrder(rev, lin);
    hide Orderly, Rep, Pass, Insert, Flatten, Improves, PassGraph, ReadOrder, PassResult, Reverse;
    ReadOrderly(g, rev, lin);
    PassGraphValid(g, rev);
    e := before[SENTINEL := before[SENTINEL].(prevGroup := SENTINEL)];
    EmptyRep(h, e);
    PassNone(h, z);
    var n := linearization.Length;
    for i := 0 to n
      invariant linearization[..] == lin && Rep(h, e, Pass(h, z[..i]))
    {
      var idx := linearization[if rev then n - 1 - i else i];
      assert idx == z[i];
      PrefixOrderly(h, z, i);
      PassImproves(h, z[..i]);
      PassStep(h, z[..i], z[i]);
      e := InsertTransaction(g, rev, e, idx, Pass(h, z[..i]), z[..i]);
    }
    assert z[..n] == z;
    PassLength(h, z);
    RepSentinel(h, e, Pass(h, z));
    WriteGroups(linearization, e, rev, h, Pass(h, z));
    PassResultIs(g, rev, lin);
  }

  lemma PassNone(g: DepGraph, z: seq<nat>)
    ensures z[..0] == [] && Pass(g, z[..0]) == []
  {
  }

  lemma PassResultIs(g: DepGraph, rev: bool, lin: seq<nat>)
    ensures var s := Flatten(Pass(PassGraph(g, rev), ReadOrder(rev, lin)));
            PassResult(g, rev, lin) == if rev then Reverse(s) else s
  {
  }

  lemma {:induction false} DistinctLength(a: seq<nat>, b: seq<nat>)
    requires Distinct(a) && Distinct(b) && ToSet(a) == ToSet(b)
    ensures |a| == |b|
  {
    forall i | 0 <= i < |a|
      ensures a[i] !in a[..i]
    {
    }
    forall i | 0 <= i < |b|
      ensures b[i] !in b[..i]
    {
    }
    DistinctCard(a);
    DistinctCard(b);
  }

  lemma PassLength(g: DepGraph, z: seq<nat>)
    requires g.Valid() && Orderly(g, z)
    ensures |Flatten(Pass(g, z))| == |z|
  {
    hide Pass, Flatten, Sorted, NoWorse, GroupFee, GroupOk;
    PassImproves(g, z);
    DistinctOrderly(g, z);
    DistinctOrderly(g, Flatten(Pass(g, z)));
    DistinctLength(z, Flatten(Pass(g, z)));
  }

  /** PostLinearize: a backward pass, then a forward pass. */
  method PostLinearize(g: DepGraph, linearization: array<nat>)
    requires g.Valid() && IsTopological(g, linearization[..])
    modifies linearization
    ensures linearization[..] == PostLinearization(g, old(linearization[..]))
    ensures IsTopological(g, linearization[..]) && AsGood(g, linearization[..], old(linearization[..]))
    ensures AtMostOneChild(g) || AtMostOneParent(g) ==>
              forall other: seq<nat> | IsTopological(g, other) :: AsGood(g, linearization[..], other)
  {
    hide IsTopological, Orderly, AsGood, AtMostOneChild, AtMostOneParent, Backward, Pass, Flatten, NoWorse, Fees;
    ghost var lin := linearization[..];
    OrderlyTopological(g, lin);
    BackwardImproves(g, lin);
    PostImproves(g, lin);
    if AtMostOneChild(g) || AtMostOneParent(g) {
      forall other: seq<nat> | IsTopological(g, other)
        ensures AsGood(g, PostLinearization(g, lin), other)
      {
        PostOptimal(g, lin, other);
      }
    }
    var e := map[SENTINEL := BLANK_ENTRY];
    e := RunPass(g, true, e, linearization);
    e := RunPass(g, false, e, linearization);
  }
}
