/** The circular doubly linked list of flagged cache entries, with a sentinel: linking at the end
    and unlinking anywhere are appending to and removing from a sequence. */
module FlaggedList {
  import opened Coins

  /** The sentinel, or the entry of an outpoint. */
  datatype Node = Sentinel | Pair(o: OutPoint)

  /** Position i in the circle: the sentinel at 0 and behind the last entry. */
  ghost function NodeAt(list: seq<OutPoint>, i: nat): Node {
    if 0 < i <= |list| then Pair(list[i - 1]) else Sentinel
  }

  /** The links represent the list. */
  ghost predicate Linked(list: seq<OutPoint>, prev: map<Node, Node>, next: map<Node, Node>) {
    && (forall i: nat | i <= |list| :: NodeAt(list, i) in next && next[NodeAt(list, i)] == NodeAt(list, i + 1))
    && (forall i: nat | 1 <= i <= |list| + 1 :: NodeAt(list, i) in prev && prev[NodeAt(list, i)] == NodeAt(list, i - 1))
  }

  lemma NodesDiffer(list: seq<OutPoint>, i: nat, j: nat)
    requires Distinct(list) && i <= |list| && j <= |list| && i != j
    ensures NodeAt(list, i) != NodeAt(list, j)
  {
  }

  lemma LinkedAppend(list: seq<OutPoint>, prev: map<Node, Node>, next: map<Node, Node>, o: OutPoint)
    requires Linked(list, prev, next) && Distinct(list) && o !in list
    ensures Sentinel in prev && prev[Sentinel] == NodeAt(list, |list|)
    ensures Linked(list + [o], prev[Pair(o) := prev[Sentinel]][Sentinel := Pair(o)],
                   next[Pair(o) := Sentinel][prev[Sentinel] := Pair(o)])
  {
    var n, list' := |list|, list + [o];
    assert NodeAt(list, n + 1) == Sentinel;
    assert forall i: nat | i <= n :: NodeAt(list', i) == NodeAt(list, i);
    assert NodeAt(list', n + 1) == Pair(o) && NodeAt(list', n + 2) == Sentinel;
    forall i: nat | i < n
      ensures NodeAt(list, i) != NodeAt(list, n)
    {
      NodesDiffer(list, i, n);
    }
  }

  lemma LinkedRemove(list: seq<OutPoint>, prev: map<Node, Node>, next: map<Node, Node>, k: nat)
    requires Linked(list, prev, next) && Distinct(list) && k < |list|
    ensures var e := Pair(list[k]); e in prev && e in next && prev[e] == NodeAt(list, k)
                                    && next[e] == NodeAt(list, k + 2)
    ensures var e := Pair(list[k]);
            Linked(list[..k] + list[k + 1..], prev[next[e] := prev[e]], next[prev[e] := next[e]])
  {
    var n, list' := |list|, list[..k] + list[k + 1..];
    var e := Pair(list[k]);
    assert NodeAt(list, k + 1) == e;
    assert forall i: nat | i <= k :: NodeAt(list', i) == NodeAt(list, i);
    assert forall i: nat | k < i <= n :: NodeAt(list', i) == NodeAt(list, i + 1);
    forall i: nat, j: nat | i <= n && j <= n && i != j
      ensures NodeAt(list, i) != NodeAt(list, j)
    {
      NodesDiffer(list, i, j);
    }
  }

  class Links {
    var prev: map<Node, Node>
    var next: map<Node, Node>
    ghost var list: seq<OutPoint>

    ghost predicate Valid()
      reads this
    {
      Distinct(list) && Linked(list, prev, next)
    }

    /** SelfRef: the sentinel points to itself. */
    constructor ()
      ensures Valid() && list == []
    {
      prev, next, list := map[Sentinel := Sentinel], map[Sentinel := Sentinel], [];
    }

    /** AddFlags on an entry without flags. */
    method Link(o: OutPoint)
      requires Valid() && o !in list
      modifies this
      ensures Valid() && list == old(list) + [o]
    {
      LinkedAppend(list, prev, next, o);
      hide Linked;
      ghost var p, q := prev, next;
      var last := prev[Sentinel];
      prev := prev[Pair(o) := last];
      next := next[Pair(o) := Sentinel];
      prev := prev[Sentinel := Pair(o)];
      next := next[last := Pair(o)];
      list := list + [o];
    }

    /** SetClean on an entry with flags, or its destruction. */
    method Unlink(o: OutPoint)
      requires Valid() && o in list
      modifies this
      ensures Valid() && list == Unflagged(old(list), o)
    {
      ghost var k :| 0 <= k < |list| && list[k] == o;
      LinkedRemove(list, prev, next, k);
      UnflaggedAt(list, k);
      UnflaggedDistinct(list, o);
      hide Linked;
      var p, q := prev[Pair(o)], next[Pair(o)];
      prev := prev[q := p];
      next := next[p := q];
      list := Unflagged(list, o);
    }

    /** Walking from the sentinel visits the list in order: the loops of BatchWrite and
        SanityCheck. */
    method Walk() returns (seen: seq<OutPoint>)
      requires Valid()
      ensures seen == list
    {
      seen := [];
      var it := Sentinel;
      assert NodeAt(list, 0) == Sentinel;
      it := next[Sentinel];
      while it != Sentinel
        invariant |seen| <= |list| && seen == list[..|seen|] && it == NodeAt(list, |seen| + 1)
        decreases |list| - |seen|
      {
        seen := seen + [it.o];
        assert NodeAt(list, |seen|) == it;
        it := next[it];
      }
    }
  }

  lemma {:induction false} UnflaggedAt(list: seq<OutPoint>, k: nat)
    requires Distinct(list) && k < |list|
    ensures Unflagged(list, list[k]) == list[..k] + list[k + 1..]
  {
    if k == 0 {
      UnflaggedAbsent(list[1..], list[0]);
    } else {
      UnflaggedAt(list[1..], k - 1);
      assert list[1..][k - 1] == list[k];
      assert [list[0]] + (list[1..][..k - 1] + list[1..][k..]) == list[..k] + list[k + 1..];
    }
  }
}
