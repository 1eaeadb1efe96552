/** The block index: a tree (or forest) of blocks with previous pointers and skip pointers. Walking
    with skip pointers is walking back one by one. */
module BlockTree {
  import opened Options
  import opened SkipHeights

  /** timeMax is the largest timestamp on the path to the block. */
  datatype Block = Block(prev: Option<nat>, skip: Option<nat>, height: nat, timeMax: nat)

  // ---------------------------------------------------------------- walking back

  /** Previous pointers go to earlier entries, one lower in height. */
  ghost predicate Rooted(nodes: seq<Block>) {
    forall i | 0 <= i < |nodes| ::
      match nodes[i].prev
      case None => nodes[i].height == 0
      case Some(p) => p < i && nodes[i].height == nodes[p].height + 1
  }

  /** The ancestor of x at a height, by the plain walk; none above x. */
  ghost function Walk(nodes: seq<Block>, x: nat, h: nat): Option<nat>
    decreases x
  {
    if x >= |nodes| || h > nodes[x].height then None
    else if h == nodes[x].height then Some(x)
    else if nodes[x].prev.Some? && nodes[x].prev.value < x then Walk(nodes, nodes[x].prev.value, h)
    else None
  }

  /** Every height up to that of x is reached, and the walk can be taken in stages. */
  lemma {:induction false} WalkTo(nodes: seq<Block>, x: nat, h: nat)
    requires Rooted(nodes) && x < |nodes| && h <= nodes[x].height
    ensures Walk(nodes, x, h).Some? && Walk(nodes, x, h).value <= x && nodes[Walk(nodes, x, h).value].height == h
    ensures forall g: nat | g <= h :: Walk(nodes, Walk(nodes, x, h).value, g) == Walk(nodes, x, g)
    decreases x
  {
    if h < nodes[x].height {
      assert nodes[x].prev.Some?;
      WalkTo(nodes, nodes[x].prev.value, h);
    }
  }

  /** Skip pointers of all blocks but roots go to the ancestor at the skip height. */
  ghost predicate Skipped(nodes: seq<Block>) {
    forall i | 0 <= i < |nodes| ::
      nodes[i].skip == if nodes[i].prev.None? then None else Walk(nodes, i, GetSkipHeight(nodes[i].height))
  }

  ghost predicate TimesGrow(nodes: seq<Block>) {
    forall i | 0 <= i < |nodes| && nodes[i].prev.Some? && nodes[i].prev.value < |nodes| ::
      nodes[nodes[i].prev.value].timeMax <= nodes[i].timeMax
  }

  ghost predicate TreeOk(nodes: seq<Block>) {
    Rooted(nodes) && Skipped(nodes) && TimesGrow(nodes)
  }

  /** Adding blocks does not change walks. */
  lemma {:induction false} WalkExtended(nodes: seq<Block>, more: seq<Block>, x: nat, h: nat)
    requires x < |nodes|
    ensures Walk(nodes + more, x, h) == Walk(nodes, x, h)
    decreases x
  {
    assert (nodes + more)[x] == nodes[x];
    if h < nodes[x].height && nodes[x].prev.Some? && nodes[x].prev.value < x {
      WalkExtended(nodes, more, nodes[x].prev.value, h);
    }
  }

  lemma Appended(nodes: seq<Block>, b: Block)
    requires TreeOk(nodes)
    requires match b.prev
             case None => b.height == 0 && b.skip == None
             case Some(p) => p < |nodes| && b.height == nodes[p].height + 1 && b.timeMax >= nodes[p].timeMax
                             && b.skip == Walk(nodes, p, GetSkipHeight(b.height))
    ensures TreeOk(nodes + [b])
  {
    var after := nodes + [b];
    forall i | 0 <= i < |after|
      ensures after[i].skip == if after[i].prev.None? then None else Walk(after, i, GetSkipHeight(after[i].height))
    {
      if i < |nodes| {
        WalkExtended(nodes, [b], i, GetSkipHeight(nodes[i].height));
      } else if b.prev.Some? {
        WalkExtended(nodes, [b], b.prev.value, GetSkipHeight(b.height));
      }
    }
  }

  // ---------------------------------------------------------------- the index

  lemma PrevPointer(nodes: seq<Block>, x: nat)
    requires Rooted(nodes) && x < |nodes|
    ensures nodes[x].prev.Some? <==> nodes[x].height > 0
    ensures nodes[x].prev.Some? ==> nodes[x].prev.value < x && nodes[nodes[x].prev.value].height == nodes[x].height - 1
    ensures nodes[x].prev.Some? ==> forall g: nat | g < nodes[x].height ::
                                      Walk(nodes, nodes[x].prev.value, g) == Walk(nodes, x, g)
  {
  }

  lemma SkipPointer(nodes: seq<Block>, x: nat)
    requires TreeOk(nodes) && x < |nodes|
    ensures nodes[x].skip.Some? <==> nodes[x].height > 0
    ensures nodes[x].skip.Some? ==> nodes[x].skip.value < |nodes|
                                    && nodes[nodes[x].skip.value].height == GetSkipHeight(nodes[x].height)
    ensures nodes[x].skip.Some? ==>
              forall g: nat | g <= GetSkipHeight(nodes[x].height) :: Walk(nodes, nodes[x].skip.value, g)
                                                                     == Walk(nodes, x, g)
  {
    hide GetSkipHeight, TimesGrow;
    PrevPointer(nodes, x);
    assert nodes[x].skip == if nodes[x].prev.None? then None else Walk(nodes, x, GetSkipHeight(nodes[x].height));
    hide Rooted, Skipped, Walk;
    if nodes[x].height > 0 {
      SkipLower(nodes[x].height);
      WalkTo(nodes, x, GetSkipHeight(nodes[x].height));
    }
  }

  /** What a block knows about its pointers. */
  lemma Pointers(nodes: seq<Block>, x: nat)
    requires TreeOk(nodes) && x < |nodes|
    ensures nodes[x].prev.Some? <==> nodes[x].height > 0
    ensures nodes[x].skip.Some? <==> nodes[x].height > 0
    ensures nodes[x].prev.Some? ==> nodes[x].prev.value < |nodes|
                                    && nodes[nodes[x].prev.value].height == nodes[x].height - 1
    ensures nodes[x].prev.Some? ==> forall g: nat | g < nodes[x].height ::
                                      Walk(nodes, nodes[x].prev.value, g) == Walk(nodes, x, g)
    ensures nodes[x].skip.Some? ==> nodes[x].skip.value < |nodes|
                                    && nodes[nodes[x].skip.value].height == GetSkipHeight(nodes[x].height)
    ensures nodes[x].skip.Some? ==>
              forall g: nat | g <= GetSkipHeight(nodes[x].height) :: Walk(nodes, nodes[x].skip.value, g)
                                                                     == Walk(nodes, x, g)
  {
    PrevPointer(nodes, x);
    SkipPointer(nodes, x);
    hide GetSkipHeight, TreeOk, Walk;
  }

  /** And about the ancestor at one height below it. */
  lemma PointersAt(nodes: seq<Block>, x: nat, h: nat)
    requires TreeOk(nodes) && x < |nodes| && h < nodes[x].height
    ensures nodes[x].prev.Some? && nodes[x].skip.Some? && GetSkipHeight(nodes[x].height) < nodes[x].height
    ensures nodes[x].prev.value < |nodes| && nodes[nodes[x].prev.value].height == nodes[x].height - 1
    ensures nodes[x].skip.value < |nodes| && nodes[nodes[x].skip.value].height == GetSkipHeight(nodes[x].height)
    ensures Walk(nodes, nodes[x].prev.value, h) == Walk(nodes, x, h)
    ensures h <= GetSkipHeight(nodes[x].height) ==> Walk(nodes, nodes[x].skip.value, h) == Walk(nodes, x, h)
  {
    Pointers(nodes, x);
    SkipLower(nodes[x].height);
    hide GetSkipHeight, TreeOk, Walk;
  }

  class BlockIndex {
    var nodes: seq<Block>

    ghost predicate Valid()
      reads this
    {
      TreeOk(nodes)
    }

    constructor ()
      ensures Valid() && nodes == []
    {
      nodes := [];
    }

    /** A new block; its skip pointer is built through the previous block (BuildSkip). */
    method AddBlock(prev: Option<nat>, time: nat) returns (x: nat)
      requires Valid() && (prev.Some? ==> prev.value < |nodes|)
      modifies this
      ensures Valid() && x == |old(nodes)| && |nodes| == x + 1 && nodes[..x] == old(nodes) && nodes[x].prev == prev
      ensures forall y, h: nat | 0 <= y < x :: Walk(nodes, y, h) == Walk(old(nodes), y, h)
    {
      x := |nodes|;
      var b := Block(None, None, 0, time);
      if prev.Some? {
        var p := nodes[prev.value];
        var skip, _ := GetAncestor(prev.value, GetSkipHeight(p.height + 1));
        b := Block(prev, skip, p.height + 1, if time > p.timeMax then time else p.timeMax);
      }
      Appended(nodes, b);
      forall y, h: nat | 0 <= y < x
        ensures Walk(nodes + [b], y, h) == Walk(nodes, y, h)
      {
        WalkExtended(nodes, [b], y, h);
      }
      hide TreeOk;
      nodes := nodes + [b];
    }

    /** GetAncestor: the loop over skip and previous pointers is the plain walk, in fewer steps. */
    method GetAncestor(x: nat, height: int) returns (r: Option<nat>, ghost steps: nat)
      requires Valid() && x < |nodes|
      ensures r == if height < 0 then None else Walk(nodes, x, height)
      ensures steps <= Square(Bits(nodes[x].height))
    {
      steps := 0;
      if height < 0 || height > nodes[x].height {
        return None, steps;
      }
      hide TreeOk, GetSkipHeight, Walk, Bits, Square, Steps;
      var walk: nat, heightWalk: nat := x, nodes[x].height;
      StepsBound(heightWalk, height);
      while heightWalk > height
        invariant walk < |nodes| && heightWalk == nodes[walk].height && heightWalk >= height
        invariant Walk(nodes, walk, height) == Walk(nodes, x, height)
        invariant steps + Steps(heightWalk, height) == Steps(nodes[x].height, height)
        decreases heightWalk
      {
        PointersAt(nodes, walk, height);
        OneStep(heightWalk, height);
        var heightSkip, heightSkipPrev := GetSkipHeight(heightWalk), GetSkipHeight(heightWalk - 1);
        if nodes[walk].skip.Some? && (heightSkip == height
                                      || (heightSkip > height && !(heightSkipPrev < heightSkip - 2
                                         && heightSkipPrev >= height))) {
          walk, heightWalk := nodes[walk].skip.value, heightSkip;
        } else {
          walk, heightWalk := nodes[walk].prev.value, heightWalk - 1;
        }
        steps := steps + 1;
      }
      WalkTop(nodes, walk);
      return Some(walk), steps;
    }

    /** LastCommonAncestor: the highest block on both paths, or none. */
    method LastCommonAncestor(a: nat, b: nat) returns (r: Option<nat>)
      requires Valid() && a < |nodes| && b < |nodes|
      ensures IsLastCommon(nodes, a, b, r)
    {
      hide TreeOk, GetSkipHeight, Walk, IsLastCommon;
      var pa: nat, pb: nat := a, b;
      Rewound(nodes, a, b);
      if nodes[pa].height > nodes[pb].height {
        var x, _ := GetAncestor(pa, nodes[pb].height);
        pa := x.value;
      } else if nodes[pb].height > nodes[pa].height {
        var x, _ := GetAncestor(pb, nodes[pa].height);
        pb := x.value;
      }
      while pa != pb
        invariant pa < |nodes| && pb < |nodes| && Narrowed(nodes, a, b, pa, pb)
        decreases nodes[pa].height
      {
        ghost var top := nodes[pa].height;
        while nodes[pa].skip != nodes[pb].skip
          invariant pa < |nodes| && pb < |nodes| && pa != pb && Narrowed(nodes, a, b, pa, pb) && nodes[pa].height <= top
          decreases nodes[pa].height
        {
          NarrowSkip(nodes, a, b, pa, pb);
          pa, pb := nodes[pa].skip.value, nodes[pb].skip.value;
        }
        NarrowPrev(nodes, a, b, pa, pb);
        if nodes[pa].prev.None? {
          return None;
        }
        pa, pb := nodes[pa].prev.value, nodes[pb].prev.value;
      }
      NarrowEnd(nodes, a, b, pa);
      return Some(pa);
    }
  }

  lemma WalkTop(nodes: seq<Block>, x: nat)
    requires x < |nodes|
    ensures Walk(nodes, x, nodes[x].height) == Some(x)
  {
  }

  lemma SkipLower(h: nat)
    requires h > 0
    ensures GetSkipHeight(h) < h
  {
  }

  // ---------------------------------------------------------------- common ancestors

  /** r is the highest block that is on the paths of both a and b. */
  ghost predicate IsLastCommon(nodes: seq<Block>, a: nat, b: nat, r: Option<nat>) {
    match r
    case None => forall h: nat :: Walk(nodes, a, h).Some? && Walk(nodes, b, h).Some?
                                  ==> Walk(nodes, a, h) != Walk(nodes, b, h)
    case Some(c) =>
      && c < |nodes| && Walk(nodes, a, nodes[c].height) == Some(c) && Walk(nodes, b, nodes[c].height) == Some(c)
      && (forall h: nat | h > nodes[c].height :: Walk(nodes, a, h).Some? && Walk(nodes, b, h).Some?
                                                 ==> Walk(nodes, a, h) != Walk(nodes, b, h))
  }

  /** pa and pb are ancestors at one height, above which a and b have nothing in common. */
  ghost predicate Narrowed(nodes: seq<Block>, a: nat, b: nat, pa: nat, pb: nat) {
    && pa < |nodes| && pb < |nodes| && nodes[pa].height == nodes[pb].height
    && (forall h: nat | h <= nodes[pa].height :: Walk(nodes, pa, h) == Walk(nodes, a, h)
                                                 && Walk(nodes, pb, h) == Walk(nodes, b, h))
    && (forall h: nat | h > nodes[pa].height :: Walk(nodes, a, h).Some? && Walk(nodes, b, h).Some?
                                                ==> Walk(nodes, a, h) != Walk(nodes, b, h))
  }

  /** Paths that differ at a height differ above it. */
  lemma {:induction false} DifferAbove(nodes: seq<Block>, a: nat, b: nat, h: nat, g: nat)
    requires Rooted(nodes) && a < |nodes| && b < |nodes| && h <= g && g <= nodes[a].height && g <= nodes[b].height
    requires Walk(nodes, a, h) != Walk(nodes, b, h)
    ensures Walk(nodes, a, g) != Walk(nodes, b, g)
  {
    WalkTo(nodes, a, g);
    WalkTo(nodes, b, g);
  }

  lemma WalkSome(nodes: seq<Block>, a: nat, h: nat)
    requires Rooted(nodes) && a < |nodes|
    ensures Walk(nodes, a, h).Some? <==> h <= nodes[a].height
  {
    if h <= nodes[a].height {
      WalkTo(nodes, a, h);
    }
  }

  /** Going back to the lower of the two heights. */
  lemma Rewound(nodes: seq<Block>, a: nat, b: nat)
    requires TreeOk(nodes) && a < |nodes| && b < |nodes|
    ensures nodes[a].height == nodes[b].height ==> Narrowed(nodes, a, b, a, b)
    ensures nodes[a].height > nodes[b].height ==>
              Walk(nodes, a, nodes[b].height).Some? && Narrowed(nodes, a, b, Walk(nodes, a, nodes[b].height).value, b)
    ensures nodes[b].height > nodes[a].height ==>
              Walk(nodes, b, nodes[a].height).Some? && Narrowed(nodes, a, b, a, Walk(nodes, b, nodes[a].height).value)
  {
    var ha, hb := nodes[a].height, nodes[b].height;
    if ha >= hb {
      WalkTo(nodes, a, hb);
    }
    if hb >= ha {
      WalkTo(nodes, b, ha);
    }
    forall h: nat
      ensures Walk(nodes, a, h).Some? <==> h <= ha
      ensures Walk(nodes, b, h).Some? <==> h <= hb
    {
      WalkSome(nodes, a, h);
      WalkSome(nodes, b, h);
    }
    hide Walk, Skipped, Rooted;
  }

  lemma NarrowSkip(nodes: seq<Block>, a: nat, b: nat, pa: nat, pb: nat)
    requires TreeOk(nodes) && a < |nodes| && b < |nodes| && Narrowed(nodes, a, b, pa, pb)
             && nodes[pa].skip != nodes[pb].skip
    ensures nodes[pa].skip.Some? && nodes[pb].skip.Some?
            && Narrowed(nodes, a, b, nodes[pa].skip.value, nodes[pb].skip.value)
    ensures nodes[nodes[pa].skip.value].height < nodes[pa].height && nodes[pa].skip.value != nodes[pb].skip.value
  {
    hide GetSkipHeight, Skipped, TimesGrow, Walk, Rooted;
    Pointers(nodes, pa);
    Pointers(nodes, pb);
    var sa, sb := nodes[pa].skip.value, nodes[pb].skip.value;
    var s := GetSkipHeight(nodes[pa].height);
    SkipLower(nodes[pa].height);
    WalkTop(nodes, sa);
    WalkTop(nodes, sb);
    forall h: nat | h > s && Walk(nodes, a, h).Some? && Walk(nodes, b, h).Some?
      ensures Walk(nodes, a, h) != Walk(nodes, b, h)
    {
      WalkSome(nodes, a, h);
      WalkSome(nodes, b, h);
      DifferAbove(nodes, a, b, s, h);
    }
  }

  lemma NarrowPrev(nodes: seq<Block>, a: nat, b: nat, pa: nat, pb: nat)
    requires TreeOk(nodes) && a < |nodes| && b < |nodes| && Narrowed(nodes, a, b, pa, pb) && pa != pb
    ensures nodes[pa].prev.Some? <==> nodes[pb].prev.Some?
    ensures nodes[pa].prev.Some? ==> Narrowed(nodes, a, b, nodes[pa].prev.value, nodes[pb].prev.value)
    ensures nodes[pa].prev.Some? ==> nodes[nodes[pa].prev.value].height < nodes[pa].height
    ensures nodes[pa].prev.None? ==> IsLastCommon(nodes, a, b, None)
  {
    hide GetSkipHeight, TreeOk, Walk;
    Pointers(nodes, pa);
    Pointers(nodes, pb);
    WalkTop(nodes, pa);
    WalkTop(nodes, pb);
    var k := nodes[pa].height;
    assert Walk(nodes, a, k) != Walk(nodes, b, k);
  }

  lemma NarrowEnd(nodes: seq<Block>, a: nat, b: nat, c: nat)
    requires Narrowed(nodes, a, b, c, c)
    ensures IsLastCommon(nodes, a, b, Some(c))
  {
    WalkTop(nodes, c);
  }
}
