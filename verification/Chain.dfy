/** CChain: the active chain as a vector of blocks by height. */
module Chain {
  import opened Options
  import opened BlockTree

  /** chain is the path to x. */
  ghost predicate IsPath(nodes: seq<Block>, chain: seq<Option<nat>>, x: nat) {
    x < |nodes| && |chain| == nodes[x].height + 1 && forall h: nat | h < |chain| :: chain[h] == Walk(nodes, x, h)
  }

  /** chain is empty or the path to some block. */
  ghost predicate ChainOk(nodes: seq<Block>, chain: seq<Option<nat>>) {
    chain == [] || exists x :: IsPath(nodes, chain, x)
  }

  /** From height k on, chain follows the path to x; below, it is as it was. */
  ghost predicate Joined(nodes: seq<Block>, before: seq<Option<nat>>, chain: seq<Option<nat>>, x: nat, k: nat) {
    && x < |nodes| && |chain| == |before| == nodes[x].height + 1 && k <= |chain|
    && (forall h: nat | k <= h < |chain| :: chain[h] == Walk(nodes, x, h))
    && (forall h: nat | h < k :: chain[h] == before[h])
  }

  /** vChain.resize: shorter, or longer with null pointers. */
  function Resized(chain: seq<Option<nat>>, n: nat): seq<Option<nat>> {
    if n <= |chain| then chain[..n] else chain + seq(n - |chain|, _ => None)
  }

  /** Where an old path has an ancestor of x, it has all ancestors below. */
  lemma OldPath(nodes: seq<Block>, chain: seq<Option<nat>>, x: nat, k: nat, h: nat)
    requires TreeOk(nodes) && ChainOk(nodes, chain) && x < |nodes| && h <= k < |Resized(chain, nodes[x].height + 1)|
    requires Resized(chain, nodes[x].height + 1)[k] == Walk(nodes, x, k) && Walk(nodes, x, k).Some?
    ensures Resized(chain, nodes[x].height + 1)[h] == Walk(nodes, x, h)
  {
    assert k < |chain| && chain != [];
    var y :| IsPath(nodes, chain, y);
    WalkTo(nodes, x, k);
    WalkTo(nodes, y, k);
    hide Walk, TreeOk;
    assert chain[k] == Walk(nodes, y, k) && chain[h] == Walk(nodes, y, h);
  }

  class ActiveChain {
    const index: BlockIndex
    var vChain: seq<Option<nat>>

    ghost predicate Valid()
      reads this, index
    {
      index.Valid() && ChainOk(index.nodes, vChain)
    }

    constructor (i: BlockIndex)
      requires i.Valid()
      ensures Valid() && index == i && vChain == []
    {
      index, vChain := i, [];
    }

    /** SetTip: whatever the chain was, it becomes the path to the new tip; the walk back stops
        where the old chain joins. */
    method SetTip(block: nat)
      requires Valid() && block < |index.nodes|
      modifies this
      ensures Valid() && IsPath(index.nodes, vChain, block)
    {
      hide TreeOk, Walk, Joined, ChainOk, IsPath;
      var nodes := index.nodes;
      ghost var old_ := vChain;
      var pindex: Option<nat> := Some(block);
      vChain := Resized(vChain, nodes[block].height + 1);
      ghost var before, k: nat := vChain, |vChain|;
      TipStart(nodes, before, block);
      while pindex.Some? && vChain[nodes[pindex.value].height] != pindex
        invariant nodes == index.nodes && |vChain| == nodes[block].height + 1
                  && TipState(nodes, before, vChain, block, k, pindex)
        decreases k
      {
        TipStep(nodes, before, vChain, block, k, pindex.value);
        k := nodes[pindex.value].height;
        vChain := vChain[nodes[pindex.value].height := pindex];
        pindex := nodes[pindex.value].prev;
      }
      SetTipEnd(nodes, old_, before, vChain, block, k, pindex);
      PathOk(nodes, vChain, block);
    }

    /** operator[]. */
    function At(height: int): Option<nat>
      reads this
    {
      if height < 0 || height >= |vChain| then None else vChain[height]
    }

    /** Contains: whether a block is on the chain. */
    predicate Contains(x: nat)
      requires x < |index.nodes|
      reads this, index
    {
      At(index.nodes[x].height) == Some(x)
    }

    /** LocatorEntries: the block itself, ancestors going back by steps that double after the
        first ten, and the root. */
    method LocatorEntries(x: nat) returns (have: seq<nat>)
      requires Valid() && x < |index.nodes|
      ensures IsLocator(index.nodes, x, have) && index.nodes[have[|have| - 1]].height == 0
    {
      hide TreeOk, Walk, IsLocator, LocatorStep;
      var nodes := index.nodes;
      var step := 1;
      have := [x];
      var cur: nat := x;
      LocatorStart(nodes, x);
      while nodes[cur].height != 0
        invariant cur < |nodes| && IsLocator(nodes, x, have) && have != [] && have[|have| - 1] == cur
                  && step == LocatorStep(|have| - 1)
        decreases nodes[cur].height
      {
        var height := if nodes[cur].height > step then nodes[cur].height - step else 0;
        var next, _ := index.GetAncestor(cur, height);
        LocatorGrows(nodes, x, have);
        if |have| > 10 {
          step := step * 2;
        }
        cur := next.value;
        have := have + [cur];
      }
    }

    /** FindFork: the highest ancestor of x on the chain, which is the last common ancestor of x
        and the tip. */
    method FindFork(x: nat) returns (r: Option<nat>)
      requires Valid() && x < |index.nodes|
      ensures vChain == [] ==> r == None
      ensures forall tip | IsPath(index.nodes, vChain, tip) :: IsLastCommon(index.nodes, x, tip, r)
    {
      var nodes := index.nodes;
      var pindex: Option<nat> := Some(x);
      if nodes[x].height > |vChain| - 1 {
        var end, _ := index.GetAncestor(x, |vChain| - 1);
        pindex := end;
      }
      ForkStart(nodes, vChain, x);
      hide TreeOk, Walk;
      while pindex.Some? && !Contains(pindex.value)
        invariant pindex.Some? ==> pindex.value < |nodes|
        invariant ForkBelow(nodes, vChain, x, pindex)
        decreases if pindex.Some? then nodes[pindex.value].height + 1 else 0
      {
        Pointers(nodes, pindex.value);
        ForkStep(nodes, vChain, x, pindex.value);
        pindex := nodes[pindex.value].prev;
      }
      r := pindex;
      forall tip | IsPath(nodes, vChain, tip)
        ensures IsLastCommon(nodes, x, tip, r)
      {
        ForkEnd(nodes, vChain, x, tip, r);
      }
    }
  }

  /** The step back after entry i of a locator. */
  function LocatorStep(i: nat): (r: nat)
    ensures r > 0
  {
    if i < 11 then 1 else 2 * LocatorStep(i - 1)
  }

  /** A step back from a height, not below the root. */
  function StepDown(h: nat, step: nat): nat {
    if h > step then h - step else 0
  }

  /** have starts with x and goes back along its path by the steps of a locator. */
  ghost predicate IsLocator(nodes: seq<Block>, x: nat, have: seq<nat>) {
    && have != [] && have[0] == x
    && (forall i | 0 <= i < |have| :: have[i] < |nodes| && Walk(nodes, x, nodes[have[i]].height) == Some(have[i]))
    && (forall i | 0 <= i < |have| - 1 :: nodes[have[i + 1]].height == StepDown(nodes[have[i]].height, LocatorStep(i)))
  }

  lemma LocatorStart(nodes: seq<Block>, x: nat)
    requires x < |nodes|
    ensures IsLocator(nodes, x, [x]) && LocatorStep(0) == 1
  {
    WalkTop(nodes, x);
  }

  lemma LocatorGrows(nodes: seq<Block>, x: nat, have: seq<nat>)
    requires TreeOk(nodes) && x < |nodes| && IsLocator(nodes, x, have)
    ensures var n := |have| - 1; have[n] < |nodes|
    ensures var n := |have| - 1;
            var h := StepDown(nodes[have[n]].height, LocatorStep(n));
            var r := Walk(nodes, have[n], h);
            r.Some? && r.value < |nodes| && nodes[r.value].height == h && IsLocator(nodes, x, have + [r.value])
    ensures var n := |have| - 1; LocatorStep(n + 1) == if n + 1 > 10 then LocatorStep(n) * 2 else LocatorStep(n)
  {
    hide TreeOk, Walk;
    var n := |have| - 1;
    LocatorNext(nodes, x, have[n], StepDown(nodes[have[n]].height, LocatorStep(n)));
  }

  lemma LocatorNext(nodes: seq<Block>, x: nat, cur: nat, h: nat)
    requires TreeOk(nodes) && x < |nodes| && cur < |nodes| && Walk(nodes, x, nodes[cur].height) == Some(cur)
             && h <= nodes[cur].height
    ensures var r := Walk(nodes, cur, h); r.Some? && r.value < |nodes| && nodes[r.value].height == h
                                          && Walk(nodes, x, h) == r
  {
    PathHeight(nodes, x, nodes[cur].height);
    WalkTo(nodes, x, nodes[cur].height);
    WalkTo(nodes, cur, h);
  }

  // ---------------------------------------------------------------- searching by time

  /** Along a path, the largest timestamps do not decrease. */
  lemma {:induction false} PathTimes(nodes: seq<Block>, x: nat, g: nat, h: nat)
    requires TreeOk(nodes) && x < |nodes| && g <= h <= nodes[x].height
    ensures Walk(nodes, x, g).Some? && Walk(nodes, x, h).Some? && Walk(nodes, x, g).value < |nodes|
            && Walk(nodes, x, h).value < |nodes|
    ensures nodes[Walk(nodes, x, g).value].timeMax <= nodes[Walk(nodes, x, h).value].timeMax
    decreases h - g
  {
    hide Walk, Rooted, Skipped;
    WalkTo(nodes, x, g);
    WalkTo(nodes, x, h);
    if g < h {
      PathTimes(nodes, x, g, h - 1);
      var p := Walk(nodes, x, h).value;
      StepBack(nodes, x, p);
      assert nodes[nodes[p].prev.value].timeMax <= nodes[p].timeMax;
    }
  }

  /** Block i of the chain comes too early or lies too low. */
  predicate TooEarly(nodes: seq<Block>, chain: seq<Option<nat>>, time: int, height: int, i: nat)
    requires i < |chain|
  {
    i < height || (chain[i].Some? && chain[i].value < |nodes| && nodes[chain[i].value].timeMax < time)
  }

  lemma EarlyBelow(nodes: seq<Block>, chain: seq<Option<nat>>, time: int, height: int, i: nat, j: nat)
    requires TreeOk(nodes) && ChainOk(nodes, chain) && i <= j < |chain| && TooEarly(nodes, chain, time, height, j)
    ensures TooEarly(nodes, chain, time, height, i)
  {
    var x :| IsPath(nodes, chain, x);
    PathTimes(nodes, x, i, j);
    hide Walk, TreeOk;
  }

  /** FindEarliestAtLeast: binary search for the first block of the chain at or above the height
      whose path has reached the time. */
  method FindEarliestAtLeast(nodes: seq<Block>, chain: seq<Option<nat>>, time: int, height: int) returns (r: nat)
    requires TreeOk(nodes) && ChainOk(nodes, chain)
    ensures r <= |chain| && (r < |chain| ==> !TooEarly(nodes, chain, time, height, r))
    ensures forall i: nat | i < r :: TooEarly(nodes, chain, time, height, i)
  {
    hide TreeOk, ChainOk, TooEarly;
    r := 0;
    var count := |chain|;
    while count > 0
      invariant 0 <= count && r + count <= |chain|
      invariant forall i: nat | i < r :: TooEarly(nodes, chain, time, height, i)
      invariant r + count < |chain| ==> !TooEarly(nodes, chain, time, height, r + count)
    {
      var step := count / 2;
      if TooEarly(nodes, chain, time, height, r + step) {
        forall i: nat | i <= r + step
          ensures TooEarly(nodes, chain, time, height, i)
        {
          EarlyBelow(nodes, chain, time, height, i, r + step);
        }
        r, count := r + step + 1, count - step - 1;
      } else {
        count := step;
      }
    }
  }

  lemma StepBack(nodes: seq<Block>, x: nat, p: nat)
    requires TreeOk(nodes) && x < |nodes| && p < |nodes| && nodes[p].height <= nodes[x].height
             && Walk(nodes, x, nodes[p].height) == Some(p)
    ensures nodes[p].prev.Some? <==> nodes[p].height > 0
    ensures nodes[p].prev.Some? ==> nodes[p].prev.value < |nodes|
                                    && nodes[nodes[p].prev.value].height == nodes[p].height - 1
    ensures nodes[p].prev.Some? ==> Walk(nodes, x, nodes[p].height - 1) == nodes[p].prev
  {
    Pointers(nodes, p);
    WalkTo(nodes, x, nodes[p].height);
    if nodes[p].prev.Some? {
      WalkTop(nodes, nodes[p].prev.value);
    }
  }

  /** The state of the loop of SetTip: pindex is the block to put at height k - 1. */
  ghost predicate TipState(nodes: seq<Block>, before: seq<Option<nat>>, chain: seq<Option<nat>>, x: nat, k: nat,
                           pindex: Option<nat>) {
    && Joined(nodes, before, chain, x, k)
    && match pindex
       case None => k == 0
       case Some(p) => p < |nodes| && nodes[p].height + 1 == k && Walk(nodes, x, nodes[p].height) == Some(p)
  }

  lemma TipStart(nodes: seq<Block>, before: seq<Option<nat>>, x: nat)
    requires x < |nodes| && |before| == nodes[x].height + 1
    ensures TipState(nodes, before, before, x, |before|, Some(x))
  {
    WalkTop(nodes, x);
    hide Walk;
  }

  lemma TipStep(nodes: seq<Block>, before: seq<Option<nat>>, chain: seq<Option<nat>>, x: nat, k: nat, p: nat)
    requires TreeOk(nodes) && TipState(nodes, before, chain, x, k, Some(p))
    ensures nodes[p].height < |chain| && TipState(nodes, before, chain[nodes[p].height := Some(p)], x,
                                                  nodes[p].height, nodes[p].prev)
  {
    hide TreeOk, Walk;
    StepBack(nodes, x, p);
  }

  lemma SetTipEnd(nodes: seq<Block>, chain0: seq<Option<nat>>, before: seq<Option<nat>>, chain: seq<Option<nat>>,
                  x: nat, k: nat, p: Option<nat>)
    requires TreeOk(nodes) && ChainOk(nodes, chain0) && x < |nodes| && before == Resized(chain0, nodes[x].height + 1)
    requires TipState(nodes, before, chain, x, k, p) && (p.Some? ==> chain[nodes[p.value].height] == p)
    ensures IsPath(nodes, chain, x)
  {
    hide TreeOk, Walk, ChainOk, Resized;
    forall h: nat | h < |chain|
      ensures chain[h] == Walk(nodes, x, h)
    {
      if h < k {
        OldPath(nodes, chain0, x, k - 1, h);
      }
    }
  }

  lemma PathOk(nodes: seq<Block>, chain: seq<Option<nat>>, x: nat)
    requires IsPath(nodes, chain, x)
    ensures ChainOk(nodes, chain)
  {
  }

  // ---------------------------------------------------------------- forks

  /** On the path of x, everything above p is off the chain; p none means everything is. */
  ghost predicate ForkBelow(nodes: seq<Block>, chain: seq<Option<nat>>, x: nat, p: Option<nat>) {
    match p
    case None => forall h: nat | h < |chain| && Walk(nodes, x, h).Some? :: chain[h] != Walk(nodes, x, h)
    case Some(q) =>
      && q < |nodes| && Walk(nodes, x, nodes[q].height) == p && nodes[q].height < |chain|
      && (forall h: nat | nodes[q].height < h < |chain| && Walk(nodes, x, h).Some? :: chain[h] != Walk(nodes, x, h))
  }

  lemma ForkStart(nodes: seq<Block>, chain: seq<Option<nat>>, x: nat)
    requires TreeOk(nodes) && x < |nodes|
    ensures nodes[x].height <= |chain| - 1 ==> ForkBelow(nodes, chain, x, Some(x))
    ensures nodes[x].height > |chain| - 1 ==> ForkBelow(nodes, chain, x, if chain == [] then None
                                                        else Walk(nodes, x, |chain| - 1))
  {
    forall h: nat
      ensures Walk(nodes, x, h).Some? <==> h <= nodes[x].height
    {
      WalkSome(nodes, x, h);
    }
    WalkTop(nodes, x);
    if nodes[x].height > |chain| - 1 && chain != [] {
      WalkTo(nodes, x, |chain| - 1);
    }
  }

  lemma PathHeight(nodes: seq<Block>, x: nat, h: nat)
    requires TreeOk(nodes) && x < |nodes| && Walk(nodes, x, h).Some?
    ensures h <= nodes[x].height
  {
    WalkSome(nodes, x, h);
  }

  lemma ForkStep(nodes: seq<Block>, chain: seq<Option<nat>>, x: nat, q: nat)
    requires TreeOk(nodes) && x < |nodes| && ForkBelow(nodes, chain, x, Some(q)) && chain[nodes[q].height] != Some(q)
    ensures ForkBelow(nodes, chain, x, nodes[q].prev)
  {
    hide Walk, TreeOk;
    var k := nodes[q].height;
    PathHeight(nodes, x, k);
    StepBack(nodes, x, q);
    forall h: nat | k <= h < |chain| && Walk(nodes, x, h).Some?
      ensures chain[h] != Walk(nodes, x, h)
    {
      assert h == k || k < h;
    }
  }

  lemma ForkEnd(nodes: seq<Block>, chain: seq<Option<nat>>, x: nat, tip: nat, r: Option<nat>)
    requires TreeOk(nodes) && x < |nodes| && IsPath(nodes, chain, tip) && ForkBelow(nodes, chain, x, r)
    requires r.Some? ==> chain[nodes[r.value].height] == r
    ensures IsLastCommon(nodes, x, tip, r)
  {
    forall h: nat
      ensures Walk(nodes, tip, h).Some? <==> h < |chain|
    {
      WalkSome(nodes, tip, h);
    }
    hide Walk, TreeOk;
  }
}
