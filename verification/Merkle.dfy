/** Partial Merkle trees (BIP 37, section "Partial Merkle branch format"): the data of a traversal
    as functions, building and extracting as inverses, and extraction as a proof. The combining
    hash is an arbitrary function. */
module Merkle {
  type HashFn = (nat, nat) -> nat

  function Pow2(h: nat): (p: nat)
    ensures p > 0
  {
    if h == 0 then 1 else 2 * Pow2(h - 1)
  }

  /** CalcTreeWidth. */
  function TreeWidth(n: nat, h: nat): nat {
    (n + Pow2(h) - 1) / Pow2(h)
  }

  lemma DivLess(a: nat, p: nat, q: nat)
    requires p > 0
    ensures q < (a + p - 1) / p <==> q * p < a
  {
    var w, r := (a + p - 1) / p, (a + p - 1) % p;
    assert a + p - 1 == w * p + r && 0 <= r < p;
    if q < w {
      MulOrder(q + 1, w, p);
      assert (q + 1) * p == q * p + p;
    } else {
      MulOrder(w, q, p);
    }
  }

  lemma MulOrder(a: nat, b: nat, p: nat)
    requires a <= b
    ensures a * p <= b * p
  {
  }

  /** A node exists when its first transaction does. */
  lemma NodeExists(n: nat, h: nat, pos: nat)
    ensures pos < TreeWidth(n, h) <==> pos * Pow2(h) < n
  {
    DivLess(n, Pow2(h), pos);
  }

  /** The first child of a node exists; the ranges of the children make up that of the node. */
  lemma Children(n: nat, h: nat, pos: nat)
    requires h > 0 && pos < TreeWidth(n, h)
    ensures 2 * pos < TreeWidth(n, h - 1) && Pow2(h) == 2 * Pow2(h - 1)
    ensures pos * Pow2(h) == (2 * pos) * Pow2(h - 1)
    ensures (2 * pos + 1) * Pow2(h - 1) == (2 * pos) * Pow2(h - 1) + Pow2(h - 1)
    ensures (pos + 1) * Pow2(h) == (2 * pos) * Pow2(h - 1) + 2 * Pow2(h - 1)
  {
    var p := Pow2(h - 1);
    assert pos * (2 * p) == (2 * pos) * p;
    assert (pos + 1) * (2 * p) == (2 * pos) * p + 2 * p;
    NodeExists(n, h, pos);
    NodeExists(n, h - 1, 2 * pos);
  }

  // ---------------------------------------------------------------- the tree

  /** CalcHash. */
  function CalcHash(hash: HashFn, txids: seq<nat>, h: nat, pos: nat): nat
    requires pos < TreeWidth(|txids|, h)
    decreases h
  {
    if h == 0 then
      NodeExists(|txids|, 0, pos);
      txids[pos]
    else
      Children(|txids|, h, pos);
      var left := CalcHash(hash, txids, h - 1, pos * 2);
      var right := if pos * 2 + 1 < TreeWidth(|txids|, h - 1) then CalcHash(hash, txids, h - 1, pos * 2 + 1) else left;
      hash(left, right)
  }

  /** Whether some transaction below a node is matched. */
  ghost predicate AnyMatch(match_: seq<bool>, lo: nat, hi: nat) {
    exists p :: lo <= p < hi && p < |match_| && match_[p]
  }

  ghost predicate Below(match_: seq<bool>, h: nat, pos: nat) {
    AnyMatch(match_, pos * Pow2(h), (pos + 1) * Pow2(h))
  }

  /** The bits that building appends for a node. */
  ghost function BuildBits(match_: seq<bool>, h: nat, pos: nat): seq<bool>
    decreases h
  {
    if h == 0 || !Below(match_, h, pos) then [Below(match_, h, pos)]
    else [true] + BuildBits(match_, h - 1, pos * 2)
                + if pos * 2 + 1 < TreeWidth(|match_|, h - 1) then BuildBits(match_, h - 1, pos * 2 + 1) else []
  }

  /** The hashes that building appends for a node. */
  ghost function BuildHashes(hash: HashFn, txids: seq<nat>, match_: seq<bool>, h: nat, pos: nat): seq<nat>
    requires |match_| == |txids| && pos < TreeWidth(|txids|, h)
    decreases h
  {
    if h == 0 || !Below(match_, h, pos) then [CalcHash(hash, txids, h, pos)]
    else
      Children(|txids|, h, pos);
      BuildHashes(hash, txids, match_, h - 1, pos * 2)
      + if pos * 2 + 1 < TreeWidth(|txids|, h - 1) then BuildHashes(hash, txids, match_, h - 1, pos * 2 + 1) else []
  }

  /** The matched transactions in a range, with their indexes, in ascending order. */
  ghost function Matched(txids: seq<nat>, match_: seq<bool>, lo: nat, hi: nat): seq<(nat, nat)>
    requires |match_| == |txids|
    decreases hi
  {
    if hi <= lo then [] else
      Matched(txids, match_, lo, hi - 1) + if hi - 1 < |txids| && match_[hi - 1] then [(txids[hi - 1], hi - 1)] else []
  }

  // ---------------------------------------------------------------- extraction

  /** What a traversal returns and leaves behind: the hash of the node, the counters, the matched
      transactions with their indexes, and whether it found the data bad. */
  datatype Extraction = Extraction(hash: nat, bitsUsed: nat, hashUsed: nat, matches: seq<(nat, nat)>, bad: bool)

  /** TraverseAndExtract. */
  function Extract(hash: HashFn, bits: seq<bool>, hashes: seq<nat>, n: nat, h: nat, pos: nat, b: nat,
                   u: nat): Extraction
    decreases h
  {
    if b >= |bits| then Extraction(0, b, u, [], true)
    else if h == 0 || !bits[b] then
      if u >= |hashes| then Extraction(0, b + 1, u, [], true)
      else Extraction(hashes[u], b + 1, u + 1, if h == 0 && bits[b] then [(hashes[u], pos)] else [], false)
    else
      var left := Extract(hash, bits, hashes, n, h - 1, pos * 2, b + 1, u);
      if pos * 2 + 1 < TreeWidth(n, h - 1) then
        var right := Extract(hash, bits, hashes, n, h - 1, pos * 2 + 1, left.bitsUsed, left.hashUsed);
        Extraction(hash(left.hash, right.hash), right.bitsUsed, right.hashUsed, left.matches + right.matches,
                   left.bad || right.bad || right.hash == left.hash)
      else left.(hash := hash(left.hash, left.hash))
  }

  // ---------------------------------------------------------------- round trip

  /** No node that has a match below it has two children of equal hash: these are the pairs that
      extraction compares. */
  ghost predicate PairsDiffer(hash: HashFn, txids: seq<nat>, match_: seq<bool>, h: nat, pos: nat)
    requires |match_| == |txids| && pos < TreeWidth(|txids|, h)
    decreases h
  {
    h == 0 || !Below(match_, h, pos)
    || (Children(|txids|, h, pos);
        && PairsDiffer(hash, txids, match_, h - 1, pos * 2)
        && (pos * 2 + 1 < TreeWidth(|txids|, h - 1) ==>
              && PairsDiffer(hash, txids, match_, h - 1, pos * 2 + 1)
              && CalcHash(hash, txids, h - 1, pos * 2) != CalcHash(hash, txids, h - 1, pos * 2 + 1)))
  }

  /** hashes continues with t at position u. */
  ghost predicate ContinuesWith<T(!new)>(s: seq<T>, u: nat, t: seq<T>) {
    u + |t| <= |s| && s[u..u + |t|] == t
  }

  lemma ContinuesSplit<T(!new)>(s: seq<T>, u: nat, a: seq<T>, b: seq<T>)
    requires ContinuesWith(s, u, a + b)
    ensures ContinuesWith(s, u, a) && ContinuesWith(s, u + |a|, b)
  {
    var t := s[u..u + |a + b|];
    assert s[u..u + |a|] == t[..|a|] == a;
    assert s[u + |a|..u + |a| + |b|] == t[|a|..] == b;
  }

  lemma {:induction false} MatchedSplit(txids: seq<nat>, match_: seq<bool>, lo: nat, mid: nat, hi: nat)
    requires |match_| == |txids| && lo <= mid <= hi
    ensures Matched(txids, match_, lo, hi) == Matched(txids, match_, lo, mid) + Matched(txids, match_, mid, hi)
    decreases hi
  {
    if mid < hi {
      MatchedSplit(txids, match_, lo, mid, hi - 1);
    }
  }

  lemma {:induction false} MatchedNone(txids: seq<nat>, match_: seq<bool>, lo: nat, hi: nat)
    requires |match_| == |txids| && (!AnyMatch(match_, lo, hi) || |txids| <= lo)
    ensures Matched(txids, match_, lo, hi) == []
    decreases hi
  {
    if lo < hi {
      assert !AnyMatch(match_, lo, hi) ==> !AnyMatch(match_, lo, hi - 1);
      MatchedNone(txids, match_, lo, hi - 1);
    }
  }

  lemma MatchedOne(txids: seq<nat>, match_: seq<bool>, p: nat)
    requires |match_| == |txids| && p < |txids|
    ensures Matched(txids, match_, p, p + 1) == (if match_[p] then [(txids[p], p)] else [])
    ensures Below(match_, 0, p) <==> match_[p]
  {
    assert Matched(txids, match_, p, p) == [];
  }

  ghost predicate Extracted(hash: HashFn, txids: seq<nat>, match_: seq<bool>, h: nat, pos: nat, b: nat, u: nat,
                            x: Extraction)
    requires |match_| == |txids| && pos < TreeWidth(|txids|, h)
  {
    && x.bad == !PairsDiffer(hash, txids, match_, h, pos) && x.hash == CalcHash(hash, txids, h, pos)
    && x.bitsUsed == b + |BuildBits(match_, h, pos)| && x.hashUsed == u + |BuildHashes(hash, txids, match_, h, pos)|
    && x.matches == MatchedBelow(txids, match_, h, pos)
  }

  /** The matched transactions below a node. */
  ghost function MatchedBelow(txids: seq<nat>, match_: seq<bool>, h: nat, pos: nat): seq<(nat, nat)>
    requires |match_| == |txids|
  {
    Matched(txids, match_, pos * Pow2(h), (pos + 1) * Pow2(h))
  }

  /** The matches below a node without matches, or at a leaf. */
  lemma LeafMatches(txids: seq<nat>, match_: seq<bool>, h: nat, pos: nat)
    requires |match_| == |txids| && pos < TreeWidth(|txids|, h) && (h == 0 || !Below(match_, h, pos))
    ensures h == 0 ==> pos < |txids|
    ensures MatchedBelow(txids, match_, h, pos) == if h == 0 && Below(match_, h, pos) then [(txids[pos], pos)] else []
  {
    NodeExists(|txids|, h, pos);
    if h == 0 {
      MatchedOne(txids, match_, pos);
    } else {
      MatchedNone(txids, match_, pos * Pow2(h), (pos + 1) * Pow2(h));
    }
  }

  /** The matches below an inner node are those below its children. */
  lemma ChildMatches(txids: seq<nat>, match_: seq<bool>, h: nat, pos: nat)
    requires |match_| == |txids| && h > 0 && pos < TreeWidth(|txids|, h)
    ensures MatchedBelow(txids, match_, h, pos) ==
            MatchedBelow(txids, match_, h - 1, pos * 2)
            + if pos * 2 + 1 < TreeWidth(|txids|, h - 1) then MatchedBelow(txids, match_, h - 1, pos * 2 + 1) else []
  {
    var n, p := |txids|, Pow2(h - 1);
    Children(n, h, pos);
    assert (pos * 2 + 2) * p == (2 * pos) * p + 2 * p;
    var lo, mid, hi := pos * Pow2(h), (pos * 2 + 1) * p, (pos + 1) * Pow2(h);
    MatchedSplit(txids, match_, lo, mid, hi);
    NodeExists(n, h - 1, pos * 2 + 1);
    if pos * 2 + 1 >= TreeWidth(n, h - 1) {
      MatchedNone(txids, match_, mid, hi);
    }
  }

  lemma PairsNode(hash: HashFn, txids: seq<nat>, match_: seq<bool>, h: nat, pos: nat)
    requires |match_| == |txids| && pos < TreeWidth(|txids|, h) && h > 0 && Below(match_, h, pos)
    ensures 2 * pos < TreeWidth(|txids|, h - 1)
    ensures PairsDiffer(hash, txids, match_, h, pos)
       <==> && PairsDiffer(hash, txids, match_, h - 1, pos * 2)
            && (pos * 2 + 1 < TreeWidth(|txids|, h - 1) ==>
                  && PairsDiffer(hash, txids, match_, h - 1, pos * 2 + 1)
                  && CalcHash(hash, txids, h - 1, pos * 2) != CalcHash(hash, txids, h - 1, pos * 2 + 1))
  {
    Children(|txids|, h, pos);
  }

  /** What extraction does at an inner node. */
  lemma ExtractNode(hash: HashFn, bits: seq<bool>, hashes: seq<nat>, n: nat, h: nat, pos: nat, b: nat, u: nat)
    requires h > 0 && b < |bits| && bits[b]
    ensures var left := Extract(hash, bits, hashes, n, h - 1, pos * 2, b + 1, u);
            var right := Extract(hash, bits, hashes, n, h - 1, pos * 2 + 1, left.bitsUsed, left.hashUsed);
            Extract(hash, bits, hashes, n, h, pos, b, u) ==
            if pos * 2 + 1 < TreeWidth(n, h - 1) then
              Extraction(hash(left.hash, right.hash), right.bitsUsed, right.hashUsed, left.matches + right.matches,
                         left.bad || right.bad || right.hash == left.hash)
            else left.(hash := hash(left.hash, left.hash))
  {
  }

  /** The sequences that building appends at an inner node. */
  lemma BuildNode(hash: HashFn, txids: seq<nat>, match_: seq<bool>, h: nat, pos: nat)
    requires |match_| == |txids| && pos < TreeWidth(|txids|, h) && h > 0 && Below(match_, h, pos)
    ensures 2 * pos < TreeWidth(|txids|, h - 1)
    ensures var both := pos * 2 + 1 < TreeWidth(|txids|, h - 1);
            && BuildBits(match_, h, pos) == [true] + (BuildBits(match_, h - 1, pos * 2) + if both
                                                      then BuildBits(match_, h - 1, pos * 2 + 1) else [])
            && BuildHashes(hash, txids, match_, h, pos) ==
               BuildHashes(hash, txids, match_, h - 1, pos * 2) + (if both
                   then BuildHashes(hash, txids, match_, h - 1, pos * 2 + 1) else [])
            && CalcHash(hash, txids, h, pos) ==
               hash(CalcHash(hash, txids, h - 1, pos * 2), CalcHash(hash, txids, h - 1, if both then pos * 2 + 1
                   else pos * 2))
  {
    Children(|txids|, h, pos);
    hide Below;
  }

  lemma ExtractLeaf(hash: HashFn, txids: seq<nat>, match_: seq<bool>, h: nat, pos: nat, bits: seq<bool>,
                    hashes: seq<nat>, b: nat, u: nat)
    requires |match_| == |txids| && pos < TreeWidth(|txids|, h) && (h == 0 || !Below(match_, h, pos))
    requires ContinuesWith(bits, b, BuildBits(match_, h, pos))
    requires ContinuesWith(hashes, u, BuildHashes(hash, txids, match_, h, pos))
    ensures Extracted(hash, txids, match_, h, pos, b, u, Extract(hash, bits, hashes, |txids|, h, pos, b, u))
  {
    assert BuildBits(match_, h, pos) == [Below(match_, h, pos)];
    assert BuildHashes(hash, txids, match_, h, pos) == [CalcHash(hash, txids, h, pos)];
    assert bits[b] == bits[b..b + 1][0];
    assert hashes[u] == hashes[u..u + 1][0];
    LeafMatches(txids, match_, h, pos);
    hide Below, MatchedBelow, TreeWidth;
  }

  /** The results of the children make up the result of an inner node. */
  lemma ExtractJoin(hash: HashFn, txids: seq<nat>, match_: seq<bool>, h: nat, pos: nat, bits: seq<bool>,
                    hashes: seq<nat>, b: nat, u: nat,
                    left: Extraction, right: Extraction)
    requires |match_| == |txids| && pos < TreeWidth(|txids|, h) && h > 0 && Below(match_, h, pos)
    requires b < |bits| && bits[b] && 2 * pos < TreeWidth(|txids|, h - 1)
    requires left == Extract(hash, bits, hashes, |txids|, h - 1, pos * 2, b + 1, u)
    requires right == Extract(hash, bits, hashes, |txids|, h - 1, pos * 2 + 1, left.bitsUsed, left.hashUsed)
    requires Extracted(hash, txids, match_, h - 1, pos * 2, b + 1, u, left)
    requires pos * 2 + 1 < TreeWidth(|txids|, h - 1) ==>
               Extracted(hash, txids, match_, h - 1, pos * 2 + 1, left.bitsUsed, left.hashUsed, right)
    ensures Extracted(hash, txids, match_, h, pos, b, u, Extract(hash, bits, hashes, |txids|, h, pos, b, u))
  {
    hide Below, TreeWidth, MatchedBelow, PairsDiffer, BuildBits, BuildHashes, CalcHash, Extract;
    PairsNode(hash, txids, match_, h, pos);
    BuildNode(hash, txids, match_, h, pos);
    ExtractNode(hash, bits, hashes, |txids|, h, pos, b, u);
    ChildMatches(txids, match_, h, pos);
  }

  /** Extraction undoes building, node by node; it finds the data bad exactly when a pair it compares
      is of equal hashes. */
  lemma {:induction false} ExtractBuilt(hash: HashFn, txids: seq<nat>, match_: seq<bool>, h: nat, pos: nat,
                                        bits: seq<bool>, hashes: seq<nat>, b: nat, u: nat)
    requires |match_| == |txids| && pos < TreeWidth(|txids|, h)
    requires ContinuesWith(bits, b, BuildBits(match_, h, pos))
    requires ContinuesWith(hashes, u, BuildHashes(hash, txids, match_, h, pos))
    ensures Extracted(hash, txids, match_, h, pos, b, u, Extract(hash, bits, hashes, |txids|, h, pos, b, u))
    decreases h
  {
    hide Below, TreeWidth, MatchedBelow, PairsDiffer, ContinuesWith, BuildBits, BuildHashes, CalcHash, Extract;
    if h == 0 || !Below(match_, h, pos) {
      ExtractLeaf(hash, txids, match_, h, pos, bits, hashes, b, u);
    } else {
      BuildNode(hash, txids, match_, h, pos);
      var lb, lh := BuildBits(match_, h - 1, pos * 2), BuildHashes(hash, txids, match_, h - 1, pos * 2);
      var both := pos * 2 + 1 < TreeWidth(|txids|, h - 1);
      var rb := if both then BuildBits(match_, h - 1, pos * 2 + 1) else [];
      var rh := if both then BuildHashes(hash, txids, match_, h - 1, pos * 2 + 1) else [];
      ContinuesSplit(bits, b, [true], lb + rb);
      FirstBit(bits, b);
      ContinuesSplit(bits, b + 1, lb, rb);
      ContinuesSplit(hashes, u, lh, rh);
      var left := Extract(hash, bits, hashes, |txids|, h - 1, pos * 2, b + 1, u);
      ExtractBuilt(hash, txids, match_, h - 1, pos * 2, bits, hashes, b + 1, u);
      if both {
        ExtractBuilt(hash, txids, match_, h - 1, pos * 2 + 1, bits, hashes, left.bitsUsed, left.hashUsed);
      }
      var right := Extract(hash, bits, hashes, |txids|, h - 1, pos * 2 + 1, left.bitsUsed, left.hashUsed);
      ExtractJoin(hash, txids, match_, h, pos, bits, hashes, b, u, left, right);
    }
  }

  lemma FirstBit(bits: seq<bool>, b: nat)
    requires ContinuesWith(bits, b, [true])
    ensures b < |bits| && bits[b]
  {
    assert bits[b] == bits[b..b + 1][0];
  }

  // ---------------------------------------------------------------- sizes

  function Min(a: nat, b: nat): nat {
    if a < b then a else b
  }

  /** The number of transactions below a node. */
  ghost function Leaves(n: nat, h: nat, pos: nat): nat {
    if pos * Pow2(h) < n then Min(n, (pos + 1) * Pow2(h)) - pos * Pow2(h) else 0
  }

  lemma ChildLeaves(n: nat, h: nat, pos: nat)
    requires h > 0 && pos < TreeWidth(n, h)
    ensures 2 * pos < TreeWidth(n, h - 1) && Leaves(n, h - 1, pos * 2) >= 1
    ensures Leaves(n, h, pos) == Leaves(n, h - 1, pos * 2) + if pos * 2 + 1 < TreeWidth(n, h - 1)
            then Leaves(n, h - 1, pos * 2 + 1) else 0
  {
    var p := Pow2(h - 1);
    Children(n, h, pos);
    assert (pos * 2 + 1 + 1) * p == (2 * pos) * p + 2 * p;
    NodeExists(n, h, pos);
    NodeExists(n, h - 1, pos * 2);
    NodeExists(n, h - 1, pos * 2 + 1);
  }

  /** The inner nodes that a traversal passes which have only one child. */
  ghost function Singles(match_: seq<bool>, h: nat, pos: nat): nat
    decreases h
  {
    if h == 0 || !Below(match_, h, pos) then 0
    else if pos * 2 + 1 < TreeWidth(|match_|, h - 1)
        then Singles(match_, h - 1, pos * 2) + Singles(match_, h - 1, pos * 2 + 1)
    else 1 + Singles(match_, h - 1, pos * 2)
  }

  lemma LeafSizes(hash: HashFn, txids: seq<nat>, match_: seq<bool>, h: nat, pos: nat)
    requires |match_| == |txids| && pos < TreeWidth(|txids|, h) && (h == 0 || !Below(match_, h, pos))
    ensures |BuildHashes(hash, txids, match_, h, pos)| == 1 && |BuildBits(match_, h, pos)| == 1
            && Singles(match_, h, pos) == 0
    ensures Leaves(|txids|, h, pos) >= 1
  {
    NodeExists(|txids|, h, pos);
    assert (pos + 1) * Pow2(h) == pos * Pow2(h) + Pow2(h);
  }

  lemma SinglesNode(match_: seq<bool>, h: nat, pos: nat)
    requires h > 0 && Below(match_, h, pos)
    ensures Singles(match_, h, pos) ==
            Singles(match_, h - 1, pos * 2) + if pos * 2 + 1 < TreeWidth(|match_|, h - 1)
                then Singles(match_, h - 1, pos * 2 + 1) else 1
  {
    hide Below, TreeWidth;
  }

  /** At most one hash for every transaction, and the exact number of bits: one less than twice
      the number of hashes, and one more for every node with a single child on the way. */
  lemma {:induction false} BuildSizes(hash: HashFn, txids: seq<nat>, match_: seq<bool>, h: nat, pos: nat)
    requires |match_| == |txids| && pos < TreeWidth(|txids|, h)
    ensures 1 <= |BuildHashes(hash, txids, match_, h, pos)| <= Leaves(|txids|, h, pos)
    ensures |BuildBits(match_, h, pos)| == 2 * |BuildHashes(hash, txids, match_, h, pos)| - 1 + Singles(match_, h, pos)
    decreases h
  {
    hide Below, TreeWidth, Leaves, CalcHash, BuildBits, BuildHashes, Singles;
    var n := |txids|;
    if h == 0 || !Below(match_, h, pos) {
      LeafSizes(hash, txids, match_, h, pos);
    } else {
      BuildNode(hash, txids, match_, h, pos);
      ChildLeaves(n, h, pos);
      SinglesNode(match_, h, pos);
      BuildSizes(hash, txids, match_, h - 1, pos * 2);
      if pos * 2 + 1 < TreeWidth(n, h - 1) {
        BuildSizes(hash, txids, match_, h - 1, pos * 2 + 1);
      }
    }
  }

  /** The bound of 2N - 1 bits for N hashes that the format gives holds exactly when no node with a
      single child has a match below it. */
  lemma BitBound(hash: HashFn, txids: seq<nat>, match_: seq<bool>, h: nat, pos: nat)
    requires |match_| == |txids| && pos < TreeWidth(|txids|, h)
    ensures |BuildBits(match_, h, pos)| <= 2 * |BuildHashes(hash, txids, match_, h, pos)| - 1
            <==> Singles(match_, h, pos) == 0
  {
    BuildSizes(hash, txids, match_, h, pos);
  }

  lemma BelowHas(match_: seq<bool>, h: nat, pos: nat, p: nat)
    requires pos * Pow2(h) <= p < (pos + 1) * Pow2(h) && p < |match_| && match_[p]
    ensures Below(match_, h, pos)
  {
  }

  lemma SmallPowers()
    ensures Pow2(0) == 1 && Pow2(1) == 2 && Pow2(2) == 4
    ensures TreeWidth(3, 0) == 3 && TreeWidth(3, 1) == 2 && TreeWidth(3, 2) == 1
  {
    assert Pow2(1) == 2 * Pow2(0);
    assert Pow2(2) == 2 * Pow2(1);
  }

  /** Of three transactions with the last one matched, the node above the last has one child: the
      bound is exceeded. */
  lemma BitBoundExceeded(hash: HashFn)
    ensures 0 < TreeWidth(3, 2) && |BuildBits([false, false, true], 2, 0)| > 2 * |BuildHashes(hash, [1, 2, 3],
            [false, false, true], 2, 0)| - 1
  {
    var m := [false, false, true];
    SmallPowers();
    BelowHas(m, 2, 0, 2);
    BelowHas(m, 1, 1, 2);
    hide Below, TreeWidth, Pow2, BuildBits, BuildHashes, Singles;
    SinglesNode(m, 2, 0);
    SinglesNode(m, 1, 1);
    BitBound(hash, [1, 2, 3], m, 2, 0);
  }

  // ---------------------------------------------------------------- soundness

  /** At this node the extraction combines other hashes than the tree does, yet to the same hash. */
  ghost predicate CollisionAt(hash: HashFn, txids: seq<nat>, bits: seq<bool>, hashes: seq<nat>, h: nat, pos: nat,
                              b: nat, u: nat)
    requires h > 0 && pos < TreeWidth(|txids|, h)
  {
    Children(|txids|, h, pos);
    var both := pos * 2 + 1 < TreeWidth(|txids|, h - 1);
    var left := Extract(hash, bits, hashes, |txids|, h - 1, pos * 2, b + 1, u);
    var right := if both then Extract(hash, bits, hashes, |txids|, h - 1, pos * 2 + 1, left.bitsUsed, left.hashUsed)
        else left;
    var tl := CalcHash(hash, txids, h - 1, pos * 2);
    var tr := if both then CalcHash(hash, txids, h - 1, pos * 2 + 1) else tl;
    (left.hash, right.hash) != (tl, tr) && hash(left.hash, right.hash) == hash(tl, tr)
  }

  /** Such a node is among those that the extraction descends through. */
  ghost predicate CollisionBelow(hash: HashFn, txids: seq<nat>, bits: seq<bool>, hashes: seq<nat>, h: nat, pos: nat,
                                 b: nat, u: nat)
    requires pos < TreeWidth(|txids|, h)
    decreases h
  {
    && h > 0 && b < |bits| && bits[b]
    && (Children(|txids|, h, pos);
        var left := Extract(hash, bits, hashes, |txids|, h - 1, pos * 2, b + 1, u);
        || CollisionAt(hash, txids, bits, hashes, h, pos, b, u)
        || CollisionBelow(hash, txids, bits, hashes, h - 1, pos * 2, b + 1, u)
        || (pos * 2 + 1 < TreeWidth(|txids|, h - 1)
            && CollisionBelow(hash, txids, bits, hashes, h - 1, pos * 2 + 1, left.bitsUsed, left.hashUsed)))
  }

  /** Every match is a transaction of the block at its index, in ascending order within a range. */
  ghost predicate Real(txids: seq<nat>, matches: seq<(nat, nat)>, lo: nat, hi: nat) {
    && (forall i | 0 <= i < |matches| :: lo <= matches[i].1 < hi && matches[i].1 < |txids|
                                         && txids[matches[i].1] == matches[i].0)
    && (forall i, j | 0 <= i < j < |matches| :: matches[i].1 < matches[j].1)
  }

  lemma RealJoin(txids: seq<nat>, a: seq<(nat, nat)>, b: seq<(nat, nat)>, lo: nat, mid: nat, hi: nat)
    requires Real(txids, a, lo, mid) && Real(txids, b, mid, hi) && lo <= mid <= hi
    ensures Real(txids, a + b, lo, hi)
  {
  }

  ghost predicate RealBelow(txids: seq<nat>, matches: seq<(nat, nat)>, h: nat, pos: nat) {
    Real(txids, matches, pos * Pow2(h), (pos + 1) * Pow2(h))
  }

  lemma RealChildren(txids: seq<nat>, a: seq<(nat, nat)>, b: seq<(nat, nat)>, h: nat, pos: nat)
    requires h > 0 && pos < TreeWidth(|txids|, h) && RealBelow(txids, a, h - 1, pos * 2)
             && RealBelow(txids, b, h - 1, pos * 2 + 1)
    ensures RealBelow(txids, a + b, h, pos) && RealBelow(txids, a, h, pos)
  {
    var p := Pow2(h - 1);
    Children(|txids|, h, pos);
    assert (pos * 2 + 1 + 1) * p == (2 * pos) * p + 2 * p;
    RealJoin(txids, a, b, pos * Pow2(h), (pos * 2 + 1) * p, (pos + 1) * Pow2(h));
  }

  lemma RealNone(txids: seq<nat>, h: nat, pos: nat)
    ensures RealBelow(txids, [], h, pos)
  {
  }

  lemma RealOne(txids: seq<nat>, pos: nat)
    requires pos < TreeWidth(|txids|, 0)
    ensures pos < |txids| && RealBelow(txids, [(txids[pos], pos)], 0, pos)
  {
    NodeExists(|txids|, 0, pos);
  }

  lemma CalcNode(hash: HashFn, txids: seq<nat>, h: nat, pos: nat)
    requires h > 0 && pos < TreeWidth(|txids|, h)
    ensures 2 * pos < TreeWidth(|txids|, h - 1)
    ensures CalcHash(hash, txids, h, pos) ==
            hash(CalcHash(hash, txids, h - 1, pos * 2), CalcHash(hash, txids, h - 1,
                if pos * 2 + 1 < TreeWidth(|txids|, h - 1) then pos * 2 + 1 else pos * 2))
  {
    Children(|txids|, h, pos);
  }

  lemma CollisionNode(hash: HashFn, txids: seq<nat>, bits: seq<bool>, hashes: seq<nat>, h: nat, pos: nat, b: nat,
                      u: nat)
    requires h > 0 && pos < TreeWidth(|txids|, h) && b < |bits| && bits[b] && pos * 2 < TreeWidth(|txids|, h - 1)
    requires !CollisionBelow(hash, txids, bits, hashes, h, pos, b, u)
    ensures var left := Extract(hash, bits, hashes, |txids|, h - 1, pos * 2, b + 1, u);
            && !CollisionAt(hash, txids, bits, hashes, h, pos, b, u)
            && !CollisionBelow(hash, txids, bits, hashes, h - 1, pos * 2, b + 1, u)
            && (pos * 2 + 1 < TreeWidth(|txids|, h - 1) ==>
                  !CollisionBelow(hash, txids, bits, hashes, h - 1, pos * 2 + 1, left.bitsUsed, left.hashUsed))
  {
    hide CollisionAt;
  }

  /** Without a collision at it, a node that comes out right has children that come out right. */
  lemma NodeRight(hash: HashFn, txids: seq<nat>, bits: seq<bool>, hashes: seq<nat>, h: nat, pos: nat, b: nat, u: nat)
    requires h > 0 && pos < TreeWidth(|txids|, h) && b < |bits| && bits[b] && pos * 2 < TreeWidth(|txids|, h - 1)
    requires !CollisionAt(hash, txids, bits, hashes, h, pos, b, u)
    requires var x := Extract(hash, bits, hashes, |txids|, h, pos, b, u);
             !x.bad && x.hash == CalcHash(hash, txids, h, pos)
    ensures var left := Extract(hash, bits, hashes, |txids|, h - 1, pos * 2, b + 1, u);
            var right := Extract(hash, bits, hashes, |txids|, h - 1, pos * 2 + 1, left.bitsUsed, left.hashUsed);
            && !left.bad && left.hash == CalcHash(hash, txids, h - 1, pos * 2)
            && (pos * 2 + 1 < TreeWidth(|txids|, h - 1) ==> !right.bad
                                                            && right.hash == CalcHash(hash, txids, h - 1, pos * 2 + 1))
  {
    hide TreeWidth, Extract, CalcHash;
    CalcNode(hash, txids, h, pos);
    ExtractNode(hash, bits, hashes, |txids|, h, pos, b, u);
  }

  /** Whatever the data: if the hash of a node comes out right, then every match extracted below
      it is real, or the extraction passes a node where other hashes than the tree's hash alike. */
  lemma {:induction false} ExtractSound(hash: HashFn, txids: seq<nat>, h: nat, pos: nat, bits: seq<bool>,
                                        hashes: seq<nat>, b: nat, u: nat)
    requires pos < TreeWidth(|txids|, h)
    requires var x := Extract(hash, bits, hashes, |txids|, h, pos, b, u);
             !x.bad && x.hash == CalcHash(hash, txids, h, pos)
    ensures || RealBelow(txids, Extract(hash, bits, hashes, |txids|, h, pos, b, u).matches, h, pos)
            || CollisionBelow(hash, txids, bits, hashes, h, pos, b, u)
    decreases h
  {
    var n := |txids|;
    RealNone(txids, h, pos);
    if h == 0 {
      RealOne(txids, pos);
    } else if bits[b] && !CollisionBelow(hash, txids, bits, hashes, h, pos, b, u) {
      hide TreeWidth, RealBelow, Extract, CalcHash, CollisionAt, CollisionBelow;
      CalcNode(hash, txids, h, pos);
      CollisionNode(hash, txids, bits, hashes, h, pos, b, u);
      NodeRight(hash, txids, bits, hashes, h, pos, b, u);
      ExtractNode(hash, bits, hashes, n, h, pos, b, u);
      var left := Extract(hash, bits, hashes, n, h - 1, pos * 2, b + 1, u);
      ExtractSound(hash, txids, h - 1, pos * 2, bits, hashes, b + 1, u);
      if pos * 2 + 1 < TreeWidth(n, h - 1) {
        var right := Extract(hash, bits, hashes, n, h - 1, pos * 2 + 1, left.bitsUsed, left.hashUsed);
        ExtractSound(hash, txids, h - 1, pos * 2 + 1, bits, hashes, left.bitsUsed, left.hashUsed);
        RealChildren(txids, left.matches, right.matches, h, pos);
      } else {
        RealNone(txids, h - 1, pos * 2 + 1);
        RealChildren(txids, left.matches, [], h, pos);
      }
    }
  }
}
