/** How large a serialized partial Merkle tree gets. */
module MerkleSizes {
  import opened Merkle
  import opened MerkleBlock

  // ---------------------------------------------------------------- the number of hashes

  ghost function MatchesBelow(match_: seq<bool>, h: nat, pos: nat): nat
    decreases h
  {
    if h == 0 then (if pos < |match_| && match_[pos] then 1 else 0)
    else MatchesBelow(match_, h - 1, pos * 2) + MatchesBelow(match_, h - 1, pos * 2 + 1)
  }

  lemma {:induction false} SomeBelow(match_: seq<bool>, h: nat, pos: nat)
    ensures Below(match_, h, pos) <==> MatchesBelow(match_, h, pos) > 0
    decreases h
  {
    if h == 0 {
      LeafBelow(match_, pos);
    } else {
      SomeBelow(match_, h - 1, pos * 2);
      SomeBelow(match_, h - 1, pos * 2 + 1);
      SplitBelow(match_, h, pos);
    }
  }

  lemma LeafBelow(match_: seq<bool>, pos: nat)
    ensures Below(match_, 0, pos) <==> pos < |match_| && match_[pos]
  {
  }

  lemma SplitBelow(match_: seq<bool>, h: nat, pos: nat)
    requires h > 0
    ensures Below(match_, h, pos) <==> Below(match_, h - 1, pos * 2) || Below(match_, h - 1, pos * 2 + 1)
  {
    var p := Pow2(h - 1);
    assert pos * Pow2(h) == (pos * 2) * p;
    assert (pos * 2 + 1) * p == (pos * 2) * p + p;
    assert (pos + 1) * Pow2(h) == (pos * 2 + 1 + 1) * p == (pos * 2) * p + 2 * p;
    AnyMatchSplit(match_, pos * Pow2(h), (pos * 2 + 1) * p, (pos + 1) * Pow2(h));
  }

  lemma AnyMatchSplit(match_: seq<bool>, lo: nat, mid: nat, hi: nat)
    requires lo <= mid <= hi
    ensures AnyMatch(match_, lo, hi) <==> AnyMatch(match_, lo, mid) || AnyMatch(match_, mid, hi)
  {
  }

  /** At most one hash, and one more for every level above every match. */
  lemma {:induction false} HashBound(hash: HashFn, txids: seq<nat>, match_: seq<bool>, h: nat, pos: nat)
    requires |match_| == |txids| && pos < TreeWidth(|txids|, h)
    ensures |BuildHashes(hash, txids, match_, h, pos)| <= 1 + MatchesBelow(match_, h, pos) * h
    decreases h
  {
    hide TreeWidth, Below, BuildHashes, CalcHash;
    SomeBelow(match_, h, pos);
    if h == 0 || !Below(match_, h, pos) {
      LeafSizes(hash, txids, match_, h, pos);
    } else {
      BuildNode(hash, txids, match_, h, pos);
      var l, r := MatchesBelow(match_, h - 1, pos * 2), MatchesBelow(match_, h - 1, pos * 2 + 1);
      HashBound(hash, txids, match_, h - 1, pos * 2);
      if pos * 2 + 1 < TreeWidth(|txids|, h - 1) {
        HashBound(hash, txids, match_, h - 1, pos * 2 + 1);
      }
      Distribute(l, r, h);
    }
  }

  lemma Distribute(l: nat, r: nat, h: nat)
    requires h > 0 && l + r > 0
    ensures l * (h - 1) + r * (h - 1) + 1 <= (l + r) * h && 0 <= r * (h - 1)
  {
    assert (l + r) * h == l * (h - 1) + r * (h - 1) + (l + r);
  }

  // ---------------------------------------------------------------- the number of bytes

  /** The length of a compact size. */
  function VarSize(n: nat): nat {
    if n < 253 then 1 else if n <= 0xffff then 3 else if n <= 0xffff_ffff then 5 else 9
  }

  /** Transaction count, hashes with their number, and packed bits with the number of bytes. */
  function SerializedSize(hashes: nat, bits: nat): nat {
    4 + VarSize(hashes) + 32 * hashes + VarSize(CeilDiv8(bits)) + CeilDiv8(bits)
  }

  /** 10 + ceil(32.25 * N). */
  function SizeBound(hashes: nat): nat {
    10 + (129 * hashes + 3) / 4
  }

  /** Below a full node there is no node with a single child. */
  lemma {:induction false} FullSingles(match_: seq<bool>, h: nat, pos: nat)
    requires (pos + 1) * Pow2(h) <= |match_|
    ensures Singles(match_, h, pos) == 0
    decreases h
  {
    if h > 0 && Below(match_, h, pos) {
      var p, n := Pow2(h - 1), |match_|;
      assert (pos + 1) * Pow2(h) == (pos * 2) * p + 2 * p;
      assert (pos * 2 + 1) * p == (pos * 2) * p + p;
      assert (pos * 2 + 1 + 1) * p == (pos * 2) * p + 2 * p;
      NodeExists(n, h - 1, pos * 2 + 1);
      FullSingles(match_, h - 1, pos * 2);
      FullSingles(match_, h - 1, pos * 2 + 1);
      SinglesNode(match_, h, pos);
    }
  }

  /** Where a node has two children, the first is full. So there is at most one node with a single child
      on every level. */
  lemma {:induction false} SinglesBound(match_: seq<bool>, h: nat, pos: nat)
    ensures Singles(match_, h, pos) <= h
    decreases h
  {
    if h > 0 && Below(match_, h, pos) {
      SinglesNode(match_, h, pos);
      SinglesBound(match_, h - 1, pos * 2);
      if pos * 2 + 1 < TreeWidth(|match_|, h - 1) {
        NodeExists(|match_|, h - 1, pos * 2 + 1);
        FullSingles(match_, h - 1, pos * 2);
        SinglesBound(match_, h - 1, pos * 2 + 1);
      }
    }
  }

  lemma {:induction false} HeightBound(n: nat, h: nat, top: nat)
    requires h <= top && TreeWidth(n, top) <= 1
    ensures HeightFrom(n, h) <= top
    decreases top - h
  {
    hide TreeWidth;
    if TreeWidth(n, h) > 1 {
      HeightBound(n, h + 1, top);
      HeightUp(n, h);
    } else {
      HeightHere(n, h);
    }
  }

  lemma HeightUp(n: nat, h: nat)
    requires TreeWidth(n, h) > 1
    ensures HeightFrom(n, h) == HeightFrom(n, h + 1)
  {
  }

  lemma HeightHere(n: nat, h: nat)
    requires TreeWidth(n, h) <= 1
    ensures HeightFrom(n, h) == h
  {
  }

  lemma LimitHeight(n: nat)
    requires n <= MAX_TRANSACTIONS
    ensures HeightFrom(n, 0) <= 15
  {
    Powers1024();
    assert Pow2(12) == 2 * Pow2(11);
    assert Pow2(14) == 4 * Pow2(12);
    assert Pow2(15) == 2 * Pow2(14);
    hide Pow2;
    NodeExists(n, 15, 1);
    HeightBound(n, 0, 15);
  }

  /** What N hashes and S nodes with a single child allow. */
  predicate RoomForSingles(hashes: nat, singles: nat) {
    2 * hashes - 1 + singles <= 2016 || singles <= 1 + 2 * ((4 - hashes % 4) % 4)
  }

  lemma RoomExact(hashes: nat, bits: nat, singles: nat)
    requires 1 <= hashes <= 0xffff && singles <= 17 && bits == 2 * hashes - 1 + singles
    ensures SerializedSize(hashes, bits) <= SizeBound(hashes) <==> RoomForSingles(hashes, singles)
  {
  }

  /** For every block within the limit on transactions and every set of matches: the documented bound
      holds if and only if the packed bits take at most 252 bytes, or the nodes with a single child add
      no more than the rounding of N / 4 leaves over. */
  lemma SizeBoundIff(hash: HashFn, txids: seq<nat>, match_: seq<bool>)
    requires |match_| == |txids| && 0 < |txids| <= MAX_TRANSACTIONS
    ensures var hashes, singles := |RootHashes(hash, txids, match_)|, Singles(match_, HeightFrom(|txids|, 0), 0);
            SerializedSize(hashes, |RootBits(match_)|) <= SizeBound(hashes) <==> RoomForSingles(hashes, singles)
  {
    hide BuildHashes, BuildBits, Singles, TreeWidth, HeightFrom, SerializedSize, SizeBound, RoomForSingles, Leaves;
    var n, h := |txids|, HeightFrom(|txids|, 0);
    HeightRoot(n, 0);
    RootLeaves(n);
    LimitHeight(n);
    SinglesBound(match_, h, 0);
    BuildSizes(hash, txids, match_, h, 0);
    RoomExact(|RootHashes(hash, txids, match_)|, |RootBits(match_)|, Singles(match_, h, 0));
  }

  /** Below any node: it holds for up to 65535 hashes with at most one such node. */
  lemma SizeBoundHolds(hash: HashFn, txids: seq<nat>, match_: seq<bool>, h: nat, pos: nat)
    requires |match_| == |txids| && pos < TreeWidth(|txids|, h)
    requires Singles(match_, h, pos) <= 1 && |BuildHashes(hash, txids, match_, h, pos)| <= 0xffff
    ensures SerializedSize(|BuildHashes(hash, txids, match_, h, pos)|, |BuildBits(match_, h, pos)|)
         <= SizeBound(|BuildHashes(hash, txids, match_, h, pos)|)
  {
    hide BuildHashes, BuildBits, Singles, TreeWidth, SerializedSize, SizeBound;
    BuildSizes(hash, txids, match_, h, pos);
    RoomExact(|BuildHashes(hash, txids, match_, h, pos)|, |BuildBits(match_, h, pos)|, Singles(match_, h, pos));
  }

  // ---------------------------------------------------------------- a block that exceeds it

  ghost predicate AllMatched(match_: seq<bool>) {
    forall i | 0 <= i < |match_| :: match_[i]
  }

  lemma AllBelow(match_: seq<bool>, h: nat, pos: nat)
    requires AllMatched(match_) && pos < TreeWidth(|match_|, h)
    ensures Below(match_, h, pos)
  {
    NodeExists(|match_|, h, pos);
    assert (pos + 1) * Pow2(h) == pos * Pow2(h) + Pow2(h);
    BelowHas(match_, h, pos, pos * Pow2(h));
  }

  /** Above the last transaction, where it is alone, there is one on every level. */
  lemma {:induction false} ChainSingles(match_: seq<bool>, h: nat, pos: nat)
    requires AllMatched(match_) && pos * Pow2(h) + 1 == |match_|
    ensures Singles(match_, h, pos) == h
    decreases h
  {
    if h > 0 {
      var p, n := Pow2(h - 1), |match_|;
      assert pos * Pow2(h) == (pos * 2) * p;
      assert (pos * 2 + 1) * p == (pos * 2) * p + p;
      NodeExists(n, h, pos);
      NodeExists(n, h - 1, pos * 2 + 1);
      AllBelow(match_, h, pos);
      ChainSingles(match_, h - 1, pos * 2);
      SinglesNode(match_, h, pos);
    }
  }

  /** With all transactions matched there is a hash for each. */
  lemma {:induction false} AllHashes(hash: HashFn, txids: seq<nat>, match_: seq<bool>, h: nat, pos: nat)
    requires |match_| == |txids| && AllMatched(match_) && pos < TreeWidth(|txids|, h)
    ensures |BuildHashes(hash, txids, match_, h, pos)| == Leaves(|txids|, h, pos)
    decreases h
  {
    hide Below, TreeWidth, Leaves, CalcHash, BuildHashes;
    if h == 0 {
      LeafSizes(hash, txids, match_, h, pos);
      OneLeaf(|txids|, pos);
    } else {
      AllBelow(match_, h, pos);
      BuildNode(hash, txids, match_, h, pos);
      ChildLeaves(|txids|, h, pos);
      AllHashes(hash, txids, match_, h - 1, pos * 2);
      if pos * 2 + 1 < TreeWidth(|txids|, h - 1) {
        AllHashes(hash, txids, match_, h - 1, pos * 2 + 1);
      }
    }
  }

  lemma OneLeaf(n: nat, pos: nat)
    requires pos < TreeWidth(n, 0)
    ensures Leaves(n, 0, pos) == 1
  {
    NodeExists(n, 0, pos);
  }

  lemma Powers1024()
    ensures Pow2(10) == 1024 && Pow2(11) == 2048
  {
    assert Pow2(4) == 16;
    assert Pow2(8) == 16 * Pow2(4);
    assert Pow2(10) == 4 * Pow2(8);
  }

  /** A block of 1025 transactions, all matched: one byte more than the documented bound. */
  lemma SizeBoundExceeded(hash: HashFn, txids: seq<nat>, match_: seq<bool>, h: nat)
    requires |txids| == |match_| == 1025 && AllMatched(match_) && h == 11
    ensures TreeWidth(|txids|, h) == 1
    ensures var hashes, bits := |BuildHashes(hash, txids, match_, h, 0)|, |BuildBits(match_, h, 0)|;
            SerializedSize(hashes, bits) == SizeBound(hashes) + 1
  {
    hide AllMatched, TreeWidth, Pow2, BuildHashes, BuildBits, SerializedSize, SizeBound, CeilDiv8, VarSize;
    LargeCounts(hash, txids, match_, h);
    LargeSize();
  }

  lemma LargeSize()
    ensures SerializedSize(1025, 2059) == SizeBound(1025) + 1
  {
  }

  lemma LargeCounts(hash: HashFn, txids: seq<nat>, match_: seq<bool>, h: nat)
    requires |txids| == |match_| == 1025 && AllMatched(match_) && h == 11
    ensures TreeWidth(|txids|, h) == 1
    ensures |BuildHashes(hash, txids, match_, h, 0)| == 1025 && |BuildBits(match_, h, 0)| == 2059
  {
    LargeTree(match_);
    hide Pow2, TreeWidth, Singles, BuildHashes, BuildBits, Leaves, Below, AllMatched;
    AllHashes(hash, txids, match_, h, 0);
    BuildSizes(hash, txids, match_, h, 0);
  }

  lemma LargeTree(m: seq<bool>)
    requires |m| == 1025 && AllMatched(m)
    ensures TreeWidth(1025, 11) == 1 && Leaves(1025, 11, 0) == 1025 && Singles(m, 11, 0) == 10
  {
    Powers1024();
    hide Pow2, Below, Singles;
    NodeExists(1025, 11, 0);
    NodeExists(1025, 11, 1);
    NodeExists(1025, 10, 1);
    AllBelow(m, 11, 0);
    FullSingles(m, 10, 0);
    ChainSingles(m, 10, 1);
    SinglesNode(m, 11, 0);
  }
}
