/** CPartialMerkleTree: building, packing of the bits, and ExtractMatches. */
module MerkleBlock {
  import opened Merkle

  const MAX_BLOCK_WEIGHT: nat := 4000000
  const MIN_TRANSACTION_WEIGHT: nat := 240
  const MAX_TRANSACTIONS: nat := MAX_BLOCK_WEIGHT / MIN_TRANSACTION_WEIGHT

  // ---------------------------------------------------------------- packing bits

  function CeilDiv8(n: nat): nat {
    (n + 7) / 8
  }

  /** 1 << k. */
  function Mask(k: nat): bv8
    requires k < 8
  {
    if k == 0 then 1 else if k == 1 then 2 else if k == 2 then 4 else if k == 3 then 8
    else if k == 4 then 16 else if k == 5 then 32 else if k == 6 then 64 else 128
  }

  predicate BitAt(x: bv8, k: nat)
    requires k < 8
  {
    x & Mask(k) != 0
  }

  lemma MaskBits(k: nat, j: nat)
    requires k < 8 && j < 8
    ensures Mask(k) & Mask(j) == if k == j then Mask(j) else 0
    ensures Mask(k) != 0
  {
  }

  lemma OrBit(x: bv8, y: bv8, m: bv8)
    ensures (x | y) & m != 0 <==> x & m != 0 || y & m != 0
  {
    assert (x | y) & m == (x & m) | (y & m);
  }

  /** Setting a bit changes that bit only. */
  lemma SetBit(x: bv8, k: nat, b: bool, j: nat)
    requires k < 8 && j < 8
    ensures BitAt(x | (if b then Mask(k) else 0), j) <==> BitAt(x, j) || (b && j == k)
  {
    MaskBits(k, j);
    OrBit(x, if b then Mask(k) else 0, Mask(j));
  }

  lemma ZeroBit(j: nat)
    requires j < 8
    ensures !BitAt(0, j)
  {
  }

  /** Bit p of packed bits. */
  ghost predicate PackedBit(bytes: seq<bv8>, p: nat) {
    p / 8 < |bytes| && BitAt(bytes[p / 8], p % 8)
  }

  lemma PackedStep(bytes: seq<bv8>, p: nat, b: bool, q: nat)
    requires p / 8 < |bytes| && q / 8 < |bytes|
    ensures PackedBit(bytes[p / 8 := bytes[p / 8] | (if b then Mask(p % 8) else 0)], q)
            <==> PackedBit(bytes, q) || (q == p && b)
  {
    if q / 8 == p / 8 {
      SetBit(bytes[p / 8], p % 8, b, q % 8);
      assert q == 8 * (q / 8) + q % 8 && p == 8 * (p / 8) + p % 8;
    }
  }

  /** BitsToBytes: bit p of the result is bit p of the input, and the padding is zero. */
  method BitsToBytes(bits: seq<bool>) returns (ret: seq<bv8>)
    ensures |ret| == CeilDiv8(|bits|)
    ensures forall p: nat | p < 8 * |ret| :: PackedBit(ret, p) <==> p < |bits| && bits[p]
  {
    ret := seq(CeilDiv8(|bits|), _ => 0);
    forall p: nat | p < 8 * |ret|
      ensures !PackedBit(ret, p)
    {
      ZeroBit(p % 8);
    }
    for p := 0 to |bits|
      invariant |ret| == CeilDiv8(|bits|)
      invariant forall q: nat | q < 8 * |ret| :: PackedBit(ret, q) <==> q < p && bits[q]
    {
      ghost var before := ret;
      ret := ret[p / 8 := ret[p / 8] | (if bits[p] then Mask(p % 8) else 0)];
      forall q: nat | q < 8 * |ret|
        ensures PackedBit(ret, q) <==> PackedBit(before, q) || (q == p && bits[p])
      {
        PackedStep(before, p, bits[p], q);
      }
      hide PackedBit;
    }
  }

  /** BytesToBits. */
  method BytesToBits(bytes: seq<bv8>) returns (ret: seq<bool>)
    ensures |ret| == 8 * |bytes| && forall p: nat | p < |ret| :: ret[p] <==> PackedBit(bytes, p)
  {
    ret := seq(8 * |bytes|, _ => false);
    for p := 0 to |ret|
      invariant |ret| == 8 * |bytes| && forall q: nat | q < p :: ret[q] <==> PackedBit(bytes, q)
    {
      ret := ret[p := bytes[p / 8] & Mask(p % 8) != 0];
    }
  }

  /** The bits with zeros up to a whole number of bytes. */
  ghost function Padded(bits: seq<bool>): seq<bool> {
    bits + seq(8 * CeilDiv8(|bits|) - |bits|, _ => false)
  }

  /** Serializing the bits and reading them back pads them. */
  method SerializeBits(bits: seq<bool>) returns (ret: seq<bool>)
    ensures ret == Padded(bits)
  {
    var bytes := BitsToBytes(bits);
    ret := BytesToBits(bytes);
  }

  // ---------------------------------------------------------------- the whole extraction

  /** The height of the tree: the first level with a single node. */
  ghost function HeightFrom(n: nat, h: nat): nat
    decreases if n > Pow2(h) then n - Pow2(h) else 0
  {
    NodeExists(n, h, 1);
    if TreeWidth(n, h) > 1 then HeightFrom(n, h + 1) else h
  }

  lemma {:induction false} HeightRoot(n: nat, h: nat)
    requires n > 0
    ensures TreeWidth(n, HeightFrom(n, h)) == 1
    decreases if n > Pow2(h) then n - Pow2(h) else 0
  {
    NodeExists(n, h, 1);
    NodeExists(n, h, 0);
    if TreeWidth(n, h) > 1 {
      HeightRoot(n, h + 1);
    }
  }

  method Height(n: nat) returns (h: nat)
    ensures h == HeightFrom(n, 0)
  {
    h := 0;
    while TreeWidth(n, h) > 1
      invariant HeightFrom(n, h) == HeightFrom(n, 0)
      decreases if n > Pow2(h) then n - Pow2(h) else 0
    {
      NodeExists(n, h, 1);
      h := h + 1;
    }
  }

  /** What ExtractMatches returns for data that has not been found bad: the root, or zero on
      failure, and the matches. */
  ghost function ExtractAll(hash: HashFn, n: nat, bits: seq<bool>, hashes: seq<nat>): (nat, seq<(nat, nat)>) {
    if n == 0 || n > MAX_TRANSACTIONS || |hashes| > n || |bits| < |hashes| then (0, [])
    else
      var x := Extract(hash, bits, hashes, n, HeightFrom(n, 0), 0, 0, 0);
      (if x.bad || CeilDiv8(x.bitsUsed) != CeilDiv8(|bits|) || x.hashUsed != |hashes| then 0 else x.hash, x.matches)
  }

  /** The traversal was tried and failed. */
  ghost predicate FoundBad(hash: HashFn, n: nat, bits: seq<bool>, hashes: seq<nat>) {
    && 0 < n <= MAX_TRANSACTIONS && |hashes| <= n && |bits| >= |hashes|
    && Extract(hash, bits, hashes, n, HeightFrom(n, 0), 0, 0, 0).bad
  }

  /** Extraction succeeded: none of the checks failed. */
  ghost predicate Accepts(hash: HashFn, n: nat, bits: seq<bool>, hashes: seq<nat>) {
    && 0 < n <= MAX_TRANSACTIONS && |hashes| <= n && |bits| >= |hashes|
    && var x := Extract(hash, bits, hashes, n, HeightFrom(n, 0), 0, 0, 0);
       !x.bad && CeilDiv8(x.bitsUsed) == CeilDiv8(|bits|) && x.hashUsed == |hashes|
  }

  ghost function Root(hash: HashFn, txids: seq<nat>): nat {
    if txids == [] then 0 else HeightRoot(|txids|, 0); CalcHash(hash, txids, HeightFrom(|txids|, 0), 0)
  }

  ghost function RootBits(match_: seq<bool>): seq<bool> {
    BuildBits(match_, HeightFrom(|match_|, 0), 0)
  }

  ghost function RootHashes(hash: HashFn, txids: seq<nat>, match_: seq<bool>): seq<nat>
    requires |match_| == |txids| && txids != []
  {
    HeightRoot(|txids|, 0);
    BuildHashes(hash, txids, match_, HeightFrom(|txids|, 0), 0)
  }

  lemma {:induction false} MatchedTail(txids: seq<nat>, match_: seq<bool>, lo: nat, hi: nat)
    requires |match_| == |txids| && lo <= |txids| <= hi
    ensures Matched(txids, match_, lo, hi) == Matched(txids, match_, lo, |txids|)
  {
    MatchedSplit(txids, match_, lo, |txids|, hi);
    MatchedNone(txids, match_, |txids|, hi);
  }

  lemma PaddedContinues(bits: seq<bool>)
    ensures ContinuesWith(Padded(bits), 0, bits) && CeilDiv8(|Padded(bits)|) == CeilDiv8(|bits|)
            && |Padded(bits)| >= |bits|
  {
    assert Padded(bits)[0..|bits|] == bits;
  }

  /** No two hashes that extraction compares are equal. */
  ghost predicate Unambiguous(hash: HashFn, txids: seq<nat>, match_: seq<bool>)
    requires |match_| == |txids| && txids != []
  {
    HeightRoot(|txids|, 0);
    PairsDiffer(hash, txids, match_, HeightFrom(|txids|, 0), 0)
  }

  /** Building, packing, unpacking and extracting return exactly the matched transactions with their
      indexes, in ascending order, and the root if and only if no compared pair is of equal hashes. */
  lemma RoundTrip(hash: HashFn, txids: seq<nat>, match_: seq<bool>)
    requires |match_| == |txids| && 0 < |txids| <= MAX_TRANSACTIONS
    ensures var bits, hashes := Padded(RootBits(match_)), RootHashes(hash, txids, match_);
            && (Accepts(hash, |txids|, bits, hashes) <==> Unambiguous(hash, txids, match_))
            && ExtractAll(hash, |txids|, bits, hashes).1 == Matched(txids, match_, 0, |txids|)
            && ExtractAll(hash, |txids|, bits, hashes).0 == if Unambiguous(hash, txids, match_) then Root(hash, txids)
               else 0
  {
    hide Matched, Padded, Extract, BuildBits, BuildHashes, CalcHash, HeightFrom, TreeWidth, Pow2, PairsDiffer,
        Singles, Leaves;
    HeightRoot(|txids|, 0);
    PaddedContinues(RootBits(match_));
    BuildSizes(hash, txids, match_, HeightFrom(|txids|, 0), 0);
    RootLeaves(|txids|);
    RootExtracted(hash, txids, match_, Padded(RootBits(match_)));
  }

  lemma RootExtracted(hash: HashFn, txids: seq<nat>, match_: seq<bool>, bits: seq<bool>)
    requires |match_| == |txids| && txids != [] && ContinuesWith(bits, 0, RootBits(match_))
    ensures var h, hashes := HeightFrom(|txids|, 0), RootHashes(hash, txids, match_);
            Extract(hash, bits, hashes, |txids|, h, 0, 0, 0) ==
            Extraction(Root(hash, txids), |RootBits(match_)|, |hashes|, Matched(txids, match_, 0, |txids|),
                       !Unambiguous(hash, txids, match_))
  {
    hide Matched, Extract, BuildBits, BuildHashes, CalcHash, HeightFrom, TreeWidth, Pow2, PairsDiffer;
    var h, hashes := HeightFrom(|txids|, 0), RootHashes(hash, txids, match_);
    HeightRoot(|txids|, 0);
    assert hashes[0..|hashes|] == hashes;
    ExtractBuilt(hash, txids, match_, h, 0, bits, hashes, 0, 0);
    RootLeaves(|txids|);
    MatchedTail(txids, match_, 0, Pow2(h));
    RootRange(txids, match_, h);
  }

  /** A block that lists a transaction twice side by side: its own tree is refused. */
  lemma DuplicateRefused(hash: HashFn, t: nat)
    ensures !Unambiguous(hash, [t, t], [true, false])
    ensures !Accepts(hash, 2, Padded(RootBits([true, false])), RootHashes(hash, [t, t], [true, false]))
  {
    var txids, m := [t, t], [true, false];
    TwoLeaves(hash, t);
    hide Pow2, TreeWidth, HeightFrom, Below, CalcHash, PairsDiffer, Extract, BuildBits, BuildHashes, Padded;
    HeightRoot(2, 0);
    PairsNode(hash, txids, m, 1, 0);
    RoundTrip(hash, txids, m);
  }

  lemma TwoLeaves(hash: HashFn, t: nat)
    ensures HeightFrom(2, 0) == 1 && TreeWidth(2, 0) == 2 && Below([true, false], 1, 0)
    ensures CalcHash(hash, [t, t], 0, 0) == t && CalcHash(hash, [t, t], 0, 1) == t
  {
    assert Pow2(1) == 2 * Pow2(0);
    assert HeightFrom(2, 1) == 1;
    BelowHas([true, false], 1, 0, 0);
  }

  lemma RootRange(txids: seq<nat>, match_: seq<bool>, h: nat)
    requires |match_| == |txids|
    ensures MatchedBelow(txids, match_, h, 0) == Matched(txids, match_, 0, Pow2(h))
  {
    assert 0 * Pow2(h) == 0 && (0 + 1) * Pow2(h) == Pow2(h);
  }

  lemma RootLeaves(n: nat)
    requires n > 0
    ensures Leaves(n, HeightFrom(n, 0), 0) == n && Pow2(HeightFrom(n, 0)) >= n
  {
    HeightRoot(n, 0);
    NodeExists(n, HeightFrom(n, 0), 1);
  }

  /** Whatever the bits and hashes: if the root that is extracted is that of the block with this
      many transactions, every match is a transaction of the block at its index, or at one of the
      nodes that the extraction passes the given hashes and the block's are two different pairs with
      the same hash. */
  lemma Soundness(hash: HashFn, txids: seq<nat>, bits: seq<bool>, hashes: seq<nat>)
    requires txids != [] && Accepts(hash, |txids|, bits, hashes)
    requires ExtractAll(hash, |txids|, bits, hashes).0 == Root(hash, txids)
    ensures || Real(txids, ExtractAll(hash, |txids|, bits, hashes).1, 0, |txids|)
            || (HeightRoot(|txids|, 0); CollisionBelow(hash, txids, bits, hashes, HeightFrom(|txids|, 0), 0, 0, 0))
  {
    var n := |txids|;
    var h := HeightFrom(n, 0);
    HeightRoot(n, 0);
    hide TreeWidth, Extract, CalcHash, CollisionBelow;
    ExtractSound(hash, txids, h, 0, bits, hashes, 0, 0);
  }

  // ---------------------------------------------------------------- the class

  ghost function Ids(ms: seq<(nat, nat)>): seq<nat> {
    seq(|ms|, (i: nat) => if i < |ms| then ms[i].0 else 0)
  }

  ghost function Indexes(ms: seq<(nat, nat)>): seq<nat> {
    seq(|ms|, (i: nat) => if i < |ms| then ms[i].1 else 0)
  }

  lemma IdsConcat(a: seq<(nat, nat)>, b: seq<(nat, nat)>)
    ensures Ids(a + b) == Ids(a) + Ids(b) && Indexes(a + b) == Indexes(a) + Indexes(b)
  {
  }

  lemma IdsFew(t: nat, pos: nat)
    ensures Ids([]) == [] && Indexes([]) == [] && Ids([(t, pos)]) == [t] && Indexes([(t, pos)]) == [pos]
  {
  }

  lemma Regroup<T>(s: seq<T>, x: seq<T>, a: seq<T>, b: seq<T>)
    ensures s + x + a + b == s + (x + (a + b)) && s + [] == s && a + [] == a
    ensures [] + (a + b) == a + b && s + a + b == s + (a + b) && s + x + a == s + (x + (a + []))
  {
  }

  /** Extraction where it does not descend. */
  lemma ExtractStop(hash: HashFn, bits: seq<bool>, hashes: seq<nat>, n: nat, h: nat, pos: nat, b: nat, u: nat)
    ensures var x := Extract(hash, bits, hashes, n, h, pos, b, u);
            && (b >= |bits| ==> x == Extraction(0, b, u, [], true))
            && (b < |bits| && (h == 0 || !bits[b]) && u >= |hashes| ==> x == Extraction(0, b + 1, u, [], true))
            && (b < |bits| && (h == 0 || !bits[b]) && u < |hashes| ==>
                  x == Extraction(hashes[u], b + 1, u + 1, if h == 0 && bits[b] then [(hashes[u], pos)] else [], false))
  {
  }

  lemma BuildLeaf(hash: HashFn, txids: seq<nat>, match_: seq<bool>, h: nat, pos: nat)
    requires |match_| == |txids| && pos < TreeWidth(|txids|, h) && (h == 0 || !Below(match_, h, pos))
    ensures BuildBits(match_, h, pos) == [Below(match_, h, pos)]
            && BuildHashes(hash, txids, match_, h, pos) == [CalcHash(hash, txids, h, pos)]
  {
  }

  class PartialMerkleTree {
    const hash: HashFn
    const nTransactions: nat
    var vBits: seq<bool>
    var vHash: seq<nat>
    var fBad: bool

    /** The tree of a block's transactions with some of them matched. */
    constructor (h: HashFn, txids: seq<nat>, match_: seq<bool>)
      requires |match_| == |txids| && txids != []
      ensures hash == h && nTransactions == |txids| && vBits == RootBits(match_)
              && vHash == RootHashes(h, txids, match_) && !fBad
    {
      hash, nTransactions, vBits, vHash, fBad := h, |txids|, [], [], false;
      new;
      var nHeight := Height(nTransactions);
      HeightRoot(nTransactions, 0);
      TraverseAndBuild(nHeight, 0, txids, match_);
    }

    /** The default: no transactions, and bad. */
    constructor Empty(h: HashFn)
      ensures hash == h && nTransactions == 0 && vBits == [] && vHash == [] && fBad
    {
      hash, nTransactions, vBits, vHash, fBad := h, 0, [], [], true;
    }

    /** A tree as it comes out of deserialization. */
    constructor Received(h: HashFn, n: nat, bits: seq<bool>, hashes: seq<nat>)
      ensures hash == h && nTransactions == n && vBits == bits && vHash == hashes && !fBad
    {
      hash, nTransactions, vBits, vHash, fBad := h, n, bits, hashes, false;
    }

    /** Whether some transaction below the node is matched. */
    method ParentOfMatch(height: nat, pos: nat, match_: seq<bool>) returns (found: bool)
      requires |match_| == nTransactions
      ensures found <==> Below(match_, height, pos)
    {
      found := false;
      var start, end := pos * Pow2(height), (pos + 1) * Pow2(height);
      assert end == start + Pow2(height);
      hide Pow2;
      var p := start;
      while p < end && p < nTransactions
        invariant start <= p <= end && (found <==> AnyMatch(match_, start, p))
        decreases nTransactions - p
      {
        found := found || match_[p];
        p := p + 1;
      }
    }

    method TraverseAndBuild(height: nat, pos: nat, txids: seq<nat>, match_: seq<bool>)
      requires |match_| == |txids| == nTransactions && pos < TreeWidth(|txids|, height)
      modifies this`vBits, this`vHash
      ensures vBits == old(vBits) + BuildBits(match_, height, pos)
              && vHash == old(vHash) + BuildHashes(hash, txids, match_, height, pos)
      decreases height
    {
      hide Below, CalcHash, TreeWidth, BuildBits, BuildHashes, Pow2;
      ghost var bits, hashes := vBits, vHash;
      var fParentOfMatch := ParentOfMatch(height, pos, match_);
      vBits := vBits + [fParentOfMatch];
      if height == 0 || !fParentOfMatch {
        BuildLeaf(hash, txids, match_, height, pos);
        vHash := vHash + [CalcHash(hash, txids, height, pos)];
      } else {
        BuildNode(hash, txids, match_, height, pos);
        TraverseAndBuild(height - 1, pos * 2, txids, match_);
        ghost var left, leftHashes := BuildBits(match_, height - 1, pos * 2),
            BuildHashes(hash, txids, match_, height - 1, pos * 2);
        if pos * 2 + 1 < TreeWidth(nTransactions, height - 1) {
          TraverseAndBuild(height - 1, pos * 2 + 1, txids, match_);
          Regroup(bits, [true], left, BuildBits(match_, height - 1, pos * 2 + 1));
          Regroup(hashes, [], leftHashes, BuildHashes(hash, txids, match_, height - 1, pos * 2 + 1));
        } else {
          Regroup(bits, [true], left, []);
          Regroup(hashes, [], leftHashes, []);
        }
      }
    }

    method TraverseAndExtract(height: nat, pos: nat, b: nat, u: nat, vMatch: seq<nat>, vnIndex: seq<nat>)
      returns (r: nat, nBitsUsed: nat, nHashUsed: nat, vMatch': seq<nat>, vnIndex': seq<nat>)
      modifies this`fBad
      ensures var x := Extract(hash, vBits, vHash, nTransactions, height, pos, b, u);
              && r == x.hash && nBitsUsed == x.bitsUsed && nHashUsed == x.hashUsed && fBad == (old(fBad) || x.bad)
              && vMatch' == vMatch + Ids(x.matches) && vnIndex' == vnIndex + Indexes(x.matches)
      decreases height
    {
      hide Extract, TreeWidth, Ids, Indexes;
      ExtractStop(hash, vBits, vHash, nTransactions, height, pos, b, u);
      IdsFew(if u < |vHash| then vHash[u] else 0, pos);
      nBitsUsed, nHashUsed, vMatch', vnIndex' := b, u, vMatch, vnIndex;
      if nBitsUsed >= |vBits| {
        fBad := true;
        r := 0;
        return;
      }
      var fParentOfMatch := vBits[nBitsUsed];
      nBitsUsed := nBitsUsed + 1;
      if height == 0 || !fParentOfMatch {
        if nHashUsed >= |vHash| {
          fBad := true;
          r := 0;
          return;
        }
        r := vHash[nHashUsed];
        nHashUsed := nHashUsed + 1;
        if height == 0 && fParentOfMatch {
          vMatch', vnIndex' := vMatch' + [r], vnIndex' + [pos];
        }
      } else {
        ExtractNode(hash, vBits, vHash, nTransactions, height, pos, b, u);
        var left, right;
        left, nBitsUsed, nHashUsed, vMatch', vnIndex' := TraverseAndExtract(height - 1, pos * 2, nBitsUsed, nHashUsed,
            vMatch', vnIndex');
        if pos * 2 + 1 < TreeWidth(nTransactions, height - 1) {
          ghost var lm := Extract(hash, vBits, vHash, nTransactions, height - 1, pos * 2, b + 1, u).matches;
          ghost var rm := Extract(hash, vBits, vHash, nTransactions, height - 1, pos * 2 + 1, nBitsUsed,
                                  nHashUsed).matches;
          IdsConcat(lm, rm);
          Regroup(vMatch, [], Ids(lm), Ids(rm));
          Regroup(vnIndex, [], Indexes(lm), Indexes(rm));
          right, nBitsUsed, nHashUsed, vMatch', vnIndex' := TraverseAndExtract(height - 1, pos * 2 + 1, nBitsUsed,
              nHashUsed, vMatch', vnIndex');
          if right == left {
            fBad := true;
          }
        } else {
          right := left;
        }
        r := hash(left, right);
      }
    }

    /** ExtractMatches. The list of indexes is appended to and not cleared; a tree once found bad, or
        never filled, gives no root. */
    method ExtractMatches(indexes: seq<nat>) returns (root: nat, vMatch: seq<nat>, vnIndex: seq<nat>)
      modifies this`fBad
      ensures var x := ExtractAll(hash, nTransactions, vBits, vHash);
              && root == (if old(fBad) then 0 else x.0) && vMatch == Ids(x.1) && vnIndex == indexes + Indexes(x.1)
      ensures fBad == (old(fBad) || FoundBad(hash, nTransactions, vBits, vHash))
    {
      vMatch, vnIndex := [], indexes;
      if nTransactions == 0 || nTransactions > MAX_TRANSACTIONS || |vHash| > nTransactions || |vBits| < |vHash| {
        return 0, vMatch, vnIndex;
      }
      var nHeight := Height(nTransactions);
      var nBitsUsed, nHashUsed;
      hide Extract;
      root, nBitsUsed, nHashUsed, vMatch, vnIndex := TraverseAndExtract(nHeight, 0, 0, 0, vMatch, vnIndex);
      if fBad || CeilDiv8(nBitsUsed) != CeilDiv8(|vBits|) || nHashUsed != |vHash| {
        return 0, vMatch, vnIndex;
      }
    }
  }
}
