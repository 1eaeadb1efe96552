/** Chains of block headers as the two phases of a headers sync see them. */
module HeaderChains {
  datatype Header = Header(version: int, prev: nat, merkleRoot: nat, time: nat, bits: nat, nonce: nat)

  /** A header without the hash of its predecessor. */
  datatype CompressedHeader = CompressedHeader(version: int, merkleRoot: nat, time: nat, bits: nat, nonce: nat)

  function Compress(h: Header): CompressedHeader {
    CompressedHeader(h.version, h.merkleRoot, h.time, h.bits, h.nonce)
  }

  function GetFullHeader(c: CompressedHeader, prev: nat): Header {
    Header(c.version, prev, c.merkleRoot, c.time, c.bits, c.nonce)
  }

  /** What a sync is given: the hash functions, the work of a header, the permitted changes of
      difficulty, the parameters, and the block the headers are to build on. */
  datatype Sync = Sync(
    hash: Header -> nat, salted: nat -> bool, proof: nat -> nat, permitted: (int, nat, nat) -> bool,
    period: nat, offset: nat, bufferSize: nat, maxCommitments: nat, minimumWork: nat,
    start: Header, startHeight: int, startWork: nat)

  ghost predicate Proper(p: Sync) {
    0 <= p.offset < p.period
  }

  function Bit(p: Sync, h: Header): bool {
    p.salted(p.hash(h))
  }

  /** Whether the header at an index above the start is one to commit to. */
  predicate Commits(p: Sync, i: int)
    requires p.period > 0
  {
    (p.startHeight + 1 + i) % p.period == p.offset
  }

  ghost function Tip(p: Sync, hs: seq<Header>): Header {
    if hs == [] then p.start else hs[|hs| - 1]
  }

  ghost predicate Linked(p: Sync, hs: seq<Header>) {
    forall i | 0 <= i < |hs| :: hs[i].prev == p.hash(Tip(p, hs[..i]))
  }

  /** Every header's difficulty is a permitted change of its predecessor's. */
  ghost predicate Difficulties(p: Sync, hs: seq<Header>) {
    forall i | 0 <= i < |hs| :: p.permitted(p.startHeight + 1 + i, Tip(p, hs[..i]).bits, hs[i].bits)
  }

  /** The same, but where the comparison starts anew with the block the headers are to build on. */
  ghost predicate DifficultiesFrom(p: Sync, hs: seq<Header>, resets: set<nat>) {
    forall i: nat | i < |hs| ::
      p.permitted(p.startHeight + 1 + i, (if i in resets then p.start else Tip(p, hs[..i])).bits, hs[i].bits)
  }

  ghost function Work(p: Sync, hs: seq<Header>): nat {
    if hs == [] then p.startWork else Work(p, hs[..|hs| - 1]) + p.proof(hs[|hs| - 1].bits)
  }

  ghost predicate Enough(p: Sync, hs: seq<Header>) {
    Work(p, hs) >= p.minimumWork
  }

  /** The bits recorded for the headers from an index on. */
  ghost function Recorded(p: Sync, hs: seq<Header>, i: nat): seq<bool>
    requires p.period > 0
    decreases |hs| - i
  {
    if i >= |hs| then []
    else (if Commits(p, i) then [Bit(p, hs[i])] else []) + Recorded(p, hs, i + 1)
  }

  /** The bit of a header agrees with the one recorded at its height. */
  ghost predicate Matches(p: Sync, seen: seq<Header>, hs: seq<Header>, i: nat) {
    i < |seen| && i < |hs| && Bit(p, hs[i]) == Bit(p, seen[i])
  }

  /** As long as the work does not suffice, every header to commit to has the bit recorded for it. */
  ghost predicate Verified(p: Sync, seen: seq<Header>, hs: seq<Header>)
    requires p.period > 0
  {
    forall i: nat | i < |hs| && Commits(p, i) && !Enough(p, hs[..i + 1]) :: Matches(p, seen, hs, i)
  }

  // ---------------------------------------------------------------- appending a header

  lemma LinkedAppend(p: Sync, hs: seq<Header>, h: Header)
    requires Linked(p, hs) && h.prev == p.hash(Tip(p, hs))
    ensures Linked(p, hs + [h])
  {
    var t := hs + [h];
    forall i | 0 <= i < |t|
      ensures t[i].prev == p.hash(Tip(p, t[..i]))
    {
      assert t[..i] == hs[..i];
      assert i == |hs| ==> hs[..i] == hs;
    }
  }

  lemma DifficultiesAppend(p: Sync, hs: seq<Header>, h: Header)
    requires Difficulties(p, hs) && p.permitted(p.startHeight + 1 + |hs|, Tip(p, hs).bits, h.bits)
    ensures Difficulties(p, hs + [h])
  {
    var t := hs + [h];
    forall i | 0 <= i < |t|
      ensures p.permitted(p.startHeight + 1 + i, Tip(p, t[..i]).bits, t[i].bits)
    {
      assert t[..i] == hs[..i];
      assert i == |hs| ==> hs[..i] == hs;
    }
  }

  lemma DifficultiesFromAppend(p: Sync, hs: seq<Header>, resets: set<nat>, h: Header, reset: bool)
    requires DifficultiesFrom(p, hs, resets) && forall i | i in resets :: i < |hs|
    requires p.permitted(p.startHeight + 1 + |hs|, (if reset then p.start else Tip(p, hs)).bits, h.bits)
    ensures DifficultiesFrom(p, hs + [h], if reset then resets + {|hs|} else resets)
  {
    var t, rs := hs + [h], if reset then resets + {|hs|} else resets;
    forall i: nat | i < |t|
      ensures p.permitted(p.startHeight + 1 + i, (if i in rs then p.start else Tip(p, t[..i])).bits, t[i].bits)
    {
      assert t[..i] == hs[..i];
      assert i == |hs| ==> hs[..i] == hs;
    }
  }

  /** Starting anew at the first header only changes nothing. */
  lemma DifficultiesFromStart(p: Sync, hs: seq<Header>, resets: set<nat>)
    requires resets <= {0}
    ensures DifficultiesFrom(p, hs, resets) <==> Difficulties(p, hs)
  {
    if DifficultiesFrom(p, hs, resets) {
      forall i | 0 <= i < |hs|
        ensures p.permitted(p.startHeight + 1 + i, Tip(p, hs[..i]).bits, hs[i].bits)
      {
        assert i in resets ==> hs[..i] == [];
      }
    }
    if Difficulties(p, hs) {
      forall i: nat | i < |hs|
        ensures p.permitted(p.startHeight + 1 + i, (if i in resets then p.start else Tip(p, hs[..i])).bits, hs[i].bits)
      {
        assert i in resets ==> hs[..i] == [];
      }
    }
  }

  lemma WorkAppend(p: Sync, hs: seq<Header>, h: Header)
    ensures Work(p, hs + [h]) == Work(p, hs) + p.proof(h.bits)
  {
    assert (hs + [h])[..|hs|] == hs;
  }

  lemma {:induction false} WorkPrefix(p: Sync, hs: seq<Header>, n: nat)
    requires n <= |hs|
    ensures Work(p, hs[..n]) <= Work(p, hs)
  {
    if n < |hs| {
      WorkPrefix(p, hs[..|hs| - 1], n);
      assert hs[..|hs| - 1][..n] == hs[..n];
    } else {
      assert hs[..n] == hs;
    }
  }

  lemma {:induction false} RecordedAppend(p: Sync, hs: seq<Header>, h: Header, i: nat)
    requires p.period > 0 && i <= |hs|
    ensures Recorded(p, hs + [h], i) == Recorded(p, hs, i) + (if Commits(p, |hs|) then [Bit(p, h)] else [])
    decreases |hs| - i
  {
    hide Commits, Bit;
    if i < |hs| {
      RecordedAppend(p, hs, h, i + 1);
      assert (hs + [h])[i] == hs[i];
    } else {
      assert Recorded(p, hs + [h], i + 1) == [];
    }
  }

  lemma VerifiedAppend(p: Sync, seen: seq<Header>, hs: seq<Header>, h: Header)
    requires p.period > 0 && Verified(p, seen, hs)
    requires Commits(p, |hs|) && !Enough(p, hs + [h]) ==> |hs| < |seen| && Bit(p, h) == Bit(p, seen[|hs|])
    ensures Verified(p, seen, hs + [h])
  {
    hide Commits, Bit, Enough;
    var t := hs + [h];
    forall i: nat | i < |t| && Commits(p, i) && !Enough(p, t[..i + 1])
      ensures Matches(p, seen, t, i)
    {
      if i < |hs| {
        assert t[..i + 1] == hs[..i + 1];
        assert Matches(p, seen, hs, i);
      } else {
        assert t[..i + 1] == t;
      }
    }
  }

  // ---------------------------------------------------------------- commitments on top

  /** How many of n headers from an index on have the bit recorded for them. */
  ghost function Backing(p: Sync, seen: seq<Header>, hs: seq<Header>, a: nat, n: nat): nat
    requires p.period > 0
    decreases n
  {
    if n == 0 then 0
    else (if Commits(p, a) && Matches(p, seen, hs, a) then 1 else 0) + Backing(p, seen, hs, a + 1, n - 1)
  }

  lemma {:induction false} BackingSplit(p: Sync, seen: seq<Header>, hs: seq<Header>, a: nat, m: nat, n: nat)
    requires p.period > 0 && m <= n
    ensures Backing(p, seen, hs, a, n) == Backing(p, seen, hs, a, m) + Backing(p, seen, hs, a + m, n - m)
    decreases m
  {
    hide Commits, Matches;
    if m > 0 {
      BackingSplit(p, seen, hs, a + 1, m - 1, n - 1);
    }
  }

  lemma BackingOne(p: Sync, seen: seq<Header>, hs: seq<Header>, a: nat, n: nat, j: nat)
    requires p.period > 0 && a <= j < a + n && Commits(p, j) && Matches(p, seen, hs, j)
    ensures Backing(p, seen, hs, a, n) >= 1
  {
    hide Commits, Matches;
    BackingSplit(p, seen, hs, a, j - a, n);
  }

  lemma Remainder(x: int, m: nat, r: nat)
    requires r < m
    ensures 0 <= (r - x) % m < m && (x + (r - x) % m) % m == r
  {
    var q, d := (r - x) / m, (r - x) % m;
    assert r - x == q * m + d;
    var y := x + d;
    var a, b := y / m, y % m;
    assert y == a * m + b;
    assert (a + q) * m == a * m + q * m;
    assert (a + q) * m == r - b;
    NoMultiple(a + q, m, r - b);
  }

  lemma NoMultiple(k: int, m: nat, d: int)
    requires k * m == d && -(m as int) < d < m
    ensures d == 0
  {
    assert k >= 1 ==> k * m >= m;
    assert k <= -1 ==> k * m <= -(m as int);
  }

  /** Any period of consecutive heights has one to commit to. */
  lemma CommitsSomewhere(p: Sync, a: nat) returns (j: nat)
    requires Proper(p)
    ensures a <= j < a + p.period && Commits(p, j)
  {
    var x := p.startHeight + 1 + a;
    Remainder(x, p.period, p.offset);
    j := a + (p.offset - x) % p.period;
  }

  /** Where all headers to commit to match, n headers bring one match for each full period. */
  lemma {:induction false} BackingEnough(p: Sync, seen: seq<Header>, hs: seq<Header>, a: nat, n: nat, k: nat)
    requires Proper(p) && k * p.period <= n
    requires forall j: nat | a <= j < a + n && Commits(p, j) :: Matches(p, seen, hs, j)
    ensures Backing(p, seen, hs, a, n) >= k
    decreases k
  {
    hide Commits, Matches;
    if k > 0 {
      var m := p.period;
      assert k * m == (k - 1) * m + m;
      assert (k - 1) * m >= 0;
      var j := CommitsSomewhere(p, a);
      BackingOne(p, seen, hs, a, m, j);
      BackingEnough(p, seen, hs, a + m, n - m, k - 1);
      BackingSplit(p, seen, hs, a, m, n);
    }
  }

  /** A header released before the work sufficed is followed by a buffer of headers that hold at
      least one verified commitment for each full period. */
  lemma ReleasedBacked(p: Sync, seen: seq<Header>, hs: seq<Header>, i: nat)
    requires Proper(p) && Verified(p, seen, hs) && !Enough(p, hs) && i + p.bufferSize < |hs|
    ensures Backing(p, seen, hs, i + 1, p.bufferSize) >= p.bufferSize / p.period
  {
    hide Commits, Matches;
    forall j: nat | i + 1 <= j < i + 1 + p.bufferSize && Commits(p, j)
      ensures Matches(p, seen, hs, j)
    {
      WorkPrefix(p, hs, j + 1);
    }
    Quotient(p.bufferSize, p.period);
    BackingEnough(p, seen, hs, i + 1, p.bufferSize, p.bufferSize / p.period);
  }

  lemma Quotient(n: nat, m: nat)
    requires m > 0
    ensures n / m * m <= n
  {
  }
}
