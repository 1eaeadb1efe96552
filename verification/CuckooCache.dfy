/** The cuckoo cache: eight positions per element, lazy erasure and two epochs. */
module CuckooCache {
  import opened CollectionFlags
  import opened CuckooSlots
  import opened Numerals

  /** 45 percent of the slots in 32-bit arithmetic, but at least one. */
  function EpochSize(size: nat): nat {
    var e := (45 * size) % 0x1_0000_0000 / 100;
    if e > 1 then e else 1
  }

  /** It is 45 percent, as documented, if and only if the product fits 32 bits. */
  lemma EpochSizeIff(size: nat)
    ensures EpochSize(size) == Max(1, 45 * size / 100) <==> 45 * size < 0x1_0000_0000
  {
  }

  /** The smallest size for which it does not: the epochs shrink to a single element. */
  lemma EpochSizeWraps()
    ensures EpochSize(95443717) == 42949672 && EpochSize(95443718) == 1
  {
  }

  function Max(x: nat, y: nat): nat {
    if x >= y then x else y
  }

  lemma EmptyStart<E(!new)>(s: Slots<E>, epochSize: nat)
    requires Sized(s) && forall i | 0 <= i < |s.kept| :: !s.kept[i]
    ensures Proper(s) && Entries(s) == {} && LoadOk(Entries(s), epochSize, epochSize)
  {
    assert Entries(s) == {};
    assert Young(Entries(s)) == {} && Old(Entries(s)) == {};
  }

  ghost function EntriesUpTo<E(!new)>(s: Slots<E>, n: nat): set<(E, bool)>
    requires Sized(s) && n <= |s.table|
  {
    set i: nat | i < n && s.kept[i] :: (s.table[i], s.young[i])
  }

  lemma {:induction false} AllKept<E(!new)>(s: Slots<E>, n: nat)
    requires Sized(s) && Proper(s) && n <= |s.table| && forall i: nat | i < n :: s.kept[i]
    ensures |EntriesUpTo(s, n)| == n
  {
    if n > 0 {
      var m := n - 1;
      AllKept(s, m);
      assert KeptAt(s, m, s.table[m]);
      forall i: nat | i < m
        ensures s.table[i] != s.table[m]
      {
        OtherEntry(s, m, s.table[m], i);
      }
      assert EntriesUpTo(s, n) == EntriesUpTo(s, m) + {(s.table[m], s.young[m])};
    }
  }

  lemma EntriesAll<E(!new)>(s: Slots<E>)
    requires Sized(s)
    ensures EntriesUpTo(s, |s.table|) == Entries(s)
  {
    forall p | p in Entries(s)
      ensures p in EntriesUpTo(s, |s.table|)
    {
      var i :| 0 <= i < |s.table| && s.kept[i] && (s.table[i], s.young[i]) == p;
    }
  }

  /** With more than twenty slots, the epochs always leave one free. */
  lemma NeverFull<E(!new)>(s: Slots<E>, counter: nat)
    requires Sized(s) && Proper(s) && 20 < |s.table|
    requires LoadOk(Entries(s), counter, EpochSize(|s.table|))
    ensures |Entries(s)| < |s.table| && exists i: nat :: i < |s.table| && !s.kept[i]
  {
    hide Proper;
    YoungOldSplit(Entries(s));
    if forall i: nat | i < |s.table| :: s.kept[i] {
      AllKept(s, |s.table|);
      EntriesAll(s);
    }
  }

  /** The entries after inserting e: all of them and e, in the current epoch, or all but one. */
  ghost predicate Inserted<E(!new)>(was: set<(E, bool)>, now: set<(E, bool)>, e: E) {
    var all := was - {(e, false)} + {(e, true)};
    now == all || exists p :: p in all && now == all - {p}
  }

  /** In hand is one element not kept; with it the entries are those there were and the inserted one. */
  ghost predicate InHand<E(!new)>(s: Slots<E>, was: set<(E, bool)>, inserted: E, e: E, y: bool) {
    Sized(s) && Proper(s) && !Kept(s, e) && Entries(s) + {(e, y)} == was - {(inserted, false)} + {(inserted, true)}
  }

  lemma InHandStart<E(!new)>(s: Slots<E>, e: E)
    requires Sized(s) && Proper(s) && !Kept(s, e)
    ensures InHand(s, Entries(s), e, e, true)
  {
    EntryKept(s, e);
  }

  lemma InHandAbsent<E(!new)>(s: Slots<E>, e: E)
    requires Sized(s) && Proper(s) && forall k: nat | k < 8 :: !InTable(s, Position(s, e, k), e)
    ensures !Kept(s, e)
  {
    KeptFound(s, e);
  }

  /** A kept element is found at one of its positions. */
  lemma KeptFound<E(!new)>(s: Slots<E>, e: E)
    requires Proper(s)
    ensures Kept(s, e) ==> exists k: nat :: FirstAt(s, e, k) && KeptAt(s, Position(s, e, k), e)
  {
    if i: nat :| KeptAt(s, i, e) {
      var k: nat :| FirstAt(s, e, k) && Position(s, e, k) == i;
    }
  }

  lemma InHandLost<E(!new)>(s: Slots<E>, was: set<(E, bool)>, inserted: E, e: E, y: bool)
    requires InHand(s, was, inserted, e, y)
    ensures Inserted(was, Entries(s), inserted)
  {
    EntryKept(s, e);
    var all := was - {(inserted, false)} + {(inserted, true)};
    assert (e, y) in all && Entries(s) == all - {(e, y)};
  }

  /** Putting the element in hand into a free position of its own ends the insertion. */
  lemma InHandPlaced<E(!new)>(s: Slots<E>, was: set<(E, bool)>, inserted: E, e: E, y: bool, k: nat)
    requires InHand(s, was, inserted, e, y) && k < 8 && Position(s, e, k) < |s.table| && !s.kept[Position(s, e, k)]
    requires forall j: nat | j < k :: Position(s, e, j) < |s.table| && s.kept[Position(s, e, j)]
    ensures var t := Put(s, Position(s, e, k), e, y);
            Sized(t) && Proper(t) && Inserted(was, Entries(t), inserted)
  {
    hide Proper, Kept, Position, Put, Entries;
    var t := Put(s, Position(s, e, k), e, y);
    PutProper(s, e, k, y);
    PutEntries(s, Position(s, e, k), e, y);
    EntryKept(s, e);
    NotBoth(Entries(s), e, y);
    assert Entries(t) == was - {(inserted, false)} + {(inserted, true)};
  }

  lemma NotBoth<E(!new)>(es: set<(E, bool)>, e: E, y: bool)
    requires (e, true) !in es && (e, false) !in es
    ensures es - {(e, !y)} + {(e, y)} == es + {(e, y)}
  {
    assert (e, !y) !in es;
  }

  /** Swapping it into a kept position of its own puts what was there in hand. */
  lemma InHandSwapped<E(!new)>(s: Slots<E>, was: set<(E, bool)>, inserted: E, e: E, y: bool, k: nat)
    requires InHand(s, was, inserted, e, y) && k < 8
    requires forall j: nat | j < 8 :: Position(s, e, j) < |s.table| && s.kept[Position(s, e, j)]
    ensures var i := Position(s, e, k);
            InHand(Put(s, i, e, y), was, inserted, s.table[i], s.young[i])
  {
    hide Proper, Position, Put, Entries;
    var i := Position(s, e, k);
    var t := Put(s, i, e, y);
    var x := s.table[i];
    PutProper(s, e, k, y);
    PutEntries(s, i, e, y);
    EntryKept(s, e);
    NotBoth(Entries(s) - {(x, s.young[i])}, e, y);
    assert KeptAt(s, i, x);
    Evicted(s, i, e, y);
    EntryOf(s, i);
    assert Entries(t) == Entries(s) - {(x, s.young[i])} + {(e, y)};
  }

  lemma EntryOf<E(!new)>(s: Slots<E>, i: nat)
    requires Sized(s) && i < |s.table| && s.kept[i]
    ensures (s.table[i], s.young[i]) in Entries(s)
  {
  }

  lemma Evicted<E(!new)>(s: Slots<E>, i: nat, e: E, y: bool)
    requires Sized(s) && Proper(s) && i < |s.table| && s.kept[i] && !Kept(s, e)
    ensures !Kept(Put(s, i, e, y), s.table[i])
  {
    hide Proper;
    var x := s.table[i];
    var t := Put(s, i, e, y);
    assert KeptAt(s, i, x);
    forall j: nat
      ensures !KeptAt(t, j, x)
    {
      PutAt(s, i, e, y, j, x);
      assert KeptAt(s, j, x) ==> Kept(s, x);
      KeptElsewhere(s, i, j, x);
    }
  }

  lemma KeptElsewhere<E(!new)>(s: Slots<E>, i: nat, j: nat, x: E)
    requires Proper(s) && KeptAt(s, i, x)
    ensures KeptAt(s, j, x) ==> i == j
  {
    if KeptAt(s, j, x) {
      KeptOnce(s, i, j, x);
    }
  }

  /** An element found in place is kept there again, in the current epoch. */
  lemma Refreshed<E(!new)>(s: Slots<E>, e: E, k: nat)
    requires Sized(s) && Proper(s) && FirstAt(s, e, k)
    ensures Position(s, e, k) < |s.table|
    ensures var t := Put(s, Position(s, e, k), e, true);
            Sized(t) && Proper(t) && Entries(t) == Entries(s) - {(e, false)} + {(e, true)}
  {
    var i := Position(s, e, k);
    var t := Put(s, i, e, true);
    if Kept(s, e) {
      var j: nat :| KeptAt(s, j, e);
      var m: nat :| FirstAt(s, e, m) && Position(s, e, m) == j;
      FirstUnique(s, e, k, m);
      assert KeptAt(s, i, e);
      EntryOf(s, i);
    }
    PutEntries(s, i, e, true);
    RefreshedProper(s, e, k);
    EntriesRefreshed(s, e, i);
  }

  lemma EntriesRefreshed<E(!new)>(s: Slots<E>, e: E, i: nat)
    requires Sized(s) && i < |s.table| && s.table[i] == e
    ensures (if s.kept[i] then Entries(s) - {(s.table[i], s.young[i])} else Entries(s)) - {(e, false)} + {(e, true)}
         == Entries(s) - {(e, false)} + {(e, true)}
  {
    var es := Entries(s);
    hide Entries;
    if s.young[i] {
      assert es - {(e, true)} - {(e, false)} + {(e, true)} == es - {(e, false)} + {(e, true)};
    } else {
      assert es - {(e, false)} - {(e, false)} == es - {(e, false)};
    }
  }

  lemma RefreshedProper<E(!new)>(s: Slots<E>, e: E, k: nat)
    requires Sized(s) && Proper(s) && FirstAt(s, e, k)
    ensures Proper(Put(s, Position(s, e, k), e, true))
  {
    hide Position;
    var i := Position(s, e, k);
    var t := Put(s, i, e, true);
    assert t.table == s.table;
    SamePositions(s, t);
    forall j: nat, x: E | KeptAt(t, j, x)
      ensures exists c: nat :: FirstAt(t, x, c) && Position(t, x, c) == j
    {
      if j == i {
        assert FirstAt(t, x, k) && Position(t, x, k) == j;
      } else {
        assert KeptAt(s, j, x);
        var c: nat :| FirstAt(s, x, c) && Position(s, x, c) == j;
        assert FirstAt(t, x, c) && Position(t, x, c) == j;
      }
    }
  }

  ghost function KeptSeq(mem: seq<bv8>, n: nat): (kept: seq<bool>)
    ensures |kept| == n && forall i: nat | i < n :: kept[i] == !Flag(mem, i)
  {
    seq(n, i requires 0 <= i => !Flag(mem, i))
  }

  lemma KeptOne(mem: seq<bv8>, after: seq<bv8>, n: nat, i: nat, kept: bool)
    requires i < n && forall j: nat :: Flag(after, j) == if j == i then !kept else Flag(mem, j)
    ensures KeptSeq(after, n) == KeptSeq(mem, n)[i := kept]
  {
  }

  lemma InHandFacts<E(!new)>(s: Slots<E>, was: set<(E, bool)>, inserted: E, e: E, y: bool)
    requires InHand(s, was, inserted, e, y)
    ensures Sized(s) && Proper(s)
  {
  }

  lemma InsertedAll<E(!new)>(was: set<(E, bool)>, e: E)
    ensures Inserted(was, was - {(e, false)} + {(e, true)}, e)
  {
  }

  lemma LoadInserted<E(!new)>(es: set<(E, bool)>, fs: set<(E, bool)>, e: E, counter: nat, epochSize: nat)
    requires |Young(es)| + counter < epochSize + Slack(epochSize) && |Old(es)| <= epochSize + Slack(epochSize)
    requires Inserted(es, fs, e)
    ensures LoadOk(fs, counter, epochSize)
  {
    LoadAdded(es, fs, e);
  }

  /** The index after that of the first occurrence of the last position used, going round; 1 when it
      is not among the positions. */
  ghost function NextFor(locs: seq<nat>, last: int): (next: nat)
    requires |locs| == 8
    ensures next < 8
  {
    if last in locs then (FirstOf(locs, last) + 1) % 8 else 1
  }

  ghost function FirstOf(locs: seq<nat>, last: int): (k: nat)
    requires last in locs
    ensures k < |locs| && locs[k] == last && last !in locs[..k]
  {
    if locs[0] == last then 0 else
      var k := 1 + FirstOf(locs[1..], last);
      assert locs[..k] == [locs[0]] + locs[1..][..k - 1];
      k
  }

  lemma FirstOfUnique(locs: seq<nat>, last: int, k: nat)
    requires k < |locs| && locs[k] == last && last !in locs[..k]
    ensures FirstOf(locs, last) == k
  {
  }

  method NextIndex(locs: seq<nat>, last: int) returns (next: nat)
    requires |locs| == 8
    ensures next == NextFor(locs, last)
  {
    var k := 0;
    while k < 8 && locs[k] != last
      invariant k <= 8 && last !in locs[..k]
    {
      k := k + 1;
    }
    if k < 8 {
      FirstOfUnique(locs, last, k);
    } else {
      assert locs[..k] == locs;
    }
    next := (1 + k) % 8;
  }

  /** The rotation never goes back to the slot just written, whichever that was, if and only if no
      position is followed by itself where it first occurs. */
  lemma MovesOnIff(locs: seq<nat>)
    requires |locs| == 8
    ensures (forall last | last in locs :: locs[NextFor(locs, last)] != last)
       <==> (forall k: nat | k < 8 && locs[k] !in locs[..k] :: locs[k] != locs[(k + 1) % 8])
  {
    if forall last | last in locs :: locs[NextFor(locs, last)] != last {
      forall k: nat | k < 8 && locs[k] !in locs[..k]
        ensures locs[k] != locs[(k + 1) % 8]
      {
        FirstOfUnique(locs, locs[k], k);
        assert locs[NextFor(locs, locs[k])] != locs[k];
      }
    }
  }

  /** Where it does go back, the element just put in is taken out again: two swaps in one slot leave
      the table as it was. */
  lemma SwapBack<E(!new)>(s: Slots<E>, i: nat, e: E, y: bool)
    requires Sized(s) && i < |s.table| && s.kept[i]
    ensures Put(Put(s, i, e, y), i, s.table[i], s.young[i]) == s
  {
    var t := Put(Put(s, i, e, y), i, s.table[i], s.young[i]);
    assert t.table == s.table && t.kept == s.kept && t.young == s.young;
  }

  /** Two equal positions in a row: the swap goes back to the first. */
  lemma RotationStays()
    ensures var locs := [5, 5, 2, 3, 4, 6, 7, 0]; locs[NextFor(locs, 5)] == 5
  {
    var locs := [5, 5, 2, 3, 4, 6, 7, 0];
    FirstOfUnique(locs, 5, 0);
  }

  class Cache<E(!new, ==)> {
    const hash: (E, nat) -> uint32
    const epochSize: nat
    const depthLimit: nat
    const flags: PackedFlags
    var table: seq<E>
    var epochFlags: seq<bool>
    var counter: nat

    ghost function S(): Slots<E>
      reads this, flags
    {
      Slots(hash, table, KeptSeq(flags.mem, |table|), epochFlags)
    }

    /** Every kept slot is where looking for its element ends. */
    ghost predicate Structured()
      reads this, flags
    {
      Sized(S()) && 8 * |flags.mem| >= |table| && Proper(S())
    }

    ghost predicate Valid()
      reads this, flags
    {
      Structured() && epochSize >= 1 && LoadOk(Entries(S()), counter, epochSize)
    }

    /** setup, with the depth limit and the value that fills the table given. */
    constructor (newSize: nat, depth: nat, blank: E, h: (E, nat) -> uint32)
      ensures Valid() && fresh(flags) && hash == h && depthLimit == depth && Entries(S()) == {}
      ensures |table| == Max(2, newSize) && epochSize == EpochSize(|table|) && counter == epochSize
      ensures InTable(S(), 0, blank)
    {
      var size := Max(2, newSize);
      hash := h;
      depthLimit := depth;
      epochSize := EpochSize(size);
      flags := new PackedFlags(size);
      table := seq(size, i => blank);
      epochFlags := seq(size, i => false);
      counter := EpochSize(size);
      new;
      forall i: nat | i < |table|
        ensures !S().kept[i]
      {
        assert Flag(flags.mem, i);
      }
      EmptyStart(S(), epochSize);
    }

    method EpochScan() returns (count: nat)
      requires Structured()
      ensures count == |Young(Entries(S()))|
    {
      hide Proper, Entries, Young, YoungSlots;
      count := 0;
      var i := 0;
      ghost var s := S();
      YoungSlotsNone(s);
      while i < |table|
        invariant i <= |table| && count == |YoungSlots(s, i)|
      {
        YoungSlotsNext(s, i);
        var collected := flags.BitIsSet(i);
        if epochFlags[i] && !collected {
          count := count + 1;
        }
        i := i + 1;
      }
      YoungCount(s, |table|);
      YoungAll(s);
    }

    method Age()
      requires Structured()
      modifies this`epochFlags, flags
      ensures Structured() && S() == Aged(old(S()))
    {
      hide Proper;
      ghost var s := S();
      var i := 0;
      while i < |table|
        invariant i <= |table| == |epochFlags| && 8 * |flags.mem| >= |table|
        invariant forall j: nat | j < |table| :: epochFlags[j] == (j >= i && s.young[j])
        invariant forall j: nat | j < |table| :: Flag(flags.mem, j) == if j < i then !(s.kept[j] && s.young[j])
                                                 else !s.kept[j]
      {
        if epochFlags[i] {
          epochFlags := epochFlags[i := false];
        } else {
          flags.BitSet(i);
        }
        i := i + 1;
      }
      AgedProper(s);
      assert S().kept == Aged(s).kept;
      assert S().young == Aged(s).young;
    }

    /** Ages the epochs when the current one is full, as far as the heuristic lets it look. */
    method EpochCheck()
      requires Valid()
      modifies this`epochFlags, this`counter, flags
      ensures Structured() && |Young(Entries(S()))| + counter < epochSize + Slack(epochSize)
      ensures |Old(Entries(S()))| <= epochSize + Slack(epochSize)
      ensures old(counter) != 0 ==> S() == old(S()) && counter == old(counter) - 1
      ensures old(counter) == 0 && |Young(old(Entries(S())))| >= epochSize
              ==> S() == Aged(old(S())) && Entries(S()) == AgedEntries(old(Entries(S()))) && counter == epochSize
      ensures old(counter) == 0 && |Young(old(Entries(S())))| < epochSize
              ==> S() == old(S()) && counter == Max(1, Max(epochSize / 16, epochSize - |Young(Entries(S()))|))
    {
      hide Proper, Entries, Aged, Young, Old, AgedEntries;
      if counter != 0 {
        counter := counter - 1;
        return;
      }
      var count := EpochScan();
      if count >= epochSize {
        ghost var s := S();
        Age();
        AgedProper(s);
        AgedLoad(Entries(s));
        counter := epochSize;
      } else {
        counter := Max(1, Max(epochSize / 16, epochSize - count));
      }
    }

    method ComputeHashes(e: E) returns (locs: seq<nat>)
      requires |table| > 0
      ensures |locs| == 8 && forall k: nat | k < 8 :: locs[k] == Position(S(), e, k) < |table|
    {
      ghost var s := S();
      forall k: nat | k < 8
        ensures Position(s, e, k) < |table|
      {
        PositionBound(s, e, k);
      }
      var size, h := |table|, hash;
      locs := seq<nat>(8, k requires 0 <= k => FastRange(h(e, k), size));
    }

    /** The first position that holds the element, or 8. */
    method Find(e: E, locs: seq<nat>) returns (k: nat)
      requires |locs| == 8 && forall j: nat | j < 8 :: locs[j] == Position(S(), e, j) < |table|
      ensures k <= 8 && (forall j: nat | j < k :: !InTable(S(), locs[j], e)) && (k < 8 ==> FirstAt(S(), e, k))
    {
      k := 0;
      while k < 8 && table[locs[k]] != e
        invariant k <= 8 && forall j: nat | j < k :: !InTable(S(), locs[j], e)
      {
        k := k + 1;
      }
    }

    /** The first position that may be overwritten, or 8. */
    method FindFree(locs: seq<nat>) returns (k: nat)
      requires Structured() && |locs| == 8 && forall j: nat | j < 8 :: locs[j] < |table|
      ensures k <= 8 && (forall j: nat | j < k :: S().kept[locs[j]]) && (k < 8 ==> !S().kept[locs[k]])
    {
      k := 0;
      while k < 8
        invariant k <= 8 && forall j: nat | j < k :: S().kept[locs[j]]
      {
        var free := flags.BitIsSet(locs[k]);
        if free {
          return;
        }
        k := k + 1;
      }
    }

    method Write(i: nat, e: E, y: bool)
      requires Structured() && i < |table|
      modifies this`table, this`epochFlags, flags
      ensures S() == Put(old(S()), i, e, y) && 8 * |flags.mem| >= |table| && |table| == old(|table|)
    {
      ghost var mem := flags.mem;
      table := table[i := e];
      flags.BitUnset(i);
      epochFlags := epochFlags[i := y];
      KeptOne(mem, flags.mem, |table|, i, true);
    }

    /** Loses at most one kept element, possibly the inserted one. */
    method Insert(inserted: E)
      requires Valid()
      modifies this`table, this`epochFlags, this`counter, flags
      ensures Valid() && |table| == old(|table|)
      ensures old(counter) == 0 && |Young(old(Entries(S())))| >= epochSize
              ==> Inserted(AgedEntries(old(Entries(S()))), Entries(S()), inserted)
      ensures old(counter) != 0 || |Young(old(Entries(S())))| < epochSize
              ==> Inserted(old(Entries(S())), Entries(S()), inserted)
    {
      hide Proper, Entries, Put, Position, FastRange, Young, Old, AgedEntries, Inserted, InHand, Slack, Aged;
      EpochCheck();
      ghost var was := Entries(S());
      Settle(inserted);
      LoadInserted(was, Entries(S()), inserted, counter, epochSize);
    }

    /** The insertion proper, once the epochs have been looked at. */
    method Settle(inserted: E)
      requires Structured()
      modifies this`table, this`epochFlags, flags
      ensures Structured() && |table| == old(|table|) && Inserted(old(Entries(S())), Entries(S()), inserted)
    {
      hide Proper, Entries, Put, Position, FastRange, Inserted, InHand;
      ghost var was := Entries(S());
      var locs := ComputeHashes(inserted);
      var k := Find(inserted, locs);
      if k < 8 {
        Refreshed(S(), inserted, k);
        InsertedAll(was, inserted);
        Write(locs[k], inserted, true);
        return;
      }
      InHandAbsent(S(), inserted);
      InHandStart(S(), inserted);
      var e, lastEpoch := inserted, true;
      var lastLoc: int := -1;
      var depth := 0;
      while depth < depthLimit
        invariant InHand(S(), was, inserted, e, lastEpoch) && 8 * |flags.mem| >= |table| && |table| == old(|table|) > 0
        invariant |locs| == 8 && forall j: nat | j < 8 :: locs[j] == Position(S(), e, j) < |table|
        decreases depthLimit - depth
      {
        InHandFacts(S(), was, inserted, e, lastEpoch);
        var free := FindFree(locs);
        if free < 8 {
          InHandPlaced(S(), was, inserted, e, lastEpoch, free);
          Write(locs[free], e, lastEpoch);
          return;
        }
        var next := NextIndex(locs, lastLoc);
        lastLoc := locs[next];
        InHandSwapped(S(), was, inserted, e, lastEpoch, next);
        var evicted, epoch := table[lastLoc], epochFlags[lastLoc];
        Write(lastLoc, e, lastEpoch);
        e, lastEpoch := evicted, epoch;
        locs := ComputeHashes(e);
        depth := depth + 1;
      }
      InHandFacts(S(), was, inserted, e, lastEpoch);
      InHandLost(S(), was, inserted, e, lastEpoch);
    }

    /** Whether one of its positions holds the element, erased or not; if asked, lets it go. */
    method Contains(e: E, erase: bool) returns (found: bool)
      requires Valid()
      modifies flags
      ensures Valid() && found == exists k: nat :: FirstAt(old(S()), e, k)
      ensures old(Kept(S(), e)) ==> found
      ensures if found && erase then Entries(S()) == old(Entries(S())) - {(e, true), (e, false)} else S() == old(S())
    {
      hide Entries, Proper, Position, FastRange, LoadOk;
      ghost var s := S();
      var locs := ComputeHashes(e);
      var k := Find(e, locs);
      KeptFound(s, e);
      if k == 8 {
        return false;
      }
      if erase {
        ghost var mem := flags.mem;
        flags.BitSet(locs[k]);
        KeptOne(mem, flags.mem, |table|, locs[k], false);
        assert S() == Drop(s, locs[k]);
        Erased(s, e, k);
        LoadErased(Entries(s), Entries(S()), counter, epochSize);
      }
      found := true;
    }
  }

  lemma LoadErased<E(!new)>(es: set<(E, bool)>, fs: set<(E, bool)>, counter: nat, epochSize: nat)
    requires LoadOk(es, counter, epochSize) && fs <= es
    ensures LoadOk(fs, counter, epochSize)
  {
    LoadFewer(es, fs);
  }

  lemma KeptFirst<E(!new)>(s: Slots<E>, e: E, k: nat, j: nat)
    requires Proper(s) && FirstAt(s, e, k)
    ensures KeptAt(s, j, e) ==> j == Position(s, e, k)
  {
    if KeptAt(s, j, e) {
      var m: nat :| FirstAt(s, e, m) && Position(s, e, m) == j;
      FirstUnique(s, e, k, m);
    }
  }

  lemma PairGone<E(!new)>(es: set<(E, bool)>, fs: set<(E, bool)>, e: E, y: bool)
    requires (fs == es || fs == es - {(e, y)}) && (e, true) !in fs && (e, false) !in fs
    ensures fs == es - {(e, true), (e, false)}
  {
    if y {
      assert fs == es || fs == es - {(e, true)};
    } else {
      assert fs == es || fs == es - {(e, false)};
    }
  }

  lemma Erased<E(!new)>(s: Slots<E>, e: E, k: nat)
    requires Sized(s) && Proper(s) && FirstAt(s, e, k)
    ensures var t := Drop(s, Position(s, e, k));
            Sized(t) && Proper(t) && Entries(t) == Entries(s) - {(e, true), (e, false)}
  {
    var i := Position(s, e, k);
    DropEntries(s, i);
    EntryKept(s, e);
    var t := Drop(s, i);
    EntryKept(t, e);
    assert !Kept(t, e) by {
      forall j: nat
        ensures !KeptAt(t, j, e)
      {
        KeptFirst(s, e, k, j);
      }
    }
    PairGone(Entries(s), Entries(t), e, s.young[i]);
  }
}
