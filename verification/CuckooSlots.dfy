/** A cuckoo table as a value: elements, which slots are kept, and which belong to the current epoch. */
module CuckooSlots {
  import opened Numerals

  /** Maps a 32-bit hash onto [0, n). */
  function FastRange(x: uint32, n: nat): nat {
    x * n / 0x1_0000_0000
  }

  lemma FastRangeBound(x: uint32, n: nat)
    requires n > 0
    ensures FastRange(x, n) < n
  {
    assert x * n < 0x1_0000_0000 * n;
  }

  datatype Slots<!E> = Slots(hash: (E, nat) -> uint32, table: seq<E>, kept: seq<bool>, young: seq<bool>)

  /** The k-th of the eight positions of an element. */
  function Position<E(!new)>(s: Slots<E>, e: E, k: nat): nat {
    FastRange(s.hash(e, k), |s.table|)
  }

  ghost predicate Sized<E(!new)>(s: Slots<E>) {
    |s.table| > 0 && |s.kept| == |s.table| && |s.young| == |s.table|
  }

  lemma PositionBound<E(!new)>(s: Slots<E>, e: E, k: nat)
    requires |s.table| > 0
    ensures Position(s, e, k) < |s.table|
  {
    FastRangeBound(s.hash(e, k), |s.table|);
  }

  ghost predicate InTable<E(!new)>(s: Slots<E>, i: nat, e: E) {
    i < |s.table| && s.table[i] == e
  }

  ghost predicate KeptAt<E(!new)>(s: Slots<E>, i: nat, e: E) {
    InTable(s, i, e) && i < |s.kept| && s.kept[i]
  }

  /** Position k is the first of its positions that holds the element. */
  ghost predicate FirstAt<E(!new)>(s: Slots<E>, e: E, k: nat) {
    k < 8 && InTable(s, Position(s, e, k), e) && forall j: nat | j < k :: !InTable(s, Position(s, e, j), e)
  }

  /** A kept slot is where looking for its element ends. */
  ghost predicate Proper<E(!new)>(s: Slots<E>) {
    forall i: nat, e: E | KeptAt(s, i, e) :: exists k: nat :: FirstAt(s, e, k) && Position(s, e, k) == i
  }

  ghost predicate Kept<E(!new)>(s: Slots<E>, e: E) {
    exists i: nat :: KeptAt(s, i, e)
  }

  /** The kept elements with their epochs. */
  ghost function Entries<E(!new)>(s: Slots<E>): set<(E, bool)>
    requires Sized(s)
  {
    set i | 0 <= i < |s.table| && s.kept[i] :: (s.table[i], s.young[i])
  }

  lemma FirstUnique<E(!new)>(s: Slots<E>, e: E, j: nat, k: nat)
    requires FirstAt(s, e, j) && FirstAt(s, e, k)
    ensures j == k
  {
  }

  /** No element is kept twice, and its kept slot is one of its own positions. */
  lemma KeptOnce<E(!new)>(s: Slots<E>, i: nat, j: nat, e: E)
    requires Proper(s) && KeptAt(s, i, e) && KeptAt(s, j, e)
    ensures i == j && exists k: nat :: k < 8 && Position(s, e, k) == i
  {
    var a: nat :| FirstAt(s, e, a) && Position(s, e, a) == i;
    var b: nat :| FirstAt(s, e, b) && Position(s, e, b) == j;
    FirstUnique(s, e, a, b);
  }

  lemma EntryHolds<E(!new)>(s: Slots<E>, e: E, b: bool)
    requires Sized(s)
    ensures (e, b) in Entries(s) ==> Kept(s, e)
  {
    if (e, b) in Entries(s) {
      var i :| 0 <= i < |s.table| && s.kept[i] && (s.table[i], s.young[i]) == (e, b);
      assert KeptAt(s, i, e);
    }
  }

  lemma EntryKept<E(!new)>(s: Slots<E>, e: E)
    requires Sized(s)
    ensures Kept(s, e) <==> (e, true) in Entries(s) || (e, false) in Entries(s)
  {
    if Kept(s, e) {
      var i: nat :| KeptAt(s, i, e);
      var b := s.young[i];
      assert (e, b) in Entries(s);
      if b {
        assert (e, true) in Entries(s);
      } else {
        assert (e, false) in Entries(s);
      }
    }
    EntryHolds(s, e, true);
    EntryHolds(s, e, false);
  }

  // ---------------------------------------------------------------- writing a slot

  /** The element goes into the slot, which is kept from now on. */
  function Put<E(!new)>(s: Slots<E>, i: nat, e: E, y: bool): Slots<E>
    requires i < |s.table| == |s.kept| == |s.young|
  {
    s.(table := s.table[i := e], kept := s.kept[i := true], young := s.young[i := y])
  }

  function Drop<E(!new)>(s: Slots<E>, i: nat): Slots<E>
    requires i < |s.kept|
  {
    s.(kept := s.kept[i := false])
  }

  lemma PutPosition<E(!new)>(s: Slots<E>, i: nat, e: E, y: bool, x: E, k: nat)
    requires Sized(s) && i < |s.table|
    ensures Position(Put(s, i, e, y), x, k) == Position(s, x, k)
  {
  }

  lemma PutAt<E(!new)>(s: Slots<E>, i: nat, e: E, y: bool, j: nat, x: E)
    requires Sized(s) && i < |s.table|
    ensures InTable(Put(s, i, e, y), j, x) <==> if j == i then x == e else InTable(s, j, x)
    ensures KeptAt(Put(s, i, e, y), j, x) <==> if j == i then x == e else KeptAt(s, j, x)
  {
  }

  /** What was first in place stays first when another slot is overwritten by another element. */
  lemma FirstKept<E(!new)>(s: Slots<E>, i: nat, e: E, y: bool, x: E, k: nat)
    requires Sized(s) && i < |s.table| && x != e && FirstAt(s, x, k) && Position(s, x, k) != i
    ensures FirstAt(Put(s, i, e, y), x, k)
  {
    hide Position, Put, InTable;
    PutPosition(s, i, e, y, x, k);
    PutAt(s, i, e, y, Position(s, x, k), x);
    forall j: nat | j < k
      ensures !InTable(Put(s, i, e, y), Position(Put(s, i, e, y), x, j), x)
    {
      PutPosition(s, i, e, y, x, j);
      PutAt(s, i, e, y, Position(s, x, j), x);
    }
  }

  /** An element not kept so far may take a position of its own when every earlier one is kept. */
  lemma PutProper<E(!new)>(s: Slots<E>, e: E, k: nat, y: bool)
    requires Sized(s) && Proper(s) && k < 8 && !Kept(s, e)
    requires forall j: nat | j < k :: Position(s, e, j) < |s.table| && s.kept[Position(s, e, j)]
    ensures Position(s, e, k) < |s.table|
    ensures Sized(Put(s, Position(s, e, k), e, y)) && Proper(Put(s, Position(s, e, k), e, y))
  {
    PositionBound(s, e, k);
    var i := Position(s, e, k);
    var t := Put(s, i, e, y);
    hide Put, Position, FirstAt, Proper, KeptAt, InTable;
    var m := FirstOwn(s, e, k, y);
    PutSized(s, i, e, y);
    forall j: nat, x: E | KeptAt(t, j, x)
      ensures exists c: nat :: FirstAt(t, x, c) && Position(t, x, c) == j
    {
      PutAt(s, i, e, y, j, x);
      if j == i {
        assert FirstAt(t, x, m) && Position(t, x, m) == j;
      } else {
        var c := FirstOther(s, i, e, y, j, x);
        assert FirstAt(t, x, c) && Position(t, x, c) == j;
      }
    }
    ProperAll(t);
  }

  lemma ProperAll<E(!new)>(s: Slots<E>)
    requires forall i: nat, e: E | KeptAt(s, i, e) :: exists k: nat :: FirstAt(s, e, k) && Position(s, e, k) == i
    ensures Proper(s)
  {
  }

  lemma PutSized<E(!new)>(s: Slots<E>, i: nat, e: E, y: bool)
    requires Sized(s) && i < |s.table|
    ensures Sized(Put(s, i, e, y))
  {
  }

  lemma FirstOther<E(!new)>(s: Slots<E>, i: nat, e: E, y: bool, j: nat, x: E) returns (c: nat)
    requires Sized(s) && Proper(s) && i < |s.table| && !Kept(s, e) && j != i && KeptAt(s, j, x)
    ensures FirstAt(Put(s, i, e, y), x, c) && Position(Put(s, i, e, y), x, c) == j
  {
    hide Put, Position;
    c :| FirstAt(s, x, c) && Position(s, x, c) == j;
    FirstKept(s, i, e, y, x, c);
    PutPosition(s, i, e, y, x, c);
  }

  /** The first position of the written element: k, or an earlier one that is the same slot. */
  lemma FirstOwn<E(!new)>(s: Slots<E>, e: E, k: nat, y: bool) returns (m: nat)
    requires Sized(s) && k < 8 && !Kept(s, e) && Position(s, e, k) < |s.table|
    requires forall j: nat | j < k :: Position(s, e, j) < |s.table| && s.kept[Position(s, e, j)]
    ensures FirstAt(Put(s, Position(s, e, k), e, y), e, m)
    ensures Position(Put(s, Position(s, e, k), e, y), e, m) == Position(s, e, k)
  {
    hide Position, Put;
    var i := Position(s, e, k);
    m := FirstIndex(s, e, k);
    PutPosition(s, i, e, y, e, m);
    PutAt(s, i, e, y, i, e);
    forall j: nat | j < m
      ensures !InTable(Put(s, i, e, y), Position(Put(s, i, e, y), e, j), e)
    {
      PutPosition(s, i, e, y, e, j);
      PutAt(s, i, e, y, Position(s, e, j), e);
      assert InTable(s, Position(s, e, j), e) ==> KeptAt(s, Position(s, e, j), e);
    }
  }

  lemma FirstIndex<E(!new)>(s: Slots<E>, e: E, k: nat) returns (m: nat)
    ensures m <= k && Position(s, e, m) == Position(s, e, k)
    ensures forall j: nat | j < m :: Position(s, e, j) != Position(s, e, k)
  {
    m := 0;
    while m < k && Position(s, e, m) != Position(s, e, k)
      invariant m <= k && forall j: nat | j < m :: Position(s, e, j) != Position(s, e, k)
    {
      m := m + 1;
    }
  }

  /** What writing a slot does to the entries: the slot's own entry, if it was kept, makes way. */
  lemma PutEntries<E(!new)>(s: Slots<E>, i: nat, e: E, y: bool)
    requires Sized(s) && Proper(s) && i < |s.table| && (!Kept(s, e) || KeptAt(s, i, e))
    ensures Entries(Put(s, i, e, y))
         == (if s.kept[i] then Entries(s) - {(s.table[i], s.young[i])} else Entries(s)) - {(e, !y)} + {(e, y)}
  {
    var t := Put(s, i, e, y);
    var gone := if s.kept[i] then {(s.table[i], s.young[i])} else {};
    forall p | p in Entries(t)
      ensures p in Entries(s) - gone - {(e, !y)} + {(e, y)}
    {
      var j :| 0 <= j < |t.table| && t.kept[j] && (t.table[j], t.young[j]) == p;
      if j != i {
        OtherEntry(s, i, e, j);
      }
    }
    forall p | p in Entries(s) - gone - {(e, !y)} + {(e, y)}
      ensures p in Entries(t)
    {
      if p == (e, y) {
        assert t.kept[i] && (t.table[i], t.young[i]) == p;
      } else {
        var j :| 0 <= j < |s.table| && s.kept[j] && (s.table[j], s.young[j]) == p;
        assert t.kept[j] && (t.table[j], t.young[j]) == p;
      }
    }
  }

  /** A kept slot other than the written one shares its element neither with it nor with what it held. */
  lemma OtherEntry<E(!new)>(s: Slots<E>, i: nat, e: E, j: nat)
    requires Sized(s) && Proper(s) && i < |s.table| && (!Kept(s, e) || KeptAt(s, i, e))
    requires j < |s.table| && j != i && s.kept[j]
    ensures s.table[j] != e && (s.kept[i] ==> s.table[j] != s.table[i])
  {
    hide Proper;
    var x := s.table[j];
    assert KeptAt(s, j, x);
    if KeptAt(s, i, x) {
      KeptOnce(s, i, j, x);
    }
  }

  // ---------------------------------------------------------------- fewer kept slots

  lemma ProperFewer<E(!new)>(s: Slots<E>, t: Slots<E>)
    requires Sized(s) && Sized(t) && Proper(s) && t.hash == s.hash && t.table == s.table
    requires forall i | 0 <= i < |s.table| && t.kept[i] :: s.kept[i]
    ensures Proper(t)
  {
    hide Position;
    forall i: nat, e: E | KeptAt(t, i, e)
      ensures exists k: nat :: FirstAt(t, e, k) && Position(t, e, k) == i
    {
      assert KeptAt(s, i, e);
      var k: nat :| FirstAt(s, e, k) && Position(s, e, k) == i;
      SamePositions(s, t);
      assert FirstAt(t, e, k) && Position(t, e, k) == i;
    }
  }

  lemma SamePositions<E(!new)>(s: Slots<E>, t: Slots<E>)
    requires t.hash == s.hash && t.table == s.table
    ensures forall e: E, k: nat :: Position(t, e, k) == Position(s, e, k)
  {
  }

  lemma DropEntries<E(!new)>(s: Slots<E>, i: nat)
    requires Sized(s) && Proper(s) && i < |s.table|
    ensures Sized(Drop(s, i)) && Proper(Drop(s, i))
    ensures Entries(Drop(s, i)) == if s.kept[i] then Entries(s) - {(s.table[i], s.young[i])} else Entries(s)
  {
    var t := Drop(s, i);
    ProperFewer(s, t);
    var gone := if s.kept[i] then {(s.table[i], s.young[i])} else {};
    forall p | p in Entries(t)
      ensures p in Entries(s) - gone
    {
      var j :| 0 <= j < |t.table| && t.kept[j] && (t.table[j], t.young[j]) == p;
      if s.kept[i] {
        assert KeptAt(s, i, s.table[i]);
        OtherEntry(s, i, s.table[i], j);
      }
    }
    forall p | p in Entries(s) - gone
      ensures p in Entries(t)
    {
      var j :| 0 <= j < |s.table| && s.kept[j] && (s.table[j], s.young[j]) == p;
      assert t.kept[j] && (t.table[j], t.young[j]) == p;
    }
  }

  // ---------------------------------------------------------------- epochs

  ghost function Young<E(!new)>(es: set<(E, bool)>): set<(E, bool)> {
    set p | p in es && p.1
  }

  ghost function Old<E(!new)>(es: set<(E, bool)>): set<(E, bool)> {
    set p | p in es && !p.1
  }

  /** The entries of the current epoch, as those of the one before. */
  ghost function AgedEntries<E(!new)>(es: set<(E, bool)>): set<(E, bool)> {
    set p | p in es && p.1 :: (p.0, false)
  }

  ghost function Aged<E(!new)>(s: Slots<E>): Slots<E>
    requires Sized(s)
  {
    s.(kept := seq(|s.table|, i requires 0 <= i < |s.table| => s.kept[i] && s.young[i]),
       young := seq(|s.table|, i => false))
  }

  lemma AgedProper<E(!new)>(s: Slots<E>)
    requires Sized(s) && Proper(s)
    ensures Sized(Aged(s)) && Proper(Aged(s)) && Entries(Aged(s)) == AgedEntries(Entries(s))
  {
    var t := Aged(s);
    ProperFewer(s, t);
    forall p | p in Entries(t)
      ensures p in AgedEntries(Entries(s))
    {
      var j :| 0 <= j < |t.table| && t.kept[j] && (t.table[j], t.young[j]) == p;
      var q := (s.table[j], s.young[j]);
      assert q in Entries(s) && q.1;
    }
    forall p | p in AgedEntries(Entries(s))
      ensures p in Entries(t)
    {
      var q :| q in Entries(s) && q.1 && p == (q.0, false);
      var j :| 0 <= j < |s.table| && s.kept[j] && (s.table[j], s.young[j]) == q;
      assert t.kept[j] && (t.table[j], t.young[j]) == p;
    }
  }

  ghost function YoungSlots<E(!new)>(s: Slots<E>, n: nat): set<nat>
    requires Sized(s) && n <= |s.table|
  {
    set i: nat | i < n && s.kept[i] && s.young[i]
  }

  lemma YoungSlotsNext<E(!new)>(s: Slots<E>, n: nat)
    requires Sized(s) && n < |s.table|
    ensures YoungSlots(s, n + 1) == YoungSlots(s, n) + (if s.kept[n] && s.young[n] then {n} else {})
    ensures n !in YoungSlots(s, n)
    ensures |YoungSlots(s, n + 1)| == |YoungSlots(s, n)| + (if s.kept[n] && s.young[n] then 1 else 0)
  {
    assert YoungSlots(s, n + 1) == YoungSlots(s, n) + (if s.kept[n] && s.young[n] then {n} else {});
  }

  lemma YoungSlotsNone<E(!new)>(s: Slots<E>)
    requires Sized(s)
    ensures |YoungSlots(s, 0)| == 0
  {
  }

  ghost function YoungUpTo<E(!new)>(s: Slots<E>, n: nat): set<(E, bool)>
    requires Sized(s) && n <= |s.table|
  {
    set i: nat | i < n && s.kept[i] && s.young[i] :: (s.table[i], true)
  }

  /** The scan counts the entries of the current epoch. */
  lemma {:induction false} YoungCount<E(!new)>(s: Slots<E>, n: nat)
    requires Sized(s) && Proper(s) && n <= |s.table|
    ensures |YoungSlots(s, n)| == |YoungUpTo(s, n)|
  {
    if n > 0 {
      var m := n - 1;
      YoungCount(s, m);
      YoungSlotsNext(s, m);
      YoungUpToNext(s, m);
    }
  }

  lemma YoungUpToNext<E(!new)>(s: Slots<E>, m: nat)
    requires Sized(s) && Proper(s) && m < |s.table|
    ensures YoungUpTo(s, m + 1) == YoungUpTo(s, m) + (if s.kept[m] && s.young[m] then {(s.table[m], true)} else {})
    ensures s.kept[m] ==> (s.table[m], true) !in YoungUpTo(s, m)
  {
    if s.kept[m] {
      forall i: nat | i < m && s.kept[i]
        ensures s.table[i] != s.table[m]
      {
        assert KeptAt(s, m, s.table[m]);
        OtherEntry(s, m, s.table[m], i);
      }
    }
  }

  lemma YoungAll<E(!new)>(s: Slots<E>)
    requires Sized(s)
    ensures YoungUpTo(s, |s.table|) == Young(Entries(s))
  {
    forall p | p in YoungUpTo(s, |s.table|)
      ensures p in Young(Entries(s))
    {
      var i: nat :| i < |s.table| && s.kept[i] && s.young[i] && p == (s.table[i], true);
      assert (s.table[i], s.young[i]) in Entries(s);
    }
    forall p | p in Young(Entries(s))
      ensures p in YoungUpTo(s, |s.table|)
    {
      var i :| 0 <= i < |s.table| && s.kept[i] && (s.table[i], s.young[i]) == p;
    }
  }

  // ---------------------------------------------------------------- how full the table gets

  function Slack(epochSize: nat): nat {
    if epochSize / 16 > 1 then epochSize / 16 else 1
  }

  /** Neither epoch outgrows its size by more than the slack of the heuristic. */
  ghost predicate LoadOk<E(!new)>(es: set<(E, bool)>, counter: nat, epochSize: nat) {
    |Young(es)| + counter <= epochSize + Slack(epochSize) && |Old(es)| <= epochSize + Slack(epochSize)
  }

  lemma YoungOldSplit<E(!new)>(es: set<(E, bool)>)
    ensures |es| == |Young(es)| + |Old(es)|
  {
    assert es == Young(es) + Old(es) && Young(es) !! Old(es);
  }

  lemma LoadFewer<E(!new)>(es: set<(E, bool)>, fs: set<(E, bool)>)
    requires fs <= es
    ensures |Young(fs)| <= |Young(es)| && |Old(fs)| <= |Old(es)|
  {
    Subset(Young(fs), Young(es));
    Subset(Old(fs), Old(es));
  }

  lemma Subset<T>(a: set<T>, b: set<T>)
    requires a <= b
    ensures |a| <= |b|
  {
    assert b == a + (b - a);
  }

  lemma LoadAdded<E(!new)>(es: set<(E, bool)>, fs: set<(E, bool)>, e: E)
    requires fs <= es + {(e, true)}
    ensures |Young(fs)| <= |Young(es)| + 1 && |Old(fs)| <= |Old(es)|
  {
    LoadFewer(es + {(e, true)}, fs);
    assert Young(es + {(e, true)}) == Young(es) + {(e, true)};
    assert Old(es + {(e, true)}) == Old(es);
  }

  lemma {:induction false} AgedSize<E(!new)>(es: set<(E, bool)>)
    ensures |AgedEntries(es)| <= |Young(es)|
    decreases |es|
  {
    if es != {} {
      var p :| p in es;
      var r := es - {p};
      AgedSize(r);
      if p.1 {
        assert AgedEntries(es) == AgedEntries(r) + {(p.0, false)};
        assert Young(es) == Young(r) + {p};
      } else {
        assert AgedEntries(es) == AgedEntries(r);
        assert Young(es) == Young(r);
      }
    }
  }

  lemma AgedLoad<E(!new)>(es: set<(E, bool)>)
    ensures |Young(AgedEntries(es))| == 0 && |Old(AgedEntries(es))| <= |Young(es)|
  {
    AgedSize(es);
    assert Young(AgedEntries(es)) == {};
    assert Old(AgedEntries(es)) == AgedEntries(es);
  }
}
