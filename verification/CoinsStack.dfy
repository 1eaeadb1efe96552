/** A stack of UTXO caches over a database. Level n looks at the level below it; level 0 is the
    database. The stack as a whole behaves like one map from outpoints to unspent coins. */
module CoinsStack {
  import opened Options
  import opened Coins

  // ---------------------------------------------------------------- views

  /** The coins seen at level n. */
  ghost function ViewOf(db: View, levels: seq<Cache>, n: nat): View {
    if n == 0 || n > |levels| then db else Overlay(levels[n - 1], ViewOf(db, levels, n - 1))
  }

  ghost predicate StackOk(db: View, levels: seq<Cache>) {
    AllUnspent(db) && forall n | 0 <= n < |levels| :: CacheOk(levels[n], ViewOf(db, levels, n))
  }

  /** The books of every cache are exact, whether or not its flags are right about the level below. */
  ghost predicate BooksOk(db: View, levels: seq<Cache>) {
    AllUnspent(db) && forall n | 0 <= n < |levels| :: Tracked(levels[n])
  }

  ghost predicate EntriesOkBut(c: Cache, base: View, o: OutPoint) {
    forall x | x in c.coins && x != o :: EntryOk(c.coins[x], x, base)
  }

  /** As StackOk, except perhaps for the entry of o at the top. */
  ghost predicate OkBut(db: View, levels: seq<Cache>, o: OutPoint) {
    && BooksOk(db, levels) && levels != []
    && (forall n | 0 <= n < |levels| - 1 :: CacheOk(levels[n], ViewOf(db, levels, n)))
    && EntriesOkBut(levels[|levels| - 1], ViewOf(db, levels, |levels| - 1), o)
  }

  lemma StackBooks(db: View, levels: seq<Cache>)
    requires StackOk(db, levels)
    ensures BooksOk(db, levels)
    ensures forall o :: levels != [] ==> OkBut(db, levels, o)
  {
    hide ViewOf, Tracked, EntryOk, AllUnspent;
    forall n | 0 <= n < |levels|
      ensures Tracked(levels[n])
      ensures forall x | x in levels[n].coins :: EntryOk(levels[n].coins[x], x, ViewOf(db, levels, n))
    {
      assert CacheOk(levels[n], ViewOf(db, levels, n));
    }
  }

  /** An entry that is not there is no exception. */
  lemma OkButAbsent(db: View, levels: seq<Cache>, o: OutPoint)
    requires OkBut(db, levels, o) && o !in levels[|levels| - 1].coins
    ensures StackOk(db, levels)
  {
    hide ViewOf, Tracked, EntryOk, AllUnspent;
    assert CacheOk(levels[|levels| - 1], ViewOf(db, levels, |levels| - 1));
  }

  /** The best block seen at level n: the first one set from there down. */
  ghost function BestOf(dbBlock: nat, levels: seq<Cache>, n: nat): nat {
    if n == 0 || n > |levels| then dbBlock
    else if levels[n - 1].block != 0 then levels[n - 1].block else BestOf(dbBlock, levels, n - 1)
  }

  lemma TopView(db: View, levels: seq<Cache>, n: nat)
    requires 0 < n <= |levels|
    ensures ViewOf(db, levels, n) == Overlay(levels[n - 1], ViewOf(db, levels, n - 1))
  {
  }

  lemma {:induction false} ViewBelow(db: View, a: seq<Cache>, b: seq<Cache>, n: nat)
    requires n <= |a| && n <= |b| && a[..n] == b[..n]
    ensures ViewOf(db, a, n) == ViewOf(db, b, n)
  {
    if n > 0 {
      assert a[..n - 1] == a[..n][..n - 1] && b[..n - 1] == b[..n][..n - 1];
      assert a[n - 1] == a[..n][n - 1] && b[n - 1] == b[..n][n - 1];
      ViewBelow(db, a, b, n - 1);
    }
  }

  /** Replacing level n by a cache that shows the same changes no view. */
  lemma {:induction false} ViewsKept(db: View, levels: seq<Cache>, n: nat, c: Cache, m: nat)
    requires n < |levels| && Overlay(c, ViewOf(db, levels, n)) == Overlay(levels[n], ViewOf(db, levels, n))
             && m <= |levels|
    ensures ViewOf(db, levels[n := c], m) == ViewOf(db, levels, m)
  {
    hide Overlay;
    if m > 0 {
      ViewsKept(db, levels, n, c, m - 1);
    }
  }

  lemma Replaced(db: View, levels: seq<Cache>, n: nat, c: Cache)
    requires n < |levels| && Overlay(c, ViewOf(db, levels, n)) == Overlay(levels[n], ViewOf(db, levels, n))
    ensures SameViews(db, levels, levels[n := c])
    ensures StackOk(db, levels) && CacheOk(c, ViewOf(db, levels, n)) ==> StackOk(db, levels[n := c])
  {
    hide Overlay, CacheOk;
    forall m | 0 <= m <= |levels|
      ensures ViewOf(db, levels[n := c], m) == ViewOf(db, levels, m)
    {
      ViewsKept(db, levels, n, c, m);
    }
  }

  ghost predicate SameViews(db: View, a: seq<Cache>, b: seq<Cache>) {
    |a| == |b| && forall m | 0 <= m <= |a| :: ViewOf(db, b, m) == ViewOf(db, a, m)
  }

  /** Changing the top level changes only the top view. */
  lemma TopReplaced(db: View, levels: seq<Cache>, c: Cache)
    requires levels != []
    ensures var n := |levels| - 1; var after := levels[n := c];
            && ViewOf(db, after, n + 1) == Overlay(c, ViewOf(db, levels, n))
            && (forall m | 0 <= m <= n :: ViewOf(db, after, m) == ViewOf(db, levels, m))
            && (StackOk(db, levels) && CacheOk(c, ViewOf(db, levels, n)) ==> StackOk(db, after))
  {
    hide Overlay, CacheOk, ViewOf;
    var n := |levels| - 1;
    var after := levels[n := c];
    forall m | 0 <= m <= n
      ensures ViewOf(db, after, m) == ViewOf(db, levels, m)
    {
      ViewBelow(db, after, levels, m);
    }
    TopView(db, after, n + 1);
  }

  lemma {:induction false} ViewsUnspent(db: View, levels: seq<Cache>, n: nat)
    requires AllUnspent(db)
    ensures AllUnspent(ViewOf(db, levels, n))
  {
    hide Overlay;
    if 0 < n <= |levels| {
      ViewsUnspent(db, levels, n - 1);
      OverlayUnspent(levels[n - 1], ViewOf(db, levels, n - 1));
    }
  }

  // ---------------------------------------------------------------- filling

  /** A coin of the base is put into the cache unchanged. */
  lemma FetchedView(c: Cache, base: View, o: OutPoint)
    requires o !in c.coins && o in base && AllUnspent(base)
    ensures Overlay(Stored(c, o, Entry(base[o], false, false)), base) == Overlay(c, base)
    ensures CacheOk(c, base) ==> CacheOk(Stored(c, o, Entry(base[o], false, false)), base)
  {
    hide Overlay, Tracked;
    StoredOverlay(c, base, o, Entry(base[o], false, false));
    OverlayAt(c, base, o);
    SameView(Overlay(c, base)[o := base[o]], Overlay(c, base));
    if CacheOk(c, base) {
      StoredView(c, base, o, Entry(base[o], false, false));
    }
  }

  // ---------------------------------------------------------------- flushing

  /** The first i outpoints of a list. */
  ghost function Firsts(list: seq<OutPoint>, i: nat): set<OutPoint> {
    if i <= |list| then set o | o in list[..i] else {}
  }

  lemma FirstsStep(list: seq<OutPoint>, i: nat)
    requires Distinct(list) && i < |list|
    ensures Firsts(list, i + 1) == Firsts(list, i) + {list[i]} && list[i] !in Firsts(list, i) && list[i] in list
  {
    assert list[..i + 1] == list[..i] + [list[i]];
  }

  lemma FirstsEnds(list: seq<OutPoint>)
    ensures Firsts(list, 0) == {} && forall o :: o in Firsts(list, |list|) <==> o in list
  {
    assert list[..|list|] == list;
  }

  /** The view after the entries in done have been written. */
  ghost predicate WrittenTo(c: Cache, before: View, after: View, done: set<OutPoint>) {
    forall o ::
      if o in done && o in c.coins then
        (o in after <==> !c.coins[o].coin.IsSpent()) && (o in after ==> after[o] == c.coins[o].coin)
      else (o in after <==> o in before) && (o in after ==> after[o] == before[o])
  }

  lemma WrittenStep(c: Cache, before: View, after: View, done: set<OutPoint>, o: OutPoint)
    requires WrittenTo(c, before, after, done) && o !in done && o in c.coins
    ensures (o in after <==> o in before) && (o in after ==> after[o] == before[o])
    ensures var e := c.coins[o];
            WrittenTo(c, before, if e.coin.IsSpent() then after - {o} else after[o := e.coin], done + {o})
  {
  }

  /** Once all dirty entries are written, the base shows what the cache showed. */
  lemma WrittenAll(c: Cache, before: View, after: View, done: set<OutPoint>)
    requires CacheOk(c, before) && WrittenTo(c, before, after, done) && forall o :: o in done <==> o in c.flagged
    ensures after == Overlay(c, before)
  {
    hide Overlay;
    forall o
      ensures o in after <==> o in Overlay(c, before)
      ensures o in after ==> after[o] == Overlay(c, before)[o]
    {
      OverlayAt(c, before, o);
    }
    SameView(after, Overlay(c, before));
  }

  lemma EmptyCache(c: Cache, base: View)
    requires c.coins == map[] && c.flagged == [] && c.dirtyCount == 0 && c.usage == 0
    ensures CacheOk(c, base) && Overlay(c, base) == base
  {
    hide Overlay;
    forall o
      ensures o in Overlay(c, base) <==> o in base
      ensures o in base ==> Overlay(c, base)[o] == base[o]
    {
      OverlayAt(c, base, o);
    }
    SameView(Overlay(c, base), base);
  }

  // ---------------------------------------------------------------- syncing

  /** The child after the entries in done have been unflagged, or erased when spent. */
  ghost predicate CleanedTo(c: Cache, c': Cache, done: set<OutPoint>) {
    && (forall o :: o in c'.coins <==> o in c.coins && (o in done ==> !c.coins[o].coin.IsSpent()))
    && (forall o | o in c'.coins && o in c.coins ::
          c'.coins[o] == if o in done then Entry(c.coins[o].coin, false, false) else c.coins[o])
  }

  /** NextAndMaybeErase without wiping. */
  function Cleaned(c: Cache, o: OutPoint): Cache
    requires o in c.coins && c.usage >= c.coins[o].coin.Usage() && (c.coins[o].isDirty ==> c.dirtyCount > 0)
  {
    if c.coins[o].coin.IsSpent() then Erased(c, o) else Stored(c, o, Entry(c.coins[o].coin, false, false))
  }

  lemma UnflaggedHead(list: seq<OutPoint>)
    requires list != [] && Distinct(list)
    ensures Unflagged(list, list[0]) == list[1..]
  {
    UnflaggedAbsent(list[1..], list[0]);
  }

  lemma CleanedStep(c: Cache, c': Cache, done: set<OutPoint>, o: OutPoint)
    requires CleanedTo(c, c', done) && o !in done && o in c.coins && c.coins[o].isDirty
    requires c'.usage >= c.coins[o].coin.Usage() && c'.dirtyCount > 0
    ensures o in c'.coins && c'.coins[o] == c.coins[o] && CleanedTo(c, Cleaned(c', o), done + {o})
  {
    hide Unflagged;
  }

  /** The books stay exact, and the list loses its first entry. */
  lemma CleanedBooks(c: Cache, o: OutPoint)
    requires Tracked(c) && c.flagged != [] && o == c.flagged[0]
    ensures o in c.coins && c.usage >= c.coins[o].coin.Usage() && c.coins[o].isDirty && c.dirtyCount > 0
    ensures Tracked(Cleaned(c, o)) && Cleaned(c, o).flagged == c.flagged[1..]
  {
    assert o in c.flagged;
    NoUnderflow(c, o);
    UnflaggedHead(c.flagged);
    ErasedTracked(c, o);
    StoredTracked(c, o, Entry(c.coins[o].coin, false, false));
    hide TotalUsage, Unflagged, Tracked, Distinct;
  }

  /** After the last entry the child is clean and agrees with the new base. */
  lemma CleanedAll(c: Cache, c': Cache, before: View, done: set<OutPoint>)
    requires CacheOk(c, before) && CleanedTo(c, c', done) && Tracked(c') && forall o :: o in done <==> o in c.flagged
    ensures CacheOk(c', Overlay(c, before)) && Overlay(c', Overlay(c, before)) == Overlay(c, before)
  {
    hide TotalUsage, Overlay;
    var after := Overlay(c, before);
    forall o | o in c'.coins
      ensures EntryOk(c'.coins[o], o, after)
    {
      OverlayAt(c, before, o);
    }
    forall o
      ensures o in Overlay(c', after) <==> o in after
      ensures o in after ==> Overlay(c', after)[o] == after[o]
    {
      OverlayAt(c, before, o);
      OverlayAt(c', after, o);
    }
    SameView(Overlay(c', after), after);
  }

  /** After a flush or sync of level n: the view below has become the view of n, all views from n
      up and below n - 1 are as they were. */
  ghost predicate FlushedViews(db: View, levels: seq<Cache>, db': View, levels': seq<Cache>, n: nat) {
    && |levels'| == |levels| && 0 < n <= |levels|
    && ViewOf(db', levels', n - 1) == ViewOf(db, levels, n)
    && (forall m | 0 <= m <= |levels| && m != n - 1 :: ViewOf(db', levels', m) == ViewOf(db, levels, m))
  }

  lemma {:induction false} ViewsAbove(db: View, a: seq<Cache>, db': View, b: seq<Cache>, n: nat, m: nat)
    requires |a| == |b| && n <= m <= |a| && a[n..] == b[n..] && ViewOf(db, a, n) == ViewOf(db', b, n)
    ensures ViewOf(db', b, m) == ViewOf(db, a, m)
  {
    hide Overlay;
    if m > n {
      ViewsAbove(db, a, db', b, n, m - 1);
      assert a[m - 1] == a[n..][m - 1 - n] && b[m - 1] == b[n..][m - 1 - n];
    }
  }

  lemma FlushedStack(db: View, levels: seq<Cache>, n: nat, p: Cache, c: Cache)
    requires StackOk(db, levels) && 2 <= n <= |levels|
    requires CacheOk(p, ViewOf(db, levels, n - 2)) && Overlay(p, ViewOf(db, levels, n - 2)) == ViewOf(db, levels, n)
    requires CacheOk(c, ViewOf(db, levels, n)) && Overlay(c, ViewOf(db, levels, n)) == ViewOf(db, levels, n)
    ensures var after := levels[n - 2 := p][n - 1 := c]; StackOk(db, after) && FlushedViews(db, levels, db, after, n)
  {
    hide Overlay, CacheOk, ViewOf, StackOk;
    var after := levels[n - 2 := p][n - 1 := c];
    forall m | 0 <= m <= n - 2
      ensures ViewOf(db, after, m) == ViewOf(db, levels, m)
    {
      ViewBelow(db, after, levels, m);
    }
    TopView(db, after, n - 1);
    TopView(db, after, n);
    forall m | n <= m <= |levels|
      ensures ViewOf(db, after, m) == ViewOf(db, levels, m)
    {
      ViewsAbove(db, levels, db, after, n, m);
    }
    FlushedOk(db, levels, after, n);
  }

  lemma FlushedOk(db: View, levels: seq<Cache>, after: seq<Cache>, n: nat)
    requires StackOk(db, levels) && 2 <= n <= |levels| && FlushedViews(db, levels, db, after, n)
    requires after[..n - 2] == levels[..n - 2] && after[n..] == levels[n..]
    requires CacheOk(after[n - 2], ViewOf(db, levels, n - 2)) && CacheOk(after[n - 1], ViewOf(db, levels, n))
    ensures StackOk(db, after)
  {
    hide CacheOk, ViewOf;
    forall m | 0 <= m < |after|
      ensures CacheOk(after[m], ViewOf(db, after, m))
    {
      if m < n - 2 {
        assert after[m] == after[..n - 2][m] && levels[m] == levels[..n - 2][m];
      } else if m >= n {
        assert after[m] == after[n..][m - n] && levels[m] == levels[n..][m - n];
      }
    }
  }

  lemma FlushedDatabase(db: View, levels: seq<Cache>, c: Cache)
    requires StackOk(db, levels) && levels != []
    requires CacheOk(c, ViewOf(db, levels, 1)) && Overlay(c, ViewOf(db, levels, 1)) == ViewOf(db, levels, 1)
    ensures var db', after := ViewOf(db, levels, 1), levels[0 := c];
            StackOk(db', after) && FlushedViews(db, levels, db', after, 1)
  {
    ViewsUnspent(db, levels, 1);
    hide Overlay, CacheOk, AllUnspent;
    var db', after := ViewOf(db, levels, 1), levels[0 := c];
    assert ViewOf(db', after, 1) == Overlay(c, db');
    forall m | 1 <= m <= |levels|
      ensures ViewOf(db', after, m) == ViewOf(db, levels, m)
    {
      ViewsAbove(db, levels, db', after, 1, m);
    }
  }

  // ---------------------------------------------------------------- single operations

  lemma PushedStack(db: View, levels: seq<Cache>, c: Cache)
    requires StackOk(db, levels) && c.coins == map[] && c.flagged == [] && c.dirtyCount == 0 && c.usage == 0
    ensures var n := |levels|; StackOk(db, levels + [c]) && ViewOf(db, levels + [c], n + 1) == ViewOf(db, levels, n)
  {
    hide Overlay, CacheOk, ViewOf;
    var after, n := levels + [c], |levels|;
    forall m | 0 <= m <= n
      ensures ViewOf(db, after, m) == ViewOf(db, levels, m)
    {
      ViewBelow(db, after, levels, m);
    }
    EmptyCache(c, ViewOf(db, levels, n));
    TopView(db, after, n + 1);
  }

  lemma FetchedStack(db: View, levels: seq<Cache>, n: nat, o: OutPoint)
    requires BooksOk(db, levels) && 0 < n <= |levels| && o !in levels[n - 1].coins && o in ViewOf(db, levels, n - 1)
    ensures var c := Stored(levels[n - 1], o, Entry(ViewOf(db, levels, n - 1)[o], false, false));
            && BooksOk(db, levels[n - 1 := c]) && SameViews(db, levels, levels[n - 1 := c])
            && (StackOk(db, levels) ==> StackOk(db, levels[n - 1 := c]))
  {
    hide Overlay, CacheOk, ViewOf, AllUnspent, Tracked;
    ViewsUnspent(db, levels, n - 1);
    FetchedView(levels[n - 1], ViewOf(db, levels, n - 1), o);
    StoredTracked(levels[n - 1], o, Entry(ViewOf(db, levels, n - 1)[o], false, false));
    Replaced(db, levels, n - 1, Stored(levels[n - 1], o, Entry(ViewOf(db, levels, n - 1)[o], false, false)));
  }

  /** A lookup at level n looks into its cache, and below on a miss. */
  lemma LookedUp(db: View, levels: seq<Cache>, n: nat, o: OutPoint)
    requires 0 < n <= |levels|
    ensures var c, v, base := levels[n - 1], ViewOf(db, levels, n), ViewOf(db, levels, n - 1);
            && (o in v <==> if o in c.coins then !c.coins[o].coin.IsSpent() else o in base)
            && (o in v ==> v[o] == if o in c.coins then c.coins[o].coin else base[o])
  {
    hide Overlay, ViewOf;
    TopView(db, levels, n);
    OverlayAt(levels[n - 1], ViewOf(db, levels, n - 1), o);
  }

  lemma LevelCountable(db: View, levels: seq<Cache>, n: nat, o: OutPoint)
    requires BooksOk(db, levels) && 0 < n <= |levels|
    ensures Countable(levels[n - 1], o)
  {
    hide Tracked;
    NoUnderflow(levels[n - 1], o);
  }

  /** What AddCoin leaves of the levels. */
  function Added(levels: seq<Cache>, o: OutPoint, coin: Coin, possibleOverwrite: bool): (after: seq<Cache>)
    requires levels != [] && Countable(levels[|levels| - 1], o)
    ensures |after| == |levels| && after[..|after| - 1] == levels[..|levels| - 1]
    ensures o in after[|after| - 1].coins
            && after[|after| - 1].coins[o] == AddedEntry(levels[|levels| - 1], o, coin, possibleOverwrite)
  {
    var n := |levels| - 1;
    levels[n := Stored(levels[n], o, AddedEntry(levels[n], o, coin, possibleOverwrite))]
  }

  /** AddCoin at the top: the new coin shows. */
  lemma AddedBooks(db: View, levels: seq<Cache>, o: OutPoint, coin: Coin, possibleOverwrite: bool)
    requires BooksOk(db, levels) && levels != [] && !coin.IsSpent() && Countable(levels[|levels| - 1], o)
    ensures var n := |levels|;
            var after := Added(levels, o, coin, possibleOverwrite);
            && BooksOk(db, after) && ViewOf(db, after, n) == ViewOf(db, levels, n)[o := coin]
            && (OkBut(db, levels, o) ==> OkBut(db, after, o))
  {
    hide Overlay, Tracked, ViewOf, EntryOk, CacheOk, AllUnspent;
    var n := |levels|;
    var c, base := levels[n - 1], ViewOf(db, levels, n - 1);
    var e := AddedEntry(c, o, coin, possibleOverwrite);
    TopView(db, levels, n);
    StoredTracked(c, o, e);
    StoredOverlay(c, base, o, e);
    TopReplaced(db, levels, Stored(c, o, e));
  }

  /** For an entry that is absent or spent or may be overwritten: the flags keep their promises exactly
      when an overwrite was announced or the view had no such coin. */
  lemma AddedStack(db: View, levels: seq<Cache>, o: OutPoint, coin: Coin, possibleOverwrite: bool)
    requires StackOk(db, levels) && levels != [] && !coin.IsSpent() && Countable(levels[|levels| - 1], o)
    requires possibleOverwrite || o !in levels[|levels| - 1].coins || levels[|levels| - 1].coins[o].coin.IsSpent()
    ensures var n := |levels|;
            var after := Added(levels, o, coin, possibleOverwrite);
            possibleOverwrite || o !in ViewOf(db, levels, n) <==> StackOk(db, after)
  {
    hide Overlay, Tracked, ViewOf, EntryOk;
    var n := |levels|;
    var c, base := levels[n - 1], ViewOf(db, levels, n - 1);
    var e := AddedEntry(c, o, coin, possibleOverwrite);
    var after := levels[n - 1 := Stored(c, o, e)];
    TopView(db, levels, n);
    AddedOk(c, base, o, coin, possibleOverwrite);
    ViewBelow(db, after, levels, n - 1);
    if EntryOk(e, o, base) {
      StoredView(c, base, o, e);
      TopReplaced(db, levels, Stored(c, o, e));
    } else {
      assert after[n - 1].coins[o] == e;
      assert !CacheOk(after[n - 1], ViewOf(db, after, n - 1));
    }
  }

  lemma AddedFlags(db: View, levels: seq<Cache>, o: OutPoint, coin: Coin, possibleOverwrite: bool)
    requires BooksOk(db, levels) && levels != [] && !coin.IsSpent() && Countable(levels[|levels| - 1], o)
    requires possibleOverwrite || o !in levels[|levels| - 1].coins || levels[|levels| - 1].coins[o].coin.IsSpent()
    ensures var n := |levels|;
            var after := Added(levels, o, coin, possibleOverwrite);
            StackOk(db, levels) ==> (possibleOverwrite || o !in ViewOf(db, levels, n) <==> StackOk(db, after))
                                    && OkBut(db, after, o)
  {
    hide StackOk, OkBut, ViewOf, AddedEntry, Added;
    if StackOk(db, levels) {
      StackBooks(db, levels);
      AddedBooks(db, levels, o, coin, possibleOverwrite);
      AddedStack(db, levels, o, coin, possibleOverwrite);
    }
  }

  /** What SpendCoin leaves of the cache. */
  function SpentCache(c: Cache, o: OutPoint): Cache
    requires o in c.coins && c.usage >= c.coins[o].coin.Usage() && (c.coins[o].isDirty ==> c.dirtyCount > 0)
  {
    if c.coins[o].isFresh then Erased(c, o) else Stored(c, o, Entry(CLEARED, true, false))
  }

  lemma {:induction false} UnflaggedLast(list: seq<OutPoint>, o: OutPoint)
    requires o !in list
    ensures Unflagged(list + [o], o) == list
  {
    if list == [] {
      assert list + [o] == [o];
    } else {
      UnflaggedLast(list[1..], o);
      assert (list + [o])[1..] == list[1..] + [o];
    }
  }

  /** An unannounced overwrite of a coin that only the base has: the new coin shows, and spending it
      leaves the cache exactly as it was, so that the coin of the base is back, where spending ought
      to have removed it. */
  lemma SpentComesBack(c: Cache, base: View, o: OutPoint, coin: Coin)
    requires CacheOk(c, base) && o !in c.coins && o in base && !coin.IsSpent()
    ensures var added := Stored(c, o, AddedEntry(c, o, coin, false));
            && o in Overlay(added, base) && Overlay(added, base)[o] == coin
            && added.usage >= added.coins[o].coin.Usage() && added.dirtyCount > 0
            && SpentCache(added, o) == c && o in Overlay(c, base) && Overlay(c, base)[o] == base[o]
  {
    hide TotalUsage, Overlay, Unflagged;
    var added := Stored(c, o, AddedEntry(c, o, coin, false));
    OverlayAt(added, base, o);
    OverlayAt(c, base, o);
    UnflaggedLast(c.flagged, o);
    assert added.coins - {o} == c.coins;
  }

  /** An entry that was wrongly marked as fresh: spending it lets the coin of the base show again. */
  ghost predicate ComesBack(db: View, levels: seq<Cache>, o: OutPoint) {
    && levels != [] && o in levels[|levels| - 1].coins && levels[|levels| - 1].coins[o].isFresh
    && o in ViewOf(db, levels, |levels| - 1)
  }

  /** A fresh entry that keeps its promises does not. */
  lemma NeverBack(db: View, levels: seq<Cache>, o: OutPoint)
    requires StackOk(db, levels)
    ensures !ComesBack(db, levels, o)
  {
    hide ViewOf, Tracked;
    if levels != [] {
      assert CacheOk(levels[|levels| - 1], ViewOf(db, levels, |levels| - 1));
    }
  }

  lemma SpentBooks(db: View, levels: seq<Cache>, o: OutPoint)
    requires BooksOk(db, levels) && levels != [] && o in levels[|levels| - 1].coins
             && Countable(levels[|levels| - 1], o)
    ensures var n := |levels|; var after := levels[n - 1 := SpentCache(levels[n - 1], o)];
            && BooksOk(db, after)
            && ViewOf(db, after, n) == (if ComesBack(db, levels, o)
                                        then ViewOf(db, levels, n)[o := ViewOf(db, levels, n - 1)[o]]
                                        else ViewOf(db, levels, n) - {o})
            && forall m | 0 <= m < n :: ViewOf(db, after, m) == ViewOf(db, levels, m)
  {
    hide Overlay, Tracked, ViewOf, AllUnspent;
    var n := |levels|;
    var c, base := levels[n - 1], ViewOf(db, levels, n - 1);
    TopView(db, levels, n);
    ErasedTracked(c, o);
    StoredTracked(c, o, Entry(CLEARED, true, false));
    if c.coins[o].isFresh {
      ErasedOverlay(c, base, o);
    } else {
      StoredOverlay(c, base, o, Entry(CLEARED, true, false));
    }
    TopReplaced(db, levels, SpentCache(c, o));
  }

  /** Spending a coin makes up for whatever its entry promised wrongly. */
  lemma SpentStack(db: View, levels: seq<Cache>, o: OutPoint)
    requires OkBut(db, levels, o) && o in levels[|levels| - 1].coins && Countable(levels[|levels| - 1], o)
    ensures StackOk(db, levels[|levels| - 1 := SpentCache(levels[|levels| - 1], o)])
  {
    hide Overlay, Tracked, ViewOf, EntryOk, Unflagged;
    var n := |levels|;
    var after := levels[n - 1 := SpentCache(levels[n - 1], o)];
    SpentBooks(db, levels, o);
    ClearedOk(o, ViewOf(db, levels, n - 1));
    assert CacheOk(after[n - 1], ViewOf(db, levels, n - 1));
  }

  lemma ClearedOk(o: OutPoint, base: View)
    ensures EntryOk(Entry(CLEARED, true, false), o, base)
  {
  }

  lemma UncachedStack(db: View, levels: seq<Cache>, n: nat, o: OutPoint)
    requires StackOk(db, levels) && 0 < n <= |levels| && o in levels[n - 1].coins && !levels[n - 1].coins[o].isDirty
    requires Countable(levels[n - 1], o)
    ensures var after := levels[n - 1 := Erased(levels[n - 1], o)]; StackOk(db, after) && SameViews(db, levels, after)
  {
    hide Overlay, Tracked, ViewOf;
    assert CacheOk(levels[n - 1], ViewOf(db, levels, n - 1));
    ErasedView(levels[n - 1], ViewOf(db, levels, n - 1), o);
    Replaced(db, levels, n - 1, Erased(levels[n - 1], o));
  }

  // ---------------------------------------------------------------- batches

  /** An entry of the child still to be written keeps its promises towards the changed base. */
  lemma PendingOk(c: Cache, before: View, after: View, done: set<OutPoint>, o: OutPoint)
    requires CacheOk(c, before) && WrittenTo(c, before, after, done) && o in c.coins && o !in done
    ensures EntryOk(c.coins[o], o, after)
  {
    hide Tracked;
  }

  /** The child as the cursor leaves it after i entries. */
  ghost predicate CursorAt(c: Cache, c': Cache, erase: bool, i: nat) {
    && i <= |c.flagged| && c'.block == c.block && c'.overlay == c.overlay && c'.dirtyCount + i == |c.flagged|
    && if erase then c' == c.(dirtyCount := c'.dirtyCount)
       else c'.flagged == c.flagged[i..] && Tracked(c') && CleanedTo(c, c', Firsts(c.flagged, i))
  }

  lemma CursorStart(c: Cache, erase: bool)
    requires Tracked(c)
    ensures CursorAt(c, c, erase, 0)
  {
    hide TotalUsage, Firsts;
    FirstsEnds(c.flagged);
    assert c.flagged[0..] == c.flagged;
  }

  lemma ListedDirty(c: Cache, i: nat)
    requires Tracked(c) && i < |c.flagged|
    ensures c.flagged[i] in c.coins && c.coins[c.flagged[i]].isDirty
  {
    hide TotalUsage, Distinct;
    assert c.flagged[i] in c.flagged;
  }

  /** NextAndMaybeErase on the entry at position i. */
  lemma CursorStep(c: Cache, c': Cache, erase: bool, i: nat, o: OutPoint)
    requires Tracked(c) && CursorAt(c, c', erase, i) && i < |c.flagged| && o == c.flagged[i]
    ensures o in c.coins && o in c'.coins && c'.coins[o] == c.coins[o] && c'.dirtyCount > 0 && c'.coins[o].isDirty
    ensures c'.usage >= c'.coins[o].coin.Usage()
    ensures CursorAt(c, if erase then c'.(dirtyCount := c'.dirtyCount - 1) else Cleaned(c', o), erase, i + 1)
  {
    ListedDirty(c, i);
    NoUnderflow(c, o);
    FirstsStep(c.flagged, i);
    hide TotalUsage, CleanedTo, Tracked, Firsts, Distinct, Cleaned;
    if !erase {
      assert c'.flagged[0] == o && c'.flagged[1..] == c.flagged[i + 1..];
      CleanedBooks(c', o);
      CleanedAgain(c, c', Firsts(c.flagged, i), o);
      CleanedSettings(c', o);
    }
  }

  lemma CleanedAgain(c: Cache, c': Cache, done: set<OutPoint>, o: OutPoint)
    requires CleanedTo(c, c', done) && o !in done && o in c.coins && c.coins[o].isDirty
    requires o in c'.coins && c'.usage >= c'.coins[o].coin.Usage() && c'.dirtyCount > 0
    ensures c'.coins[o] == c.coins[o] && CleanedTo(c, Cleaned(c', o), done + {o})
  {
    assert c'.coins[o] == c.coins[o];
    CleanedStep(c, c', done, o);
  }

  lemma CleanedSettings(c: Cache, o: OutPoint)
    requires o in c.coins && c.usage >= c.coins[o].coin.Usage() && c.coins[o].isDirty && c.dirtyCount > 0
    ensures Cleaned(c, o).block == c.block && Cleaned(c, o).overlay == c.overlay
            && Cleaned(c, o).dirtyCount == c.dirtyCount - 1
  {
    hide Unflagged;
  }

  /** BatchWrite of a parent cache: loop over the flagged entries of the child. The logic error of
      a misapplied FRESH flag never occurs. */
  method BatchWrite(parent: Cache, child: Cache, erase: bool, ghost base: View) returns (ok: bool, p: Cache, c: Cache)
    requires CacheOk(parent, base) && CacheOk(child, Overlay(parent, base))
    ensures ok && CacheOk(p, base) && Overlay(p, base) == Overlay(child, Overlay(parent, base))
    ensures p.block == child.block && p.overlay == parent.overlay && CursorAt(child, c, erase, |child.flagged|)
  {
    hide Overlay, WrittenTo, BatchOne, EntryOk, Firsts, CacheOk, CursorAt, Cleaned;
    ghost var before := Overlay(parent, base);
    p, c := parent, child;
    BatchTracked(child, before);
    CursorStart(child, erase);
    WrittenNone(child, before);
    FirstsEnds(child.flagged);
    for i := 0 to |child.flagged|
      invariant CacheOk(p, base) && WrittenTo(child, before, Overlay(p, base), Firsts(child.flagged, i))
                && CursorAt(child, c, erase, i)
      invariant p.overlay == parent.overlay
    {
      var o := child.flagged[i];
      CursorStep(child, c, erase, i, o);
      ListedFresh(child, i);
      PendingOk(child, before, Overlay(p, base), Firsts(child.flagged, i), o);
      WrittenStep(child, before, Overlay(p, base), Firsts(child.flagged, i), o);
      BatchOneView(p, base, o, c.coins[o]);
      var r := BatchOne(p, o, c.coins[o]);
      if r.Err? {
        return false, p, c;
      }
      p := r.value;
      c := if erase then c.(dirtyCount := c.dirtyCount - 1) else Cleaned(c, o);
    }
    WrittenAll(child, before, Overlay(p, base), Firsts(child.flagged, |child.flagged|));
    SameBooks(p, child.block, base);
    p := p.(block := child.block);
    return true, p, c;
  }

  lemma ListedFresh(c: Cache, i: nat)
    requires Tracked(c) && i < |c.flagged|
    ensures Firsts(c.flagged, i + 1) == Firsts(c.flagged, i) + {c.flagged[i]} && c.flagged[i] !in Firsts(c.flagged, i)
  {
    FirstsStep(c.flagged, i);
  }

  lemma WrittenNone(c: Cache, before: View)
    ensures WrittenTo(c, before, before, {})
  {
  }

  lemma BatchTracked(c: Cache, base: View)
    requires CacheOk(c, base)
    ensures Tracked(c)
  {
  }

  /** The best block plays no role for the coins. */
  lemma SameBooks(c: Cache, block: nat, base: View)
    ensures CacheOk(c.(block := block), base) <==> CacheOk(c, base)
    ensures Overlay(c.(block := block), base) == Overlay(c, base)
  {
  }

  /** BatchWrite of the database: erase spent coins, write the others. */
  method WriteDatabase(before: View, child: Cache, erase: bool) returns (db: View, c: Cache)
    requires CacheOk(child, before)
    ensures db == Overlay(child, before) && CursorAt(child, c, erase, |child.flagged|)
  {
    hide Overlay, WrittenTo, Firsts, CacheOk, CursorAt, Cleaned;
    db, c := before, child;
    BatchTracked(child, before);
    CursorStart(child, erase);
    WrittenNone(child, before);
    FirstsEnds(child.flagged);
    for i := 0 to |child.flagged|
      invariant WrittenTo(child, before, db, Firsts(child.flagged, i)) && CursorAt(child, c, erase, i)
    {
      var o := child.flagged[i];
      CursorStep(child, c, erase, i, o);
      ListedFresh(child, i);
      WrittenStep(child, before, db, Firsts(child.flagged, i), o);
      if c.coins[o].coin.IsSpent() {
        db := db - {o};
      } else {
        db := db[o := c.coins[o].coin];
      }
      c := if erase then c.(dirtyCount := c.dirtyCount - 1) else Cleaned(c, o);
    }
    WrittenAll(child, before, db, Firsts(child.flagged, |child.flagged|));
  }

  /** The child after a flush: everything gone. After a sync: what the cursor left. */
  function Emptied(c: Cache, erase: bool): Cache {
    if erase then c.(coins := map[], flagged := [], usage := 0) else c
  }

  lemma EmptiedOk(child: Cache, c: Cache, erase: bool, before: View)
    requires CacheOk(child, before) && CursorAt(child, c, erase, |child.flagged|)
    ensures var after, r := Overlay(child, before), Emptied(c, erase);
            && CacheOk(r, after) && Overlay(r, after) == after && r.flagged == [] && r.dirtyCount == 0
            && r.block == child.block && r.overlay == child.overlay
  {
    hide Overlay, CleanedTo, CacheOk, Firsts, Tracked;
    if erase {
      EmptyCache(Emptied(c, erase), Overlay(child, before));
    } else {
      FirstsEnds(child.flagged);
      assert child.flagged[|child.flagged|..] == [];
      CleanedAll(child, c, before, Firsts(child.flagged, |child.flagged|));
    }
  }

  // ---------------------------------------------------------------- best blocks

  lemma {:induction false} BestBelow(dbBlock: nat, a: seq<Cache>, b: seq<Cache>, n: nat)
    requires n <= |a| && n <= |b| && forall m | 0 <= m < n :: a[m].block == b[m].block
    ensures BestOf(dbBlock, a, n) == BestOf(dbBlock, b, n)
  {
    if n > 0 {
      BestBelow(dbBlock, a, b, n - 1);
    }
  }

  /** A flush passes on the best block of the cache itself. The best block seen at level n stays
      the same exactly when the cache has one, or when the level below did not have one of its
      own: a null hash is passed on too, and hides the one that was set below. */
  lemma FlushedBest(dbBlock: nat, levels: seq<Cache>, levels': seq<Cache>, n: nat)
    requires 2 <= n <= |levels| && |levels'| == |levels| && levels'[n - 2].block == levels[n - 1].block
    requires forall m | 0 <= m < |levels| && m != n - 2 :: levels'[m].block == levels[m].block
    ensures BestOf(dbBlock, levels', n - 1) == BestOf(dbBlock, levels', n)
    ensures BestOf(dbBlock, levels', n) == BestOf(dbBlock, levels, n) <==>
              levels[n - 1].block != 0 || BestOf(dbBlock, levels, n - 1) == BestOf(dbBlock, levels, n - 2)
  {
    BestBelow(dbBlock, levels', levels, n - 2);
    assert BestOf(dbBlock, levels', n - 1) == if levels[n - 1].block != 0 then levels[n - 1].block
           else BestOf(dbBlock, levels', n - 2);
    assert BestOf(dbBlock, levels, n) == if levels[n - 1].block != 0 then levels[n - 1].block
           else BestOf(dbBlock, levels, n - 1);
  }

  /** Two caches, the upper without a best block and the lower with one: after the flush of the upper
      the best block of the database shows again. */
  lemma NullBlockHides(dbBlock: nat, lower: Cache, upper: Cache)
    requires upper.block == 0 && lower.block != 0 && lower.block != dbBlock
    ensures BestOf(dbBlock, [lower, upper], 2) == lower.block
    ensures BestOf(dbBlock, [lower.(block := upper.block), upper], 2) == dbBlock
  {
    FlushedBest(dbBlock, [lower, upper], [lower.(block := upper.block), upper], 2);
  }

  lemma BestSet(db: View, dbBlock: nat, levels: seq<Cache>, hash: nat)
    requires StackOk(db, levels) && levels != []
    ensures var n := |levels| - 1; var after := levels[n := levels[n].(block := hash)];
            && StackOk(db, after) && SameViews(db, levels, after)
            && BestOf(dbBlock, after, n + 1) == if hash != 0 then hash else BestOf(dbBlock, levels, n)
  {
    hide CacheOk, Overlay, ViewOf, BestOf;
    var n := |levels| - 1;
    var c := levels[n].(block := hash);
    var after := levels[n := c];
    BestBelow(dbBlock, after, levels, n);
    BestTop(dbBlock, after, n + 1);
    SameBooks(levels[n], hash, ViewOf(db, levels, n));
    Replaced(db, levels, n, c);
  }

  lemma BestBottom(dbBlock: nat, levels: seq<Cache>)
    ensures BestOf(dbBlock, levels, 0) == dbBlock
  {
  }

  ghost predicate SameBest(dbBlock: nat, a: seq<Cache>, b: seq<Cache>) {
    |a| == |b| && forall m | 0 <= m <= |a| :: BestOf(dbBlock, b, m) == BestOf(dbBlock, a, m)
  }

  lemma {:induction false} BestKept(dbBlock: nat, levels: seq<Cache>, n: nat, m: nat)
    requires n < |levels| && levels[n].block == 0 && m <= |levels|
    ensures BestOf(dbBlock, levels[n := levels[n].(block := BestOf(dbBlock, levels, n))], m)
         == BestOf(dbBlock, levels, m)
  {
    if m > 0 {
      BestKept(dbBlock, levels, n, m - 1);
    }
  }

  /** A level without a best block may as well store the one it shows. */
  lemma BestStored(db: View, dbBlock: nat, levels: seq<Cache>, n: nat, hash: nat)
    requires BooksOk(db, levels) && 0 < n <= |levels| && levels[n - 1].block == 0
             && hash == BestOf(dbBlock, levels, n - 1)
    ensures var after := levels[n - 1 := levels[n - 1].(block := hash)];
            && BooksOk(db, after) && (StackOk(db, levels) ==> StackOk(db, after)) && SameViews(db, levels, after)
            && SameBest(dbBlock, levels, after)
  {
    hide CacheOk, Overlay, ViewOf, BestOf;
    var c := levels[n - 1].(block := hash);
    SameBooks(levels[n - 1], hash, ViewOf(db, levels, n - 1));
    Replaced(db, levels, n - 1, c);
    forall m | 0 <= m <= |levels|
      ensures BestOf(dbBlock, levels[n - 1 := c], m) == BestOf(dbBlock, levels, m)
    {
      BestKept(dbBlock, levels, n - 1, m);
    }
  }

  lemma {:induction false} NullBelow(dbBlock: nat, levels: seq<Cache>, n: nat)
    requires 0 < n <= |levels| && BestOf(dbBlock, levels, n) == 0
    ensures BestOf(dbBlock, levels, n - 1) == 0
  {
  }

  /** A cache that was asked for its best block, and stored it, can be flushed without hiding any. */
  lemma AskedThenFlushed(dbBlock: nat, levels: seq<Cache>, levels': seq<Cache>, n: nat)
    requires 2 <= n <= |levels| && |levels'| == |levels| && levels'[n - 2].block == levels[n - 1].block
    requires forall m | 0 <= m < |levels| && m != n - 2 :: levels'[m].block == levels[m].block
    requires levels[n - 1].block == BestOf(dbBlock, levels, n)
    ensures BestOf(dbBlock, levels', n) == BestOf(dbBlock, levels, n)
  {
    FlushedBest(dbBlock, levels, levels', n);
    hide BestOf;
    if levels[n - 1].block == 0 {
      NullBelow(dbBlock, levels, n);
      NullBelow(dbBlock, levels, n - 1);
    }
  }

  lemma BestTop(dbBlock: nat, levels: seq<Cache>, n: nat)
    requires 0 < n <= |levels|
    ensures BestOf(dbBlock, levels, n) == if levels[n - 1].block != 0 then levels[n - 1].block
            else BestOf(dbBlock, levels, n - 1)
  {
  }

  // ---------------------------------------------------------------- whole runs

  datatype Op =
    | Add(o: OutPoint, coin: Coin, possibleOverwrite: bool) | Spend(o: OutPoint) | Look(level: nat, o: OutPoint)
    | Drop(level: nat, o: OutPoint) | Write(level: nat, erase: bool) | Layer(overlay: bool) | Best(block: nat)
    | AskBest(level: nat)

  /** What an operation means on one plain map. */
  ghost function Apply(op: Op, v: View): View {
    match op
    case Add(o, coin, _) => if coin.Unspendable() then v else v[o := coin]
    case Spend(o) => v - {o}
    case _ => v
  }

  ghost function ApplyAll(ops: seq<Op>, v: View): View {
    if ops == [] then v else Apply(ops[|ops| - 1], ApplyAll(ops[..|ops| - 1], v))
  }

  /** Coins are added unspent, and unannounced ones only where the map has none. */
  ghost predicate Disciplined(op: Op, v: View) {
    op.Add? ==> !op.coin.IsSpent() && (op.possibleOverwrite || op.o !in v)
  }

  ghost predicate AllDisciplined(ops: seq<Op>, v: View) {
    forall i | 0 <= i < |ops| :: Disciplined(ops[i], ApplyAll(ops[..i], v))
  }

  // ---------------------------------------------------------------- the stack

  class CoinsViewStack {
    var db: View
    var dbBlock: nat
    var levels: seq<Cache>

    ghost predicate Valid()
      reads this
    {
      StackOk(db, levels)
    }

    /** Exact books; also when a flag was set without the promise it stands for. */
    ghost predicate Sound()
      reads this
    {
      BooksOk(db, levels)
    }

    /** The coins seen at level n. */
    ghost function ViewAt(n: nat): View
      reads this
    {
      ViewOf(db, levels, n)
    }

    constructor (initial: View, block: nat)
      requires AllUnspent(initial)
      ensures Valid() && levels == [] && db == initial && dbBlock == block
    {
      db, dbBlock, levels := initial, block, [];
    }

    /** A new, empty cache on top. */
    method Push(overlay: bool)
      requires Valid()
      modifies this`levels
      ensures Valid() && |levels| == |old(levels)| + 1 && ViewAt(|levels|) == old(ViewAt(|levels|))
      ensures levels[..|levels| - 1] == old(levels) && levels[|levels| - 1].coins == map[]
    {
      hide StackOk, ViewOf;
      var c := Cache(map[], [], 0, 0, 0, overlay);
      PushedStack(db, levels, c);
      levels := levels + [c];
    }

    /** PeekCoin: the coin at level n, without filling any cache. */
    function PeekCoin(n: nat, o: OutPoint): (r: Option<Coin>)
      requires n <= |levels|
      reads this
      ensures r == if o in ViewAt(n) then Some(ViewAt(n)[o]) else None
      decreases n
    {
      if n == 0 then
        if o in db then Some(db[o]) else None
      else
        OverlayAt(levels[n - 1], ViewOf(db, levels, n - 1), o);
        if o in levels[n - 1].coins then
          if levels[n - 1].coins[o].coin.IsSpent() then None else Some(levels[n - 1].coins[o].coin)
        else PeekCoin(n - 1, o)
    }

    /** FetchCoin: find the entry of o at level n, filling the caches from the base on a miss. No
        view changes. */
    method FetchCoin(n: nat, o: OutPoint) returns (found: bool)
      requires Sound() && 0 < n <= |levels|
      modifies this`levels
      ensures Sound() && (old(Valid()) ==> Valid()) && SameViews(db, old(levels), levels)
              && levels[n..] == old(levels[n..])
      ensures SameSettings(old(levels), levels)
      ensures found <==> o in levels[n - 1].coins
      ensures o in ViewAt(n) ==> found
      ensures old(o in levels[n - 1].coins) ==> levels == old(levels)
      ensures found ==> old(o in ViewAt(n) || o in levels[n - 1].coins)
      ensures found && old(o !in levels[n - 1].coins) ==> !levels[n - 1].coins[o].isFresh
      decreases n, 0
    {
      hide StackOk, ViewOf;
      LookedUp(db, levels, n, o);
      if o in levels[n - 1].coins {
        return true;
      }
      ghost var before := levels;
      var coin;
      if levels[n - 1].overlay {
        coin := PeekCoin(n - 1, o);
      } else {
        coin := GetCoin(n - 1, o);
      }
      assert levels[n - 1] == levels[n - 1 ..][0] && before[n - 1] == before[n - 1 ..][0];
      assert levels[n..] == levels[n - 1 ..][1..] && before[n..] == before[n - 1 ..][1..];
      LookedUp(db, levels, n, o);
      if coin.Some? {
        LevelCountable(db, levels, n, o);
        FetchedStack(db, levels, n, o);
        var c := Stored(levels[n - 1], o, Entry(coin.value, false, false));
        levels := levels[n - 1 := c];
        return true;
      }
      return false;
    }

    /** GetCoin: the coin at level n. */
    method GetCoin(n: nat, o: OutPoint) returns (r: Option<Coin>)
      requires Sound() && n <= |levels|
      modifies this`levels
      ensures Sound() && (old(Valid()) ==> Valid()) && SameViews(db, old(levels), levels)
              && levels[n..] == old(levels[n..])
      ensures old(n > 0 && o in levels[n - 1].coins) ==> levels == old(levels)
      ensures SameSettings(old(levels), levels)
      ensures r == if o in ViewAt(n) then Some(ViewAt(n)[o]) else None
      decreases n, 1
    {
      if n == 0 {
        return if o in db then Some(db[o]) else None;
      }
      hide StackOk, ViewOf;
      var found := FetchCoin(n, o);
      LookedUp(db, levels, n, o);
      if found && !levels[n - 1].coins[o].coin.IsSpent() {
        return Some(levels[n - 1].coins[o].coin);
      }
      return None;
    }

    /** HaveCoin. */
    method HaveCoin(n: nat, o: OutPoint) returns (r: bool)
      requires Sound() && 0 < n <= |levels|
      modifies this`levels
      ensures Sound() && (old(Valid()) ==> Valid()) && SameViews(db, old(levels), levels) && (r <==> o in ViewAt(n))
    {
      var coin := GetCoin(n, o);
      r := coin.Some?;
    }

    /** AddCoin on the top cache. A coin that is known to the cache and unspent is not overwritten
        unless that was announced. The flags keep their promises exactly when an overwrite was
        announced or the view had no such coin. */
    method AddCoin(o: OutPoint, coin: Coin, possibleOverwrite: bool) returns (ok: bool)
      requires Sound() && levels != [] && !coin.IsSpent()
      modifies this`levels
      ensures Sound() && |levels| == |old(levels)| && levels[..|levels| - 1] == old(levels[..|levels| - 1])
      ensures ok <==> coin.Unspendable() || possibleOverwrite
                      || old(o !in levels[|levels| - 1].coins || levels[|levels| - 1].coins[o].coin.IsSpent())
      ensures !ok || coin.Unspendable() ==> levels == old(levels)
      ensures ok && !coin.Unspendable() ==> ViewAt(|levels|) == old(ViewAt(|levels|))[o := coin]
      ensures ok && !coin.Unspendable() ==>
                o in levels[|levels| - 1].coins
                && levels[|levels| - 1].coins[o] == AddedEntry(old(levels[|levels| - 1]), o, coin, possibleOverwrite)
      ensures ok && !coin.Unspendable() && old(Valid()) ==>
                (Valid() <==> possibleOverwrite || old(o !in ViewAt(|levels|))) && OkBut(db, levels, o)
    {
      hide StackOk, ViewOf, BooksOk, OkBut;
      if coin.Unspendable() {
        return true;
      }
      var n := |levels|;
      var c := levels[n - 1];
      if !possibleOverwrite && o in c.coins && !c.coins[o].coin.IsSpent() {
        return false;
      }
      LevelCountable(db, levels, n, o);
      AddedBooks(db, levels, o, coin, possibleOverwrite);
      AddedFlags(db, levels, o, coin, possibleOverwrite);
      hide Stored, AddedEntry, Added;
      levels := Added(levels, o, coin, possibleOverwrite);
      return true;
    }

    /** SpendCoin on the top cache: the coin disappears from the view, unless its entry was wrongly
        marked as fresh; either way the flags are right afterwards. The result tells whether the cache
        knows the outpoint, which it also does when the coin is already spent in it. */
    method SpendCoin(o: OutPoint) returns (known: bool, moved: Coin)
      requires Sound() && levels != []
      modifies this`levels
      ensures Sound() && |levels| == |old(levels)|
      ensures ViewAt(|levels|) == if old(ComesBack(db, levels, o))
                                  then old(ViewAt(|levels|))[o := old(ViewAt(|levels| - 1)[o])]
                                  else old(ViewAt(|levels|)) - {o}
      ensures old(OkBut(db, levels, o)) ==> Valid()
      ensures old(Valid()) ==> Valid() && ViewAt(|levels|) == old(ViewAt(|levels|)) - {o}
      ensures forall m | 0 <= m < |levels| :: ViewAt(m) == old(ViewAt(m))
      ensures known <==> old(o in ViewAt(|levels|) || o in levels[|levels| - 1].coins)
      ensures old(o in ViewAt(|levels|)) ==> moved == old(ViewAt(|levels|))[o]
      ensures known && old(o !in ViewAt(|levels|)) ==> moved.IsSpent()
    {
      hide StackOk, ViewOf, BooksOk, OkBut;
      var n := |levels|;
      ghost var before := levels;
      SpendFacts(db, levels, o);
      known := FetchCoin(n, o);
      LookedUp(db, levels, n, o);
      if !known {
        AbsentKept(ViewAt(n), o);
        return false, CLEARED;
      }
      LevelCountable(db, levels, n, o);
      var c := levels[n - 1];
      moved := c.coins[o].coin;
      SpendFacts(db, levels, o);
      SpentBooks(db, levels, o);
      if OkBut(db, levels, o) {
        SpentStack(db, levels, o);
      }
      levels := levels[n - 1 := SpentCache(c, o)];
    }

    /** Uncache: drop an unmodified entry; no view changes. */
    method Uncache(n: nat, o: OutPoint)
      requires Valid() && 0 < n <= |levels|
      modifies this`levels
      ensures Valid() && SameViews(db, old(levels), levels)
      ensures o in levels[n - 1].coins <==> old(o in levels[n - 1].coins && levels[n - 1].coins[o].isDirty)
    {
      var c := levels[n - 1];
      if o in c.coins && !c.coins[o].isDirty {
        hide StackOk, ViewOf;
        LevelCountable(db, levels, n, o);
        UncachedStack(db, levels, n, o);
        levels := levels[n - 1 := Erased(c, o)];
      }
    }

    /** SetBestBlock on the top cache. */
    method SetBestBlock(hash: nat)
      requires Valid() && levels != []
      modifies this`levels
      ensures Valid() && SameViews(db, old(levels), levels)
              && BestOf(dbBlock, levels, |levels|) == (if hash != 0 then hash
                                                       else BestOf(dbBlock, old(levels), |levels| - 1))
    {
      hide StackOk, ViewOf, BestOf;
      BestSet(db, dbBlock, levels, hash);
      levels := levels[|levels| - 1 := levels[|levels| - 1].(block := hash)];
    }

    /** GetBestBlock at level n: the best block seen there is stored on the way, and none seen changes. */
    method GetBestBlock(n: nat) returns (hash: nat)
      requires Sound() && n <= |levels|
      modifies this`levels
      ensures Sound() && (old(Valid()) ==> Valid()) && SameViews(db, old(levels), levels)
      ensures levels[n..] == old(levels[n..]) && hash == BestOf(dbBlock, old(levels), n)
      ensures SameBest(dbBlock, old(levels), levels) && (n > 0 ==> levels[n - 1].block == hash)
      decreases n
    {
      if n == 0 {
        return dbBlock;
      }
      hide StackOk, ViewOf, BestOf, BooksOk;
      BestTop(dbBlock, levels, n);
      ghost var before := levels;
      if levels[n - 1].block == 0 {
        hash := GetBestBlock(n - 1);
        assert levels[n - 1] == levels[n - 1 ..][0] && before[n - 1] == before[n - 1 ..][0];
        assert levels[n..] == levels[n - 1 ..][1..] && before[n..] == before[n - 1 ..][1..];
        BestStored(db, dbBlock, levels, n, hash);
        levels := levels[n - 1 := levels[n - 1].(block := hash)];
      } else {
        hash := levels[n - 1].block;
      }
    }

    /** Flush (erase) or Sync of level n: the level below now shows what level n showed, and no
        other view changes. The cache is left without modified entries. */
    method FlushOrSync(n: nat, erase: bool)
      requires Valid() && 0 < n <= |levels| && (n == 1 ==> levels[0].block != 0)
      modifies this
      ensures Valid() && FlushedViews(old(db), old(levels), db, levels, n)
      ensures levels[n - 1].flagged == [] && levels[n - 1].dirtyCount == 0 && (erase ==> levels[n - 1].coins == map[])
      ensures n >= 2 ==> levels[n - 2].block == old(levels)[n - 1].block && db == old(db) && dbBlock == old(dbBlock)
      ensures n == 1 ==> dbBlock == old(levels)[0].block
      ensures forall m | 0 <= m < |levels| && m != n - 2 :: levels[m].block == old(levels)[m].block
    {
      assert CacheOk(levels[n - 1], ViewOf(db, levels, n - 1));
      assert n >= 2 ==> CacheOk(levels[n - 2], ViewOf(db, levels, n - 2));
      hide CacheOk, Overlay, ViewOf, StackOk, CursorAt, FlushedViews;
      TopView(db, levels, n);
      if n >= 2 {
        ghost var base := ViewOf(db, levels, n - 2);
        TopView(db, levels, n - 1);
        var ok, p, c := BatchWrite(levels[n - 2], levels[n - 1], erase, base);
        EmptiedOk(levels[n - 1], c, erase, ViewOf(db, levels, n - 1));
        FlushedStack(db, levels, n, p, Emptied(c, erase));
        levels := levels[n - 2 := p][n - 1 := Emptied(c, erase)];
      } else {
        NoLevel(db, levels);
        var written, c := WriteDatabase(db, levels[0], erase);
        EmptiedOk(levels[0], c, erase, db);
        FlushedDatabase(db, levels, Emptied(c, erase));
        dbBlock := levels[0].block;
        db, levels := written, levels[0 := Emptied(c, erase)];
      }
    }

    /** Any run of operations: the top of the stack shows the plain map with the same operations
        applied, whatever is looked up, dropped, flushed or synced at any level in between. */
    method Run(ops: seq<Op>)
      requires Valid() && levels != [] && AllDisciplined(ops, ViewAt(|levels|))
      modifies this
      ensures Valid() && levels != [] && ViewAt(|levels|) == ApplyAll(ops, old(ViewAt(|levels|)))
    {
      ghost var v := ViewAt(|levels|);
      hide StackOk, ViewOf;
      for i := 0 to |ops|
        invariant Valid() && levels != [] && ViewAt(|levels|) == ApplyAll(ops[..i], v)
      {
        assert Disciplined(ops[i], ApplyAll(ops[..i], v));
        assert ops[..i + 1][..i] == ops[..i];
        Step(ops[i]);
      }
      assert ops[..|ops|] == ops;
    }

    method Step(op: Op)
      requires Valid() && levels != [] && Disciplined(op, ViewAt(|levels|))
      modifies this
      ensures Valid() && levels != [] && ViewAt(|levels|) == Apply(op, old(ViewAt(|levels|)))
    {
      hide StackOk, ViewOf;
      StackBooks(db, levels);
      match op
      case Add(o, coin, possibleOverwrite) =>
        if !coin.Unspendable() {
          LookedUp(db, levels, |levels|, o);
        }
        var _ := AddCoin(o, coin, possibleOverwrite);
      case Spend(o) =>
        var _, _ := SpendCoin(o);
      case Look(n, o) =>
        if n <= |levels| {
          var _ := GetCoin(n, o);
        }
      case Drop(n, o) =>
        if 0 < n <= |levels| {
          Uncache(n, o);
        }
      case Write(n, erase) =>
        if 0 < n <= |levels| && (n == 1 ==> levels[0].block != 0) {
          FlushOrSync(n, erase);
        }
      case Layer(overlay) =>
        Push(overlay);
      case Best(hash) =>
        SetBestBlock(hash);
      case AskBest(n) =>
        if n <= |levels| {
          var _ := GetBestBlock(n);
        }
    }
  }

  /** Such a run: coin 2 is added over coin 1 of the database without announcing it, then spent, and
      the cache is flushed. The answers are those of GetCoin at the start, after the addition, after
      the spend and after the flush: the spend brings coin 1 back, for good. */
  method SpentComesBackRun() returns (answers: seq<Option<Coin>>, db: View)
    ensures var prior, next := Coin(1, [], false, 1), Coin(2, [], false, 2);
            answers == [Some(prior), Some(next), Some(prior), Some(prior)] && db == map[(0, 0) := prior]
  {
    hide StackOk, BooksOk, OkBut, ViewOf, BestOf;
    var o, prior, next := (0, 0), Coin(1, [], false, 1), Coin(2, [], false, 2);
    var stack := new CoinsViewStack(map[o := prior], 7);
    NoLevel(stack.db, stack.levels);
    stack.Push(false);
    NoLevel(stack.db, stack.levels);
    StackBooks(stack.db, stack.levels);
    answers := [stack.PeekCoin(1, o)];
    var ok := stack.AddCoin(o, next, false);
    var coin := stack.GetCoin(1, o);
    answers := answers + [coin];
    NoLevel(stack.db, stack.levels);
    var known, moved := stack.SpendCoin(o);
    assert stack.ViewAt(1) == map[o := prior];
    coin := stack.GetCoin(1, o);
    answers := answers + [coin];
    BestTop(stack.dbBlock, stack.levels, 1);
    BestBottom(stack.dbBlock, stack.levels);
    var block := stack.GetBestBlock(1);
    stack.FlushOrSync(1, true);
    NoLevel(stack.db, stack.levels);
    db := stack.db;
    StackBooks(stack.db, stack.levels);
    coin := stack.GetCoin(1, o);
    answers := answers + [coin];
  }

  lemma SpendFacts(db: View, levels: seq<Cache>, o: OutPoint)
    requires levels != []
    ensures StackOk(db, levels) ==> OkBut(db, levels, o) && !ComesBack(db, levels, o)
    ensures OkBut(db, levels, o) && o !in levels[|levels| - 1].coins ==> StackOk(db, levels)
  {
    hide StackOk, OkBut, ViewOf;
    if StackOk(db, levels) {
      StackBooks(db, levels);
      NeverBack(db, levels, o);
    }
    if OkBut(db, levels, o) && o !in levels[|levels| - 1].coins {
      OkButAbsent(db, levels, o);
    }
  }

  lemma NoLevel(db: View, levels: seq<Cache>)
    ensures ViewOf(db, levels, 0) == db
  {
  }

  lemma AbsentKept(v: View, o: OutPoint)
    requires o !in v
    ensures v - {o} == v
  {
  }

  /** Best blocks and kinds of the levels are the same. */
  ghost predicate SameSettings(a: seq<Cache>, b: seq<Cache>) {
    |a| == |b| && forall m | 0 <= m < |a| :: b[m].block == a[m].block && b[m].overlay == a[m].overlay
  }
}
