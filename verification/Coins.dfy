/** One level of the UTXO cache: entries with DIRTY and FRESH flags over a base view, and what each
    operation does to the view through the cache. */
module Coins {
  const OP_RETURN: nat := 0x6a
  const MAX_SCRIPT_SIZE: nat := 10000

  /** Transaction hash and output index. */
  type OutPoint = (nat, nat)

  datatype Coin = Coin(value: int, script: seq<nat>, coinBase: bool, height: nat) {
    predicate IsSpent() {
      value == -1
    }

    /** Stands for the memory usage of the script; a cleared coin uses none. */
    function Usage(): nat {
      |script|
    }

    predicate Unspendable() {
      (|script| > 0 && script[0] == OP_RETURN) || |script| > MAX_SCRIPT_SIZE
    }
  }

  const CLEARED := Coin(-1, [], false, 0)

  datatype Entry = Entry(coin: Coin, isDirty: bool, isFresh: bool)

  /** flagged is the linked list of flagged entries, from the sentinel on; block 0 is the null
      hash; overlay says whether misses are looked up in the base without filling it. */
  datatype Cache = Cache(coins: map<OutPoint, Entry>, flagged: seq<OutPoint>, dirtyCount: nat, usage: nat, block: nat,
                         overlay: bool)

  /** A set of unspent coins. */
  type View = map<OutPoint, Coin>

  // ---------------------------------------------------------------- what a cache means

  /** The coins seen through a cache. */
  ghost function Overlay(c: Cache, base: View): View {
    map o | o in c.coins.Keys + base.Keys && (o in c.coins ==> !c.coins[o].coin.IsSpent()) ::
      if o in c.coins then c.coins[o].coin else base[o]
  }

  /** What the flags of an entry promise about the base view. */
  ghost predicate EntryOk(e: Entry, o: OutPoint, base: View) {
    && (e.coin.IsSpent() ==> e.isDirty && !e.isFresh && e.coin == CLEARED)
    && (e.isFresh ==> e.isDirty && o !in base)
    && (!e.isDirty ==> o in base && base[o] == e.coin)
  }

  ghost function TotalUsage(m: map<OutPoint, Entry>): nat {
    if m == map[] then 0 else
      var o :| o in m;
      m[o].coin.Usage() + TotalUsage(m - {o})
  }

  ghost predicate Distinct(s: seq<OutPoint>) {
    forall i, j | 0 <= i < j < |s| :: s[i] != s[j]
  }

  /** The list holds exactly the dirty entries, once each; counts and usage are exact. */
  ghost predicate Tracked(c: Cache) {
    && Distinct(c.flagged) && (forall o :: o in c.flagged <==> o in c.coins && c.coins[o].isDirty)
    && c.dirtyCount == |c.flagged| && c.usage == TotalUsage(c.coins)
  }

  ghost predicate CacheOk(c: Cache, base: View) {
    (forall o | o in c.coins :: EntryOk(c.coins[o], o, base)) && Tracked(c)
  }

  ghost predicate AllUnspent(v: View) {
    forall o | o in v :: !v[o].IsSpent()
  }

  // ---------------------------------------------------------------- usage and the list

  lemma {:induction false} UsageRemove(m: map<OutPoint, Entry>, o: OutPoint)
    requires o in m
    ensures TotalUsage(m) == m[o].coin.Usage() + TotalUsage(m - {o})
    decreases |m|
  {
    var p :| p in m && TotalUsage(m) == m[p].coin.Usage() + TotalUsage(m - {p});
    if p != o {
      UsageRemove(m - {p}, o);
      assert m - {p} - {o} == m - {o} - {p};
      UsageRemove(m - {o}, p);
    }
  }

  lemma UsageUpdate(m: map<OutPoint, Entry>, o: OutPoint, e: Entry)
    ensures TotalUsage(m[o := e]) == TotalUsage(m) - (if o in m then m[o].coin.Usage() else 0) + e.coin.Usage()
    ensures o in m ==> TotalUsage(m) >= m[o].coin.Usage()
  {
    UsageRemove(m[o := e], o);
    assert m[o := e] - {o} == m - {o};
    if o in m {
      UsageRemove(m, o);
    } else {
      assert m - {o} == m;
    }
  }

  /** AddFlags: an entry that had no flags goes to the end of the list. */
  function Flagged(list: seq<OutPoint>, o: OutPoint, was: bool): seq<OutPoint> {
    if was then list else list + [o]
  }

  /** SetClean, or the destruction of an entry: it leaves the list. */
  function Unflagged(list: seq<OutPoint>, o: OutPoint): seq<OutPoint> {
    if list == [] then [] else if list[0] == o then Unflagged(list[1..], o) else [list[0]] + Unflagged(list[1..], o)
  }

  lemma {:induction false} UnflaggedAbsent(list: seq<OutPoint>, o: OutPoint)
    requires o !in list
    ensures Unflagged(list, o) == list
  {
    if list != [] {
      UnflaggedAbsent(list[1..], o);
    }
  }

  lemma {:induction false} UnflaggedMember(list: seq<OutPoint>, o: OutPoint, x: OutPoint)
    ensures x in Unflagged(list, o) <==> x in list && x != o
  {
    if list != [] {
      UnflaggedMember(list[1..], o, x);
      assert x in list <==> x == list[0] || x in list[1..];
    }
  }

  lemma {:induction false} UnflaggedDistinct(list: seq<OutPoint>, o: OutPoint)
    requires Distinct(list)
    ensures Distinct(Unflagged(list, o)) && |Unflagged(list, o)| == |list| - if o in list then 1 else 0
    ensures forall x :: x in Unflagged(list, o) <==> x in list && x != o
  {
    forall x
      ensures x in Unflagged(list, o) <==> x in list && x != o
    {
      UnflaggedMember(list, o, x);
    }
    if list != [] {
      UnflaggedDistinct(list[1..], o);
      assert o in list <==> o == list[0] || o in list[1..];
      UnflaggedMember(list[1..], o, list[0]);
    }
  }

  lemma FlaggedDistinct(list: seq<OutPoint>, o: OutPoint)
    requires Distinct(list)
    ensures Distinct(Flagged(list, o, o in list)) && |Flagged(list, o, o in list)| == |list| + if o in list then 0
            else 1
    ensures forall x :: x in Flagged(list, o, o in list) <==> x in list || x == o
  {
  }

  // ---------------------------------------------------------------- storing and erasing an entry

  /** Replace or insert an entry, keeping the books. */
  function Stored(c: Cache, o: OutPoint, e: Entry): Cache
    requires o in c.coins ==> c.usage >= c.coins[o].coin.Usage() && (c.coins[o].isDirty ==> c.dirtyCount > 0)
  {
    var was := o in c.coins && c.coins[o].isDirty;
    c.(coins := c.coins[o := e],
       flagged := if e.isDirty then Flagged(c.flagged, o, was) else if was then Unflagged(c.flagged, o) else c.flagged,
       dirtyCount := c.dirtyCount - (if was then 1 else 0) + (if e.isDirty then 1 else 0),
       usage := c.usage - (if o in c.coins then c.coins[o].coin.Usage() else 0) + e.coin.Usage())
  }

  function Erased(c: Cache, o: OutPoint): Cache
    requires o in c.coins ==> c.usage >= c.coins[o].coin.Usage() && (c.coins[o].isDirty ==> c.dirtyCount > 0)
  {
    if o !in c.coins then c
    else c.(coins := c.coins - {o}, flagged := Unflagged(c.flagged, o),
            dirtyCount := c.dirtyCount - (if c.coins[o].isDirty then 1 else 0),
                usage := c.usage - c.coins[o].coin.Usage())
  }

  /** No counter ever underflows. */
  lemma NoUnderflow(c: Cache, o: OutPoint)
    requires Tracked(c)
    ensures o in c.coins ==> c.usage >= c.coins[o].coin.Usage() && (c.coins[o].isDirty ==> c.dirtyCount > 0)
  {
    if o in c.coins {
      UsageRemove(c.coins, o);
      if c.coins[o].isDirty {
        assert o in c.flagged;
      }
    }
  }

  lemma StoredList(c: Cache, o: OutPoint, e: Entry)
    requires Tracked(c)
    ensures o in c.coins ==> c.usage >= c.coins[o].coin.Usage() && (c.coins[o].isDirty ==> c.dirtyCount > 0)
    ensures var c' := Stored(c, o, e);
            && Distinct(c'.flagged) && c'.dirtyCount == |c'.flagged|
            && forall x :: x in c'.flagged <==> if x == o then e.isDirty else x in c.flagged
  {
    hide TotalUsage, Unflagged, Distinct;
    NoUnderflow(c, o);
    UnflaggedDistinct(c.flagged, o);
    FlaggedDistinct(c.flagged, o);
  }

  lemma StoredTracked(c: Cache, o: OutPoint, e: Entry)
    requires Tracked(c)
    ensures o in c.coins ==> c.usage >= c.coins[o].coin.Usage() && (c.coins[o].isDirty ==> c.dirtyCount > 0)
    ensures Tracked(Stored(c, o, e))
  {
    hide TotalUsage, Unflagged, Flagged, Distinct;
    StoredList(c, o, e);
    UsageUpdate(c.coins, o, e);
  }

  lemma ErasedTracked(c: Cache, o: OutPoint)
    requires Tracked(c)
    ensures o in c.coins ==> c.usage >= c.coins[o].coin.Usage() && (c.coins[o].isDirty ==> c.dirtyCount > 0)
    ensures Tracked(Erased(c, o))
  {
    NoUnderflow(c, o);
    if o in c.coins {
      UsageRemove(c.coins, o);
      UnflaggedDistinct(c.flagged, o);
    }
    hide TotalUsage, Unflagged, Distinct;
  }

  /** What a lookup through the cache finds. */
  lemma OverlayAt(c: Cache, base: View, o: OutPoint)
    ensures o in Overlay(c, base) <==> if o in c.coins then !c.coins[o].coin.IsSpent() else o in base
    ensures o in Overlay(c, base) ==> Overlay(c, base)[o] == if o in c.coins then c.coins[o].coin else base[o]
  {
  }

  lemma SameView(v: View, w: View)
    requires forall o :: o in v <==> o in w
    requires forall o | o in v :: v[o] == w[o]
    ensures v == w
  {
  }

  /** The counters have room for taking an entry off. */
  predicate Countable(c: Cache, o: OutPoint) {
    o in c.coins ==> c.usage >= c.coins[o].coin.Usage() && (c.coins[o].isDirty ==> c.dirtyCount > 0)
  }

  /** What storing an entry does to the view. */
  lemma StoredOverlay(c: Cache, base: View, o: OutPoint, e: Entry)
    requires Countable(c, o)
    ensures Overlay(Stored(c, o, e), base) == if e.coin.IsSpent() then Overlay(c, base) - {o}
            else Overlay(c, base)[o := e.coin]
  {
    hide Overlay;
    var c', w := Stored(c, o, e), if e.coin.IsSpent() then Overlay(c, base) - {o} else Overlay(c, base)[o := e.coin];
    forall x
      ensures x in Overlay(c', base) <==> x in w
      ensures x in w ==> Overlay(c', base)[x] == w[x]
    {
      OverlayAt(c, base, x);
      OverlayAt(c', base, x);
    }
    SameView(Overlay(c', base), w);
  }

  lemma StoredView(c: Cache, base: View, o: OutPoint, e: Entry)
    requires CacheOk(c, base) && EntryOk(e, o, base)
    ensures Countable(c, o) && CacheOk(Stored(c, o, e), base)
    ensures Overlay(Stored(c, o, e), base) == if e.coin.IsSpent() then Overlay(c, base) - {o}
            else Overlay(c, base)[o := e.coin]
  {
    hide Tracked, Overlay;
    StoredTracked(c, o, e);
    StoredOverlay(c, base, o, e);
  }

  /** What erasing an entry does to the view: the coin of the base shows. */
  lemma ErasedOverlay(c: Cache, base: View, o: OutPoint)
    requires Countable(c, o) && o in c.coins
    ensures Overlay(Erased(c, o), base) == if o in base then Overlay(c, base)[o := base[o]] else Overlay(c, base) - {o}
  {
    hide Overlay;
    var c', w := Erased(c, o), if o in base then Overlay(c, base)[o := base[o]] else Overlay(c, base) - {o};
    forall x
      ensures x in Overlay(c', base) <==> x in w
      ensures x in w ==> Overlay(c', base)[x] == w[x]
    {
      OverlayAt(c, base, x);
      OverlayAt(c', base, x);
    }
    SameView(Overlay(c', base), w);
  }

  lemma ErasedView(c: Cache, base: View, o: OutPoint)
    requires CacheOk(c, base)
    ensures Countable(c, o) && CacheOk(Erased(c, o), base)
    ensures o in c.coins && o !in base ==> Overlay(Erased(c, o), base) == Overlay(c, base) - {o}
    ensures o in c.coins && !c.coins[o].isDirty ==> Overlay(Erased(c, o), base) == Overlay(c, base)
  {
    hide Tracked, Overlay;
    ErasedTracked(c, o);
    if o in c.coins {
      ErasedOverlay(c, base, o);
      OverlayAt(c, base, o);
      if !c.coins[o].isDirty {
        SameView(Overlay(c, base)[o := base[o]], Overlay(c, base));
      }
    }
  }

  lemma OverlayUnspent(c: Cache, base: View)
    requires AllUnspent(base)
    ensures AllUnspent(Overlay(c, base))
  {
  }

  // ---------------------------------------------------------------- adding and spending

  /** The entry AddCoin leaves: an entry that was fresh stays so, and one that was absent becomes
      fresh when no overwrite is possible. */
  function AddedEntry(c: Cache, o: OutPoint, coin: Coin, possibleOverwrite: bool): Entry {
    var wasDirty := o in c.coins && c.coins[o].isDirty;
    var wasFresh := o in c.coins && c.coins[o].isFresh;
    Entry(coin, true, wasFresh || (!possibleOverwrite && !wasDirty))
  }

  /** AddCoin keeps the promises of the flags exactly when an overwrite was announced or the view
      has no such coin. */
  lemma AddedOk(c: Cache, base: View, o: OutPoint, coin: Coin, possibleOverwrite: bool)
    requires CacheOk(c, base) && !coin.IsSpent()
    requires possibleOverwrite || o !in c.coins || c.coins[o].coin.IsSpent()
    ensures EntryOk(AddedEntry(c, o, coin, possibleOverwrite), o, base) <==> possibleOverwrite || o !in Overlay(c, base)
  {
    OverlayAt(c, base, o);
    hide Overlay, Tracked;
  }

  // ---------------------------------------------------------------- one entry of a batch

  datatype Result<T> = Ok(value: T) | Err

  /** What BatchWrite does with a dirty entry of the child cache; Err is the logic error about a
      misapplied FRESH flag. */
  function BatchOne(p: Cache, o: OutPoint, e: Entry): Result<Cache>
    requires o in p.coins ==> p.usage >= p.coins[o].coin.Usage() && (p.coins[o].isDirty ==> p.dirtyCount > 0)
  {
    if o !in p.coins then
      if e.isFresh && e.coin.IsSpent() then Ok(p) else Ok(Stored(p, o, Entry(e.coin, true, e.isFresh)))
    else
      var us := p.coins[o];
      if e.isFresh && !us.coin.IsSpent() then Err
      else if us.isFresh && e.coin.IsSpent() then Ok(Erased(p, o))
      else Ok(Stored(p, o, Entry(e.coin, true, us.isFresh)))
  }

  /** A dirty entry that keeps its promises is written through to the view of the parent. */
  lemma BatchOneView(p: Cache, base: View, o: OutPoint, e: Entry)
    requires CacheOk(p, base) && e.isDirty && EntryOk(e, o, Overlay(p, base))
    ensures o in p.coins ==> p.usage >= p.coins[o].coin.Usage() && (p.coins[o].isDirty ==> p.dirtyCount > 0)
    ensures BatchOne(p, o, e).Ok? && CacheOk(BatchOne(p, o, e).value, base)
    ensures Overlay(BatchOne(p, o, e).value, base) ==
            if e.coin.IsSpent() then Overlay(p, base) - {o} else Overlay(p, base)[o := e.coin]
    ensures BatchOne(p, o, e).value.block == p.block && BatchOne(p, o, e).value.overlay == p.overlay
  {
    NoUnderflow(p, o);
    OverlayAt(p, base, o);
    hide Overlay, Tracked;
    if o !in p.coins {
      StoredView(p, base, o, Entry(e.coin, true, e.isFresh));
    } else if p.coins[o].isFresh && e.coin.IsSpent() {
      ErasedView(p, base, o);
    } else {
      StoredView(p, base, o, Entry(e.coin, true, p.coins[o].isFresh));
    }
  }
}
