/** The consistency check of the address manager, condition by condition as it is coded, and whole runs. */
module AddrCheck {
  import opened Options
  import opened AddrTables
  import opened AddrSteps
  import opened AddrMan

  /** Codes -1 to -6, -8 and -14: what is checked of an entry by itself. */
  ghost predicate EntryPasses(m: Core, id: int)
    requires id in m.info
  {
    var i := m.info[id];
    && (if i.inTried then i.lastSuccess != 0 && i.refCount == 0 else 0 < i.refCount <= MAX_REFS)
    && i.service in m.addr && m.addr[i.service] == id
    && 0 <= i.randomPos < |m.random| && m.random[i.randomPos] == id
    && i.lastTry >= 0 && i.lastSuccess >= 0
  }

  /** The slots of a table that hold an identifier. */
  ghost function Slots(t: Table, buckets: nat, id: int): set<(nat, nat)> {
    set b: nat, p: nat | b < buckets && p < BUCKET_SIZE && At(t, b, p) == id :: (b, p)
  }

  /** Codes -11, -17, -18 and -13: the slots of the tried table take up the tried entries, each once. */
  ghost predicate TriedPasses(h: Hashes, m: Core) {
    && (forall b: nat, p: nat | At(m.tried, b, p) != -1 :: InTriedSlot(h, m.info, At(m.tried, b, p), b, p))
    && (forall id | id in TriedIds(m.info) :: |Slots(m.tried, TRIED_BUCKETS, id)| == 1)
  }

  /** Codes -12, -19 and -15: the slots of the new table use up every reference count. */
  ghost predicate NewPasses(h: Hashes, m: Core) {
    && (forall b: nat, p: nat | At(m.newTable, b, p) != -1 :: InNewSlot(h, m.info, At(m.newTable, b, p), b, p))
    && (forall id | id in NewIds(m.info, {}) :: |Slots(m.newTable, NEW_BUCKETS, id)| == m.info[id].refCount)
  }

  ghost function Networks(h: Hashes, info: map<int, Info>): set<Network> {
    set id | id in info :: h.network(info[id].service)
  }

  /** Codes -20 and -21: the stored counts of each network against those counted. */
  ghost predicate NetworksPass(h: Hashes, m: Core) {
    && |m.counts| >= |Networks(h, m.info)|
    && forall net | net in m.counts ::
         m.counts[net] == (|OfNetwork(h, m.info, NewIds(m.info, {}), net)|,
                           |OfNetwork(h, m.info, TriedIds(m.info), net)|)
  }

  /** CheckAddrman answers zero; code -16, a null key, is not modelled. */
  ghost predicate Passes(h: Hashes, m: Core) {
    && |m.random| == m.nTried + m.nNew
    && (forall id | id in m.info :: EntryPasses(m, id))
    && |TriedIds(m.info)| == m.nTried && |NewIds(m.info, {})| == m.nNew
    && TriedPasses(h, m) && NewPasses(h, m) && NetworksPass(h, m)
  }

  // ---------------------------------------------------------------- the invariant passes

  lemma EntriesPass(h: Hashes, m: Core, id: int)
    requires Inv(h, m, {}, {}) && id in m.info
    ensures EntryPasses(m, id)
  {
    hide Inv;
    IdKnown(h, m, {}, {}, id);
    AddressOf(h, m, {}, {}, id);
    AddressKnown(h, m, {}, {}, m.info[id].service);
    RandomLast(h, m, {}, {}, id);
    TriedUnreferenced(h, m, id);
  }

  lemma TriedUnreferenced(h: Hashes, m: Core, id: int)
    requires Inv(h, m, {}, {}) && id in m.info
    ensures m.info[id].inTried ==> m.info[id].refCount == 0
  {
    hide RandomOk, AddrOk, TriedOk, NewOk, CountsOk;
    if m.info[id].inTried {
      TriedNoRefs(h, m.info, m.newTable, id);
    }
  }

  lemma SizesAgree(h: Hashes, m: Core)
    requires Inv(h, m, {}, {})
    ensures |m.random| == m.nTried + m.nNew && |TriedIds(m.info)| == m.nTried && |NewIds(m.info, {})| == m.nNew
  {
    hide RandomOk, AddrOk, TriedOk, NewOk;
    RandomSize(h, m);
    var news, tries := NewIds(m.info, {}), TriedIds(m.info);
    assert Counted(h, m.info, None, None) == news + tries && news !! tries;
  }

  lemma TriedTablePasses(h: Hashes, m: Core)
    requires Inv(h, m, {}, {})
    ensures TriedPasses(h, m)
  {
    hide At, TriedBucket, Position, RandomOk, AddrOk, NewOk, CountsOk;
    forall id | id in TriedIds(m.info)
      ensures |Slots(m.tried, TRIED_BUCKETS, id)| == 1
    {
      var a := m.info[id].service;
      var b := TriedBucket(h, a);
      var p := Position(h, false, b, a);
      assert TriedAt(h, m.tried, a) == id;
      forall c: nat, q: nat | At(m.tried, c, q) == id
        ensures c == b && q == p
      {
        assert InTriedSlot(h, m.info, At(m.tried, c, q), c, q);
      }
      assert Slots(m.tried, TRIED_BUCKETS, id) == {(b, p)};
    }
  }

  /** Within a bucket an entry has one position, so its slots are as many as its buckets. */
  lemma SlotsAreBuckets(h: Hashes, m: Core, id: int, a: Service, bs: set<nat>, ps: set<(nat, nat)>)
    requires forall s | s in ps :: s.0 in bs && s.1 == Position(h, true, s.0, a)
    requires forall b | b in bs :: (b, Position(h, true, b, a)) in ps
    ensures |ps| == |bs|
    decreases bs
  {
    hide Position;
    if b :| b in bs {
      var s := (b, Position(h, true, b, a));
      SlotsAreBuckets(h, m, id, a, bs - {b}, ps - {s});
    } else {
      assert bs == {};
      assert ps == {};
    }
  }

  lemma NewTablePasses(h: Hashes, m: Core)
    requires Inv(h, m, {}, {})
    ensures NewPasses(h, m)
  {
    hide At, Position, RandomOk, AddrOk, TriedOk, CountsOk;
    forall id | id in NewIds(m.info, {})
      ensures |Slots(m.newTable, NEW_BUCKETS, id)| == m.info[id].refCount
    {
      var a := m.info[id].service;
      var bs, ps := Buckets(h, m.newTable, a, id), Slots(m.newTable, NEW_BUCKETS, id);
      forall s | s in ps
        ensures s.0 in bs && s.1 == Position(h, true, s.0, a)
      {
        assert InNewSlot(h, m.info, At(m.newTable, s.0, s.1), s.0, s.1);
      }
      SlotsAreBuckets(h, m, id, a, bs, ps);
    }
  }

  lemma NetworkCountsPass(h: Hashes, m: Core)
    requires Inv(h, m, {}, {})
    ensures NetworksPass(h, m)
  {
    hide RandomOk, AddrOk, TriedOk, NewOk;
    var news, tries := NewIds(m.info, {}), TriedIds(m.info);
    forall net: Network
      ensures Get(m.counts, net) == (|OfNetwork(h, m.info, news, net)|, |OfNetwork(h, m.info, tries, net)|)
    {
      assert NetworkOk(h, m.info, news, tries, m.counts, net);
    }
    forall net | net in Networks(h, m.info)
      ensures net in m.counts
    {
      NetworkCounted(h, m, net);
    }
    SubsetSize(Networks(h, m.info), m.counts.Keys);
    assert |m.counts.Keys| == |m.counts|;
  }

  /** A network with an entry has counts of its own. */
  lemma NetworkCounted(h: Hashes, m: Core, net: Network)
    requires Inv(h, m, {}, {}) && net in Networks(h, m.info)
    ensures net in m.counts
  {
    hide RandomOk, AddrOk, TriedOk, NewOk;
    var news, tries := NewIds(m.info, {}), TriedIds(m.info);
    var id :| id in m.info && h.network(m.info[id].service) == net;
    assert NetworkOk(h, m.info, news, tries, m.counts, net);
    assert id in OfNetwork(h, m.info, news, net) || id in OfNetwork(h, m.info, tries, net);
    assert OfNetwork(h, m.info, news, net) != {} || OfNetwork(h, m.info, tries, net) != {};
    assert Get(m.counts, net) != (0, 0);
  }

  lemma SubsetSize(a: set<Network>, b: set<Network>)
    requires a <= b
    ensures |a| <= |b|
  {
    assert b == a + (b - a);
  }

  /** What every operation keeps makes the consistency check pass. */
  lemma InvPasses(h: Hashes, m: Core)
    requires Inv(h, m, {}, {})
    ensures Passes(h, m)
  {
    hide Inv, EntryPasses, TriedPasses, NewPasses, NetworksPass;
    forall id | id in m.info
      ensures EntryPasses(m, id)
    {
      EntriesPass(h, m, id);
    }
    SizesAgree(h, m);
    TriedTablePasses(h, m);
    NewTablePasses(h, m);
    NetworkCountsPass(h, m);
  }

  // ---------------------------------------------------------------- what passes satisfies the invariant

  /** What the check takes for granted: the shape of the tables, no address or identifier left over,
      and no entry of a network that has no counts. */
  ghost predicate Unchecked(h: Hashes, m: Core) {
    && Shaped(m.tried, TRIED_BUCKETS) && Shaped(m.newTable, NEW_BUCKETS) && IdsOk(m.info, m.idCount)
    && (forall a | a in m.addr :: m.addr[a] in m.info && m.info[m.addr[a]].service == a)
    && Networks(h, m.info) <= m.counts.Keys
  }

  ghost function Positions(info: map<int, Info>, ids: set<int>): set<int> {
    set id | id in ids && id in info :: info[id].randomPos
  }

  lemma {:induction false} PositionsMany(m: Core, ids: set<int>)
    requires forall id | id in ids :: id in m.info && EntryPasses(m, id)
    ensures |Positions(m.info, ids)| == |ids|
    decreases ids
  {
    if ids != {} {
      Member(ids);
      var x :| x in ids;
      var rest := ids - {x};
      PositionsMany(m, rest);
      PositionsNext(m, rest, x);
      assert ids == rest + {x};
    } else {
      assert Positions(m.info, ids) == {};
    }
  }

  lemma PositionsNext(m: Core, ids: set<int>, x: int)
    requires (forall id | id in ids :: id in m.info && EntryPasses(m, id)) && x !in ids && x in m.info
             && EntryPasses(m, x)
    ensures Positions(m.info, ids + {x}) == Positions(m.info, ids) + {m.info[x].randomPos}
    ensures m.info[x].randomPos !in Positions(m.info, ids)
  {
  }

  ghost function Place(i: int): int {
    i
  }

  ghost function Places(n: nat): set<int> {
    set i | 0 <= i < n :: Place(i)
  }

  lemma {:induction false} PlacesSize(n: nat)
    ensures |Places(n)| == n
  {
    if n > 0 {
      PlacesSize(n - 1);
      forall i
        ensures i in Places(n) <==> i in Places(n - 1) + {n - 1}
      {
        assert Place(i) == i;
      }
      assert Places(n) == Places(n - 1) + {n - 1} && n - 1 !in Places(n - 1);
    } else {
      assert Places(0) == {};
    }
  }

  lemma SameSize(a: set<int>, b: set<int>)
    requires a <= b && |a| == |b|
    ensures a == b
  {
    assert b == a + (b - a);
    assert |b - a| == 0;
  }

  /** As many positions as entries, each entry in its own: none is left over. */
  lemma PositionsFull(m: Core)
    requires (forall id | id in m.info :: EntryPasses(m, id)) && |m.random| == |m.info.Keys|
    ensures Positions(m.info, m.info.Keys) == Places(|m.random|)
  {
    PositionsMany(m, m.info.Keys);
    PlacesSize(|m.random|);
    forall i | i in Positions(m.info, m.info.Keys)
      ensures i in Places(|m.random|)
    {
      var id :| id in m.info.Keys && id in m.info && m.info[id].randomPos == i;
      assert EntryPasses(m, id);
      assert Place(i) == i;
    }
    SameSize(Positions(m.info, m.info.Keys), Places(|m.random|));
  }

  lemma EntriesMany(info: map<int, Info>)
    ensures |info.Keys| == |NewIds(info, {})| + |TriedIds(info)|
  {
    var news, tries := NewIds(info, {}), TriedIds(info);
    assert info.Keys == news + tries && news !! tries;
  }

  lemma RandomFromCheck(h: Hashes, m: Core)
    requires Passes(h, m)
    ensures RandomOk(m.info, m.random)
  {
    hide TriedPasses, NewPasses, NetworksPass, NewIds, TriedIds;
    EntriesMany(m.info);
    PositionsFull(m);
    forall i | 0 <= i < |m.random|
      ensures m.random[i] in m.info && m.info[m.random[i]].randomPos == i
    {
      assert Place(i) in Places(|m.random|);
      var id :| id in m.info.Keys && id in m.info && m.info[id].randomPos == i;
      assert EntryPasses(m, id);
    }
    forall id | id in m.info
      ensures 0 <= m.info[id].randomPos < |m.random| && m.random[m.info[id].randomPos] == id
    {
      assert EntryPasses(m, id);
    }
  }

  lemma TriedFromCheck(h: Hashes, m: Core)
    requires Passes(h, m) && Unchecked(h, m)
    ensures TriedOk(h, m.info, m.tried)
  {
    hide At, TriedBucket, Position, NewPasses, NetworksPass;
    forall id | id in m.info && m.info[id].inTried
      ensures TriedAt(h, m.tried, m.info[id].service) == id
    {
      var ps := Slots(m.tried, TRIED_BUCKETS, id);
      assert id in TriedIds(m.info);
      assert |ps| == 1;
      assert ps != {};
      var s :| s in ps;
      assert id >= 0;
      assert InTriedSlot(h, m.info, At(m.tried, s.0, s.1), s.0, s.1);
    }
  }

  lemma NewFromCheck(h: Hashes, m: Core)
    requires Passes(h, m) && Unchecked(h, m)
    ensures NewOk(h, m.info, m.newTable)
  {
    hide At, Position, TriedPasses, NetworksPass;
    forall id | id in m.info
      ensures m.info[id].refCount == |Buckets(h, m.newTable, m.info[id].service, id)|
    {
      var a := m.info[id].service;
      var bs, ps := Buckets(h, m.newTable, a, id), Slots(m.newTable, NEW_BUCKETS, id);
      assert EntryPasses(m, id) && id >= 0;
      if m.info[id].inTried {
        forall b
          ensures b !in bs
        {
          NotInNew(h, m, id, b);
        }
        assert bs == {};
      } else {
        assert id in NewIds(m.info, {});
        forall s | s in ps
          ensures s.0 in bs && s.1 == Position(h, true, s.0, a)
        {
          assert InNewSlot(h, m.info, At(m.newTable, s.0, s.1), s.0, s.1);
        }
        SlotsAreBuckets(h, m, id, a, bs, ps);
      }
    }
  }

  lemma NotInNew(h: Hashes, m: Core, id: int, b: nat)
    requires NewPasses(h, m) && id in m.info && id >= 0
    ensures m.info[id].inTried ==> b !in Buckets(h, m.newTable, m.info[id].service, id)
  {
    hide At, Position;
    var p := Position(h, true, b, m.info[id].service);
    assert At(m.newTable, b, p) != -1 ==> InNewSlot(h, m.info, At(m.newTable, b, p), b, p);
  }

  lemma CountsFromCheck(h: Hashes, m: Core)
    requires Passes(h, m) && Unchecked(h, m)
    ensures CountsOk(h, m.info, {}, m.nNew, m.nTried, m.counts)
  {
    hide TriedPasses, NewPasses, EntryPasses;
    var news, tries := NewIds(m.info, {}), TriedIds(m.info);
    forall net: Network
      ensures NetworkOk(h, m.info, news, tries, m.counts, net)
    {
      if net !in m.counts {
        forall id
          ensures id !in OfNetwork(h, m.info, news, net) && id !in OfNetwork(h, m.info, tries, net)
        {
          assert id in m.info ==> h.network(m.info[id].service) in Networks(h, m.info);
        }
        assert OfNetwork(h, m.info, news, net) == {} && OfNetwork(h, m.info, tries, net) == {};
      }
    }
  }

  /** The invariant is the check and what it takes for granted, no more and no less. */
  lemma InvIffPasses(h: Hashes, m: Core)
    ensures Inv(h, m, {}, {}) <==> Passes(h, m) && Unchecked(h, m)
  {
    if Inv(h, m, {}, {}) {
      InvPasses(h, m);
      InvUnchecked(h, m);
    }
    if Passes(h, m) && Unchecked(h, m) {
      PassesInv(h, m);
    }
  }

  lemma PassesInv(h: Hashes, m: Core)
    requires Passes(h, m) && Unchecked(h, m)
    ensures Inv(h, m, {}, {})
  {
    hide Passes, RandomOk, TriedOk, NewOk, CountsOk;
    RandomFromCheck(h, m);
    TriedFromCheck(h, m);
    NewFromCheck(h, m);
    CountsFromCheck(h, m);
    EntriesFromCheck(h, m);
  }

  lemma EntriesFromCheck(h: Hashes, m: Core)
    requires Passes(h, m) && Unchecked(h, m)
    ensures AddrOk(m.info, m.addr) && StatusOk(m.info, {}) && TimesOk(m.info)
  {
    hide TriedPasses, NewPasses, NetworksPass, Shaped;
    forall id | id in m.info
      ensures m.info[id].service in m.addr && m.addr[m.info[id].service] == id
      ensures m.info[id].refCount <= MAX_REFS && (m.info[id].refCount == 0 ==> m.info[id].inTried)
      ensures m.info[id].lastTry >= 0 && m.info[id].lastSuccess >= 0
              && (m.info[id].inTried ==> m.info[id].lastSuccess != 0)
    {
      assert EntryPasses(m, id);
    }
  }

  lemma InvUnchecked(h: Hashes, m: Core)
    requires Inv(h, m, {}, {})
    ensures Unchecked(h, m)
  {
    hide RandomOk, CountsOk;
    forall net | net in Networks(h, m.info)
      ensures net in m.counts
    {
      NetworkCounted(h, m, net);
    }
  }

  // ---------------------------------------------------------------- what escapes the check

  /** Beyond the entries the check looks at the counts of networks only. */
  lemma SameEntriesPass(h: Hashes, m: Core, m': Core)
    requires Passes(h, m) && NetworksPass(h, m') && m'.info == m.info && m'.random == m.random
    requires m'.tried == m.tried && m'.newTable == m.newTable && m'.nNew == m.nNew && m'.nTried == m.nTried
    requires forall a | a in m.addr :: a in m'.addr && m'.addr[a] == m.addr[a]
    ensures Passes(h, m')
  {
    hide NetworksPass, TriedIds, NewIds, Slots, At;
    forall id | id in m'.info
      ensures EntryPasses(m', id)
    {
      assert EntryPasses(m, id);
    }
  }

  lemma NoneOfNetwork(h: Hashes, info: map<int, Info>, ids: set<int>, net: Network)
    requires net !in Networks(h, info)
    ensures |OfNetwork(h, info, ids, net)| == 0
  {
    forall id
      ensures id !in OfNetwork(h, info, ids, net)
    {
      assert id in info ==> h.network(info[id].service) in Networks(h, info);
    }
    assert OfNetwork(h, info, ids, net) == {};
  }

  lemma MisplacedCounts(h: Hashes, m: Core, other: Network)
    requires |Networks(h, m.info)| == 1 && other !in Networks(h, m.info) && m.counts == map[other := (0, 0)]
    ensures NetworksPass(h, m)
  {
    hide Networks, OfNetwork, NewIds, TriedIds;
    NoneOfNetwork(h, m.info, NewIds(m.info, {}), other);
    NoneOfNetwork(h, m.info, TriedIds(m.info), other);
  }

  lemma NetworkOfEntry(h: Hashes, info: map<int, Info>, id: int)
    requires id in info
    ensures h.network(info[id].service) in Networks(h, info)
  {
  }

  /** An entry of a network without counts escapes the check, as long as some other network has zero
      counts in its place. */
  lemma CountsEscape(h: Hashes, m: Core, id: int, other: Network)
    requires Inv(h, m, {}, {}) && id in m.info && |Networks(h, m.info)| == 1 && other !in Networks(h, m.info)
    ensures var m' := m.(counts := map[other := (0, 0)]); Passes(h, m') && !Inv(h, m', {}, {})
  {
    hide *;
    var m' := m.(counts := map[other := (0, 0)]);
    InvPasses(h, m);
    MisplacedCounts(h, m', other);
    SameEntriesPass(h, m, m');
    NetworkOfEntry(h, m.info, id);
    if Inv(h, m', {}, {}) {
      NetworkCounted(h, m', h.network(m.info[id].service));
    }
  }

  lemma NetworksKept(h: Hashes, m: Core, m': Core)
    requires Passes(h, m) && m'.info == m.info && m'.counts == m.counts
    ensures NetworksPass(h, m')
  {
    hide Networks, OfNetwork, NewIds, TriedIds, TriedPasses, NewPasses;
  }

  /** So does an address left over in the address map. */
  lemma StaleAddressEscapes(h: Hashes, m: Core, id: int, stale: Service)
    requires Inv(h, m, {}, {}) && id in m.info && stale !in m.addr
    ensures var m' := m.(addr := m.addr[stale := id]); Passes(h, m') && !Inv(h, m', {}, {})
  {
    hide *;
    var m' := m.(addr := m.addr[stale := id]);
    InvPasses(h, m);
    NetworksKept(h, m, m');
    SameEntriesPass(h, m, m');
    AddressOf(h, m, {}, {}, id);
    if Inv(h, m', {}, {}) {
      AddressKnown(h, m', {}, {}, stale);
    }
  }

  // ---------------------------------------------------------------- runs

  datatype Op =
    | AddOp(list: seq<Announcement>, source: Source, penalty: int)
    | GoodOp(service: Service, test: bool, time: int)
    | AttemptOp(service: Service, count: bool, time: int)
    | ConnectedOp(service: Service, time: int)
    | ResolveOp(clock: int -> int)
    | SelectOp
    | GetAddrOp(maxAddresses: nat, maxPct: nat, network: Option<Network>, filtered: bool, now: int, rand: nat -> nat)

  /** Times are positive, as clocks give them. */
  ghost predicate Timely(op: Op) {
    match op
    case GoodOp(_, _, time) => time > 0
    case AttemptOp(_, _, time) => time > 0
    case ResolveOp(clock) => forall id :: clock(id) > 0
    case _ => true
  }

  method Apply(am: AddrManImpl, op: Op)
    requires am.Valid() && Timely(op)
    modifies am
    ensures am.Valid() && Progress(old(am.M()), am.M())
  {
    hide Inv, CollisionsOk, Progress, SameEntries, At, Position, TriedBucket;
    ProgressSelf(am.M());
    match op
    case AddOp(list, source, penalty) =>
      var any := am.Add(list, source, penalty);
    case GoodOp(service, test, time) =>
      var ok := am.Good(service, test, time);
    case AttemptOp(service, count, time) =>
      am.Attempt(service, count, time);
    case ConnectedOp(service, time) =>
      am.Connected(service, time);
    case ResolveOp(clock) =>
      am.ResolveCollisions(clock);
    case SelectOp =>
      var r := am.SelectTriedCollision();
    case GetAddrOp(maxAddresses, maxPct, network, filtered, now, rand) =>
      ghost var m := am.M();
      var r := am.GetAddr(maxAddresses, maxPct, network, filtered, now, rand);
      SameProgress(m, am.M());
  }

  lemma SameProgress(m: Core, n: Core)
    requires SameEntries(m.info, n.info) && n.tried == m.tried && n.idCount == m.idCount
    ensures Progress(m, n)
  {
    hide At;
    assert forall x :: x in n.info ==> x in m.info.Keys;
  }

  /** From an empty manager, whatever is called: the check passes at the end. */
  method Run(h: Hashes, ops: seq<Op>) returns (am: AddrManImpl)
    requires forall i | 0 <= i < |ops| :: Timely(ops[i])
    ensures am.h == h && am.Valid() && Passes(h, am.M())
  {
    hide Inv, CollisionsOk, Progress, Passes;
    am := new AddrManImpl(h);
    var i := 0;
    while i < |ops|
      invariant i <= |ops| && am.h == h && am.Valid() && fresh(am)
    {
      Apply(am, ops[i]);
      i := i + 1;
    }
    InvPasses(h, am.M());
  }
}
