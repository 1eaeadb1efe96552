/** The primitive changes of the address manager, and what each keeps of the invariant. */
module AddrSteps {
  import opened AddrTables

  // ---------------------------------------------------------------- changes of one entry

  /** Same identifiers, and each with the same address and random position. */
  ghost predicate SameIndex(info: map<int, Info>, next: map<int, Info>) {
    info.Keys == next.Keys && forall id | id in info :: next[id].service == info[id].service
                                                        && next[id].randomPos == info[id].randomPos
  }

  lemma IndexKept(info: map<int, Info>, next: map<int, Info>, random: seq<int>, addr: map<Service, int>, idCount: int)
    requires RandomOk(info, random) && AddrOk(info, addr) && IdsOk(info, idCount) && SameIndex(info, next)
    ensures RandomOk(next, random) && AddrOk(next, addr) && IdsOk(next, idCount)
  {
    assert forall id :: id in info <==> id in next;
  }

  ghost predicate SameTried(info: map<int, Info>, next: map<int, Info>) {
    info.Keys == next.Keys && forall id | id in info :: next[id].service == info[id].service
                                                        && next[id].inTried == info[id].inTried
  }

  lemma TriedKept(h: Hashes, info: map<int, Info>, next: map<int, Info>, tried: Table)
    requires TriedOk(h, info, tried) && SameTried(info, next)
    ensures TriedOk(h, next, tried)
  {
    hide TriedBucket, Position, At;
    assert forall id :: id in info <==> id in next;
  }

  lemma NewKept(h: Hashes, info: map<int, Info>, next: map<int, Info>, table: Table)
    requires NewOk(h, info, table) && SameTried(info, next) && forall id | id in info ::
      next[id].refCount == info[id].refCount
    ensures NewOk(h, next, table)
  {
    hide Position, At, Buckets;
    assert forall id :: id in info <==> id in next;
  }

  lemma NewIdsKept(info: map<int, Info>, next: map<int, Info>, uncounted: set<int>)
    requires SameTried(info, next)
    ensures NewIds(next, uncounted) == NewIds(info, uncounted) && TriedIds(next) == TriedIds(info)
  {
    forall id
      ensures id in NewIds(next, uncounted) <==> id in NewIds(info, uncounted)
      ensures id in TriedIds(next) <==> id in TriedIds(info)
    {
      assert id in info <==> id in next;
    }
  }

  lemma OfNetworkKept(h: Hashes, info: map<int, Info>, next: map<int, Info>, ids: set<int>, net: Network)
    requires forall id | id in ids && (id in info || id in next) :: id in info && id in next
                                                                    && next[id].service == info[id].service
    ensures OfNetwork(h, next, ids, net) == OfNetwork(h, info, ids, net)
  {
    forall id
      ensures id in OfNetwork(h, next, ids, net) <==> id in OfNetwork(h, info, ids, net)
    {
    }
  }

  lemma CountsKept(h: Hashes, info: map<int, Info>, next: map<int, Info>, uncounted: set<int>, nNew: int, nTried: int,
                   counts: Counts)
    requires CountsOk(h, info, uncounted, nNew, nTried, counts) && SameTried(info, next)
    ensures CountsOk(h, next, uncounted, nNew, nTried, counts)
  {
    hide NewIds, TriedIds, OfNetwork;
    NewIdsKept(info, next, uncounted);
    forall net: Network
      ensures NetworkOk(h, next, NewIds(next, uncounted), TriedIds(next), counts, net)
    {
      assert NetworkOk(h, info, NewIds(info, uncounted), TriedIds(info), counts, net);
      assert forall id :: id in info <==> id in next;
      OfNetworkKept(h, info, next, NewIds(info, uncounted), net);
      OfNetworkKept(h, info, next, TriedIds(info), net);
    }
  }

  /** Times, services and attempts of an entry change. */
  lemma Touched(h: Hashes, m: Core, loose: set<int>, uncounted: set<int>, id: int, i: Info)
    requires Inv(h, m, loose, uncounted) && id in m.info
    requires i.service == m.info[id].service && i.randomPos == m.info[id].randomPos
    requires i.refCount == m.info[id].refCount && i.inTried == m.info[id].inTried
    requires i.lastTry >= 0 && i.lastSuccess >= 0 && (i.inTried ==> i.lastSuccess != 0)
    ensures Inv(h, m.(info := m.info[id := i]), loose, uncounted)
  {
    hide RandomOk, AddrOk, TriedOk, NewOk, CountsOk, IdsOk;
    var next := m.info[id := i];
    IndexKept(m.info, next, m.random, m.addr, m.idCount);
    TriedKept(h, m.info, next, m.tried);
    NewKept(h, m.info, next, m.newTable);
    CountsKept(h, m.info, next, uncounted, m.nNew, m.nTried, m.counts);
  }

  // ---------------------------------------------------------------- counting one more or one less

  lemma OfNetworkAdd(h: Hashes, info: map<int, Info>, ids: set<int>, id: int, net: Network)
    requires id !in ids && id in info
    ensures |OfNetwork(h, info, ids + {id}, net)| == |OfNetwork(h, info, ids, net)|
            + (if h.network(info[id].service) == net then 1 else 0)
  {
    if h.network(info[id].service) == net {
      assert OfNetwork(h, info, ids + {id}, net) == OfNetwork(h, info, ids, net) + {id};
    } else {
      assert OfNetwork(h, info, ids + {id}, net) == OfNetwork(h, info, ids, net);
    }
  }

  /** A set of entries stays, gains or loses one. */
  ghost predicate Moved(was: set<int>, now: set<int>, id: int, d: int) {
    if d == 1 then id !in was && now == was + {id}
    else if d == -1 then id !in now && was == now + {id}
    else d == 0 && now == was
  }

  ghost predicate SameServices(info: map<int, Info>, next: map<int, Info>, ids: set<int>) {
    forall x | x in ids :: x in info && x in next && next[x].service == info[x].service
  }

  ghost predicate Has(info: map<int, Info>, id: int, a: Service) {
    id in info && info[id].service == a
  }

  lemma OfNetworkMoved(h: Hashes, info: map<int, Info>, next: map<int, Info>, was: set<int>, now: set<int>, id: int,
                       a: Service, d: int, net: Network)
    requires Moved(was, now, id, d) && SameServices(info, next, was * now)
    requires (d == 1 ==> Has(next, id, a)) && (d == -1 ==> Has(info, id, a))
    ensures |OfNetwork(h, next, now, net)| == |OfNetwork(h, info, was, net)| + (if h.network(a) == net then d else 0)
  {
    hide OfNetwork;
    if d == 1 {
      assert was * now == was;
      OfNetworkKept(h, info, next, was, net);
      OfNetworkAdd(h, next, was, id, net);
    } else if d == -1 {
      assert was * now == now;
      OfNetworkKept(h, info, next, now, net);
      OfNetworkAdd(h, info, now, id, net);
    } else {
      assert was * now == was;
      OfNetworkKept(h, info, next, was, net);
    }
  }

  /** The counts follow when one entry moves in or out of the new and the tried ones. */
  lemma CountsMoved(h: Hashes, info: map<int, Info>, next: map<int, Info>, uncounted: set<int>, uncounted2: set<int>,
                    nNew: int, nTried: int, counts: Counts, id: int, a: Service, dn: int, dt: int)
    requires CountsOk(h, info, uncounted, nNew, nTried, counts)
    requires Moved(NewIds(info, uncounted), NewIds(next, uncounted2), id, dn)
             && Moved(TriedIds(info), TriedIds(next), id, dt)
    requires SameServices(info, next, NewIds(info, uncounted) * NewIds(next, uncounted2))
    requires SameServices(info, next, TriedIds(info) * TriedIds(next))
    requires (dn == 1 || dt == 1 ==> Has(next, id, a)) && (dn == -1 || dt == -1 ==> Has(info, id, a))
    ensures CountsOk(h, next, uncounted2, nNew + dn, nTried + dt, Bump(counts, h.network(a), dn, dt))
  {
    hide NewIds, TriedIds, OfNetwork;
    MovedSize(NewIds(info, uncounted), NewIds(next, uncounted2), id, dn);
    MovedSize(TriedIds(info), TriedIds(next), id, dt);
    forall net: Network
      ensures NetworkOk(h, next, NewIds(next, uncounted2), TriedIds(next), Bump(counts, h.network(a), dn, dt), net)
    {
      assert NetworkOk(h, info, NewIds(info, uncounted), TriedIds(info), counts, net);
      OfNetworkMoved(h, info, next, NewIds(info, uncounted), NewIds(next, uncounted2), id, a, dn, net);
      OfNetworkMoved(h, info, next, TriedIds(info), TriedIds(next), id, a, dt, net);
    }
  }

  lemma MovedSize(was: set<int>, now: set<int>, id: int, d: int)
    requires Moved(was, now, id, d)
    ensures |now| == |was| + d
  {
  }

  // ---------------------------------------------------------------- the new table

  function NewSlot(h: Hashes, m: Core, b: nat, id: int): nat
    requires id in m.info
  {
    Position(h, true, b, m.info[id].service)
  }

  /** The entry goes into its slot of a new bucket. */
  function Put(h: Hashes, m: Core, b: nat, id: int): Core
    requires id in m.info
  {
    m.(newTable := Set(m.newTable, b, NewSlot(h, m, b, id), id),
       info := m.info[id := m.info[id].(refCount := m.info[id].refCount + 1)])
  }

  /** The entry leaves its slot of a new bucket. */
  function Clear(h: Hashes, m: Core, b: nat, id: int): Core
    requires id in m.info
  {
    m.(newTable := Set(m.newTable, b, NewSlot(h, m, b, id), -1),
       info := m.info[id := m.info[id].(refCount := m.info[id].refCount - 1)])
  }

  lemma BucketsSet(h: Hashes, t: Table, b: nat, p: nat, from: int, to: int, a: Service, id: int)
    requires Shaped(t, NEW_BUCKETS) && b < NEW_BUCKETS && p < BUCKET_SIZE && At(t, b, p) == from
    ensures from != id && to != id ==> Buckets(h, Set(t, b, p, to), a, id) == Buckets(h, t, a, id)
    ensures p == Position(h, true, b, a) && from != id && to == id
            ==> Buckets(h, Set(t, b, p, to), a, id) == Buckets(h, t, a, id) + {b} && b !in Buckets(h, t, a, id)
    ensures p == Position(h, true, b, a) && from == id && to != id
            ==> Buckets(h, Set(t, b, p, to), a, id) == Buckets(h, t, a, id) - {b} && b in Buckets(h, t, a, id)
  {
    hide Set, At;
    SetAt(t, NEW_BUCKETS, b, p, to);
    forall c: nat
      ensures from != id && to != id ==> (c in Buckets(h, Set(t, b, p, to), a, id) <==> c in Buckets(h, t, a, id))
    {
    }
  }

  /** Slots of the new table: one entry's count follows its buckets, the others' stay. */
  lemma NewChanged(h: Hashes, info: map<int, Info>, t: Table, b: nat, id: int, from: int, to: int, d: int)
    requires NewOk(h, info, t) && id in info && -1 !in info && !info[id].inTried && b < NEW_BUCKETS
    requires At(t, b, Position(h, true, b, info[id].service)) == from
    requires (from == -1 && to == id && d == 1) || (from == id && to == -1 && d == -1)
    ensures var next := info[id := info[id].(refCount := info[id].refCount + d)];
            NewOk(h, next, Set(t, b, Position(h, true, b, info[id].service), to))
  {
    hide Set, At, Buckets, Position;
    var p := Position(h, true, b, info[id].service);
    var u := Set(t, b, p, to);
    var next := info[id := info[id].(refCount := info[id].refCount + d)];
    SetAt(t, NEW_BUCKETS, b, p, to);
    forall c: nat, q: nat | At(u, c, q) != -1
      ensures InNewSlot(h, next, At(u, c, q), c, q)
    {
      if !(c == b && q == p) {
        assert InNewSlot(h, info, At(t, c, q), c, q);
      }
    }
    forall x | x in next
      ensures next[x].refCount == |Buckets(h, u, next[x].service, x)|
    {
      BucketsSet(h, t, b, p, from, to, info[x].service, x);
    }
  }

  lemma PutOk(h: Hashes, m: Core, loose: set<int>, uncounted: set<int>, b: nat, id: int)
    requires Inv(h, m, loose, uncounted) && id in m.info && !m.info[id].inTried && m.info[id].refCount < MAX_REFS
    requires b < NEW_BUCKETS && At(m.newTable, b, NewSlot(h, m, b, id)) == -1
    ensures Inv(h, Put(h, m, b, id), loose - {id}, uncounted)
  {
    hide RandomOk, AddrOk, TriedOk, CountsOk, Position, At, Set;
    var next := Put(h, m, b, id).info;
    RefsNatural(h, m.info, m.newTable, id);
    NewChanged(h, m.info, m.newTable, b, id, -1, id, 1);
    EntryKept(h, m, uncounted, next);
  }

  lemma ClearOk(h: Hashes, m: Core, loose: set<int>, uncounted: set<int>, b: nat, id: int)
    requires Inv(h, m, loose, uncounted) && id in m.info
    requires b < NEW_BUCKETS && At(m.newTable, b, NewSlot(h, m, b, id)) == id
    ensures !m.info[id].inTried && m.info[id].refCount > 0
    ensures Inv(h, Clear(h, m, b, id), if m.info[id].refCount == 1 then loose + {id} else loose, uncounted)
  {
    hide RandomOk, AddrOk, TriedOk, CountsOk, Position, At, Set;
    SlotHolds(h, m.info, m.newTable, b, id);
    var next := Clear(h, m, b, id).info;
    NewChanged(h, m.info, m.newTable, b, id, id, -1, -1);
    EntryKept(h, m, uncounted, next);
  }

  lemma RefsNatural(h: Hashes, info: map<int, Info>, t: Table, id: int)
    requires NewOk(h, info, t) && id in info
    ensures info[id].refCount >= 0
  {
  }

  lemma SlotHolds(h: Hashes, info: map<int, Info>, t: Table, b: nat, id: int)
    requires NewOk(h, info, t) && id in info && id != -1 && b < NEW_BUCKETS
             && At(t, b, Position(h, true, b, info[id].service)) == id
    ensures !info[id].inTried && info[id].refCount > 0
  {
    hide Position, At;
    assert InNewSlot(h, info, id, b, Position(h, true, b, info[id].service));
    assert b in Buckets(h, t, info[id].service, id);
  }

  /** The parts of the invariant that do not look at reference counts. */
  lemma EntryKept(h: Hashes, m: Core, uncounted: set<int>, next: map<int, Info>)
    requires RandomOk(m.info, m.random) && AddrOk(m.info, m.addr) && TriedOk(h, m.info, m.tried)
             && IdsOk(m.info, m.idCount)
    requires CountsOk(h, m.info, uncounted, m.nNew, m.nTried, m.counts)
    requires SameIndex(m.info, next) && SameTried(m.info, next)
    ensures RandomOk(next, m.random) && AddrOk(next, m.addr) && TriedOk(h, next, m.tried) && IdsOk(next, m.idCount)
    ensures CountsOk(h, next, uncounted, m.nNew, m.nTried, m.counts)
  {
    hide RandomOk, AddrOk, TriedOk, CountsOk, IdsOk, SameIndex, SameTried;
    IndexKept(m.info, next, m.random, m.addr, m.idCount);
    TriedKept(h, m.info, next, m.tried);
    CountsKept(h, m.info, next, uncounted, m.nNew, m.nTried, m.counts);
  }

  // ---------------------------------------------------------------- counting

  function Uncount(h: Hashes, m: Core, id: int): Core
    requires id in m.info
  {
    m.(nNew := m.nNew - 1, counts := Bump(m.counts, h.network(m.info[id].service), -1, 0))
  }

  function Recount(h: Hashes, m: Core, id: int): Core
    requires id in m.info
  {
    m.(nNew := m.nNew + 1, counts := Bump(m.counts, h.network(m.info[id].service), 1, 0))
  }

  lemma UncountOk(h: Hashes, m: Core, loose: set<int>, uncounted: set<int>, id: int)
    requires Inv(h, m, loose, uncounted) && id in m.info && !m.info[id].inTried && id !in uncounted
    ensures Inv(h, Uncount(h, m, id), loose, uncounted + {id})
  {
    hide RandomOk, AddrOk, TriedOk, NewOk, CountsOk;
    assert NewIds(m.info, uncounted) == NewIds(m.info, uncounted + {id}) + {id};
    CountsMoved(h, m.info, m.info, uncounted, uncounted + {id}, m.nNew, m.nTried, m.counts, id, m.info[id].service,
                -1, 0);
  }

  lemma RecountOk(h: Hashes, m: Core, loose: set<int>, uncounted: set<int>, id: int)
    requires Inv(h, m, loose, uncounted) && id in m.info && !m.info[id].inTried && id in uncounted
    ensures Inv(h, Recount(h, m, id), loose, uncounted - {id})
  {
    hide RandomOk, AddrOk, TriedOk, NewOk, CountsOk;
    assert NewIds(m.info, uncounted - {id}) == NewIds(m.info, uncounted) + {id};
    CountsMoved(h, m.info, m.info, uncounted, uncounted - {id}, m.nNew, m.nTried, m.counts, id, m.info[id].service, 1,
                0);
  }

  // ---------------------------------------------------------------- the tried table

  /** The entry takes its tried slot. */
  function Try(h: Hashes, m: Core, id: int): Core
    requires id in m.info
  {
    var a := m.info[id].service;
    m.(tried := Set(m.tried, TriedBucket(h, a), Position(h, false, TriedBucket(h, a), a), id),
       info := m.info[id := m.info[id].(inTried := true)],
       nTried := m.nTried + 1, counts := Bump(m.counts, h.network(a), 0, 1))
  }

  /** The entry gives its tried slot up. */
  function Untry(h: Hashes, m: Core, id: int): Core
    requires id in m.info
  {
    var a := m.info[id].service;
    m.(tried := Set(m.tried, TriedBucket(h, a), Position(h, false, TriedBucket(h, a), a), -1),
       info := m.info[id := m.info[id].(inTried := false)],
       nTried := m.nTried - 1, counts := Bump(m.counts, h.network(a), 0, -1))
  }

  lemma TriedPut(h: Hashes, info: map<int, Info>, t: Table, id: int)
    requires TriedOk(h, info, t) && id in info && -1 !in info && !info[id].inTried
             && TriedAt(h, t, info[id].service) == -1
    ensures var a := info[id].service;
            TriedOk(h, info[id := info[id].(inTried := true)],
                    Set(t, TriedBucket(h, a), Position(h, false, TriedBucket(h, a), a), id))
  {
    hide Set, At, Position, TriedBucket;
    var a := info[id].service;
    var b := TriedBucket(h, a);
    var p := Position(h, false, b, a);
    var u, next := Set(t, b, p, id), info[id := info[id].(inTried := true)];
    SetAt(t, TRIED_BUCKETS, b, p, id);
    forall c: nat, q: nat | At(u, c, q) != -1
      ensures InTriedSlot(h, next, At(u, c, q), c, q)
    {
      if !(c == b && q == p) {
        assert InTriedSlot(h, info, At(t, c, q), c, q);
      }
    }
    forall x | x in next && next[x].inTried
      ensures TriedAt(h, u, next[x].service) == x
    {
      if x != id {
        assert TriedAt(h, t, info[x].service) == x;
        NotTheSlot(h, info, t, x, b, p);
      }
    }
  }

  lemma NotTheSlot(h: Hashes, info: map<int, Info>, t: Table, x: int, b: nat, p: nat)
    requires TriedOk(h, info, t) && x in info && info[x].inTried && At(t, b, p) != x
    ensures !(TriedBucket(h, info[x].service) == b && Position(h, false, b, info[x].service) == p)
  {
    hide Position, TriedBucket, At;
  }

  lemma TriedCleared(h: Hashes, info: map<int, Info>, t: Table, id: int)
    requires TriedOk(h, info, t) && id in info && info[id].inTried
    ensures var a := info[id].service;
            TriedOk(h, info[id := info[id].(inTried := false)],
                    Set(t, TriedBucket(h, a), Position(h, false, TriedBucket(h, a), a), -1))
  {
    hide Set, At, Position, TriedBucket;
    var a := info[id].service;
    var b := TriedBucket(h, a);
    var p := Position(h, false, b, a);
    var u, next := Set(t, b, p, -1), info[id := info[id].(inTried := false)];
    SetAt(t, TRIED_BUCKETS, b, p, -1);
    assert TriedAt(h, t, a) == id;
    forall c: nat, q: nat | At(u, c, q) != -1
      ensures InTriedSlot(h, next, At(u, c, q), c, q)
    {
      assert InTriedSlot(h, info, At(t, c, q), c, q);
    }
    forall x | x in next && next[x].inTried
      ensures TriedAt(h, u, next[x].service) == x
    {
      assert TriedAt(h, t, info[x].service) == x;
      NotTheSlot(h, info, t, x, b, p);
    }
  }

  lemma TryOk(h: Hashes, m: Core, loose: set<int>, uncounted: set<int>, id: int)
    requires Inv(h, m, loose, uncounted) && id in m.info && !m.info[id].inTried && m.info[id].refCount == 0
    requires id in uncounted && TriedAt(h, m.tried, m.info[id].service) == -1 && m.info[id].lastSuccess != 0
    ensures Inv(h, Try(h, m, id), loose - {id}, uncounted - {id})
  {
    hide RandomOk, AddrOk, TriedOk, NewOk, CountsOk;
    var next := m.info[id := m.info[id].(inTried := true)];
    IndexKept(m.info, next, m.random, m.addr, m.idCount);
    TriedPut(h, m.info, m.tried, id);
    NewRetried(h, m.info, m.newTable, id, true);
    assert NewIds(next, uncounted - {id}) == NewIds(m.info, uncounted);
    assert TriedIds(next) == TriedIds(m.info) + {id};
    CountsMoved(h, m.info, next, uncounted, uncounted - {id}, m.nNew, m.nTried, m.counts, id, m.info[id].service, 0, 1);
  }

  lemma UntryOk(h: Hashes, m: Core, loose: set<int>, uncounted: set<int>, id: int)
    requires Inv(h, m, loose, uncounted) && id in m.info && m.info[id].inTried
    ensures m.info[id].refCount == 0 && Inv(h, Untry(h, m, id), loose + {id}, uncounted + {id})
  {
    hide RandomOk, AddrOk, TriedOk, NewOk, CountsOk;
    var next := m.info[id := m.info[id].(inTried := false)];
    IndexKept(m.info, next, m.random, m.addr, m.idCount);
    TriedCleared(h, m.info, m.tried, id);
    TriedNoRefs(h, m.info, m.newTable, id);
    NewRetried(h, m.info, m.newTable, id, false);
    assert NewIds(next, uncounted + {id}) == NewIds(m.info, uncounted);
    assert TriedIds(m.info) == TriedIds(next) + {id};
    CountsMoved(h, m.info, next, uncounted, uncounted + {id}, m.nNew, m.nTried, m.counts, id, m.info[id].service, 0,
                -1);
  }

  /** An entry without references is in no slot of the new table, so it may change sides. */
  lemma NewRetried(h: Hashes, info: map<int, Info>, t: Table, id: int, tried: bool)
    requires NewOk(h, info, t) && id in info && id != -1 && info[id].refCount == 0
    ensures NewOk(h, info[id := info[id].(inTried := tried)], t)
  {
    hide Position, At;
    var next := info[id := info[id].(inTried := tried)];
    forall b: nat, p: nat | At(t, b, p) != -1
      ensures InNewSlot(h, next, At(t, b, p), b, p)
    {
      SlotCounts(h, info, t, b, p);
    }
  }

  /** What is in a slot of the new table is referenced and not tried. */
  lemma SlotCounts(h: Hashes, info: map<int, Info>, t: Table, b: nat, p: nat)
    requires NewOk(h, info, t) && At(t, b, p) != -1
    ensures InNewSlot(h, info, At(t, b, p), b, p) && info[At(t, b, p)].refCount > 0
    ensures b < NEW_BUCKETS && p < BUCKET_SIZE
  {
    hide Position;
    var id := At(t, b, p);
    assert InNewSlot(h, info, id, b, p);
    assert b in Buckets(h, t, info[id].service, id);
  }

  lemma TriedNoRefs(h: Hashes, info: map<int, Info>, t: Table, id: int)
    requires NewOk(h, info, t) && id in info && id != -1 && info[id].inTried
    ensures info[id].refCount == 0
  {
    hide Position, At, NewOk;
    var bs := Buckets(h, t, info[id].service, id);
    if bs != {} {
      var b :| b in bs;
      SlotCounts(h, info, t, b, Position(h, true, b, info[id].service));
    }
    RefsAre(h, info, t, id);
  }

  lemma RefsAre(h: Hashes, info: map<int, Info>, t: Table, id: int)
    requires NewOk(h, info, t) && id in info
    ensures info[id].refCount == |Buckets(h, t, info[id].service, id)|
  {
  }

  // ---------------------------------------------------------------- the random order

  /** Two entries change places in the random order. */
  function Swap(m: Core, i: nat, j: nat): Core
    requires i < |m.random| && j < |m.random| && m.random[i] in m.info && m.random[j] in m.info
  {
    if i == j then m
    else
      var x, y := m.random[i], m.random[j];
      m.(info := m.info[x := m.info[x].(randomPos := j)][y := m.info[y].(randomPos := i)],
         random := m.random[i := y][j := x])
  }

  lemma RandomSwap(info: map<int, Info>, random: seq<int>, i: nat, j: nat)
    requires RandomOk(info, random) && i < |random| && j < |random| && i != j
    ensures random[i] != random[j]
    ensures var x, y := random[i], random[j];
            RandomOk(info[x := info[x].(randomPos := j)][y := info[y].(randomPos := i)], random[i := y][j := x])
  {
  }

  lemma SwapOk(h: Hashes, m: Core, loose: set<int>, uncounted: set<int>, i: nat, j: nat)
    requires Inv(h, m, loose, uncounted) && i < |m.random| && j < |m.random|
    ensures m.random[i] in m.info && m.random[j] in m.info && Inv(h, Swap(m, i, j), loose, uncounted)
  {
    hide AddrOk, TriedOk, NewOk, CountsOk;
    if i != j {
      RandomSwap(m.info, m.random, i, j);
      var next := Swap(m, i, j).info;
      hide RandomOk;
      AddrKept(m.info, next, m.addr);
      TriedKept(h, m.info, next, m.tried);
      NewKept(h, m.info, next, m.newTable);
      CountsKept(h, m.info, next, uncounted, m.nNew, m.nTried, m.counts);
    }
  }

  lemma AddrKept(info: map<int, Info>, next: map<int, Info>, addr: map<Service, int>)
    requires AddrOk(info, addr) && SameTried(info, next)
    ensures AddrOk(next, addr)
  {
    assert forall id :: id in info <==> id in next;
  }

  // ---------------------------------------------------------------- entries come and go

  /** A new entry, counted as new, in no table yet. */
  function Create(h: Hashes, m: Core, a: Service, time: int, services: set<nat>, source: Source): Core {
    m.(info := m.info[m.idCount := Info(a, time, services, source, 0, 0, 0, 0, 0, false, |m.random|)],
       addr := m.addr[a := m.idCount], random := m.random + [m.idCount],
       nNew := m.nNew + 1, counts := Bump(m.counts, h.network(a), 1, 0), idCount := m.idCount + 1)
  }

  /** An entry whose identifier is last in the random order goes. */
  function Remove(h: Hashes, m: Core, id: int): Core
    requires id in m.info && |m.random| > 0
  {
    m.(info := m.info - {id}, addr := m.addr - {m.info[id].service}, random := m.random[..|m.random| - 1],
       nNew := m.nNew - 1, counts := Bump(m.counts, h.network(m.info[id].service), -1, 0))
  }

  lemma CreateIndex(info: map<int, Info>, random: seq<int>, addr: map<Service, int>, idCount: int, i: Info)
    requires RandomOk(info, random) && AddrOk(info, addr) && IdsOk(info, idCount)
    requires i.service !in addr && i.randomPos == |random|
    ensures RandomOk(info[idCount := i], random + [idCount])
    ensures AddrOk(info[idCount := i], addr[i.service := idCount]) && IdsOk(info[idCount := i], idCount + 1)
  {
  }

  lemma CreateTables(h: Hashes, info: map<int, Info>, tried: Table, t: Table, id: int, i: Info)
    requires TriedOk(h, info, tried) && NewOk(h, info, t) && id !in info && id != -1 && !i.inTried && i.refCount == 0
    ensures TriedOk(h, info[id := i], tried) && NewOk(h, info[id := i], t)
  {
    hide Position, At, TriedBucket, NewOk, Buckets;
    NewOkSlots(h, info, t);
    var next := info[id := i];
    forall b: nat, p: nat | At(tried, b, p) != -1
      ensures InTriedSlot(h, next, At(tried, b, p), b, p)
    {
      assert InTriedSlot(h, info, At(tried, b, p), b, p);
    }
    NewAbsent(h, info, t, i.service, id);
    NewOkFrom(h, next, t);
  }

  lemma NewOkSlots(h: Hashes, info: map<int, Info>, t: Table)
    requires NewOk(h, info, t)
    ensures Shaped(t, NEW_BUCKETS) && (forall b: nat, p: nat | At(t, b, p) != -1 ::
                                         InNewSlot(h, info, At(t, b, p), b, p))
    ensures forall id | id in info :: info[id].refCount == |Buckets(h, t, info[id].service, id)|
  {
  }

  lemma NewOkFrom(h: Hashes, info: map<int, Info>, t: Table)
    requires Shaped(t, NEW_BUCKETS) && (forall b: nat, p: nat | At(t, b, p) != -1 ::
                                          InNewSlot(h, info, At(t, b, p), b, p))
    requires forall id | id in info :: info[id].refCount == |Buckets(h, t, info[id].service, id)|
    ensures NewOk(h, info, t)
  {
  }

  lemma NewAbsent(h: Hashes, info: map<int, Info>, t: Table, a: Service, id: int)
    requires NewOk(h, info, t) && id !in info && id != -1
    ensures Buckets(h, t, a, id) == {}
  {
    hide Position, At, NewOk;
    var bs := Buckets(h, t, a, id);
    if bs != {} {
      var b :| b in bs;
      SlotCounts(h, info, t, b, Position(h, true, b, a));
    }
  }

  lemma CreateOk(h: Hashes, m: Core, loose: set<int>, uncounted: set<int>, a: Service, time: int, services: set<nat>,
                 source: Source)
    requires Inv(h, m, loose, uncounted) && a !in m.addr && m.idCount !in uncounted
    ensures m.idCount !in m.info && Inv(h, Create(h, m, a, time, services, source), loose + {m.idCount}, uncounted)
  {
    hide RandomOk, AddrOk, TriedOk, NewOk, CountsOk;
    var next := Create(h, m, a, time, services, source);
    var id := m.idCount;
    CreateIndex(m.info, m.random, m.addr, id, next.info[id]);
    CreateTables(h, m.info, m.tried, m.newTable, id, next.info[id]);
    assert NewIds(next.info, uncounted) == NewIds(m.info, uncounted) + {id};
    assert TriedIds(next.info) == TriedIds(m.info);
    CountsMoved(h, m.info, next.info, uncounted, uncounted, m.nNew, m.nTried, m.counts, id, a, 1, 0);
  }

  lemma RemoveIndex(info: map<int, Info>, random: seq<int>, addr: map<Service, int>, idCount: int, id: int)
    requires RandomOk(info, random) && AddrOk(info, addr) && IdsOk(info, idCount)
    requires id in info && |random| > 0 && random[|random| - 1] == id
    ensures RandomOk(info - {id}, random[..|random| - 1])
    ensures AddrOk(info - {id}, addr - {info[id].service}) && IdsOk(info - {id}, idCount)
  {
    var next := info - {id};
    assert forall x :: x in next <==> x in info && x != id;
    forall i | 0 <= i < |random| - 1
      ensures random[i] in next
    {
      assert info[random[i]].randomPos == i;
    }
  }

  lemma RemoveTables(h: Hashes, info: map<int, Info>, tried: Table, t: Table, id: int)
    requires TriedOk(h, info, tried) && NewOk(h, info, t) && id in info && id != -1 && !info[id].inTried
             && info[id].refCount == 0
    ensures TriedOk(h, info - {id}, tried) && NewOk(h, info - {id}, t)
  {
    hide Position, At, TriedBucket, NewOk, Buckets;
    NewOkSlots(h, info, t);
    var next := info - {id};
    assert forall x :: x in next <==> x in info && x != id;
    forall b: nat, p: nat | At(tried, b, p) != -1
      ensures InTriedSlot(h, next, At(tried, b, p), b, p)
    {
      assert InTriedSlot(h, info, At(tried, b, p), b, p);
    }
    forall b: nat, p: nat | At(t, b, p) != -1
      ensures InNewSlot(h, next, At(t, b, p), b, p)
    {
      SlotCounts(h, info, t, b, p);
    }
    NewOkFrom(h, next, t);
  }

  lemma RemoveOk(h: Hashes, m: Core, loose: set<int>, uncounted: set<int>, id: int)
    requires Inv(h, m, loose, uncounted) && id in m.info && !m.info[id].inTried && m.info[id].refCount == 0
             && id !in uncounted
    requires |m.random| > 0 && m.random[|m.random| - 1] == id
    ensures Inv(h, Remove(h, m, id), loose - {id}, uncounted)
  {
    hide RandomOk, AddrOk, TriedOk, NewOk, CountsOk;
    var next := m.info - {id};
    RemoveIndex(m.info, m.random, m.addr, m.idCount, id);
    RemoveTables(h, m.info, m.tried, m.newTable, id);
    assert NewIds(m.info, uncounted) == NewIds(next, uncounted) + {id};
    assert TriedIds(next) == TriedIds(m.info);
    CountsMoved(h, m.info, next, uncounted, uncounted, m.nNew, m.nTried, m.counts, id, m.info[id].service, -1, 0);
  }
}
