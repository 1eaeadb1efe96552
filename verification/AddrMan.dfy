/** The address manager: every operation keeps its structures consistent. */
module AddrMan {
  import opened Options
  import opened AddrTables
  import opened AddrSteps

  const COLLISIONS: nat := 10

  /** What other operations may rely on: entries keep their address, identifiers are not used again,
      and a tried slot once occupied stays so. */
  ghost predicate Progress(m: Core, n: Core) {
    && m.idCount <= n.idCount
    && (forall id | id in n.info :: id >= m.idCount || (id in m.info && n.info[id].service == m.info[id].service))
    && (forall b: nat, p: nat | At(m.tried, b, p) != -1 :: At(n.tried, b, p) != -1)
  }

  lemma ProgressTrans(l: Core, m: Core, n: Core)
    requires Progress(l, m) && Progress(m, n)
    ensures Progress(l, n)
  {
    hide At;
  }

  /** Entries waiting for a tried slot: the slot is occupied. */
  ghost predicate CollisionsOk(h: Hashes, m: Core, collisions: set<int>) {
    |collisions| <= COLLISIONS
    && forall id | id in collisions :: id < m.idCount
                                       && (id in m.info ==> TriedAt(h, m.tried, m.info[id].service) != -1)
  }

  lemma CollisionsKept(h: Hashes, m: Core, n: Core, collisions: set<int>)
    requires CollisionsOk(h, m, collisions) && Progress(m, n)
    ensures CollisionsOk(h, n, collisions)
  {
    hide At, TriedBucket, Position;
  }

  function Later(x: int, y: int): int {
    if x >= y then x else y
  }

  const MINUTE: int := 60
  const HOUR: int := 3600
  const DAY: int := 86400

  /** Statistics bad enough for an entry to be dropped. */
  predicate IsTerrible(i: Info, now: int) {
    now - i.lastTry > MINUTE
    && (i.time > now + 10 * MINUTE
        || now - i.time > 30 * DAY
        || (i.lastSuccess == 0 && i.attempts >= 3)
        || (now - i.lastSuccess > 7 * DAY && i.attempts >= 10))
  }

  /** The entries a count is about. */
  ghost function Counted(h: Hashes, info: map<int, Info>, net: Option<Network>, inNew: Option<bool>): set<int> {
    set id | id in info
             && (net.Some? ==> h.network(info[id].service) == net.value)
             && (inNew.Some? ==> info[id].inTried == !inNew.value)
  }

  function Limit(n: nat, maxAddresses: nat, maxPct: nat): nat {
    var share := if maxPct == 0 then n else (if maxPct > 100 then 100 else maxPct) * n / 100;
    if maxAddresses != 0 && maxAddresses < share then maxAddresses else share
  }

  predicate Wanted(h: Hashes, i: Info, network: Option<Network>, filtered: bool, now: int) {
    (network.Some? ==> h.netClass(i.service) == network.value) && !(IsTerrible(i, now) && filtered)
  }

  /** A failed attempt counts once after the last success anywhere. */
  function Attempted(i: Info, countFailure: bool, lastGood: int, time: int): Info {
    if countFailure && i.lastCountAttempt < lastGood
    then i.(lastTry := time, lastCountAttempt := time, attempts := i.attempts + 1)
    else i.(lastTry := time)
  }

  /** The same entries, up to their random positions. */
  ghost predicate SameEntries(was: map<int, Info>, now: map<int, Info>) {
    was.Keys == now.Keys && forall x | x in was :: now[x] == was[x].(randomPos := now[x].randomPos)
  }

  /** The addresses of the wanted ones among some entries, in order. */
  ghost function Picked(h: Hashes, info: map<int, Info>, ids: seq<int>, network: Option<Network>, filtered: bool,
                        now: int): seq<Service> {
    if ids == [] then []
    else
      var id := ids[|ids| - 1];
      Picked(h, info, ids[..|ids| - 1], network, filtered, now)
      + (if id in info && Wanted(h, info[id], network, filtered, now) then [info[id].service] else [])
  }

  /** An address as announced, with the clock and the draw at that moment. */
  datatype Announcement = Announcement(service: Service, time: int, services: set<nat>, now: int, lucky: bool)

  /** Entry by entry the same, up to the random position. */
  ghost predicate Still(was: map<int, Info>, now: map<int, Info>, id: int) {
    id in was ==> id in now && now[id] == was[id].(randomPos := now[id].randomPos)
  }

  class AddrManImpl {
    const h: Hashes
    var info: map<int, Info>
    var addr: map<Service, int>
    var random: seq<int>
    var tried: Table
    var newTable: Table
    var nNew: int
    var nTried: int
    var counts: Counts
    var idCount: int
    var collisions: set<int>
    var lastGood: int

    ghost function M(): Core
      reads this
    {
      Core(info, addr, random, tried, newTable, nNew, nTried, counts, idCount)
    }

    ghost predicate Valid()
      reads this
    {
      Inv(h, M(), {}, {}) && CollisionsOk(h, M(), collisions)
    }

    method SwapRandom(i: nat, j: nat, ghost loose: set<int>, ghost uncounted: set<int>)
      requires Inv(h, M(), loose, uncounted) && i < |random| && j < |random|
      modifies this`info, this`random
      ensures Inv(h, M(), loose, uncounted) && old(random[i] in info && random[j] in info)
              && M() == Swap(old(M()), i, j)
    {
      hide Inv;
      ghost var m := M();
      SwapOk(h, m, loose, uncounted, i, j);
      if i == j {
        return;
      }
      var id1, id2 := random[i], random[j];
      RandomDistinct(h, m, loose, uncounted, i, j);
      info := info[id1 := info[id1].(randomPos := j)];
      info := info[id2 := info[id2].(randomPos := i)];
      random := random[i := id2];
      random := random[j := id1];
      assert M() == Swap(m, i, j);
    }

    /** An entry in neither table goes. */
    method Delete(id: int, ghost loose: set<int>, ghost uncounted: set<int>)
      requires Inv(h, M(), loose, uncounted) && id in info && !info[id].inTried && info[id].refCount == 0
               && id !in uncounted
      modifies this`info, this`random, this`counts, this`addr, this`nNew
      ensures Inv(h, M(), loose - {id}, uncounted)
      ensures id !in info && forall x | x != id :: Still(old(info), info, x) && (x in info ==> x in old(info))
      ensures addr == old(addr) - {old(info[id].service)}
    {
      hide Inv, Swap, Bump;
      ghost var m := M();
      RandomLast(h, m, loose, uncounted, id);
      SwapRandom(info[id].randomPos, |random| - 1, loose, uncounted);
      SwappedLast(h, m, loose, uncounted, id);
      ghost var n := M();
      RemoveOk(h, n, loose, uncounted, id);
      counts := Bump(counts, h.network(info[id].service), -1, 0);
      random := random[..|random| - 1];
      addr := addr - {info[id].service};
      info := info - {id};
      nNew := nNew - 1;
      assert M() == Remove(h, n, id);
    }

    /** A slot of the new table becomes empty; an entry with no slot left goes. */
    method ClearNew(b: nat, p: nat, ghost loose: set<int>, ghost uncounted: set<int>)
      requires Inv(h, M(), loose, uncounted) && b < NEW_BUCKETS && p < BUCKET_SIZE
      requires forall x | x in uncounted && x in info :: info[x].refCount == 0
      modifies this`info, this`random, this`counts, this`addr, this`nNew, this`newTable
      ensures Inv(h, M(), loose, uncounted)
      ensures newTable == Set(old(newTable), b, p, -1) && At(newTable, b, p) == -1
      ensures forall x | x != At(old(newTable), b, p) :: Still(old(info), info, x)
      ensures forall x | x in info :: x in old(info) && info[x].service == old(info)[x].service
    {
      hide Inv, At, Set;
      ghost var m := M();
      InvShapes(h, m, loose, uncounted);
      SetAt(newTable, NEW_BUCKETS, b, p, -1);
      SetSame(newTable, NEW_BUCKETS, b, p);
      var id := At(newTable, b, p);
      if id != -1 {
        SlotEntry(h, m, loose, uncounted, b, p);
        ClearOk(h, m, loose, uncounted, b, id);
        info := info[id := info[id].(refCount := info[id].refCount - 1)];
        newTable := Set(newTable, b, p, -1);
        assert M() == Clear(h, m, b, id);
        if info[id].refCount == 0 {
          Delete(id, loose + {id}, uncounted);
          InvLooser(h, M(), loose + {id} - {id}, loose, uncounted);
        }
      }
    }

    /** The entry leaves every slot of the new table it is in. */
    method LeaveNew(id: int)
      requires Inv(h, M(), {}, {}) && id in info && !info[id].inTried
      modifies this`info, this`newTable
      ensures Inv(h, M(), {id}, {}) && id in old(info) && info == old(info)[id := old(info[id]).(refCount := 0)]
    {
      hide Inv, At, Set, Position, NewBucket, Visited;
      ghost var m := M();
      InvLooser(h, m, {}, {id}, {});
      InvShapes(h, m, {}, {});
      var a := info[id].service;
      var start := NewBucket(h, a, info[id].source);
      var n := 0;
      VisitedStart(h, newTable, a, id, start);
      while n < NEW_BUCKETS
        invariant n <= NEW_BUCKETS && Inv(h, M(), {id}, {}) && id in info
        invariant info == m.info[id := m.info[id].(refCount := info[id].refCount)]
        invariant Visited(h, newTable, a, id, start, n)
      {
        var bucket := Round(start, n);
        var pos := Position(h, true, bucket, a);
        if At(newTable, bucket, pos) == id {
          ghost var before := M();
          ClearOk(h, before, {id}, {}, bucket, id);
          InvShapes(h, before, {id}, {});
          SetAt(newTable, NEW_BUCKETS, bucket, pos, -1);
          VisitedClear(h, newTable, a, id, start, n, bucket, pos);
          newTable := Set(newTable, bucket, pos, -1);
          info := info[id := info[id].(refCount := info[id].refCount - 1)];
          assert M() == Clear(h, before, bucket, id);
          InvLooser(h, M(), if before.info[id].refCount == 1 then {id} + {id} else {id}, {id}, {});
          if info[id].refCount == 0 {
            return;
          }
        }
        VisitedNext(h, newTable, a, id, start, n);
        n := n + 1;
      }
      NoneLeft(h, M(), id, start);
    }

    /** A tried entry makes way for another: it goes back to its slot of the new table, clearing it first. */
    method Evict(e: int, ghost id: int)
      requires Inv(h, M(), {id}, {id}) && e in info && info[e].inTried && id in info && !info[id].inTried
               && info[id].refCount == 0
      modifies this`info, this`random, this`counts, this`addr, this`nNew, this`nTried, this`newTable, this`tried
      ensures Inv(h, M(), {id}, {id}) && Still(old(info), info, id) && e in old(info)
      ensures var a := old(info)[e].service; var b := TriedBucket(h, a);
              tried == Set(old(tried), b, Position(h, false, b, a), -1)
      ensures e in info && !info[e].inTried && info[e].refCount == 1
              && TableAt(h, newTable, info[e].service, info[e].source) == e
      ensures forall x | x in info :: x in old(info) && info[x].service == old(info)[x].service
    {
      hide Inv, At, Set, Position, NewBucket, TriedBucket, Bump;
      ghost var m := M();
      UntryOk(h, m, {id}, {id}, e);
      var a := info[e].service;
      info := info[e := info[e].(inTried := false)];
      tried := Set(tried, TriedBucket(h, a), Position(h, false, TriedBucket(h, a), a), -1);
      nTried := nTried - 1;
      counts := Bump(counts, h.network(a), 0, -1);
      assert M() == Untry(h, m, e);
      var bucket := NewBucket(h, a, info[e].source);
      var pos := Position(h, true, bucket, a);
      NoRefNoSlot(h, M(), {id} + {e}, {id} + {e}, e, bucket);
      NoRefNoSlot(h, M(), {id} + {e}, {id} + {e}, id, bucket);
      ghost var before := info;
      ClearNew(bucket, pos, {id} + {e}, {id} + {e});
      assert Still(before, info, e) && Still(before, info, id);
      assert At(newTable, bucket, pos) == -1;
      Readmit(e, bucket, id);
    }

    /** The evicted entry enters the new set again. */
    method Readmit(e: int, bucket: nat, ghost id: int)
      requires Inv(h, M(), {id} + {e}, {id} + {e}) && e != id && e in info && !info[e].inTried && info[e].refCount == 0
      requires bucket < NEW_BUCKETS && At(newTable, bucket, Position(h, true, bucket, info[e].service)) == -1
      modifies this`info, this`newTable, this`nNew, this`counts
      ensures Inv(h, M(), {id}, {id})
      ensures e in old(info) && info == old(info)[e := old(info[e]).(refCount := 1)]
      ensures At(newTable, bucket, Position(h, true, bucket, info[e].service)) == e
    {
      hide Inv, At, Set, Position, Bump;
      ghost var m := M();
      PutOk(h, m, {id} + {e}, {id} + {e}, bucket, e);
      var a := info[e].service;
      var pos := Position(h, true, bucket, a);
      InvShapes(h, m, {id} + {e}, {id} + {e});
      SetAt(newTable, NEW_BUCKETS, bucket, pos, e);
      info := info[e := info[e].(refCount := 1)];
      newTable := Set(newTable, bucket, pos, e);
      assert M() == Put(h, m, bucket, e);
      RecountOk(h, M(), {id} + {e} - {e}, {id} + {e}, e);
      ghost var n := M();
      nNew := nNew + 1;
      counts := Bump(counts, h.network(a), 1, 0);
      assert M() == Recount(h, n, e);
      assert {id} + {e} - {e} == {id};
    }

    /** Moves an entry from the new table to its tried slot, evicting what is there. */
    method MakeTried(id: int)
      requires Inv(h, M(), {}, {}) && id in info && !info[id].inTried && info[id].lastSuccess != 0
      modifies this`info, this`random, this`counts, this`addr, this`nNew, this`nTried, this`newTable, this`tried
      ensures Inv(h, M(), {}, {}) && Progress(old(M()), M())
      ensures id in old(info) && id in info && info[id].inTried && info[id].service == old(info)[id].service
      ensures TriedAt(h, tried, info[id].service) == id
      ensures var a := old(info)[id].service; var b := TriedBucket(h, a);
              tried == Set(old(tried), b, Position(h, false, b, a), id)
      ensures var e := TriedAt(h, old(tried), old(info)[id].service);
              e != -1 ==> e in info && !info[e].inTried && TableAt(h, newTable, info[e].service, info[e].source) == e
    {
      hide Inv, At, Set, Position, NewBucket, TriedBucket;
      ghost var m := M();
      var a := info[id].service;
      LeaveNew(id);
      DropCount(id);
      var b := TriedBucket(h, a);
      var p := Position(h, false, b, a);
      InvShapes(h, m, {}, {});
      SetAt(tried, TRIED_BUCKETS, b, p, -1);
      SetTwice(tried, TRIED_BUCKETS, b, p, -1, id);
      SetAt(tried, TRIED_BUCKETS, b, p, id);
      var e := At(tried, b, p);
      if e != -1 {
        TriedEntry(h, M(), {id}, {id}, b, p);
        Evict(e, id);
      }
      EnterTried(id);
    }

    /** The entry does not count as new any more. */
    method DropCount(id: int)
      requires Inv(h, M(), {id}, {}) && id in info && !info[id].inTried
      modifies this`nNew, this`counts
      ensures Inv(h, M(), {id}, {id})
    {
      hide Inv, Bump;
      ghost var m := M();
      UncountOk(h, m, {id}, {}, id);
      nNew := nNew - 1;
      counts := Bump(counts, h.network(info[id].service), -1, 0);
      assert M() == Uncount(h, m, id);
      assert {} + {id} == {id};
    }

    /** The entry takes its tried slot, which is empty. */
    method EnterTried(id: int)
      requires Inv(h, M(), {id}, {id}) && id in info && !info[id].inTried && info[id].refCount == 0
               && info[id].lastSuccess != 0
      requires TriedAt(h, tried, info[id].service) == -1
      modifies this`tried, this`nTried, this`info, this`counts
      ensures Inv(h, M(), {}, {}) && id in old(info) && info == old(info)[id := old(info[id]).(inTried := true)]
      ensures var a := old(info)[id].service; var b := TriedBucket(h, a);
              tried == Set(old(tried), b, Position(h, false, b, a), id)
    {
      hide Inv, At, Set, Position, TriedBucket, Bump;
      ghost var m := M();
      var a := info[id].service;
      TryOk(h, m, {id}, {id}, id);
      tried := Set(tried, TriedBucket(h, a), Position(h, false, TriedBucket(h, a), a), id);
      nTried := nTried + 1;
      info := info[id := info[id].(inTried := true)];
      counts := Bump(counts, h.network(a), 0, 1);
      assert M() == Try(h, m, id);
      assert {id} - {id} == {};
    }

    constructor (hashes: Hashes)
      ensures Valid() && h == hashes && info == map[] && collisions == {}
    {
      h := hashes;
      info, addr, random := map[], map[], [];
      tried := seq(TRIED_BUCKETS, b => seq(BUCKET_SIZE, p => -1));
      newTable := seq(NEW_BUCKETS, b => seq(BUCKET_SIZE, p => -1));
      nNew, nTried, counts, idCount := 0, 0, map[], 0;
      collisions := {};
      lastGood := 1;
      new;
      EmptyOk(h, M());
    }

    /** Times, services or attempts of an entry change. */
    method Touch(id: int, i: Info)
      requires Valid() && id in info && i.service == info[id].service && i.randomPos == info[id].randomPos
      requires i.refCount == info[id].refCount && i.inTried == info[id].inTried
      requires i.lastTry >= 0 && i.lastSuccess >= 0 && (i.inTried ==> i.lastSuccess != 0)
      modifies this`info
      ensures Valid() && info == old(info)[id := i] && Progress(old(M()), M())
    {
      hide Inv, CollisionsOk, Progress;
      ghost var m := M();
      Touched(h, m, {}, {}, id, i);
      IdKnown(h, m, {}, {}, id);
      TouchedProgress(m, id, i);
      CollisionsKept(h, m, m.(info := m.info[id := i]), collisions);
      info := info[id := i];
      assert M() == m.(info := m.info[id := i]);
    }

    /** A connection to the address succeeded: to the tried table, unless its slot is to be tested first. */
    method Good(a: Service, testBeforeEvict: bool, time: int) returns (ok: bool)
      requires Valid() && time > 0
      modifies this
      ensures Valid() && Progress(old(M()), M())
      ensures ok <==> a in old(addr) && old(addr)[a] in old(info) && !old(info)[old(addr)[a]].inTried
                      && !(testBeforeEvict && TriedAt(h, old(tried), a) != -1)
      ensures ok ==> a in addr && addr[a] == old(addr)[a] && addr[a] in info && info[addr[a]].inTried
                     && TriedAt(h, tried, a) == addr[a]
      ensures !ok ==> tried == old(tried) && newTable == old(newTable) && addr == old(addr)
      ensures collisions == old(collisions)
              || (!ok && a in old(addr) && testBeforeEvict && TriedAt(h, old(tried), a) != -1
                  && collisions == old(collisions) + {old(addr)[a]})
    {
      hide Inv, CollisionsOk, Progress, At, Position, TriedBucket, Set;
      ghost var m := M();
      ProgressSelf(m);
      lastGood := time;
      if a !in addr {
        return false;
      }
      var id := addr[a];
      AddressKnown(h, m, {}, {}, a);
      Touch(id, info[id].(lastSuccess := time, lastTry := time, attempts := 0));
      if info[id].inTried {
        return false;
      }
      if testBeforeEvict && TriedAt(h, tried, a) != -1 {
        if |collisions| < COLLISIONS {
          Collides(h, M(), collisions, id);
          collisions := collisions + {id};
        }
        return false;
      }
      ghost var n := M();
      MakeTried(id);
      ProgressTrans(m, n, M());
      CollisionsKept(h, n, M(), collisions);
      AddressOf(h, M(), {}, {}, id);
      ok := true;
    }

    method Attempt(a: Service, countFailure: bool, time: int)
      requires Valid() && time >= 0
      modifies this`info
      ensures Valid() && Progress(old(M()), M())
      ensures info == if a in addr && addr[a] in old(info)
                      then old(info)[addr[a] := Attempted(old(info)[addr[a]], countFailure, lastGood, time)]
                          else old(info)
    {
      hide Inv, CollisionsOk, Progress;
      ProgressSelf(M());
      if a !in addr {
        return;
      }
      var id := addr[a];
      AddressKnown(h, M(), {}, {}, a);
      Touch(id, Attempted(info[id], countFailure, lastGood, time));
    }

    method Connected(a: Service, time: int)
      requires Valid()
      modifies this`info
      ensures Valid() && Progress(old(M()), M())
      ensures info == if a in addr && addr[a] in old(info) && time - old(info)[addr[a]].time > 20 * MINUTE
                      then old(info)[addr[a] := old(info)[addr[a]].(time := time)] else old(info)
    {
      hide Inv, CollisionsOk, Progress;
      ProgressSelf(M());
      if a !in addr {
        return;
      }
      var id := addr[a];
      AddressKnown(h, M(), {}, {}, a);
      if time - info[id].time > 20 * MINUTE {
        Touch(id, info[id].(time := time));
      }
    }

    /** A new entry, not yet in any table. */
    method NewEntry(a: Service, time: int, services: set<nat>, source: Source)
      requires Inv(h, M(), {}, {}) && a !in addr
      modifies this`info, this`random, this`counts, this`addr, this`nNew, this`idCount
      ensures Inv(h, M(), {old(idCount)}, {}) && idCount == old(idCount) + 1 && old(idCount) !in old(info)
      ensures info.Keys == old(info).Keys + {old(idCount)} && addr == old(addr)[a := old(idCount)]
      ensures info[old(idCount)].service == a && !info[old(idCount)].inTried && info[old(idCount)].refCount == 0
      ensures forall x | x in old(info) :: info[x] == old(info)[x]
    {
      hide Inv, Bump;
      ghost var m := M();
      CreateOk(h, m, {}, {}, a, time, services, source);
      var id := idCount;
      idCount := idCount + 1;
      info := info[id := Info(a, time, services, source, 0, 0, 0, 0, 0, false, |random|)];
      addr := addr[a := id];
      random := random + [id];
      nNew := nNew + 1;
      counts := Bump(counts, h.network(a), 1, 0);
      assert M() == Create(h, m, a, time, services, source);
      assert {} + {id} == {id};
    }

    /** Puts an entry into its slot of the new table for a source, if that is free or may be taken over. */
    method Place(id: int, source: Source, now: int, ghost loose: set<int>) returns (inserted: bool)
      requires Inv(h, M(), loose, {}) && loose <= {id} && id in info && !info[id].inTried
               && info[id].refCount < MAX_REFS
      modifies this`info, this`random, this`counts, this`addr, this`nNew, this`newTable
      ensures Inv(h, M(), {}, {}) && id in old(info)
      ensures forall x | x in info :: x in old(info) && info[x].service == old(info)[x].service
      ensures inserted ==> id in info && info[id].service in addr && addr[info[id].service] == id
                           && TableAt(h, newTable, info[id].service, source) == id
      ensures !inserted ==> newTable == old(newTable)
                            && (if old(info)[id].refCount == 0 then old(info)[id].service !in addr
                                else info == old(info) && addr == old(addr))
    {
      hide Inv, At, Set, Position, NewBucket;
      ghost var m := M();
      var a := info[id].service;
      var bucket := NewBucket(h, a, source);
      var pos := Position(h, true, bucket, a);
      var slot := At(newTable, bucket, pos);
      inserted := slot == -1;
      InvShapes(h, m, loose, {});
      IdKnown(h, m, loose, {}, id);
      if slot == id {
        SlotEntry(h, m, loose, {}, bucket, pos);
        InvTight(h, m, loose, id);
        return false;
      }
      if !inserted {
        SlotEntry(h, m, loose, {}, bucket, pos);
        if IsTerrible(info[slot], now) || (info[slot].refCount > 1 && info[id].refCount == 0) {
          inserted := true;
        }
      }
      if inserted {
        ClearNew(bucket, pos, loose, {});
        assert Still(m.info, info, id);
        ghost var n := M();
        InvShapes(h, n, loose, {});
        PutOk(h, n, loose, {}, bucket, id);
        SetAt(newTable, NEW_BUCKETS, bucket, pos, id);
        info := info[id := info[id].(refCount := info[id].refCount + 1)];
        newTable := Set(newTable, bucket, pos, id);
        assert M() == Put(h, n, bucket, id);
        assert loose - {id} == {};
        AddressOf(h, M(), {}, {}, id);
      } else if info[id].refCount == 0 {
        Delete(id, loose, {});
        assert loose - {id} == {};
      } else {
        InvTight(h, m, loose, id);
      }
    }

    /** What an announcement changes of a known entry; whether it may go into another bucket. */
    method Refresh(id: int, time: int, services: set<nat>, penalty: int, now: int, lucky: bool) returns (go: bool)
      requires Valid() && id in info
      modifies this`info
      ensures Valid() && Progress(old(M()), M()) && id in info && id in old(info)
      ensures info == old(info)[id := old(info)[id].(time := info[id].time, services := info[id].services)]
      ensures go ==> !info[id].inTried && info[id].refCount < MAX_REFS
    {
      hide Inv, CollisionsOk, Progress;
      ghost var m := M();
      IdKnown(h, m, {}, {}, id);
      AddressOf(h, m, {}, {}, id);
      AddressKnown(h, m, {}, {}, info[id].service);
      var interval := if now - time < DAY then HOUR else DAY;
      var i := info[id];
      if i.time < time - interval - penalty {
        i := i.(time := Later(0, time - penalty));
      }
      i := i.(services := i.services + services);
      Touch(id, i);
      if time <= i.time || i.inTried || i.refCount == MAX_REFS {
        return false;
      }
      go := !(i.refCount > 0 && !lucky);
    }

    method AddSingle(a: Service, time: int, services: set<nat>, source: Source, penalty: int, now: int,
                     lucky: bool) returns (added: bool)
      requires Valid()
      modifies this`info, this`random, this`counts, this`addr, this`nNew, this`newTable, this`idCount
      ensures Valid() && Progress(old(M()), M())
      ensures !h.routable(a) ==> !added && M() == old(M())
      ensures added ==> a in addr && TableAt(h, newTable, a, source) == addr[a]
      ensures !added ==> newTable == old(newTable) && (a in addr <==> a in old(addr))
    {
      hide Inv, CollisionsOk, At, Set, Position, NewBucket, Create;
      ghost var m := M();
      if !h.routable(a) {
        return false;
      }
      var due := if h.isSource(a, source) then 0 else penalty;
      if a in addr {
        var id := addr[a];
        AddressKnown(h, m, {}, {}, a);
        var go := Refresh(id, time, services, due, now, lucky);
        if !go {
          return false;
        }
        ghost var n := M();
        IdKnown(h, n, {}, {}, id);
        added := Place(id, source, now, {});
        PlacedProgress(m, n, M());
      } else {
        var id := idCount;
        NewEntry(a, Later(0, time - due), services, source);
        ghost var n := M();
        added := Place(id, source, now, {id});
        CreatedProgress(m, n, M(), id);
      }
      CollisionsKept(h, m, M(), collisions);
    }

    /** Adds addresses one by one; whether any was added. */
    method Add(list: seq<Announcement>, source: Source, penalty: int) returns (any: bool)
      requires Valid()
      modifies this`info, this`random, this`counts, this`addr, this`nNew, this`newTable, this`idCount
      ensures Valid() && Progress(old(M()), M()) && (!any ==> newTable == old(newTable))
    {
      hide Inv, CollisionsOk, Progress;
      any := false;
      var i := 0;
      ProgressSelf(M());
      while i < |list|
        invariant i <= |list| && Valid() && Progress(old(M()), M()) && (!any ==> newTable == old(newTable))
      {
        ghost var m := M();
        var added := AddSingle(list[i].service, list[i].time, list[i].services, source, penalty, list[i].now,
                               list[i].lucky);
        ProgressTrans(old(M()), m, M());
        any := any || added;
        i := i + 1;
      }
    }

    /** One entry waiting for a tried slot: moved there, dropped or left waiting. */
    method ResolveOne(id: int, now: int) returns (done: bool)
      requires Valid() && id in collisions && now > 0
      modifies this
      ensures Valid() && Progress(old(M()), M()) && collisions == old(collisions)
      ensures !done ==> M() == old(M()) && id in info
    {
      hide Inv, CollisionsOk, Progress, At, Position, TriedBucket, Set;
      ProgressSelf(M());
      if id !in info {
        return true;
      }
      var i := info[id];
      if !h.valid(i.service) {
        return true;
      }
      var slot := TriedAt(h, tried, i.service);
      if slot != -1 {
        TriedEntry(h, M(), {}, {}, TriedBucket(h, i.service), Position(h, false, TriedBucket(h, i.service), i.service));
        var other := info[slot];
        if now - other.lastSuccess < 4 * HOUR {
          return true;
        }
        if now - other.lastTry < 4 * HOUR {
          if now - other.lastTry > MINUTE {
            var moved := Good(i.service, false, now);
            return true;
          }
          return false;
        }
        if now - i.lastSuccess > 40 * MINUTE {
          var moved := Good(i.service, false, now);
          return true;
        }
        return false;
      }
      var moved := Good(i.service, false, now);
      done := true;
    }

    /** Looks at every entry waiting for a tried slot once. */
    method ResolveCollisions(clock: int -> int)
      requires Valid() && forall id :: clock(id) > 0
      modifies this
      ensures Valid() && Progress(old(M()), M()) && collisions <= old(collisions)
    {
      hide Inv, Progress, CollisionsOk;
      ghost var start := M();
      var todo := collisions;
      ProgressSelf(start);
      while todo != {}
        invariant Valid() && Progress(start, M()) && todo <= collisions <= old(collisions)
        decreases |todo|
      {
        Member(todo);
        var id :| id in todo;
        ghost var m := M();
        var done := ResolveOne(id, clock(id));
        ProgressTrans(start, m, M());
        if done {
          CollisionsFewer(h, M(), collisions, id);
          collisions := collisions - {id};
        }
        todo := todo - {id};
      }
    }

    /** A tried entry that stands in the way of a waiting one, to be tested. */
    method SelectTriedCollision() returns (r: Option<(Service, int)>)
      requires Valid()
      modifies this`collisions
      ensures Valid() && M() == old(M()) && collisions <= old(collisions)
      ensures r.Some? ==> exists id | id in collisions && id in info ::
                            var slot := TriedAt(h, tried, info[id].service);
                            slot in info && info[slot].inTried && r.value == (info[slot].service, info[slot].lastTry)
      ensures r.None? ==> old(collisions) == {} || exists id :: id in old(collisions) && id !in info
                                                                && collisions == old(collisions) - {id}
    {
      hide Inv, At, Position, TriedBucket;
      if collisions == {} {
        return None;
      }
      Member(collisions);
      var id :| id in collisions;
      if id !in info {
        CollisionsFewer(h, M(), collisions, id);
        collisions := collisions - {id};
        return None;
      }
      var a := info[id].service;
      TriedEntry(h, M(), {}, {}, TriedBucket(h, a), Position(h, false, TriedBucket(h, a), a));
      var slot := TriedAt(h, tried, a);
      r := Some((info[slot].service, info[slot].lastTry));
    }

    /** How many entries there are, of a network or of any, in one table or in both. */
    method Size(net: Option<Network>, inNew: Option<bool>) returns (n: int)
      requires Valid()
      ensures n == |Counted(h, info, net, inNew)|
    {
      hide Inv, RandomOk, AddrOk, TriedOk, NewOk, OfNetwork, NewIds, TriedIds;
      CountsAre(h, M());
      RandomSize(h, M());
      if net.None? {
        if inNew.Some? {
          return if inNew.value then nNew else nTried;
        }
        return |random|;
      }
      NetworkSplit(h, M(), net.value);
      var c := Get(counts, net.value);
      if inNew.Some? {
        return if inNew.value then c.0 else c.1;
      }
      n := c.0 + c.1;
    }

    /** Some entries in random order, up to a limit, leaving out unwanted ones. */
    method GetAddr(maxAddresses: nat, maxPct: nat, network: Option<Network>, filtered: bool, now: int,
                   rand: nat -> nat) returns (r: seq<Service>)
      requires Valid()
      modifies this`info, this`random
      ensures Valid() && SameEntries(old(info), info)
      ensures |r| <= Limit(|old(random)|, maxAddresses, maxPct) && forall i, j | 0 <= i < j < |r| :: r[i] != r[j]
      ensures forall a | a in r :: a in addr && addr[a] in info && Wanted(h, info[addr[a]], network, filtered, now)
      ensures |r| < Limit(|old(random)|, maxAddresses, maxPct)
              ==> forall id | id in info && Wanted(h, info[id], network, filtered, now) :: info[id].service in r
    {
      hide Inv, CollisionsOk, Wanted, Swap, SameEntries, Picked;
      ghost var m := M();
      SameSelf(info);
      PickedNone(h, m, network, filtered, now);
      assert random[..0] == [];
      var nNodes := Limit(|random|, maxAddresses, maxPct);
      r := [];
      var n := 0;
      while n < |random| && |r| < nNodes
        invariant n <= |random| == |m.random| && Inv(h, M(), {}, {}) && |r| <= nNodes
        invariant SameEntries(m.info, info) && Picked(h, m.info, random[..n], network, filtered, now) == r
      {
        var pos := rand(n) % (|random| - n) + n;
        ghost var before := M();
        SwapRandom(n, pos, {}, {});
        SwappedHead(h, before, n, pos);
        SameTrans(m.info, before.info, info);
        var i := info[random[n]];
        PickedNext(h, m.info, random, n, network, filtered, now);
        WantedStill(h, m.info, info, random[n], network, filtered, now);
        if Wanted(h, i, network, filtered, now) {
          r := r + [i.service];
        }
        n := n + 1;
      }
      CollisionsStill(h, m, M(), collisions);
      PickedAll(h, m, M(), n, network, filtered, now);
      if n == |random| {
        PickedComplete(h, m, M(), network, filtered, now);
      }
    }
  }

  /** An entry that is in a table does not need to be loose. */
  lemma InvTight(h: Hashes, m: Core, loose: set<int>, id: int)
    requires Inv(h, m, loose, {}) && loose <= {id} && id in m.info && m.info[id].refCount != 0
    ensures Inv(h, m, {}, {})
  {
    hide RandomOk, AddrOk, TriedOk, NewOk, CountsOk;
  }

  lemma PlacedProgress(l: Core, m: Core, n: Core)
    requires Progress(l, m) && n.tried == m.tried && n.idCount == m.idCount
    requires forall x | x in n.info :: x in m.info && n.info[x].service == m.info[x].service
    ensures Progress(l, n)
  {
  }

  lemma CreatedProgress(l: Core, m: Core, n: Core, id: int)
    requires n.tried == m.tried == l.tried && l.idCount == id && m.idCount == n.idCount == id + 1
    requires m.info.Keys == l.info.Keys + {id} && forall x | x in l.info :: x in m.info
                                                                            && m.info[x].service == l.info[x].service
    requires forall x | x in n.info :: x in m.info && n.info[x].service == m.info[x].service
    ensures Progress(l, n)
  {
    forall x | x in n.info
      ensures x >= id || (x in l.info && n.info[x].service == l.info[x].service)
    {
      assert x in m.info.Keys;
    }
  }

  lemma CollisionsFewer(h: Hashes, m: Core, collisions: set<int>, id: int)
    requires CollisionsOk(h, m, collisions) && id in collisions
    ensures CollisionsOk(h, m, collisions - {id})
  {
    hide At, Position, TriedBucket;
  }

  lemma CountsAre(h: Hashes, m: Core)
    requires Inv(h, m, {}, {})
    ensures m.nNew == |Counted(h, m.info, None, Some(true))| && m.nTried == |Counted(h, m.info, None, Some(false))|
    ensures forall net :: Get(m.counts, net) == (|Counted(h, m.info, Some(net), Some(true))|,
                                                 |Counted(h, m.info, Some(net), Some(false))|)
  {
    hide RandomOk, AddrOk, TriedOk, NewOk;
    assert Counted(h, m.info, None, Some(true)) == NewIds(m.info, {});
    assert Counted(h, m.info, None, Some(false)) == TriedIds(m.info);
    forall net: Network
      ensures Get(m.counts, net) == (|Counted(h, m.info, Some(net), Some(true))|,
                                     |Counted(h, m.info, Some(net), Some(false))|)
    {
      assert NetworkOk(h, m.info, NewIds(m.info, {}), TriedIds(m.info), m.counts, net);
      assert Counted(h, m.info, Some(net), Some(true)) == OfNetwork(h, m.info, NewIds(m.info, {}), net);
      assert Counted(h, m.info, Some(net), Some(false)) == OfNetwork(h, m.info, TriedIds(m.info), net);
    }
  }

  lemma NetworkSplit(h: Hashes, m: Core, net: Network)
    ensures |Counted(h, m.info, Some(net), None)| == |Counted(h, m.info, Some(net), Some(true))|
            + |Counted(h, m.info, Some(net), Some(false))|
  {
    var x, y := Counted(h, m.info, Some(net), Some(true)), Counted(h, m.info, Some(net), Some(false));
    assert Counted(h, m.info, Some(net), None) == x + y && x !! y;
  }

  ghost function Elements(s: seq<int>): set<int> {
    set i | 0 <= i < |s| :: s[i]
  }

  lemma {:induction false} DistinctSize(s: seq<int>)
    requires forall i, j | 0 <= i < j < |s| :: s[i] != s[j]
    ensures |Elements(s)| == |s|
  {
    if s != [] {
      var t := s[..|s| - 1];
      DistinctSize(t);
      assert Elements(s) == Elements(t) + {s[|s| - 1]};
    }
  }

  /** The random order lists every entry once. */
  lemma RandomSize(h: Hashes, m: Core)
    requires Inv(h, m, {}, {})
    ensures |m.random| == |Counted(h, m.info, None, None)|
  {
    hide AddrOk, TriedOk, NewOk, CountsOk;
    DistinctSize(m.random);
    var ids := Counted(h, m.info, None, None);
    forall id
      ensures id in ids <==> id in Elements(m.random)
    {
      if id in ids {
        assert m.random[m.info[id].randomPos] == id;
      }
    }
    assert ids == Elements(m.random);
  }

  lemma SameSelf(info: map<int, Info>)
    ensures SameEntries(info, info)
  {
  }

  lemma SameTrans(a: map<int, Info>, b: map<int, Info>, c: map<int, Info>)
    requires SameEntries(a, b) && SameEntries(b, c)
    ensures SameEntries(a, c)
  {
  }

  /** Swapping with a later position leaves the order before it alone. */
  lemma SwappedHead(h: Hashes, m: Core, i: nat, j: nat)
    requires Inv(h, m, {}, {}) && i <= j < |m.random| && m.random[i] in m.info && m.random[j] in m.info
    ensures var n := Swap(m, i, j);
            SameEntries(m.info, n.info) && |n.random| == |m.random| && n.random[..i] == m.random[..i]
                && n.random[i] in n.info
  {
    hide AddrOk, TriedOk, NewOk, CountsOk, StatusOk, TimesOk;
  }

  lemma PickedNone(h: Hashes, m: Core, network: Option<Network>, filtered: bool, now: int)
    ensures Picked(h, m.info, [], network, filtered, now) == []
  {
  }

  lemma PickedNext(h: Hashes, info: map<int, Info>, ids: seq<int>, n: nat, network: Option<Network>, filtered: bool,
                   now: int)
    requires n < |ids|
    ensures Picked(h, info, ids[..n + 1], network, filtered, now)
         == Picked(h, info, ids[..n], network, filtered, now)
            + (if ids[n] in info && Wanted(h, info[ids[n]], network, filtered, now) then [info[ids[n]].service] else [])
  {
    hide Wanted;
    assert ids[..n + 1][..n] == ids[..n];
  }

  lemma WantedStill(h: Hashes, was: map<int, Info>, info: map<int, Info>, id: int, network: Option<Network>,
                    filtered: bool, now: int)
    requires SameEntries(was, info) && id in info
    ensures id in was && was[id].service == info[id].service
    ensures Wanted(h, was[id], network, filtered, now) == Wanted(h, info[id], network, filtered, now)
  {
    assert id in was.Keys;
  }

  lemma CollisionsStill(h: Hashes, m: Core, n: Core, collisions: set<int>)
    requires CollisionsOk(h, m, collisions) && SameEntries(m.info, n.info) && n.tried == m.tried
             && n.idCount == m.idCount
    ensures CollisionsOk(h, n, collisions)
  {
    hide At, Position, TriedBucket;
    assert forall x :: x in n.info ==> x in m.info.Keys;
  }

  lemma {:induction false} PickedFrom(h: Hashes, info: map<int, Info>, ids: seq<int>, network: Option<Network>,
                                      filtered: bool, now: int, a: Service)
    ensures a in Picked(h, info, ids, network, filtered, now)
       <==> exists i | 0 <= i < |ids| :: ids[i] in info && info[ids[i]].service == a
                                         && Wanted(h, info[ids[i]], network, filtered, now)
  {
    hide Wanted;
    if ids != [] {
      var t := ids[..|ids| - 1];
      PickedFrom(h, info, t, network, filtered, now, a);
      if i :| 0 <= i < |t| && t[i] in info && info[t[i]].service == a && Wanted(h, info[t[i]], network, filtered, now) {
        assert ids[i] == t[i];
      }
      if i :| 0 <= i < |ids| && ids[i] in info && info[ids[i]].service == a
              && Wanted(h, info[ids[i]], network, filtered, now) {
        assert i < |t| ==> t[i] == ids[i];
      }
    }
  }

  lemma {:induction false} PickedDistinct(h: Hashes, info: map<int, Info>, ids: seq<int>, network: Option<Network>,
                                          filtered: bool, now: int)
    requires forall i, j | 0 <= i < j < |ids| && ids[i] in info && ids[j] in info ::
               info[ids[i]].service != info[ids[j]].service
    ensures var r := Picked(h, info, ids, network, filtered, now);
            forall i, j | 0 <= i < j < |r| :: r[i] != r[j]
  {
    hide Wanted;
    if ids != [] {
      var n := |ids| - 1;
      var t := ids[..n];
      PickedDistinct(h, info, t, network, filtered, now);
      assert ids[..n + 1] == ids;
      PickedNext(h, info, ids, n, network, filtered, now);
      var was, r := Picked(h, info, t, network, filtered, now), Picked(h, info, ids, network, filtered, now);
      if r != was {
        var a := info[ids[n]].service;
        PickedFrom(h, info, t, network, filtered, now, a);
        assert a !in was;
        assert r == was + [a];
      }
    }
  }

  /** What has been picked is wanted, known and without repetition. */
  lemma PickedAll(h: Hashes, m: Core, n: Core, k: nat, network: Option<Network>, filtered: bool, now: int)
    requires Inv(h, n, {}, {}) && SameEntries(m.info, n.info) && k <= |n.random|
    ensures var r := Picked(h, m.info, n.random[..k], network, filtered, now);
            (forall i, j | 0 <= i < j < |r| :: r[i] != r[j])
            && forall a | a in r :: a in n.addr && n.addr[a] in n.info
                                    && Wanted(h, n.info[n.addr[a]], network, filtered, now)
  {
    hide Inv, Wanted, Picked, SameEntries;
    var ids := n.random[..k];
    forall i, j | 0 <= i < j < |ids| && ids[i] in m.info && ids[j] in m.info
      ensures m.info[ids[i]].service != m.info[ids[j]].service
    {
      RandomKnown(h, n, i);
      RandomKnown(h, n, j);
      RandomDistinct(h, n, {}, {}, i, j);
      WantedStill(h, m.info, n.info, ids[i], network, filtered, now);
      WantedStill(h, m.info, n.info, ids[j], network, filtered, now);
    }
    PickedDistinct(h, m.info, ids, network, filtered, now);
    var r := Picked(h, m.info, ids, network, filtered, now);
    forall a | a in r
      ensures a in n.addr && n.addr[a] in n.info && Wanted(h, n.info[n.addr[a]], network, filtered, now)
    {
      PickedFrom(h, m.info, ids, network, filtered, now, a);
      var i :| 0 <= i < |ids| && ids[i] in m.info && m.info[ids[i]].service == a
               && Wanted(h, m.info[ids[i]], network, filtered, now);
      RandomKnown(h, n, i);
      WantedStill(h, m.info, n.info, ids[i], network, filtered, now);
    }
  }

  lemma PickedComplete(h: Hashes, m: Core, n: Core, network: Option<Network>, filtered: bool, now: int)
    requires Inv(h, n, {}, {}) && SameEntries(m.info, n.info)
    ensures var r := Picked(h, m.info, n.random[..|n.random|], network, filtered, now);
            forall id | id in n.info && Wanted(h, n.info[id], network, filtered, now) :: n.info[id].service in r
  {
    hide Inv, Wanted, Picked, SameEntries;
    var ids := n.random[..|n.random|];
    forall id | id in n.info && Wanted(h, n.info[id], network, filtered, now)
      ensures n.info[id].service in Picked(h, m.info, ids, network, filtered, now)
    {
      RandomLast(h, n, {}, {}, id);
      WantedStill(h, m.info, n.info, id, network, filtered, now);
      assert ids[n.info[id].randomPos] == id;
      PickedFrom(h, m.info, ids, network, filtered, now, n.info[id].service);
    }
  }

  /** An entry in the random order, with its address. */
  lemma RandomKnown(h: Hashes, m: Core, i: nat)
    requires Inv(h, m, {}, {}) && i < |m.random|
    ensures m.random[i] in m.info
    ensures var a := m.info[m.random[i]].service; a in m.addr && m.addr[a] == m.random[i]
  {
    hide TriedOk, NewOk, CountsOk;
    var id := m.random[i];
    assert id in m.info;
  }

  lemma Member(s: set<int>)
    ensures s == {} || exists x :: x in s
  {
    if forall x :: x !in s {
      assert s == {};
    }
  }

  lemma EmptyOk(h: Hashes, m: Core)
    requires m.info == map[] && m.addr == map[] && m.random == [] && m.nNew == 0 && m.nTried == 0 && m.counts == map[]
             && m.idCount == 0
    requires m.tried == seq(TRIED_BUCKETS, b => seq(BUCKET_SIZE, p => -1))
             && m.newTable == seq(NEW_BUCKETS, b => seq(BUCKET_SIZE, p => -1))
    ensures Inv(h, m, {}, {}) && CollisionsOk(h, m, {})
  {
    assert NewIds(m.info, {}) == {} && TriedIds(m.info) == {};
    forall b: nat, p: nat
      ensures At(m.tried, b, p) == -1 && At(m.newTable, b, p) == -1
    {
    }
    forall net: Network
      ensures NetworkOk(h, m.info, {}, {}, m.counts, net)
    {
      assert OfNetwork(h, m.info, {}, net) == {};
    }
  }

  lemma ProgressSelf(m: Core)
    ensures Progress(m, m)
  {
  }

  lemma TouchedProgress(m: Core, id: int, i: Info)
    requires id in m.info && i.service == m.info[id].service
    ensures Progress(m, m.(info := m.info[id := i]))
  {
  }

  lemma IdKnown(h: Hashes, m: Core, loose: set<int>, uncounted: set<int>, id: int)
    requires Inv(h, m, loose, uncounted) && id in m.info
    ensures 0 <= id < m.idCount && m.info[id].lastTry >= 0 && m.info[id].lastSuccess >= 0
    ensures m.info[id].inTried || id in loose || 0 < m.info[id].refCount <= MAX_REFS
  {
    hide RandomOk, AddrOk, TriedOk, CountsOk, NewOk;
    RefsNatural(h, m.info, m.newTable, id);
  }

  /** The address map leads to the entry of the address. */
  lemma AddressKnown(h: Hashes, m: Core, loose: set<int>, uncounted: set<int>, a: Service)
    requires Inv(h, m, loose, uncounted) && a in m.addr
    ensures m.addr[a] in m.info && m.info[m.addr[a]].service == a
    ensures var i := m.info[m.addr[a]]; i.lastTry >= 0 && i.lastSuccess >= 0 && (i.inTried ==> i.lastSuccess != 0)
  {
    hide RandomOk, TriedOk, CountsOk, NewOk;
    var id := m.addr[a];
    assert id in m.info;
  }

  lemma AddressOf(h: Hashes, m: Core, loose: set<int>, uncounted: set<int>, id: int)
    requires Inv(h, m, loose, uncounted) && id in m.info
    ensures m.info[id].service in m.addr && m.addr[m.info[id].service] == id
  {
    hide RandomOk, TriedOk, CountsOk, NewOk;
  }

  lemma Collides(h: Hashes, m: Core, collisions: set<int>, id: int)
    requires Inv(h, m, {}, {}) && CollisionsOk(h, m, collisions) && |collisions| < COLLISIONS
    requires id in m.info && TriedAt(h, m.tried, m.info[id].service) != -1
    ensures CollisionsOk(h, m, collisions + {id})
  {
    hide Inv;
    IdKnown(h, m, {}, {}, id);
  }

  /** What an entry's own slot of the new table holds. */
  function TableAt(h: Hashes, t: Table, a: Service, source: Source): int {
    At(t, NewBucket(h, a, source), Position(h, true, NewBucket(h, a, source), a))
  }

  lemma SetTwice(t: Table, n: nat, b: nat, p: nat, x: int, y: int)
    requires Shaped(t, n) && b < n && p < BUCKET_SIZE
    ensures Set(Set(t, b, p, x), b, p, y) == Set(t, b, p, y)
  {
    assert t[b][p := x][p := y] == t[b][p := y];
  }

  /** An entry without references is in no slot. */
  lemma NoRefNoSlot(h: Hashes, m: Core, loose: set<int>, uncounted: set<int>, id: int, b: nat)
    requires Inv(h, m, loose, uncounted) && id in m.info && m.info[id].refCount == 0
    ensures forall p: nat :: At(m.newTable, b, p) != id
  {
    hide At, Position, RandomOk, AddrOk, TriedOk, CountsOk, NewOk;
    forall p: nat
      ensures At(m.newTable, b, p) != id
    {
      SlotReferenced(h, m.info, m.newTable, b, p);
    }
  }

  lemma SlotReferenced(h: Hashes, info: map<int, Info>, t: Table, b: nat, p: nat)
    requires NewOk(h, info, t)
    ensures At(t, b, p) != -1 ==> At(t, b, p) in info && info[At(t, b, p)].refCount > 0
  {
    hide At, Position;
    if At(t, b, p) != -1 {
      SlotCounts(h, info, t, b, p);
    }
  }

  lemma TriedEntry(h: Hashes, m: Core, loose: set<int>, uncounted: set<int>, b: nat, p: nat)
    requires Inv(h, m, loose, uncounted) && At(m.tried, b, p) != -1
    ensures InTriedSlot(h, m.info, At(m.tried, b, p), b, p)
  {
    hide At, Position, TriedBucket, RandomOk, AddrOk, NewOk, CountsOk;
  }

  /** Buckets counted round from a start. */
  function Round(start: nat, k: nat): nat {
    (start + k) % NEW_BUCKETS
  }

  ghost predicate Absent(h: Hashes, t: Table, a: Service, id: int, b: nat) {
    At(t, b, Position(h, true, b, a)) != id
  }

  /** The first n buckets from the start do not hold the entry. */
  ghost predicate Visited(h: Hashes, t: Table, a: Service, id: int, start: nat, n: nat) {
    forall k: nat | k < n :: Absent(h, t, a, id, Round(start, k))
  }

  lemma VisitedStart(h: Hashes, t: Table, a: Service, id: int, start: nat)
    ensures Visited(h, t, a, id, start, 0)
  {
  }

  lemma VisitedNext(h: Hashes, t: Table, a: Service, id: int, start: nat, n: nat)
    requires Visited(h, t, a, id, start, n) && At(t, Round(start, n), Position(h, true, Round(start, n), a)) != id
    ensures Visited(h, t, a, id, start, n + 1)
  {
    hide At, Position, Round;
  }

  lemma VisitedClear(h: Hashes, t: Table, a: Service, id: int, start: nat, n: nat, b: nat, p: nat)
    requires Visited(h, t, a, id, start, n) && Shaped(t, NEW_BUCKETS) && b < NEW_BUCKETS && p < BUCKET_SIZE && id != -1
    ensures Visited(h, Set(t, b, p, -1), a, id, start, n)
  {
    hide At, Position, Round, Set;
    SetAt(t, NEW_BUCKETS, b, p, -1);
  }

  lemma NoneLeft(h: Hashes, m: Core, id: int, start: nat)
    requires Inv(h, m, {id}, {}) && id in m.info && start < NEW_BUCKETS
             && Visited(h, m.newTable, m.info[id].service, id, start, NEW_BUCKETS)
    ensures m.info[id].refCount == 0
  {
    hide At, Position, RandomOk, AddrOk, TriedOk, CountsOk;
    var bs := Buckets(h, m.newTable, m.info[id].service, id);
    forall b: nat
      ensures b !in bs
    {
      if b < NEW_BUCKETS {
        var k := (b - start) % NEW_BUCKETS;
        assert Round(start, k) == b;
        assert Absent(h, m.newTable, m.info[id].service, id, Round(start, k));
      }
    }
    assert bs == {};
  }

  lemma RandomDistinct(h: Hashes, m: Core, loose: set<int>, uncounted: set<int>, i: nat, j: nat)
    requires Inv(h, m, loose, uncounted) && i < |m.random| && j < |m.random| && i != j
    ensures m.random[i] != m.random[j]
  {
  }

  lemma RandomLast(h: Hashes, m: Core, loose: set<int>, uncounted: set<int>, id: int)
    requires Inv(h, m, loose, uncounted) && id in m.info
    ensures 0 <= m.info[id].randomPos < |m.random| && m.random[m.info[id].randomPos] == id
  {
  }

  /** Swapping an entry to the end of the random order touches nothing but random positions. */
  lemma SwappedLast(h: Hashes, m: Core, loose: set<int>, uncounted: set<int>, id: int)
    requires Inv(h, m, loose, uncounted) && id in m.info
    requires 0 <= m.info[id].randomPos < |m.random| && m.random[m.info[id].randomPos] in m.info
             && m.random[|m.random| - 1] in m.info
    ensures var n := Swap(m, m.info[id].randomPos, |m.random| - 1);
            |n.random| > 0 && n.random[|n.random| - 1] == id && n.info.Keys == m.info.Keys && n.addr == m.addr
            && forall x | x in m.info :: n.info[x] == m.info[x].(randomPos := n.info[x].randomPos)
  {
    hide AddrOk, TriedOk, NewOk, CountsOk, StatusOk, TimesOk;
  }

  lemma InvShapes(h: Hashes, m: Core, loose: set<int>, uncounted: set<int>)
    requires Inv(h, m, loose, uncounted)
    ensures Shaped(m.newTable, NEW_BUCKETS) && Shaped(m.tried, TRIED_BUCKETS) && -1 !in m.info && m.idCount >= 0
  {
  }

  lemma SetSame(t: Table, n: nat, b: nat, p: nat)
    requires Shaped(t, n) && b < n && p < BUCKET_SIZE
    ensures Set(t, b, p, At(t, b, p)) == t
  {
    assert t[b][p := t[b][p]] == t[b];
  }

  /** The entry in a slot of the new table is where its own position says. */
  lemma SlotEntry(h: Hashes, m: Core, loose: set<int>, uncounted: set<int>, b: nat, p: nat)
    requires Inv(h, m, loose, uncounted) && At(m.newTable, b, p) != -1
    ensures var id := At(m.newTable, b, p);
            id in m.info && !m.info[id].inTried && m.info[id].refCount > 0 && NewSlot(h, m, b, id) == p
                && b < NEW_BUCKETS
  {
    hide At, Position, RandomOk, AddrOk, TriedOk, CountsOk;
    SlotCounts(h, m.info, m.newTable, b, p);
  }

  lemma InvLooser(h: Hashes, m: Core, loose: set<int>, more: set<int>, uncounted: set<int>)
    requires Inv(h, m, loose, uncounted) && loose <= more
    ensures Inv(h, m, more, uncounted)
  {
    hide RandomOk, AddrOk, TriedOk, NewOk, CountsOk;
  }
}
