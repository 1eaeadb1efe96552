/** The address manager's five linked structures, as values, and what ties them together. */
module AddrTables {
  type Service = nat
  type Source = nat
  type Network = nat

  const TRIED_BUCKETS: nat := 256
  const NEW_BUCKETS: nat := 1024
  const BUCKET_SIZE: nat := 64
  const MAX_REFS: nat := 8

  datatype Info = Info(
    service: Service, time: int, services: set<nat>, source: Source,
    lastTry: int, lastCountAttempt: int, lastSuccess: int, attempts: nat,
    refCount: int, inTried: bool, randomPos: int)

  /** The keyed hashes, and what is read off an address. */
  datatype Hashes = Hashes(
    triedHash: Service -> nat, newHash: (Service, Source) -> nat, positionHash: (bool, nat, Service) -> nat,
    network: Service -> Network, netClass: Service -> Network,
    routable: Service -> bool, valid: Service -> bool, isSource: (Service, Source) -> bool)

  function TriedBucket(h: Hashes, a: Service): (b: nat)
    ensures b < TRIED_BUCKETS
  {
    h.triedHash(a) % TRIED_BUCKETS
  }

  function NewBucket(h: Hashes, a: Service, src: Source): (b: nat)
    ensures b < NEW_BUCKETS
  {
    h.newHash(a, src) % NEW_BUCKETS
  }

  function Position(h: Hashes, isNew: bool, bucket: nat, a: Service): (p: nat)
    ensures p < BUCKET_SIZE
  {
    h.positionHash(isNew, bucket, a) % BUCKET_SIZE
  }

  // ---------------------------------------------------------------- tables

  type Table = seq<seq<int>>

  ghost predicate Shaped(t: Table, buckets: nat) {
    |t| == buckets && forall b | 0 <= b < |t| :: |t[b]| == BUCKET_SIZE
  }

  /** The entry of a slot, -1 for none. */
  function At(t: Table, b: nat, p: nat): int {
    if b < |t| && p < |t[b]| then t[b][p] else -1
  }

  function Set(t: Table, b: nat, p: nat, id: int): Table {
    if b < |t| && p < |t[b]| then t[b := t[b][p := id]] else t
  }

  lemma SetAt(t: Table, n: nat, b: nat, p: nat, id: int)
    requires Shaped(t, n) && b < n && p < BUCKET_SIZE
    ensures Shaped(Set(t, b, p, id), n)
    ensures forall c: nat, q: nat :: At(Set(t, b, p, id), c, q) == if c == b && q == p then id else At(t, c, q)
  {
  }

  // ---------------------------------------------------------------- the invariant, part by part

  /** The random order and the positions in it are inverse to each other. */
  ghost predicate RandomOk(info: map<int, Info>, random: seq<int>) {
    && (forall id | id in info :: 0 <= info[id].randomPos < |random| && random[info[id].randomPos] == id)
    && (forall i | 0 <= i < |random| :: random[i] in info && info[random[i]].randomPos == i)
  }

  /** Addresses and identifiers correspond one to one. */
  ghost predicate AddrOk(info: map<int, Info>, addr: map<Service, int>) {
    && (forall id | id in info :: info[id].service in addr && addr[info[id].service] == id)
    && (forall a | a in addr :: addr[a] in info && info[addr[a]].service == a)
  }

  ghost predicate InTriedSlot(h: Hashes, info: map<int, Info>, id: int, b: nat, p: nat) {
    id in info && info[id].inTried && TriedBucket(h, info[id].service) == b
        && Position(h, false, b, info[id].service) == p
  }

  function TriedAt(h: Hashes, tried: Table, a: Service): int {
    At(tried, TriedBucket(h, a), Position(h, false, TriedBucket(h, a), a))
  }

  /** The tried table holds exactly the tried entries, each in its own slot. */
  ghost predicate TriedOk(h: Hashes, info: map<int, Info>, tried: Table) {
    && Shaped(tried, TRIED_BUCKETS)
    && (forall b: nat, p: nat | At(tried, b, p) != -1 :: InTriedSlot(h, info, At(tried, b, p), b, p))
    && (forall id | id in info && info[id].inTried :: TriedAt(h, tried, info[id].service) == id)
  }

  ghost predicate InNewSlot(h: Hashes, info: map<int, Info>, id: int, b: nat, p: nat) {
    id in info && !info[id].inTried && Position(h, true, b, info[id].service) == p
  }

  /** The buckets of the new table that hold an entry. */
  ghost function Buckets(h: Hashes, table: Table, a: Service, id: int): set<nat> {
    set b: nat | b < NEW_BUCKETS && At(table, b, Position(h, true, b, a)) == id
  }

  /** The new table holds entries that are not tried, in positions of their own, as often as they count. */
  ghost predicate NewOk(h: Hashes, info: map<int, Info>, table: Table) {
    && Shaped(table, NEW_BUCKETS)
    && (forall b: nat, p: nat | At(table, b, p) != -1 :: InNewSlot(h, info, At(table, b, p), b, p))
    && (forall id | id in info :: info[id].refCount == |Buckets(h, table, info[id].service, id)|)
  }

  /** An entry is tried, or in the new table up to eight times; loose entries may be in neither. */
  ghost predicate StatusOk(info: map<int, Info>, loose: set<int>) {
    forall id | id in info :: info[id].refCount <= MAX_REFS
                              && (info[id].refCount == 0 && !info[id].inTried ==> id in loose)
  }

  ghost predicate TimesOk(info: map<int, Info>) {
    forall id | id in info :: info[id].lastTry >= 0 && info[id].lastSuccess >= 0
                              && (info[id].inTried ==> info[id].lastSuccess != 0)
  }

  ghost predicate IdsOk(info: map<int, Info>, idCount: int) {
    idCount >= 0 && forall id | id in info :: 0 <= id < idCount
  }

  // ---------------------------------------------------------------- counting

  type Counts = map<Network, (int, int)>

  function Get(counts: Counts, net: Network): (int, int) {
    if net in counts then counts[net] else (0, 0)
  }

  function Bump(counts: Counts, net: Network, news: int, tried: int): Counts {
    counts[net := (Get(counts, net).0 + news, Get(counts, net).1 + tried)]
  }

  ghost function TriedIds(info: map<int, Info>): set<int> {
    set id | id in info && info[id].inTried
  }

  /** The entries counted as new. */
  ghost function NewIds(info: map<int, Info>, uncounted: set<int>): set<int> {
    set id | id in info && !info[id].inTried && id !in uncounted
  }

  ghost function OfNetwork(h: Hashes, info: map<int, Info>, ids: set<int>, net: Network): set<int> {
    set id | id in ids && id in info && h.network(info[id].service) == net
  }

  ghost predicate NetworkOk(h: Hashes, info: map<int, Info>, news: set<int>, tried: set<int>, counts: Counts,
                            net: Network) {
    Get(counts, net) == (|OfNetwork(h, info, news, net)|, |OfNetwork(h, info, tried, net)|)
  }

  ghost predicate CountsOk(h: Hashes, info: map<int, Info>, uncounted: set<int>, nNew: int, nTried: int,
                           counts: Counts) {
    && nNew == |NewIds(info, uncounted)| && nTried == |TriedIds(info)|
    && forall net: Network :: NetworkOk(h, info, NewIds(info, uncounted), TriedIds(info), counts, net)
  }

  // ---------------------------------------------------------------- the whole

  datatype Core = Core(
    info: map<int, Info>, addr: map<Service, int>, random: seq<int>, tried: Table, newTable: Table,
    nNew: int, nTried: int, counts: Counts, idCount: int)

  /** The invariant, but for loose entries in neither table and entries not counted as new. */
  ghost predicate Inv(h: Hashes, m: Core, loose: set<int>, uncounted: set<int>) {
    && RandomOk(m.info, m.random) && AddrOk(m.info, m.addr)
    && TriedOk(h, m.info, m.tried) && NewOk(h, m.info, m.newTable)
    && StatusOk(m.info, loose) && TimesOk(m.info) && IdsOk(m.info, m.idCount)
    && CountsOk(h, m.info, uncounted, m.nNew, m.nTried, m.counts)
  }
}
