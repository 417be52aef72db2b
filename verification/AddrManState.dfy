/**
 The state of the address manager as one value, and what each of its internal
 operations does to it.

 `AddrMan` (the class that updates the tables in place) is proved to compute
 exactly these functions; `AddrManInvariant` proves what they keep.
*/
module AddrManState {

  const TRIED_BUCKET_COUNT: nat := 256
  const NEW_BUCKET_COUNT: nat := 1024
  const BUCKET_SIZE: nat := 64
  const TRIED_BUCKETS_PER_GROUP: nat := 8
  const NEW_BUCKETS_PER_SOURCE_GROUP: nat := 64
  const NEW_BUCKETS_PER_ADDRESS: nat := 8
  const SET_TRIED_COLLISION_SIZE: nat := 10

  // Durations, in seconds.
  const MINUTE: int := 60
  const HOUR: int := 3600
  const DAY: int := 24 * 3600
  const HORIZON: int := 30 * DAY
  const MIN_FAIL: int := 7 * DAY
  const REPLACEMENT: int := 4 * HOUR
  const TEST_WINDOW: int := 40 * MINUTE
  const RETRIES: int := 3
  const MAX_FAILURES: int := 10

  datatype NetAddr = NetAddr(net: nat, bytes: seq<nat>)

  datatype Service = Service(ip: NetAddr, port: nat)

  /** A peer address: where it is, when it was last seen, what it offers. */
  datatype Address = Address(service: Service, time: int, services: set<nat>)

  /** A position in one of the two bucket tables. */
  datatype Slot = Slot(bucket: nat, pos: nat)

  /** `t` comes before position `i` of bucket `n` in a scan of the table. */
  predicate Before(t: Slot, n: nat, i: nat) {
    t.bucket < n || (t.bucket == n && t.pos < i)
  }

  /**
   What the manager reads from code outside it: the address predicates, the net
   groups and the keyed hashes. All of them are arbitrary functions.
  */
  datatype Env = Env(
    isValid: NetAddr -> bool,
    isReserved: NetAddr -> bool,
    network: NetAddr -> nat,
    netClass: NetAddr -> nat,
    group: NetAddr -> nat,
    hashKey: Service -> nat,
    hashTriedGroup: (nat, nat) -> nat,
    hashNewPair: (nat, nat) -> nat,
    hashNewSource: (nat, nat) -> nat,
    hashPosition: (bool, nat, Service) -> nat)
  {
    predicate IsRoutable(a: NetAddr) {
      isValid(a) && !isReserved(a)
    }

    function TriedBucket(a: Service): nat {
      hashTriedGroup(group(a.ip), hashKey(a) % TRIED_BUCKETS_PER_GROUP) % TRIED_BUCKET_COUNT
    }

    function NewBucket(a: Service, src: NetAddr): nat {
      var h := hashNewPair(group(a.ip), group(src));
      hashNewSource(group(src), h % NEW_BUCKETS_PER_SOURCE_GROUP) % NEW_BUCKET_COUNT
    }

    function Position(fNew: bool, bucket: nat, a: Service): nat {
      hashPosition(fNew, bucket, a) % BUCKET_SIZE
    }

    /** The one tried slot an address may occupy. */
    function TriedSlot(a: Service): (t: Slot)
      ensures t.bucket < TRIED_BUCKET_COUNT && t.pos < BUCKET_SIZE
    {
      Slot(TriedBucket(a), Position(false, TriedBucket(a), a))
    }

    /** The one slot of a given new bucket an address may occupy. */
    function NewSlotIn(a: Service, bucket: nat): (t: Slot)
      ensures t.bucket == bucket && t.pos < BUCKET_SIZE
    {
      Slot(bucket, Position(true, bucket, a))
    }

    /** The new slot an address gets when learned from `src`. */
    function NewSlot(a: Service, src: NetAddr): (t: Slot)
      ensures t.bucket < NEW_BUCKET_COUNT && t.pos < BUCKET_SIZE
      ensures t == NewSlotIn(a, t.bucket)
    {
      NewSlotIn(a, NewBucket(a, src))
    }
  }

  datatype Info = Info(
    addr: Address,
    source: NetAddr,
    lastTry: int,
    lastCountAttempt: int,
    lastSuccess: int,
    attempts: int,
    refCount: int,
    inTried: bool,
    randomPos: int)
  {
    /** Whether the statistics are bad enough for the entry to be dropped. */
    predicate IsTerrible(now: int) {
      if now - lastTry <= MINUTE then false
      else
        || addr.time > now + 10 * MINUTE
        || now - addr.time > HORIZON
        || (lastSuccess == 0 && attempts >= RETRIES)
        || (now - lastSuccess > MIN_FAIL && attempts >= MAX_FAILURES)
    }
  }

  function NewInfo(addr: Address, source: NetAddr, randomPos: int): Info {
    Info(addr, source, 0, 0, 0, 0, 0, false, randomPos)
  }

  datatype Tally = Tally(nNew: int, nTried: int)

  datatype State = State(
    idCount: int,
    info: map<int, Info>,
    index: map<Service, int>,
    random: seq<int>,
    nTried: int,
    triedTable: map<Slot, int>,
    nNew: int,
    newTable: map<Slot, int>,
    lastGood: int,
    collisions: set<int>,
    counts: map<nat, Tally>)

  const EMPTY: State := State(0, map[], map[], [], 0, map[], 0, map[], 1, {}, map[])

  /** A counter that was never touched reads as zero. */
  function Count(counts: map<nat, Tally>, net: nat): Tally {
    if net in counts then counts[net] else Tally(0, 0)
  }

  function Bump(counts: map<nat, Tally>, net: nat, dNew: int, dTried: int): map<nat, Tally> {
    counts[net := Tally(Count(counts, net).nNew + dNew, Count(counts, net).nTried + dTried)]
  }

  // ------------------------------------------------------------ internal steps

  function Create(env: Env, s: State, addr: Address, source: NetAddr): State {
    s.(idCount := s.idCount + 1,
       info := s.info[s.idCount := NewInfo(addr, source, |s.random|)],
       index := s.index[addr.service := s.idCount],
       random := s.random + [s.idCount],
       nNew := s.nNew + 1,
       counts := Bump(s.counts, env.network(addr.service.ip), 1, 0))
  }

  function SwapRandom(s: State, i: nat, j: nat): State
    requires i < |s.random| && j < |s.random|
    requires s.random[i] in s.info && s.random[j] in s.info
  {
    if i == j then s else
      var a, b := s.random[i], s.random[j];
      var info1 := s.info[a := s.info[a].(randomPos := j)];
      s.(info := info1[b := info1[b].(randomPos := i)],
         random := s.random[i := b][j := a])
  }

  /** Every id in `random` is known, and every known id sits at its recorded position. */
  ghost predicate RandomOk(info: map<int, Info>, random: seq<int>) {
    && (forall id :: id in info ==> 0 <= info[id].randomPos < |random| && random[info[id].randomPos] == id)
    && (forall i :: 0 <= i < |random| ==> random[i] in info && info[random[i]].randomPos == i)
  }

  /** `id` is known and can be swapped with the last element of `random`. */
  predicate Deletable(s: State, id: int) {
    && id in s.info
    && 0 <= s.info[id].randomPos < |s.random|
    && s.random[s.info[id].randomPos] == id
    && s.random[|s.random| - 1] in s.info
  }

  function Delete(env: Env, s: State, id: int): State
    requires Deletable(s, id)
  {
    var e := s.info[id];
    var t := SwapRandom(s, e.randomPos, |s.random| - 1);
    t.(info := t.info - {id},
       index := t.index - {e.addr.service},
       random := t.random[..|t.random| - 1],
       nNew := t.nNew - 1,
       counts := Bump(t.counts, env.network(e.addr.service.ip), -1, 0))
  }

  /** Drop the reference held by a new slot. */
  function Unref(s: State, t: Slot): State
    requires t in s.newTable && s.newTable[t] in s.info
  {
    var id := s.newTable[t];
    s.(info := s.info[id := s.info[id].(refCount := s.info[id].refCount - 1)],
       newTable := s.newTable - {t})
  }

  function ClearNew(env: Env, s: State, t: Slot): State
    requires t in s.newTable ==> Deletable(s, s.newTable[t])
  {
    if t !in s.newTable then s else
      var u := Unref(s, t);
      if u.info[s.newTable[t]].refCount == 0 then
        Delete(env, u, s.newTable[t])
      else u
  }

  /** Enter an entry into a new slot. */
  function PlaceNew(s: State, id: int, t: Slot): State
    requires id in s.info
  {
    s.(info := s.info[id := s.info[id].(refCount := s.info[id].refCount + 1)],
       newTable := s.newTable[t := id])
  }

  /** Count an entry as a new one. */
  function CountNew(env: Env, s: State, id: int): State
    requires id in s.info
  {
    s.(nNew := s.nNew + 1, counts := Bump(s.counts, env.network(s.info[id].addr.service.ip), 1, 0))
  }

  /** Take an entry out of every new slot, and stop counting it as new. */
  function StripNew(env: Env, s: State, id: int): State
    requires id in s.info
  {
    s.(info := s.info[id := s.info[id].(refCount := 0)],
       newTable := map t | t in s.newTable && s.newTable[t] != id :: s.newTable[t],
       nNew := s.nNew - 1,
       counts := Bump(s.counts, env.network(s.info[id].addr.service.ip), -1, 0))
  }

  /** Take the entry of a tried slot out of the tried table. */
  function StripTried(env: Env, s: State, t: Slot): State
    requires t in s.triedTable && s.triedTable[t] in s.info
  {
    var id := s.triedTable[t];
    s.(info := s.info[id := s.info[id].(inTried := false)],
       triedTable := s.triedTable - {t},
       nTried := s.nTried - 1,
       counts := Bump(s.counts, env.network(s.info[id].addr.service.ip), 0, -1))
  }

  function PlaceTried(env: Env, s: State, id: int, t: Slot): State
    requires id in s.info
  {
    s.(info := s.info[id := s.info[id].(inTried := true)],
       triedTable := s.triedTable[t := id],
       nTried := s.nTried + 1,
       counts := Bump(s.counts, env.network(s.info[id].addr.service.ip), 0, 1))
  }
}
