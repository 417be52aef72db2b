/**
 The public operations of the address manager as functions on its state, each
 proved to keep the manager consistent.

 Clock readings and random numbers are arguments.
*/
module AddrManOps {
  import opened Prelude
  import opened AddrManState
  import opened AddrManInvariant

  /** Entries keep their identity: ids are not reused and never change address. */
  ghost predicate SameIds(s: State, r: State) {
    && s.idCount <= r.idCount
    && (forall id :: id in r.info && id < s.idCount ==>
          && id in s.info
          && r.info[id].addr.service == s.info[id].addr.service)
  }

  /** An occupied tried slot stays occupied. */
  ghost predicate TriedGrows(s: State, r: State) {
    s.triedTable.Keys <= r.triedTable.Keys
  }

  lemma CollisionsKept(env: Env, s: State, r: State)
    requires CollisionsOk(env, s)
    requires SameIds(s, r) && TriedGrows(s, r) && r.collisions <= s.collisions
    ensures CollisionsOk(env, r)
  {
    CardSubset(r.collisions, s.collisions);
    forall id | id in r.collisions && id in r.info ensures env.TriedSlot(r.info[id].addr.service) in r.triedTable {
      assert id < s.idCount && id in s.info;
      assert env.TriedSlot(s.info[id].addr.service) in s.triedTable.Keys;
    }
  }

  lemma CardSubset<T>(A: set<T>, B: set<T>)
    requires A <= B
    ensures |A| <= |B|
  {
    assert B == A + (B - A);
    assert |B| == |A| + |B - A|;
  }

  /** The occupant of a new slot is referenced, not tried, and can be deleted. */
  lemma OccupantFacts(env: Env, s: State, t: Slot, limbo: set<int>, pending: set<int>)
    requires Inv(env, s, limbo, pending) && t in s.newTable
    ensures Deletable(s, s.newTable[t]) && s.info[s.newTable[t]].refCount > 0 && !s.info[s.newTable[t]].inTried
    ensures s.newTable[t] >= 0
  {
    UnrefStays(env, s, t, limbo, pending);
  }

  // ------------------------------------------------------------ moving an entry to the tried table

  /** The occupant of a tried slot taken out, and the new slot it goes back to cleared. */
  function Uproot(env: Env, s: State, t: Slot, ghost x: int): (b: State)
    requires Inv(env, s, {x}, {}) && x in s.info && t in s.triedTable
    ensures Inv(env, b, {x, s.triedTable[t]}, {})
    ensures UprootFrame(env, s, b, t, x)
  {
    UprootInv(env, s, t, x);
    var a := StripTried(env, s, t);
    ClearNew(env, a, env.NewSlot(a.info[s.triedTable[t]].addr.service, a.info[s.triedTable[t]].source))
  }

  ghost predicate UprootFrame(env: Env, s: State, b: State, t: Slot, x: int)
    requires t in s.triedTable && s.triedTable[t] in s.info && x in s.info
  {
    var prev := s.triedTable[t];
    && b.triedTable == s.triedTable - {t}
    && b.newTable == s.newTable - {env.NewSlot(s.info[prev].addr.service, s.info[prev].source)}
    && b.collisions == s.collisions && b.lastGood == s.lastGood && b.idCount == s.idCount
    && (forall id :: id in b.info ==> id in s.info && Keeps(b.info[id], s.info[id]))
    && x in b.info && b.info[x] == s.info[x].(randomPos := b.info[x].randomPos)
    && x != prev && prev in b.info
    && b.info[prev] == s.info[prev].(inTried := false, randomPos := b.info[prev].randomPos)
  }

  lemma UprootInv(env: Env, s: State, t: Slot, x: int)
    requires Inv(env, s, {x}, {}) && x in s.info && t in s.triedTable
    ensures s.triedTable[t] in s.info
    ensures var a := StripTried(env, s, t);
            var u := env.NewSlot(a.info[s.triedTable[t]].addr.service, a.info[s.triedTable[t]].source);
            && RandomOk(a.info, a.random)
            && (u in a.newTable ==> a.newTable[u] in a.info)
            && Inv(env, ClearNew(env, a, u), {x, s.triedTable[t]}, {})
            && UprootFrame(env, s, ClearNew(env, a, u), t, x)
  {
    hide Inv, ClearNew, RandomOk;
    var prev := s.triedTable[t];
    TriedOccupant(env, s, t, {x});
    StripTriedInv(env, s, t, {x});
    assert {x} + {prev} == {x, prev};
    var a := StripTried(env, s, t);
    var u := env.NewSlot(a.info[prev].addr.service, a.info[prev].source);
    Lookups(env, a, {x, prev}, {});
    UprootClear(env, a, u, x, prev);
  }

  /** What the order and the new table refer to is known. */
  lemma Lookups(env: Env, s: State, limbo: set<int>, pending: set<int>)
    requires Inv(env, s, limbo, pending)
    ensures RandomOk(s.info, s.random) && forall t :: t in s.newTable ==> s.newTable[t] in s.info
  {
    hide IndexOk, TriedOk, CountsOk;
  }

  /** The occupant of a tried slot is a tried entry without references. */
  lemma TriedOccupant(env: Env, s: State, t: Slot, limbo: set<int>)
    requires Inv(env, s, limbo, {}) && t in s.triedTable
    ensures s.triedTable[t] in s.info && s.info[s.triedTable[t]].inTried && s.triedTable[t] !in limbo
  {
    hide IndexOk, RandomOk, NewOk, CountsOk;
    var id := s.triedTable[t];
    assert id in s.info && s.info[id].inTried;
    TriedOutside(env, s.info, s.triedTable, limbo, id);
  }

  lemma TriedOutside(env: Env, info: map<int, Info>, triedTable: map<Slot, int>, limbo: set<int>, id: int)
    requires TriedOk(env, info, triedTable, limbo) && id in info && info[id].inTried
    ensures id !in limbo
  {
  }

  lemma UprootOccupant(env: Env, s: State, t: Slot, x: int)
    requires Inv(env, s, {x}, {}) && x in s.info && t in s.triedTable
    ensures s.triedTable[t] in s.info
    ensures var a := StripTried(env, s, t);
            var u := env.NewSlot(a.info[s.triedTable[t]].addr.service, a.info[s.triedTable[t]].source);
            u in a.newTable ==>
              Deletable(a, a.newTable[u]) && a.info[a.newTable[u]].refCount > 0 && !a.info[a.newTable[u]].inTried
  {
    StripTriedInv(env, s, t, {x});
    var a := StripTried(env, s, t);
    var u := env.NewSlot(a.info[s.triedTable[t]].addr.service, a.info[s.triedTable[t]].source);
    if u in a.newTable {
      OccupantFacts(env, a, u, {x} + {s.triedTable[t]}, {});
    }
  }

  lemma UprootClear(env: Env, a: State, u: Slot, x: int, prev: int)
    requires Inv(env, a, {x, prev}, {}) && x in a.info && prev in a.info
    ensures var b := ClearNew(env, a, u);
            && Inv(env, b, {x, prev}, {})
            && ClearFrame(a, b, u)
            && x in b.info && b.info[x] == a.info[x].(randomPos := b.info[x].randomPos)
            && prev in b.info && b.info[prev] == a.info[prev].(randomPos := b.info[prev].randomPos)
  {
    ClearNewInv(env, a, u, {x, prev}, {});
    NoSlots(env, a, prev, {x, prev}, {});
    NoSlots(env, a, x, {x, prev}, {});
  }

  /**
   Move the occupant of tried slot `t` back to the new table, over whatever is
   in the new slot of its own source.
  */
  function Evict(env: Env, s: State, t: Slot, ghost x: int): (r: State)
    requires Inv(env, s, {x}, {}) && x in s.info && t in s.triedTable
    ensures Inv(env, r, {x}, {})
    ensures EvictFrame(env, s, r, t, x)
  {
    var prev := s.triedTable[t];
    var b := Uproot(env, s, t, x);
    EvictPlace(env, s, b, t, x);
    PlaceNew(CountNew(env, b, prev), prev, env.NewSlot(s.info[prev].addr.service, s.info[prev].source))
  }

  lemma CountPlaceCommute(env: Env, b: State, id: int, t: Slot)
    requires id in b.info
    ensures PlaceNew(CountNew(env, b, id), id, t) == CountNew(env, PlaceNew(b, id, t), id)
  {
  }

  lemma EvictedFacts(env: Env, s: State, t: Slot, x: int)
    requires Inv(env, s, {x}, {}) && x in s.info && t in s.triedTable
    ensures var prev := s.triedTable[t];
            && 0 <= prev && prev in s.info && prev in Uproot(env, s, t, x).info
            && var u := env.NewSlot(s.info[prev].addr.service, s.info[prev].source);
               Evict(env, s, t, x) == CountNew(env, PlaceNew(Uproot(env, s, t, x), prev, u), prev)
  {
    var prev := s.triedTable[t];
    assert 0 <= prev && prev in s.info;
    var b := Uproot(env, s, t, x);
    assert prev in b.info;
    CountPlaceCommute(env, b, prev, env.NewSlot(s.info[prev].addr.service, s.info[prev].source));
  }

  /** The slot is free, its former occupant is a new entry with one reference, and `x` is as before. */
  ghost predicate EvictFrame(env: Env, s: State, r: State, t: Slot, x: int)
    requires t in s.triedTable && s.triedTable[t] in s.info && x in s.info
  {
    var prev := s.triedTable[t];
    && r.triedTable == s.triedTable - {t}
    && r.newTable == s.newTable[env.NewSlot(s.info[prev].addr.service, s.info[prev].source) := prev]
    && r.collisions == s.collisions && r.lastGood == s.lastGood && r.idCount == s.idCount
    && (forall id :: id in r.info ==> id in s.info && Keeps(r.info[id], s.info[id]))
    && x in r.info && r.info[x] == s.info[x].(randomPos := r.info[x].randomPos)
    && x != prev && prev in r.info && !r.info[prev].inTried && r.info[prev].refCount == 1
  }

  lemma EvictPlace(env: Env, s: State, b: State, t: Slot, x: int)
    requires t in s.triedTable && s.triedTable[t] in s.info && x in s.info
    requires s.info[s.triedTable[t]].refCount == 0
    requires Inv(env, b, {x, s.triedTable[t]}, {}) && UprootFrame(env, s, b, t, x)
    ensures var prev := s.triedTable[t];
            var u := env.NewSlot(s.info[prev].addr.service, s.info[prev].source);
            var r := PlaceNew(CountNew(env, b, prev), prev, u);
            Inv(env, r, {x}, {}) && EvictFrame(env, s, r, t, x)
  {
    hide Inv;
    var prev := s.triedTable[t];
    var u := env.NewSlot(s.info[prev].addr.service, s.info[prev].source);
    CountNewInv(env, b, prev, {x, prev});
    assert {x, prev} - {prev} == {x};
    var c := CountNew(env, b, prev);
    PlaceNewInv(env, c, prev, u, {x}, {prev});
    assert {prev} - {prev} == {};
    assert (s.newTable - {u})[u := prev] == s.newTable[u := prev];
  }

  /**
   After the move the entry holds its tried slot and nothing else; exactly that
   slot of the tried table changed; and an entry that was evicted is still known.
  */
  function MakeTried(env: Env, s: State, id: int): (r: State)
    requires Inv(env, s, {}, {}) && id in s.info && !s.info[id].inTried
    ensures Inv(env, r, {}, {})
    ensures MadeTried(env, s, r, id)
  {
    StripNewInv(env, s, id);
    var a := StripNew(env, s, id);
    var t := env.TriedSlot(s.info[id].addr.service);
    if t in a.triedTable then
      var b := Evict(env, a, t, id);
      PlaceTriedInv(env, b, id, t);
      MadeTriedEvicting(env, s, b, id);
      PlaceTried(env, b, id, t)
    else
      PlaceTriedInv(env, a, id, t);
      PlaceTried(env, a, id, t)
  }

  ghost predicate MadeTried(env: Env, s: State, r: State, id: int)
    requires id in s.info
  {
    var t := env.TriedSlot(s.info[id].addr.service);
    && r.triedTable == s.triedTable[t := id]
    && id in r.info && r.info[id].inTried && Keeps(r.info[id].(inTried := false), s.info[id])
    && (forall x :: x in r.info && x != id ==> x in s.info && Keeps(r.info[x], s.info[x]))
    && r.collisions == s.collisions && r.lastGood == s.lastGood && SameIds(s, r)
    && (t in s.triedTable ==>
          s.triedTable[t] in r.info && !r.info[s.triedTable[t]].inTried && r.info[s.triedTable[t]].refCount == 1)
  }

  lemma MadeTriedEvicting(env: Env, s: State, b: State, id: int)
    requires id in s.info
    requires var t := env.TriedSlot(s.info[id].addr.service);
             && t in s.triedTable && s.triedTable[t] in s.info && s.triedTable[t] != id
             && EvictFrame(env, StripNew(env, s, id), b, t, id)
    ensures MadeTried(env, s, PlaceTried(env, b, id, env.TriedSlot(s.info[id].addr.service)), id)
  {
    var t := env.TriedSlot(s.info[id].addr.service);
    assert (s.triedTable - {t})[t := id] == s.triedTable[t := id];
  }

  // ------------------------------------------------------------ adding an address

  /** Give `id` the new slot of `source`, if it is free or its occupant may be dropped. */
  function InsertNew(env: Env, s: State, id: int, source: NetAddr, now: int): (r: (State, bool))
    requires Inv(env, s, {}, {id})
    requires id in s.info && !s.info[id].inTried && s.info[id].refCount < NEW_BUCKETS_PER_ADDRESS
    ensures Inv(env, r.0, {}, {})
    ensures InsertFrame(env, s, r.0, id, source, r.1)
  {
    var e := s.info[id];
    var t := env.NewSlot(e.addr.service, source);
    if t in s.newTable && s.newTable[t] == id then
      UnrefStays(env, s, t, {}, {id});
      KeepReferenced(env, s, id);
      (s, false)
    else if t !in s.newTable || s.info[s.newTable[t]].IsTerrible(now)
        || (s.info[s.newTable[t]].refCount > 1 && e.refCount == 0) then
      InsertPlace(env, s, id, source);
      (PlaceNew(ClearNew(env, s, t), id, t), true)
    else if e.refCount == 0 then
      InsertDrop(env, s, id, source);
      (Delete(env, s, id), false)
    else
      KeepReferenced(env, s, id);
      (s, false)
  }

  /** Either the slot now holds `id`, or the new table is as before. */
  ghost predicate InsertFrame(env: Env, s: State, r: State, id: int, source: NetAddr, inserted: bool)
    requires id in s.info
  {
    && r.triedTable == s.triedTable && r.collisions == s.collisions
    && r.lastGood == s.lastGood && r.idCount == s.idCount
    && (forall x :: x in r.info ==> x in s.info && Keeps(r.info[x], s.info[x]))
    && (inserted ==> id in r.info && r.newTable == s.newTable[env.NewSlot(s.info[id].addr.service, source) := id])
    && (!inserted ==> r.newTable == s.newTable)
  }

  lemma KeepReferenced(env: Env, s: State, id: int)
    requires Inv(env, s, {}, {id}) && id in s.info && !s.info[id].inTried && s.info[id].refCount != 0
    ensures Inv(env, s, {}, {})
  {
    NotPending(env, s, id, {}, {id});
    assert {id} - {id} == {};
  }

  lemma InsertPlace(env: Env, s: State, id: int, source: NetAddr)
    requires Inv(env, s, {}, {id})
    requires id in s.info && !s.info[id].inTried && s.info[id].refCount < NEW_BUCKETS_PER_ADDRESS
    requires var t := env.NewSlot(s.info[id].addr.service, source); t in s.newTable ==> s.newTable[t] != id
    ensures var t := env.NewSlot(s.info[id].addr.service, source);
            var c := ClearNew(env, s, t);
            && id in c.info
            && Inv(env, PlaceNew(c, id, t), {}, {})
            && InsertFrame(env, s, PlaceNew(c, id, t), id, source, true)
  {
    var t := env.NewSlot(s.info[id].addr.service, source);
    ClearNewInv(env, s, t, {}, {id});
    InsertPlaceCleared(env, s, ClearNew(env, s, t), id, t);
    InsertPlaceFrame(env, s, ClearNew(env, s, t), id, source);
  }

  lemma InsertPlaceCleared(env: Env, s: State, c: State, id: int, t: Slot)
    requires Inv(env, c, {}, {id}) && ClearFrame(s, c, t)
    requires id in s.info && !s.info[id].inTried && s.info[id].refCount < NEW_BUCKETS_PER_ADDRESS
    requires t in s.newTable ==> s.newTable[t] != id
    requires t.bucket < NEW_BUCKET_COUNT && t == env.NewSlotIn(s.info[id].addr.service, t.bucket)
    ensures id in c.info && Inv(env, PlaceNew(c, id, t), {}, {})
  {
    PlaceNewInv(env, c, id, t, {}, {id});
    assert {id} - {id} == {};
  }

  lemma InsertPlaceFrame(env: Env, s: State, c: State, id: int, source: NetAddr)
    requires id in s.info && id in c.info
    requires ClearFrame(s, c, env.NewSlot(s.info[id].addr.service, source))
    ensures InsertFrame(env, s, PlaceNew(c, id, env.NewSlot(s.info[id].addr.service, source)), id, source, true)
  {
    var t := env.NewSlot(s.info[id].addr.service, source);
    assert (s.newTable - {t})[t := id] == s.newTable[t := id];
  }

  lemma InsertDrop(env: Env, s: State, id: int, source: NetAddr)
    requires Inv(env, s, {}, {id}) && id in s.info && !s.info[id].inTried && s.info[id].refCount == 0
    ensures Inv(env, Delete(env, s, id), {}, {})
    ensures InsertFrame(env, s, Delete(env, s, id), id, source, false)
  {
    DeleteInv(env, s, id, {}, {id});
    assert {id} - {id} == {};
    InsertDropFrame(env, s, id, source);
  }

  lemma InsertDropFrame(env: Env, s: State, id: int, source: NetAddr)
    requires RandomOk(s.info, s.random) && id in s.info
    ensures InsertFrame(env, s, Delete(env, s, id), id, source, false)
  {
    DeleteFrame(env, s, id);
  }

  /** The entry after hearing of its address again. */
  function Refresh(e: Info, addr: Address, penalty: int, now: int): Info {
    var interval := if now - addr.time < DAY then HOUR else DAY;
    var time := if e.addr.time < addr.time - interval - penalty then Max(0, addr.time - penalty) else e.addr.time;
    e.(addr := e.addr.(time := time, services := e.addr.services + addr.services))
  }

  /** Whether a known entry gets another chance at a new slot. */
  predicate MayInsert(e: Info, addr: Address, roll: nat) {
    && addr.time > e.addr.time
    && !e.inTried
    && 0 <= e.refCount < NEW_BUCKETS_PER_ADDRESS
    && roll % Pow2(e.refCount) == 0
  }

  /** The state after hearing of a known address again. */
  function Reheard(s: State, id: int, addr: Address, penalty: int, now: int): State
    requires id in s.info
  {
    s.(info := s.info[id := Refresh(s.info[id], addr, penalty, now)])
  }

  lemma ReheardOk(env: Env, s: State, id: int, addr: Address, penalty: int, now: int)
    requires Consistent(env, s) && id in s.info
    ensures Consistent(env, Reheard(s, id, addr, penalty, now))
    ensures Inv(env, Reheard(s, id, addr, penalty, now), {}, {id})
  {
    TouchOk(env, s, id, Refresh(s.info[id], addr, penalty, now));
    PendingWeaken(env, Reheard(s, id, addr, penalty, now), {}, {}, {id});
  }

  /** Rewriting an entry's statistics keeps the manager consistent. */
  lemma TouchOk(env: Env, s: State, id: int, e: Info)
    requires Consistent(env, s) && id in s.info
    requires e.addr.service == s.info[id].addr.service && e.inTried == s.info[id].inTried
    requires e.refCount == s.info[id].refCount && e.randomPos == s.info[id].randomPos
    ensures Consistent(env, s.(info := s.info[id := e])) && SameIds(s, s.(info := s.info[id := e]))
  {
    TouchInv(env, s, id, e, {}, {});
    CollisionsKept(env, s, s.(info := s.info[id := e]));
  }

  /** The state with an entry for an unknown address, not yet in any slot. */
  function Introduce(env: Env, s: State, addr: Address, source: NetAddr, penalty: int): (r: State)
    requires Consistent(env, s) && addr.service !in s.index && env.isValid(addr.service.ip)
    ensures Inv(env, r, {}, {s.idCount})
    ensures s.idCount in r.info
    ensures r.info[s.idCount] == NewInfo(addr.(time := Max(0, addr.time - penalty)), source, |s.random|)
    ensures r.triedTable == s.triedTable && r.newTable == s.newTable && r.collisions == s.collisions && SameIds(s, r)
  {
    CreateInv(env, s, addr, source);
    var c := Create(env, s, addr, source);
    var e := c.info[s.idCount].(addr := addr.(time := Max(0, addr.time - penalty)));
    TouchInv(env, c, s.idCount, e, {}, {s.idCount});
    c.(info := c.info[s.idCount := e])
  }

  function AddKnown(env: Env, s: State, id: int, addr: Address, source: NetAddr, penalty: int, now: int,
                    roll: nat): (r: (State, bool))
    requires Consistent(env, s) && id in s.info && s.info[id].addr.service == addr.service
    ensures Consistent(env, r.0) && SameIds(s, r.0) && r.0.triedTable == s.triedTable
    ensures r.1 ==> addr.service in r.0.index && r.0.index[addr.service] == id
    ensures r.0.newTable == if r.1 then s.newTable[env.NewSlot(addr.service, source) := id] else s.newTable
  {
    ReheardOk(env, s, id, addr, penalty, now);
    var s1 := Reheard(s, id, addr, penalty, now);
    if !MayInsert(s1.info[id], addr, roll) then (s1, false) else
      var r := InsertNew(env, s1, id, source, now);
      AddedFacts(env, s, s1, r.0, id, addr.service, source, r.1);
      r
  }

  function AddSingle(env: Env, s: State, addr: Address, source: NetAddr, timePenalty: int, now: int,
                     roll: nat): (r: (State, bool))
    requires Consistent(env, s)
    ensures Consistent(env, r.0)
    ensures r.0.triedTable == s.triedTable && SameIds(s, r.0)
    ensures r.1 ==> addr.service in r.0.index
    ensures r.1 ==> r.0.newTable == s.newTable[env.NewSlot(addr.service, source) := r.0.index[addr.service]]
    ensures !r.1 ==> r.0.newTable == s.newTable
  {
    if !env.IsRoutable(addr.service.ip) then (s, false) else
      var penalty := if addr.service.ip == source then 0 else timePenalty;
      if addr.service in s.index then
        IndexFacts(env, s, addr.service);
        AddKnown(env, s, s.index[addr.service], addr, source, penalty, now, roll)
      else
        var s1 := Introduce(env, s, addr, source, penalty);
        var r := InsertNew(env, s1, s.idCount, source, now);
        AddedFacts(env, s, s1, r.0, s.idCount, addr.service, source, r.1);
        r
  }

  lemma AddedFacts(env: Env, s: State, s1: State, r: State, id: int, a: Service, source: NetAddr, inserted: bool)
    requires CollisionsOk(env, s)
    requires s1.triedTable == s.triedTable && s1.newTable == s.newTable && s1.collisions == s.collisions
    requires SameIds(s, s1)
    requires id in s1.info && s1.info[id].addr.service == a && InsertFrame(env, s1, r, id, source, inserted)
    requires Inv(env, r, {}, {})
    ensures Consistent(env, r) && SameIds(s, r) && r.triedTable == s.triedTable
    ensures inserted ==> a in r.index && r.index[a] == id
  {
    CollisionsKept(env, s, r);
  }

  /** Another entry survives the clearing of the slot `id` goes to. */
  lemma InsertKeeps(env: Env, s: State, id: int, source: NetAddr)
    requires Inv(env, s, {}, {id})
    requires id in s.info && !s.info[id].inTried && s.info[id].refCount < NEW_BUCKETS_PER_ADDRESS
    requires var t := env.NewSlot(s.info[id].addr.service, source); t in s.newTable ==> s.newTable[t] != id
    ensures var t := env.NewSlot(s.info[id].addr.service, source);
            (t in s.newTable ==> Deletable(s, s.newTable[t])) && id in ClearNew(env, s, t).info
  {
    InsertPlace(env, s, id, source);
  }

  lemma RefCountRange(env: Env, s: State, id: int)
    requires Consistent(env, s) && id in s.info
    ensures 0 <= id && 0 <= s.info[id].refCount <= NEW_BUCKETS_PER_ADDRESS && Deletable(s, id)
  {
  }

  function AddAll(env: Env, s: State, addrs: seq<Address>, source: NetAddr, timePenalty: int, nows: nat -> int,
                  rolls: nat -> nat): (r: (State, nat))
    requires Consistent(env, s)
    ensures Consistent(env, r.0)
    ensures r.0.triedTable == s.triedTable && SameIds(s, r.0)
    ensures r.1 <= |addrs|
    decreases |addrs|
  {
    if addrs == [] then (s, 0) else
      var n := |addrs| - 1;
      var p := AddAll(env, s, addrs[..n], source, timePenalty, nows, rolls);
      var q := AddSingle(env, p.0, addrs[n], source, timePenalty, nows(n), rolls(n));
      (q.0, p.1 + if q.1 then 1 else 0)
  }

  lemma AddAllStep(env: Env, s: State, addrs: seq<Address>, n: nat, source: NetAddr, timePenalty: int,
                   nows: nat -> int, rolls: nat -> nat)
    requires Consistent(env, s) && n < |addrs|
    ensures var p := AddAll(env, s, addrs[..n], source, timePenalty, nows, rolls);
            var q := AddSingle(env, p.0, addrs[n], source, timePenalty, nows(n), rolls(n));
            AddAll(env, s, addrs[..n + 1], source, timePenalty, nows, rolls) == (q.0, p.1 + if q.1 then 1 else 0)
  {
    hide AddSingle, Consistent;
    assert addrs[..n + 1][..n] == addrs[..n];
  }

  // ------------------------------------------------------------ connection events

  /** Entries other than `id` keep their times, and `id` has those it had. */
  ghost predicate Restamped(s: State, r: State, id: int)
    requires id in s.info && id in r.info
  {
    && r.info[id].lastTry == s.info[id].lastTry && r.info[id].lastSuccess == s.info[id].lastSuccess
    && forall x :: x in r.info && x != id ==> x in s.info && Keeps(r.info[x], s.info[x])
  }

  /** The statistics after a successful connection. */
  function Succeeded(env: Env, s: State, id: int, time: int): (r: State)
    requires Consistent(env, s) && id in s.info
    ensures Consistent(env, r)
    ensures r == s.(lastGood := time,
                    info := s.info[id := s.info[id].(lastSuccess := time, lastTry := time, attempts := 0)])
  {
    var s0 := s.(lastGood := time);
    var e := s.info[id].(lastSuccess := time, lastTry := time, attempts := 0);
    TouchInv(env, s0, id, e, {}, {});
    CollisionsKept(env, s, s0.(info := s0.info[id := e]));
    s0.(info := s0.info[id := e])
  }

  function Promote(env: Env, s: State, id: int): (r: State)
    requires Consistent(env, s) && id in s.info && !s.info[id].inTried
    ensures Consistent(env, r) && SameIds(s, r) && r.collisions == s.collisions
    ensures r.triedTable == s.triedTable[env.TriedSlot(s.info[id].addr.service) := id]
    ensures id in r.info && r.info[id].inTried && Restamped(s, r, id)
  {
    var r := MakeTried(env, s, id);
    CollisionsKept(env, s, r);
    r
  }

  /** Remember that an address waits for its tried slot, if there is room. */
  function Enlist(env: Env, s: State, id: int): (r: State)
    requires Consistent(env, s) && id in s.info && env.TriedSlot(s.info[id].addr.service) in s.triedTable
    ensures Consistent(env, r)
    ensures r == if |s.collisions| < SET_TRIED_COLLISION_SIZE then s.(collisions := s.collisions + {id}) else s
  {
    if |s.collisions| < SET_TRIED_COLLISION_SIZE then s.(collisions := s.collisions + {id}) else s
  }

  /** Where an entry goes once its statistics are updated. */
  function AfterSuccess(env: Env, s: State, id: int, testBeforeEvict: bool): (r: (State, bool))
    requires Consistent(env, s) && id in s.info
    ensures Consistent(env, r.0) && SameIds(s, r.0)
    ensures id in r.0.info && r.0.info[id].inTried == (r.1 || s.info[id].inTried) && Restamped(s, r.0, id)
    ensures r.1 <==> !s.info[id].inTried && !(testBeforeEvict && env.TriedSlot(s.info[id].addr.service) in s.triedTable)
    ensures r.0.triedTable == if r.1 then s.triedTable[env.TriedSlot(s.info[id].addr.service) := id] else s.triedTable
    ensures !testBeforeEvict ==> r.0.collisions == s.collisions
  {
    if s.info[id].inTried then (s, false)
    else if testBeforeEvict && env.TriedSlot(s.info[id].addr.service) in s.triedTable then (Enlist(env, s, id), false)
    else (Promote(env, s, id), true)
  }

  /** The entry has been stamped with the time of its success, and no other entry has. */
  ghost predicate SuccessStamped(s: State, r: State, id: int, moved: bool, time: int) {
    && id in s.info && id in r.info
    && r.info[id].lastTry == r.info[id].lastSuccess == time && r.info[id].inTried == (moved || s.info[id].inTried)
    && forall x :: x in r.info && x != id ==> x in s.info && Keeps(r.info[x], s.info[x])
  }

  /**
   A successful connection. The entry moves to the tried table unless its slot
   there is taken and the occupant is to be tested first.
  */
  function Good(env: Env, s: State, a: Service, testBeforeEvict: bool, time: int): (r: (State, bool))
    requires Consistent(env, s)
    ensures Consistent(env, r.0)
    ensures a !in s.index ==> r.0.info == s.info
    ensures a in s.index ==> SuccessStamped(s, r.0, s.index[a], r.1, time)
    ensures TriedGrows(s, r.0) && SameIds(s, r.0)
    ensures !testBeforeEvict ==> r.0.collisions == s.collisions
    ensures r.1 <==>
              && a in s.index && !s.info[s.index[a]].inTried
              && !(testBeforeEvict && env.TriedSlot(a) in s.triedTable)
    ensures r.0.triedTable == if r.1 then s.triedTable[env.TriedSlot(a) := s.index[a]] else s.triedTable
  {
    if a !in s.index then (s.(lastGood := time), false) else
      IndexFacts(env, s, a);
      var id := s.index[a];
      AfterSuccess(env, Succeeded(env, s, id, time), id, testBeforeEvict)
  }

  lemma IndexFacts(env: Env, s: State, a: Service)
    requires Consistent(env, s) && a in s.index
    ensures s.index[a] in s.info && s.info[s.index[a]].addr.service == a
  {
  }

  /** A lookup by address finds an entry with that address. */
  predicate Known(s: State, a: Service) {
    a in s.index ==> s.index[a] in s.info && s.info[s.index[a]].addr.service == a
  }

  function Attempted(e: Info, countFailure: bool, lastGood: int, time: int): Info {
    if countFailure && e.lastCountAttempt < lastGood
    then e.(lastTry := time, lastCountAttempt := time, attempts := e.attempts + 1)
    else e.(lastTry := time)
  }

  function Attempt(s: State, a: Service, countFailure: bool, time: int): State
    requires Known(s, a)
  {
    if a !in s.index then s else
      s.(info := s.info[s.index[a] := Attempted(s.info[s.index[a]], countFailure, s.lastGood, time)])
  }

  function Seen(e: Info, time: int): Info {
    if time - e.addr.time > 20 * MINUTE then e.(addr := e.addr.(time := time)) else e
  }

  function Connected(s: State, a: Service, time: int): State
    requires Known(s, a)
  {
    if a !in s.index then s else s.(info := s.info[s.index[a] := Seen(s.info[s.index[a]], time)])
  }

  function SetServices(s: State, a: Service, services: set<nat>): State
    requires Known(s, a)
  {
    if a !in s.index then s else
      s.(info := s.info[s.index[a] := s.info[s.index[a]].(addr := s.info[s.index[a]].addr.(services := services))])
  }

  /** The events that only touch statistics keep the manager consistent and move nothing. */
  lemma StatisticsOk(env: Env, s: State, a: Service, countFailure: bool, time: int, services: set<nat>)
    requires Consistent(env, s)
    ensures Known(s, a)
    ensures Consistent(env, Attempt(s, a, countFailure, time))
    ensures Consistent(env, Connected(s, a, time))
    ensures Consistent(env, SetServices(s, a, services))
  {
    if a in s.index {
      IndexFacts(env, s, a);
      var id := s.index[a];
      var e := s.info[id];
      TouchOk(env, s, id, Attempted(e, countFailure, s.lastGood, time));
      TouchOk(env, s, id, Seen(e, time));
      TouchOk(env, s, id, e.(addr := e.addr.(services := services)));
    }
  }

  // ------------------------------------------------------------ tried collisions

  datatype Verdict = Drop | Replace | Keep

  /** If `id` is known, its address is valid and the tried slot it waits for is occupied. */
  predicate Waiting(env: Env, s: State, id: int) {
    id in s.info ==>
      && env.isValid(s.info[id].addr.service.ip)
      && var t := env.TriedSlot(s.info[id].addr.service);
         t in s.triedTable && s.triedTable[t] in s.info
  }

  /** What becomes of an address waiting for a tried slot, at time `now`. */
  function Judge(env: Env, s: State, id: int, now: int): (v: Verdict)
    requires Waiting(env, s, id)
  {
    if id !in s.info then Drop else
      var prev := s.info[s.triedTable[env.TriedSlot(s.info[id].addr.service)]];
      if now - prev.lastSuccess < REPLACEMENT then Drop
      else if now - prev.lastTry < REPLACEMENT then
        if now - prev.lastTry > MINUTE then Replace else Keep
      else if now - s.info[id].lastSuccess > TEST_WINDOW then Replace
      else Keep
  }

  lemma WaitingOk(env: Env, s: State, id: int)
    requires Consistent(env, s) && id in s.collisions
    ensures Waiting(env, s, id)
  {
    if id in s.info { WaitingFacts(env, s, id); }
  }

  function Delist(env: Env, s: State, id: int): (r: State)
    requires Consistent(env, s)
    ensures Consistent(env, r) && r == s.(collisions := s.collisions - {id})
  {
    CollisionsKept(env, s, s.(collisions := s.collisions - {id}));
    s.(collisions := s.collisions - {id})
  }

  function ResolveOne(env: Env, s: State, id: int, now: int): (r: State)
    requires Consistent(env, s) && id in s.collisions
    ensures Consistent(env, r) && TriedGrows(s, r) && SameIds(s, r)
    ensures Waiting(env, s, id)
    ensures r.collisions == if Judge(env, s, id, now).Keep? then s.collisions else s.collisions - {id}
  {
    WaitingOk(env, s, id);
    match Judge(env, s, id, now)
    case Keep => s
    case Drop => Delist(env, s, id)
    case Replace => Delist(env, Good(env, s, s.info[id].addr.service, false, now).0, id)
  }

  lemma ResolveCases(env: Env, s: State, id: int, now: int)
    requires Consistent(env, s) && id in s.collisions
    ensures Waiting(env, s, id)
    ensures var r := ResolveOne(env, s, id, now);
            match Judge(env, s, id, now)
            case Keep => r == s
            case Drop => r == s.(collisions := s.collisions - {id})
            case Replace =>
              && id in s.info
              && var g := Good(env, s, s.info[id].addr.service, false, now).0;
                 r == g.(collisions := g.collisions - {id})
  {
    hide Good;
  }

  /** The least element of a set. */
  ghost predicate IsLeast(x: int, A: set<int>) {
    x in A && forall y :: y in A ==> x <= y
  }

  lemma LeastExists(A: set<int>)
    requires A != {}
    ensures exists x :: IsLeast(x, A)
  {
    var x := Any(A);
    var B := A - {x};
    if B == {} {
      assert forall y :: y in A ==> y in B || y == x;
      assert IsLeast(x, A);
    } else {
      LeastExists(B);
      var y :| IsLeast(y, B);
      assert forall z :: z in A ==> z in B || z == x;
      assert IsLeast(if x < y then x else y, A);
    }
  }

  ghost function Any(A: set<int>): (x: int)
    requires A != {}
    ensures x in A
  {
    SomeInt(A);
    var x :| x in A; x
  }

  ghost function Least(A: set<int>): (x: int)
    requires A != {}
    ensures IsLeast(x, A)
  {
    LeastExists(A);
    var x :| IsLeast(x, A); x
  }

  /** Judge the waiting addresses in ascending id order; `clock` gives the time each is looked at. */
  ghost function ResolveFrom(env: Env, s: State, todo: set<int>, clock: int -> int): (r: State)
    requires Consistent(env, s) && todo <= s.collisions
    ensures Consistent(env, r) && TriedGrows(s, r) && SameIds(s, r) && r.collisions <= s.collisions
    decreases |todo|
  {
    if todo == {} then s else
      var id := Least(todo);
      ResolveFrom(env, ResolveOne(env, s, id, clock(id)), todo - {id}, clock)
  }

  lemma ResolveFromStep(env: Env, s: State, todo: set<int>, clock: int -> int, id: int)
    requires Consistent(env, s) && todo <= s.collisions
    requires IsLeast(id, todo)
    ensures Consistent(env, ResolveOne(env, s, id, clock(id)))
    ensures todo - {id} <= ResolveOne(env, s, id, clock(id)).collisions
    ensures |todo - {id}| < |todo|
    ensures ResolveFrom(env, s, todo, clock) == ResolveFrom(env, ResolveOne(env, s, id, clock(id)), todo - {id}, clock)
  {
    assert todo != {};
    assert Least(todo) == id;
  }

  /** A known address that waits, waits for an occupied slot. */
  lemma WaitingFacts(env: Env, s: State, id: int)
    requires Consistent(env, s) && id in s.collisions && id in s.info
    ensures env.isValid(s.info[id].addr.service.ip)
    ensures var t := env.TriedSlot(s.info[id].addr.service);
            t in s.triedTable && s.triedTable[t] in s.info && s.info[s.triedTable[t]].inTried
    ensures s.info[id].addr.service in s.index && s.index[s.info[id].addr.service] == id
  {
  }

  lemma DelistOk(env: Env, s: State, id: int)
    requires Consistent(env, s)
    ensures Consistent(env, s.(collisions := s.collisions - {id}))
  {
    CollisionsKept(env, s, s.(collisions := s.collisions - {id}));
  }

  lemma CardSplit(A: set<int>, B: set<int>, C: set<int>)
    requires A == B + C && B !! C
    ensures |A| == |B| + |C|
    ensures |C| < |A| ==> B != {}
  {
  }

  // ------------------------------------------------------------ handing out addresses

  /** An entry that may be handed out: of the asked network, and not terrible. */
  predicate Eligible(env: Env, e: Info, network: Option<nat>, now: int) {
    && (network.None? || env.netClass(e.addr.service.ip) == network.value)
    && !e.IsTerrible(now)
  }

  function EligibleIds(env: Env, info: map<int, Info>, network: Option<nat>, now: int): set<int> {
    set id | id in info && Eligible(env, info[id], network, now)
  }

  function Limit(n: nat, maxAddresses: nat, maxPct: nat): nat {
    var k := if maxPct != 0 then maxPct * n / 100 else n;
    if maxAddresses != 0 && maxAddresses < k then maxAddresses else k
  }

  /** `r` is `s` up to the order of `random`. */
  ghost predicate Reordered(s: State, r: State) {
    && r == s.(info := r.info, random := r.random)
    && |r.random| == |s.random|
    && r.info.Keys == s.info.Keys
    && (forall id :: id in s.info ==> r.info[id] == s.info[id].(randomPos := r.info[id].randomPos))
    && RandomOk(r.info, r.random)
  }

  lemma ReorderedOk(env: Env, s: State, r: State)
    requires Consistent(env, s) && Reordered(s, r)
    ensures Consistent(env, r)
  {
    PositionsFrame(env, s, r.info, {}, {});
    CollisionsKept(env, s, r);
  }

  /** `picked` are exactly the eligible entries among the first `n` of `random`, each once. */
  ghost predicate Picked(env: Env, info: map<int, Info>, random: seq<int>, picked: seq<int>, n: nat,
                         network: Option<nat>, now: int)
    requires n <= |random|
  {
    && (forall k :: 0 <= k < |picked| ==>
          picked[k] in info && 0 <= info[picked[k]].randomPos < n && Eligible(env, info[picked[k]], network, now))
    && (forall i, j :: 0 <= i < j < |picked| ==> picked[i] != picked[j])
    && (forall i :: 0 <= i < n ==>
          random[i] in info && (Eligible(env, info[random[i]], network, now) ==> random[i] in picked))
  }

  lemma PickedStep(env: Env, s: State, picked: seq<int>, n: nat, j: nat, network: Option<nat>, now: int)
    requires RandomOk(s.info, s.random) && n <= j < |s.random|
    requires Picked(env, s.info, s.random, picked, n, network, now)
    ensures var r := SwapRandom(s, n, j);
            && RandomOk(r.info, r.random) && |r.random| == |s.random|
            && Picked(env, r.info, r.random, PickedNext(env, r.info, r.random, picked, n, network, now), n + 1,
                      network, now)
            && forall k :: 0 <= k < |picked| ==> picked[k] in r.info && r.info[picked[k]] == s.info[picked[k]]
  {
    SwapRandomOk(s, n, j);
    PickedSwap(env, s, picked, n, j, network, now);
    var r := SwapRandom(s, n, j);
    PickedExtend(env, r.info, r.random, picked, n, network, now);
  }

  function PickedNext(env: Env, info: map<int, Info>, random: seq<int>, picked: seq<int>, n: nat, network: Option<nat>,
                      now: int): seq<int>
    requires n < |random| && random[n] in info
  {
    if Eligible(env, info[random[n]], network, now) then picked + [random[n]] else picked
  }

  /** Swapping later elements disturbs nothing picked so far. */
  lemma PickedSwap(env: Env, s: State, picked: seq<int>, n: nat, j: nat, network: Option<nat>, now: int)
    requires RandomOk(s.info, s.random) && n <= j < |s.random|
    requires Picked(env, s.info, s.random, picked, n, network, now)
    ensures var r := SwapRandom(s, n, j);
            && Picked(env, r.info, r.random, picked, n, network, now)
            && forall k :: 0 <= k < |picked| ==> picked[k] in r.info && r.info[picked[k]] == s.info[picked[k]]
  {
    var r := SwapRandom(s, n, j);
    forall k | 0 <= k < |picked| ensures picked[k] in r.info && r.info[picked[k]] == s.info[picked[k]] {
      assert s.random[s.info[picked[k]].randomPos] == picked[k];
      assert s.info[s.random[j]].randomPos == j && s.info[s.random[n]].randomPos == n;
    }
    forall i | 0 <= i < n
      ensures r.random[i] == s.random[i] && r.random[i] in r.info && r.info[r.random[i]] == s.info[s.random[i]]
    {
      assert s.info[s.random[i]].randomPos == i;
      assert s.info[s.random[j]].randomPos == j && s.info[s.random[n]].randomPos == n;
    }
  }

  lemma PickedExtend(env: Env, info: map<int, Info>, random: seq<int>, picked: seq<int>, n: nat, network: Option<nat>,
                     now: int)
    requires RandomOk(info, random) && n < |random|
    requires Picked(env, info, random, picked, n, network, now)
    ensures Picked(env, info, random, PickedNext(env, info, random, picked, n, network, now), n + 1, network, now)
  {
    var id := random[n];
    assert info[id].randomPos == n;
    assert id !in picked;
  }

  lemma ReorderedTrans(s: State, m: State, r: State)
    requires Reordered(s, m) && Reordered(m, r)
    ensures Reordered(s, r)
  {
  }

  /** Once all of `random` was looked at, as many were picked as there are eligible entries. */
  lemma PickedAll(env: Env, info: map<int, Info>, random: seq<int>, picked: seq<int>, n: nat, network: Option<nat>,
                  now: int)
    requires RandomOk(info, random) && n <= |random|
    requires Picked(env, info, random, picked, n, network, now)
    ensures |picked| <= |EligibleIds(env, info, network, now)|
    ensures n == |random| ==> |picked| == |EligibleIds(env, info, network, now)|
  {
    DistinctCard(picked);
    var A := set x | x in picked;
    var B := EligibleIds(env, info, network, now);
    assert forall x :: x in A ==> x in B;
    CardSubset(A, B);
    if n == |random| {
      forall x | x in B ensures x in A {
        assert random[info[x].randomPos] == x;
      }
      assert A == B;
    }
  }

  lemma {:induction false} DistinctCard(q: seq<int>)
    requires forall i, j :: 0 <= i < j < |q| ==> q[i] != q[j]
    ensures |set x | x in q| == |q|
  {
    var A := set x | x in q;
    if q == [] {
      assert A == {};
    } else {
      var n := |q| - 1;
      DistinctCard(q[..n]);
      var B := set x | x in q[..n];
      assert q == q[..n] + [q[n]];
      assert q[n] !in q[..n];
      assert forall x :: x in A <==> x in B || (true && x == q[n]);
      CardWith(A, B, q[n], true);
    }
  }
}
