/**
 The address manager: five linked structures updated in place.

 Every method is proved to compute the function of the same name in
 `AddrManState` or `AddrManOps` on the abstract state `Abs()`.
*/
module AddrMan {
  import opened Prelude
  import opened AddrManState
  import opened AddrManInvariant
  import Ops = AddrManOps
  import opened AddrManCheck

  /** The table cells hold the ids of the abstract table, and -1 elsewhere. */
  ghost predicate Shows(a: array2<int>, m: map<Slot, int>)
    reads a
  {
    && (forall b: nat, p: nat :: b < a.Length0 && p < a.Length1 ==>
          a[b, p] == (if Slot(b, p) in m then m[Slot(b, p)] else -1))
    && (forall t :: t in m ==> t.bucket < a.Length0 && t.pos < a.Length1 && m[t] != -1)
  }

  /** The `k`-th bucket visited, going round from `start`. */
  function Visited(start: nat, k: nat): nat {
    (start + k) % NEW_BUCKET_COUNT
  }

  /** `now` is `was` without the references to `id` in the first `n` buckets visited. */
  ghost predicate Thinned(env: Env, was: map<Slot, int>, now: map<Slot, int>, id: int, a: Service, start: nat, n: nat) {
    && (forall t :: t in now ==> t in was && now[t] == was[t])
    && (forall t :: t in was && was[t] != id ==> t in now)
    && (forall k: nat :: k < n ==> env.NewSlotIn(a, Visited(start, k)) in now ==>
        now[env.NewSlotIn(a, Visited(start, k))] != id)
  }

  lemma ThinnedStep(env: Env, was: map<Slot, int>, now: map<Slot, int>, id: int, a: Service, start: nat, n: nat)
    requires Thinned(env, was, now, id, a, start, n)
    ensures var t := env.NewSlotIn(a, Visited(start, n));
            if t in now && now[t] == id
            then Thinned(env, was, now - {t}, id, a, start, n + 1) && |Slots(now - {t}, id)| == |Slots(now, id)| - 1
            else Thinned(env, was, now, id, a, start, n + 1)
  {
    var t := env.NewSlotIn(a, Visited(start, n));
    if t in now { SlotsWithout(now, t, id); }
  }

  /** Once no reference is left, or every bucket was visited, the table is stripped of `id`. */
  lemma ThinnedDone(env: Env, s: State, now: map<Slot, int>, id: int, start: nat, n: nat)
    requires id in s.info && !s.info[id].inTried && NewOk(env, s.info, s.newTable, {}, {})
    requires Thinned(env, s.newTable, now, id, s.info[id].addr.service, start, n)
    requires |Slots(now, id)| == 0 || n == NEW_BUCKET_COUNT
    ensures now == StripNew(env, s, id).newTable
    ensures |Slots(now, id)| == 0
  {
    forall t | t in now ensures now[t] != id {
      if n == NEW_BUCKET_COUNT {
        var k := (t.bucket - start) % NEW_BUCKET_COUNT;
        assert Visited(start, k) == t.bucket;
      } else {
        assert now[t] == id ==> t in Slots(now, id);
      }
    }
    var A := Slots(now, id);
    var B: set<Slot> := {};
    assert forall t :: t in A <==> t in B;
    assert A == B;
    var m := StripNew(env, s, id).newTable;
    assert forall t :: t in now <==> t in m;
    assert now.Keys == m.Keys;
    assert forall t :: t in now ==> now[t] == m[t];
    assert now == m;
  }

  class AddrManager {
    const env: Env
    const key: nat

    var idCount: int
    var info: map<int, Info>
    var index: map<Service, int>
    var random: seq<int>
    var nTried: int
    const vvTried: array2<int>
    var nNew: int
    const vvNew: array2<int>
    var lastGood: int
    var collisions: set<int>
    var counts: map<nat, Tally>

    /** The occupied slots of the two tables. */
    ghost var triedTable: map<Slot, int>
    ghost var newTable: map<Slot, int>

    ghost predicate Valid()
      reads this, vvTried, vvNew
    {
      && vvTried != vvNew
      && vvTried.Length0 == TRIED_BUCKET_COUNT && vvTried.Length1 == BUCKET_SIZE
      && vvNew.Length0 == NEW_BUCKET_COUNT && vvNew.Length1 == BUCKET_SIZE
      && Shows(vvTried, triedTable)
      && Shows(vvNew, newTable)
    }

    ghost function Abs(): State
      reads this
    {
      State(idCount, info, index, random, nTried, triedTable, nNew, newTable, lastGood, collisions, counts)
    }

    constructor (env: Env, key: nat)
      ensures Valid() && Abs() == EMPTY && this.env == env && this.key == key
      ensures fresh(vvTried) && fresh(vvNew)
    {
      this.env, this.key := env, key;
      idCount, info, index, random, nTried, nNew := 0, map[], map[], [], 0, 0;
      lastGood, collisions, counts := 1, {}, map[];
      vvTried := new int[TRIED_BUCKET_COUNT, BUCKET_SIZE]((b, p) => -1);
      vvNew := new int[NEW_BUCKET_COUNT, BUCKET_SIZE]((b, p) => -1);
      triedTable, newTable := map[], map[];
    }

    // ---------------------------------------------------------- internal steps

    method CreateEntry(addr: Address, source: NetAddr) returns (id: int)
      requires Valid()
      modifies this
      ensures Valid() && id == old(idCount) && Abs() == Create(env, old(Abs()), addr, source)
    {
      hide Shows;
      id := idCount;
      idCount := idCount + 1;
      info := info[id := NewInfo(addr, source, |random|)];
      index := index[addr.service := id];
      random := random + [id];
      nNew := nNew + 1;
      counts := Bump(counts, env.network(addr.service.ip), 1, 0);
    }

    method SwapPositions(i: nat, j: nat)
      requires Valid() && i < |random| && j < |random|
      requires random[i] in info && random[j] in info
      modifies this`info, this`random
      ensures Valid() && Abs() == SwapRandom(old(Abs()), i, j)
    {
      if i == j { return; }
      var a, b := random[i], random[j];
      info := info[a := info[a].(randomPos := j)];
      info := info[b := info[b].(randomPos := i)];
      random := random[i := b][j := a];
    }

    method DeleteEntry(id: int)
      requires Valid() && Deletable(Abs(), id)
      requires !info[id].inTried && info[id].refCount == 0
      modifies this
      ensures Valid() && Abs() == Delete(env, old(Abs()), id)
    {
      hide Shows, Bump, Count;
      var e := info[id];
      SwapPositions(e.randomPos, |random| - 1);
      counts := Bump(counts, env.network(e.addr.service.ip), -1, 0);
      random := random[..|random| - 1];
      index := index - {e.addr.service};
      info := info - {id};
      nNew := nNew - 1;
    }

    method ClearSlot(t: Slot)
      requires Valid() && t.bucket < NEW_BUCKET_COUNT && t.pos < BUCKET_SIZE
      requires t in newTable ==>
                 Deletable(Abs(), newTable[t]) && info[newTable[t]].refCount > 0 && !info[newTable[t]].inTried
      modifies this, vvNew
      ensures Valid() && Abs() == ClearNew(env, old(Abs()), t)
      ensures vvNew[t.bucket, t.pos] == -1
    {
      if vvNew[t.bucket, t.pos] != -1 {
        var id := vvNew[t.bucket, t.pos];
        assert info[id].refCount > 0;
        info := info[id := info[id].(refCount := info[id].refCount - 1)];
        vvNew[t.bucket, t.pos] := -1;
        newTable := newTable - {t};
        assert Abs() == Unref(old(Abs()), t);
        if info[id].refCount == 0 {
          DeleteEntry(id);
        }
      }
    }

    /**
     Take `id` out of the new table, bucket by bucket from the bucket of its own
     source, until its last reference is gone.
    */
    method LeaveNew(id: int)
      requires Valid() && id in info && !info[id].inTried && id >= 0
      requires NewOk(env, info, newTable, {}, {})
      modifies this`info, this`newTable, vvNew
      ensures Valid()
      ensures info == StripNew(env, old(Abs()), id).info
      ensures newTable == StripNew(env, old(Abs()), id).newTable
    {
      ghost var s := Abs();
      var start := env.NewBucket(info[id].addr.service, info[id].source);
      ghost var n := ThinAll(id, info[id].addr.service, start);
      ThinnedDone(env, s, newTable, id, start, n);
    }

    method ThinAll(id: int, a: Service, start: nat) returns (ghost n: nat)
      requires Valid() && id in info && id >= 0
      requires info[id].refCount == |Slots(newTable, id)|
      modifies this`info, this`newTable, vvNew
      ensures Valid()
      ensures id in info && info == old(info)[id := old(info)[id].(refCount := |Slots(newTable, id)|)]
      ensures Thinned(env, old(newTable), newTable, id, a, start, n)
      ensures |Slots(newTable, id)| == 0 || n == NEW_BUCKET_COUNT
    {
      var i := 0;
      while i < NEW_BUCKET_COUNT
        invariant 0 <= i <= NEW_BUCKET_COUNT
        invariant Valid() && id in info
        invariant info == old(info)[id := old(info)[id].(refCount := |Slots(newTable, id)|)]
        invariant Thinned(env, old(newTable), newTable, id, a, start, i)
      {
        var removed := ThinBucket(id, a, start, i, old(newTable));
        i := i + 1;
        if removed && info[id].refCount == 0 { break; }
      }
      n := i;
    }

    method ThinBucket(id: int, a: Service, start: nat, i: nat, ghost was: map<Slot, int>) returns (removed: bool)
      requires Valid() && id in info && id >= 0
      requires info[id].refCount == |Slots(newTable, id)| && Thinned(env, was, newTable, id, a, start, i)
      modifies this`info, this`newTable, vvNew
      ensures Valid() && id in info
      ensures info == old(info)[id := old(info)[id].(refCount := |Slots(newTable, id)|)]
      ensures Thinned(env, was, newTable, id, a, start, i + 1)
    {
      ThinnedStep(env, was, newTable, id, a, start, i);
      hide Thinned, Slots;
      removed := ThinSlot(id, env.NewSlotIn(a, Visited(start, i)));
    }

    method ThinSlot(id: int, t: Slot) returns (removed: bool)
      requires Valid() && id in info && t.bucket < NEW_BUCKET_COUNT && t.pos < BUCKET_SIZE && id >= 0
      modifies this`info, this`newTable, vvNew
      ensures Valid()
      ensures removed <==> t in old(newTable) && old(newTable)[t] == id
      ensures newTable == if removed then old(newTable) - {t} else old(newTable)
      ensures id in info
      ensures info == if removed then old(info)[id := old(info)[id].(refCount := old(info)[id].refCount - 1)]
          else old(info)
    {
      removed := vvNew[t.bucket, t.pos] == id;
      if removed {
        vvNew[t.bucket, t.pos] := -1;
        newTable := newTable - {t};
        info := info[id := info[id].(refCount := info[id].refCount - 1)];
      }
    }

    /** Move the occupant of tried slot `t` back to the new table. */
    method EvictSlot(t: Slot, ghost x: int)
      requires Valid() && t in triedTable && Inv(env, Abs(), {x}, {}) && x in info
      modifies this, vvTried, vvNew
      ensures Valid() && Abs() == Ops.Evict(env, old(Abs()), t, x)
    {
      Ops.EvictedFacts(env, Abs(), t, x);
      var id := vvTried[t.bucket, t.pos];
      var u := env.NewSlot(info[id].addr.service, info[id].source);
      MakeRoom(t, u, x);
      assert id in info && info[id].addr == old(info)[id].addr;
      EnterNew(id, u);
      CountAsNew(id);
    }

    method CountAsNew(id: int)
      requires Valid() && id in info
      modifies this`nNew, this`counts
      ensures Valid() && Abs() == CountNew(env, old(Abs()), id)
    {
      nNew := nNew + 1;
      counts := Bump(counts, env.network(info[id].addr.service.ip), 1, 0);
    }

    method MakeRoom(t: Slot, u: Slot, ghost x: int)
      requires Valid() && t in triedTable && Inv(env, Abs(), {x}, {}) && x in info
      requires triedTable[t] in info && u == env.NewSlot(info[triedTable[t]].addr.service, info[triedTable[t]].source)
      modifies this, vvTried, vvNew
      ensures Valid() && Abs() == Ops.Uproot(env, old(Abs()), t, x)
    {
      Ops.UprootOccupant(env, Abs(), t, x);
      LeaveTried(t);
      ClearSlot(u);
    }

    method LeaveTried(t: Slot)
      requires Valid() && t in triedTable && triedTable[t] in info
      modifies this, vvTried
      ensures Valid() && Abs() == StripTried(env, old(Abs()), t)
    {
      var id := vvTried[t.bucket, t.pos];
      info := info[id := info[id].(inTried := false)];
      vvTried[t.bucket, t.pos] := -1;
      triedTable := triedTable - {t};
      nTried := nTried - 1;
      counts := Bump(counts, env.network(info[id].addr.service.ip), 0, -1);
    }

    method EnterNew(id: int, t: Slot)
      requires Valid() && id in info && id >= 0 && t.bucket < NEW_BUCKET_COUNT && t.pos < BUCKET_SIZE
      modifies this`info, this`newTable, vvNew
      ensures Valid() && Abs() == PlaceNew(old(Abs()), id, t)
    {
      info := info[id := info[id].(refCount := info[id].refCount + 1)];
      vvNew[t.bucket, t.pos] := id;
      newTable := newTable[t := id];
    }

    method EnterTried(id: int, t: Slot)
      requires Valid() && id in info && id >= 0 && t.bucket < TRIED_BUCKET_COUNT && t.pos < BUCKET_SIZE
      modifies this, vvTried
      ensures Valid() && Abs() == PlaceTried(env, old(Abs()), id, t)
    {
      vvTried[t.bucket, t.pos] := id;
      triedTable := triedTable[t := id];
      nTried := nTried + 1;
      info := info[id := info[id].(inTried := true)];
      counts := Bump(counts, env.network(info[id].addr.service.ip), 0, 1);
    }

    method MoveToTried(id: int)
      requires Valid() && Inv(env, Abs(), {}, {}) && id in info && !info[id].inTried
      modifies this, vvTried, vvNew
      ensures Valid() && Abs() == Ops.MakeTried(env, old(Abs()), id)
    {
      ghost var s := Abs();
      assert id >= 0;
      LeaveAllNew(id);
      StripNewInv(env, s, id);
      TakeTriedSlot(id);
    }

    method LeaveAllNew(id: int)
      requires Valid() && NewOk(env, info, newTable, {}, {}) && id in info && id >= 0 && !info[id].inTried
      modifies this, vvNew
      ensures Valid() && Abs() == StripNew(env, old(Abs()), id)
    {
      ghost var p := StripNew(env, Abs(), id);
      assert id in p.info && p.info[id].addr == info[id].addr;
      assert p == Abs().(info := p.info, newTable := p.newTable, nNew := nNew - 1,
                         counts := Bump(counts, env.network(info[id].addr.service.ip), -1, 0));
      hide StripNew, Bump, NewOk, Shows;
      LeaveNew(id);
      nNew := nNew - 1;
      counts := Bump(counts, env.network(info[id].addr.service.ip), -1, 0);
    }

    method TakeTriedSlot(id: int)
      requires Valid() && Inv(env, Abs(), {id}, {}) && id in info && id >= 0
      modifies this, vvTried, vvNew
      ensures var t := env.TriedSlot(old(info)[id].addr.service);
              var s := if t in old(triedTable) then Ops.Evict(env, old(Abs()), t, id) else old(Abs());
              Valid() && Abs() == PlaceTried(env, s, id, t)
    {
      var t := env.TriedSlot(info[id].addr.service);
      if vvTried[t.bucket, t.pos] != -1 {
        EvictSlot(t, id);
      }
      EnterTried(id, t);
    }

    // ---------------------------------------------------------- adding addresses

    /** Give `id` the new slot of `source`, if it is free or its occupant may be dropped. */
    method InsertInto(id: int, source: NetAddr, now: int) returns (inserted: bool)
      requires Valid() && Inv(env, Abs(), {}, {id})
      requires id in info && !info[id].inTried && info[id].refCount < NEW_BUCKETS_PER_ADDRESS
      modifies this, vvNew
      ensures Valid() && (Abs(), inserted) == Ops.InsertNew(env, old(Abs()), id, source, now)
    {
      var t := env.NewSlot(info[id].addr.service, source);
      if t in newTable { Ops.OccupantFacts(env, Abs(), t, {}, {id}); }
      assert id >= 0 && Deletable(Abs(), id);
      inserted := vvNew[t.bucket, t.pos] == -1;
      if vvNew[t.bucket, t.pos] != id {
        if !inserted {
          var existing := info[vvNew[t.bucket, t.pos]];
          if existing.IsTerrible(now) || (existing.refCount > 1 && info[id].refCount == 0) {
            inserted := true;
          }
        }
        if inserted {
          Ops.InsertKeeps(env, Abs(), id, source);
          ClearSlot(t);
          EnterNew(id, t);
        } else if info[id].refCount == 0 {
          DeleteEntry(id);
        }
      }
    }

    /** How much harder each existing reference makes it to get another one. */
    method Factor(refCount: int) returns (factor: nat)
      requires refCount >= 0
      ensures factor == Pow2(refCount)
    {
      factor := 1;
      for n := 0 to refCount
        invariant factor == Pow2(n)
      {
        factor := factor * 2;
      }
    }

    method AddSingle(addr: Address, source: NetAddr, timePenalty: int, now: int, roll: nat) returns (inserted: bool)
      requires Valid() && Consistent(env, Abs())
      modifies this, vvNew
      ensures Valid() && (Abs(), inserted) == Ops.AddSingle(env, old(Abs()), addr, source, timePenalty, now, roll)
    {
      if !env.IsRoutable(addr.service.ip) { return false; }
      var penalty := timePenalty;
      if addr.service.ip == source { penalty := 0; }
      if addr.service in index {
        Ops.IndexFacts(env, Abs(), addr.service);
        inserted := AddKnown(index[addr.service], addr, source, penalty, now, roll);
      } else {
        inserted := AddUnknown(addr, source, penalty, now);
      }
    }

    method AddUnknown(addr: Address, source: NetAddr, penalty: int, now: int) returns (inserted: bool)
      requires Valid() && Consistent(env, Abs()) && addr.service !in index && env.isValid(addr.service.ip)
      modifies this, vvNew
      ensures Valid() && (Abs(), inserted) == Ops.InsertNew(env, Ops.Introduce(env, old(Abs()), addr, source, penalty),
                                                            old(idCount), source, now)
    {
      var id := CreateEntry(addr, source);
      info := info[id := info[id].(addr := info[id].addr.(time := Max(0, info[id].addr.time - penalty)))];
      assert Abs() == Ops.Introduce(env, old(Abs()), addr, source, penalty);
      inserted := InsertInto(id, source, now);
    }

    method AddKnown(id: int, addr: Address, source: NetAddr, penalty: int, now: int, roll: nat) returns (inserted: bool)
      requires Valid() && Consistent(env, Abs()) && id in info && info[id].addr.service == addr.service
      modifies this, vvNew
      ensures Valid() && (Abs(), inserted) == Ops.AddKnown(env, old(Abs()), id, addr, source, penalty, now, roll)
    {
      Ops.ReheardOk(env, Abs(), id, addr, penalty, now);
      RefreshEntry(id, addr, penalty, now);
      var may := Worthwhile(id, addr, roll);
      if !may { return false; }
      inserted := InsertInto(id, source, now);
    }

    method RefreshEntry(id: int, addr: Address, penalty: int, now: int)
      requires Valid() && id in info
      modifies this`info
      ensures Valid() && Abs() == Ops.Reheard(old(Abs()), id, addr, penalty, now)
    {
      var interval := if now - addr.time < DAY then HOUR else DAY;
      var e := info[id];
      if e.addr.time < addr.time - interval - penalty {
        e := e.(addr := e.addr.(time := Max(0, addr.time - penalty)));
      }
      e := e.(addr := e.addr.(services := e.addr.services + addr.services));
      info := info[id := e];
    }

    method Worthwhile(id: int, addr: Address, roll: nat) returns (may: bool)
      requires Valid() && Consistent(env, Abs()) && id in info
      ensures may == Ops.MayInsert(info[id], addr, roll)
    {
      var e := info[id];
      Ops.RefCountRange(env, Abs(), id);
      if addr.time <= e.addr.time || e.inTried || e.refCount == NEW_BUCKETS_PER_ADDRESS { return false; }
      var factor := Factor(e.refCount);
      may := !(factor > 1 && roll % factor != 0);
    }

    method Add(addrs: seq<Address>, source: NetAddr, timePenalty: int, nows: nat -> int, rolls: nat -> nat)
        returns (any: bool)
      requires Valid() && Consistent(env, Abs())
      modifies this, vvNew
      ensures Valid() && Consistent(env, Abs())
      ensures var r := Ops.AddAll(env, old(Abs()), addrs, source, timePenalty, nows, rolls);
              Abs() == r.0 && any == (r.1 > 0)
    {
      ghost var s := Abs();
      var added := 0;
      for n := 0 to |addrs|
        invariant Valid() && (Abs(), added) == Ops.AddAll(env, s, addrs[..n], source, timePenalty, nows, rolls)
      {
        added := AddNext(s, addrs, n, added, source, timePenalty, nows, rolls);
      }
      assert addrs[..|addrs|] == addrs;
      any := added > 0;
    }

    method AddNext(ghost s: State, addrs: seq<Address>, n: nat, added: nat, source: NetAddr, timePenalty: int,
                   nows: nat -> int, rolls: nat -> nat) returns (total: nat)
      requires Valid() && Consistent(env, s) && n < |addrs|
      requires (Abs(), added) == Ops.AddAll(env, s, addrs[..n], source, timePenalty, nows, rolls)
      modifies this, vvNew
      ensures Valid() && (Abs(), total) == Ops.AddAll(env, s, addrs[..n + 1], source, timePenalty, nows, rolls)
    {
      hide Ops.AddSingle, Consistent, Valid;
      Ops.AddAllStep(env, s, addrs, n, source, timePenalty, nows, rolls);
      var one := AddSingle(addrs[n], source, timePenalty, nows(n), rolls(n));
      total := if one then added + 1 else added;
    }

    // ---------------------------------------------------------- connection events

    method Good(a: Service, testBeforeEvict: bool, time: int) returns (moved: bool)
      requires Valid() && Consistent(env, Abs())
      modifies this, vvTried, vvNew
      ensures Valid() && Consistent(env, Abs()) && (Abs(), moved) == Ops.Good(env, old(Abs()), a, testBeforeEvict, time)
    {
      lastGood := time;
      if a !in index { return false; }
      Ops.IndexFacts(env, old(Abs()), a);
      var id := index[a];
      info := info[id := info[id].(lastSuccess := time, lastTry := time, attempts := 0)];
      assert Abs() == Ops.Succeeded(env, old(Abs()), id, time);
      moved := AfterSuccess(id, testBeforeEvict);
    }

    method AfterSuccess(id: int, testBeforeEvict: bool) returns (moved: bool)
      requires Valid() && Consistent(env, Abs()) && id in info
      modifies this, vvTried, vvNew
      ensures Valid() && (Abs(), moved) == Ops.AfterSuccess(env, old(Abs()), id, testBeforeEvict)
    {
      if info[id].inTried { return false; }
      var t := env.TriedSlot(info[id].addr.service);
      if testBeforeEvict && vvTried[t.bucket, t.pos] != -1 {
        if |collisions| < SET_TRIED_COLLISION_SIZE {
          collisions := collisions + {id};
        }
        return false;
      }
      hide Ops.MakeTried, Ops.MadeTried, Consistent;
      MoveToTried(id);
      moved := true;
    }

    method Attempt(a: Service, countFailure: bool, time: int)
      requires Valid() && Ops.Known(Abs(), a)
      modifies this`info
      ensures Valid() && Abs() == Ops.Attempt(old(Abs()), a, countFailure, time)
    {
      if a !in index { return; }
      var id := index[a];
      var e := info[id].(lastTry := time);
      if countFailure && e.lastCountAttempt < lastGood {
        e := e.(lastCountAttempt := time, attempts := e.attempts + 1);
      }
      info := info[id := e];
    }

    method Connected(a: Service, time: int)
      requires Valid() && Ops.Known(Abs(), a)
      modifies this`info
      ensures Valid() && Abs() == Ops.Connected(old(Abs()), a, time)
    {
      if a !in index { return; }
      var id := index[a];
      var e := info[id];
      if time - e.addr.time > 20 * MINUTE {
        e := e.(addr := e.addr.(time := time));
      }
      info := info[id := e];
    }

    method SetServices(a: Service, services: set<nat>)
      requires Valid() && Ops.Known(Abs(), a)
      modifies this`info
      ensures Valid() && Abs() == Ops.SetServices(old(Abs()), a, services)
    {
      if a !in index { return; }
      var id := index[a];
      info := info[id := info[id].(addr := info[id].addr.(services := services))];
    }

    // ---------------------------------------------------------- tried collisions

    method ResolveCollisions(clock: int -> int)
      requires Valid() && Consistent(env, Abs())
      modifies this, vvTried, vvNew
      ensures Valid() && Abs() == Ops.ResolveFrom(env, old(Abs()), old(collisions), clock)
    {
      var todo := collisions;
      while todo != {}
        invariant Valid() && Consistent(env, Abs()) && todo <= collisions
        invariant Ops.ResolveFrom(env, Abs(), todo, clock) == Ops.ResolveFrom(env, old(Abs()), old(collisions), clock)
        decreases |todo|
      {
        todo := ResolveFirst(todo, clock);
      }
    }

    method ResolveFirst(todo: set<int>, clock: int -> int) returns (rest: set<int>)
      requires Valid() && Consistent(env, Abs())
      requires todo != {} && todo <= collisions
      modifies this, vvTried, vvNew
      ensures Valid() && Consistent(env, Abs()) && rest <= collisions && |rest| < |todo|
      ensures Ops.ResolveFrom(env, Abs(), rest, clock) == Ops.ResolveFrom(env, old(Abs()), todo, clock)
    {
      var id := First(todo);
      Ops.ResolveFromStep(env, Abs(), todo, clock, id);
      rest := todo - {id};
      Resolve(id, clock(id));
    }

    /** The smallest id, as an ordered set iterates. */
    method First(ids: set<int>) returns (x: int)
      requires ids != {}
      ensures Ops.IsLeast(x, ids)
    {
      SomeInt(ids);
      x :| x in ids;
      var rest := ids - {x};
      while rest != {}
        invariant x in ids && rest <= ids
        invariant forall y :: y in ids ==> y in rest || x <= y
        decreases |rest|
      {
        SomeInt(rest);
        var y :| y in rest;
        rest := rest - {y};
        if y < x { x := y; }
      }
    }

    method Resolve(id: int, now: int)
      requires Valid() && Consistent(env, Abs()) && id in collisions
      modifies this, vvTried, vvNew
      ensures Valid() && Abs() == Ops.ResolveOne(env, old(Abs()), id, now)
    {
      hide Ops.Judge, Ops.Good, Ops.ResolveOne, Ops.Waiting, Inv, CollisionsOk, Shows;
      Ops.ResolveCases(env, Abs(), id, now);
      var verdict := Decide(id, now);
      if verdict.Replace? {
        var _ := Good(info[id].addr.service, false, now);
      }
      if !verdict.Keep? {
        collisions := collisions - {id};
      }
    }

    method Decide(id: int, now: int) returns (verdict: Ops.Verdict)
      requires Valid() && Ops.Waiting(env, Abs(), id)
      ensures verdict == Ops.Judge(env, Abs(), id, now)
    {
      if id !in info { return Ops.Drop; }
      var t := env.TriedSlot(info[id].addr.service);
      if !env.isValid(info[id].addr.service.ip) {
        assert false;  // only valid addresses are ever stored
      } else if vvTried[t.bucket, t.pos] != -1 {
        var prev := info[vvTried[t.bucket, t.pos]];
        if now - prev.lastSuccess < REPLACEMENT { return Ops.Drop; }
        if now - prev.lastTry < REPLACEMENT {
          if now - prev.lastTry > MINUTE { return Ops.Replace; }
        } else if now - info[id].lastSuccess > TEST_WINDOW {
          return Ops.Replace;
        }
      } else {
        assert false;  // a tried slot, once taken, is never freed
      }
      verdict := Ops.Keep;
    }

    /**
     The tried entry that the `pick`-th waiting address would evict. An address
     that is no longer known is dropped from the waiting set instead.
    */
    method SelectTriedCollision(pick: nat) returns (r: Option<(Address, int)>, ghost chosen: int)
      requires Valid() && Consistent(env, Abs())
      modifies this`collisions
      ensures Valid() && Consistent(env, Abs())
      ensures old(collisions) == {} ==> r == None && collisions == {}
      ensures old(collisions) != {} ==>
                && chosen in old(collisions)
                && |set x | x in old(collisions) && x < chosen| == pick % |old(collisions)|
      ensures old(collisions) != {} && chosen !in info ==> r == None && collisions == old(collisions) - {chosen}
      ensures old(collisions) != {} && chosen in info ==>
                && collisions == old(collisions)
                && var t := env.TriedSlot(info[chosen].addr.service);
                   && t in triedTable && triedTable[t] in info && info[triedTable[t]].inTried
                   && r == Some((info[triedTable[t]].addr, info[triedTable[t]].lastTry))
    {
      chosen := 0;
      if collisions == {} { return None, 0; }
      var id := Nth(collisions, pick % |collisions|);
      chosen := id;
      if id !in info {
        Ops.DelistOk(env, Abs(), id);
        collisions := collisions - {id};
        return None, id;
      }
      Ops.WaitingFacts(env, Abs(), id);
      var t := env.TriedSlot(info[id].addr.service);
      var prev := info[vvTried[t.bucket, t.pos]];
      r := Some((prev.addr, prev.lastTry));
    }

    /** The element with `k` smaller ones, as advancing an ordered iterator `k` times finds it. */
    method Nth(ids: set<int>, k: nat) returns (x: int)
      requires k < |ids|
      ensures x in ids && |set y | y in ids && y < x| == k
    {
      var rest, i := ids, 0;
      ghost var below: set<int> := {};
      while i < k
        invariant 0 <= i <= k && rest + below == ids && rest !! below && |below| == i
        invariant forall y, z :: y in below && z in rest ==> y < z
      {
        var m := First(rest);
        Ops.CardSplit(ids, rest, below);
        rest, below, i := rest - {m}, below + {m}, i + 1;
      }
      Ops.CardSplit(ids, rest, below);
      x := First(rest);
      ghost var smaller := set y | y in ids && y < x;
      assert forall y :: y in smaller <==> y in below;
      assert smaller == below;
    }

    // ---------------------------------------------------------- the consistency check

    /**
     The runtime check, on any state whatsoever: it returns zero exactly when
     `Checks` holds and the key is not null.
    */
    method CheckAddrman() returns (code: int)
      requires Valid()
      ensures code == 0 <==> Checks(env, Abs()) && key != 0
    {
      if |random| != nTried + nNew { return -7; }
      var setTried, mapNew, local;
      code, setTried, mapNew, local := CheckEntries();
      if code != 0 { return; }
      if |setTried| != nTried { return -9; }
      assert mapNew.Keys == Members(info, {}, false);
      if |mapNew.Keys| != nNew { return -10; }
      code, setTried := CheckTriedTable(setTried);
      if code != 0 { return; }
      NewSeenStart(env, Abs(), mapNew);
      code, mapNew := CheckNewTable(mapNew);
      if code != 0 { return; }
      if setTried != {} { return -13; }
      if mapNew.Keys != {} { return -15; }
      if key == 0 { return -16; }
      code := CheckCounts(local);
    }

    method CheckEntries() returns (code: int, setTried: set<int>, mapNew: map<int, int>, local: map<nat, Tally>)
      requires Valid()
      ensures code == 0 <==> EntriesPass(Abs())
      ensures code == 0 ==> setTried == Members(info, {}, true) && mapNew.Keys == Members(info, {}, false)
      ensures code == 0 ==> forall id :: id in mapNew ==> id in info && mapNew[id] == info[id].refCount > 0
      ensures code == 0 ==> local.Keys == Nets(env, info, {}) && forall net: nat :: TallyOk(env, info, {}, local, net)
    {
      setTried, mapNew, local, code := {}, map[], map[], 0;
      var todo := info.Keys;
      CountsEmpty(env, info);
      while todo != {}
        invariant todo <= info.Keys
        invariant forall id :: id in info && id !in todo ==> EntryPasses(Abs(), id)
        invariant setTried == Members(info, todo, true) && mapNew.Keys == Members(info, todo, false)
        invariant forall id :: id in mapNew ==> id in info && mapNew[id] == info[id].refCount > 0
        invariant CountsOk(env, info, todo, |mapNew.Keys|, |setTried|, local) && local.Keys == Nets(env, info, todo)
        decreases |todo|
      {
        SomeInt(todo);
        var id :| id in todo;
        code := CheckEntry(id);
        if code != 0 { return; }
        CountedOne(env, info, todo, id, setTried, mapNew, local);
        var e := info[id];
        if e.inTried {
          setTried := setTried + {id};
          local := Bump(local, env.network(e.addr.service.ip), 0, 1);
        } else {
          mapNew := mapNew[id := e.refCount];
          local := Bump(local, env.network(e.addr.service.ip), 1, 0);
        }
        todo := todo - {id};
      }
    }

    method CheckEntry(id: int) returns (code: int)
      requires Valid() && id in info
      ensures code == 0 <==> EntryPasses(Abs(), id)
    {
      var e := info[id];
      if e.inTried {
        if e.lastSuccess == 0 { return -1; }
        if e.refCount != 0 { return -2; }
      } else {
        if e.refCount < 0 || e.refCount > NEW_BUCKETS_PER_ADDRESS { return -3; }
        if e.refCount == 0 { return -4; }
      }
      if e.addr.service !in index || index[e.addr.service] != id { return -5; }
      if e.randomPos < 0 || e.randomPos >= |random| || random[e.randomPos] != id { return -14; }
      if e.lastTry < 0 { return -6; }
      if e.lastSuccess < 0 { return -8; }
      code := 0;
    }

    method CheckTriedTable(setTried: set<int>) returns (code: int, rest: set<int>)
      requires Valid() && setTried == Members(info, {}, true)
      ensures code != 0 ==> !TriedPasses(env, Abs())
      ensures code == 0 ==> (TriedPasses(env, Abs()) <==> rest == {})
    {
      rest, code := setTried, 0;
      for n := 0 to TRIED_BUCKET_COUNT
        invariant code == 0 && TriedSeen(env, Abs(), rest, n, 0)
      {
        for i := 0 to BUCKET_SIZE
          invariant code == 0 && TriedSeen(env, Abs(), rest, n, i)
        {
          TriedSeenStep(env, Abs(), rest, n, i);
          var id := vvTried[n, i];
          if id != -1 {
            if id !in rest { return -11, rest; }
            if id !in info || env.TriedBucket(info[id].addr.service) != n { return -17, rest; }
            if env.Position(false, n, info[id].addr.service) != i { return -18, rest; }
            rest := rest - {id};
          }
        }
        TriedSeenWrap(env, Abs(), rest, n);
      }
      TriedSeenEnd(env, Abs(), rest);
    }

    method CheckNewTable(mapNew: map<int, int>) returns (code: int, rest: map<int, int>)
      requires Valid() && NewSeen(env, Abs(), mapNew, 0, 0)
      ensures code != 0 ==> !NewPasses(env, Abs())
      ensures code == 0 ==> (NewPasses(env, Abs()) <==> rest.Keys == {})
    {
      rest, code := mapNew, 0;
      for n := 0 to NEW_BUCKET_COUNT
        invariant code == 0 && NewSeen(env, Abs(), rest, n, 0)
      {
        for i := 0 to BUCKET_SIZE
          invariant code == 0 && NewSeen(env, Abs(), rest, n, i)
        {
          NewSeenStep(env, Abs(), rest, n, i);
          var id := vvNew[n, i];
          if id != -1 {
            if id !in rest { return -12, rest; }
            if id !in info || env.Position(true, n, info[id].addr.service) != i { return -19, rest; }
            if rest[id] - 1 == 0 {
              rest := rest - {id};
            } else {
              rest := rest[id := rest[id] - 1];
            }
          }
        }
        NewSeenWrap(env, Abs(), rest, n);
      }
      NewSeenEnd(env, Abs(), rest);
    }

    method CheckCounts(local: map<nat, Tally>) returns (code: int)
      requires Valid()
      requires local.Keys == Nets(env, info, {}) && forall net: nat :: TallyOk(env, info, {}, local, net)
      ensures code == 0 <==> CountsPass(env, Abs())
    {
      if |counts.Keys| < |local.Keys| { return -20; }
      var todo := counts.Keys;
      while todo != {}
        invariant todo <= counts.Keys
        invariant forall net :: net in counts && net !in todo ==> TallyOk(env, info, {}, counts, net)
        decreases |todo|
      {
        SomeElement(todo);
        var net :| net in todo;
        todo := todo - {net};
        assert TallyOk(env, info, {}, local, net);
        if Count(local, net) != counts[net] { return -21; }
      }
      code := 0;
    }

    // ---------------------------------------------------------- handing out addresses

    /**
     A random selection: as many distinct eligible addresses as the limit allows
     and the table holds. Nothing changes but the order of `random`.
    */
    method GetAddr(maxAddresses: nat, maxPct: nat, network: Option<nat>, now: int, rnd: nat -> nat)
      returns (addresses: seq<Address>, ghost picked: seq<int>)
      requires Valid() && RandomOk(info, random)
      modifies this`info, this`random
      ensures Valid() && Ops.Reordered(old(Abs()), Abs())
      ensures var limit := Ops.Limit(|old(random)|, maxAddresses, maxPct);
              var all := |Ops.EligibleIds(env, info, network, now)|;
              |addresses| == if limit < all then limit else all
      ensures |picked| == |addresses|
      ensures forall i, j :: 0 <= i < j < |picked| ==> picked[i] != picked[j]
      ensures forall k :: 0 <= k < |picked| ==>
                picked[k] in info && addresses[k] == info[picked[k]].addr
                    && Ops.Eligible(env, info[picked[k]], network, now)
    {
      var nNodes := |random|;
      if maxPct != 0 { nNodes := maxPct * nNodes / 100; }
      if maxAddresses != 0 && maxAddresses < nNodes { nNodes := maxAddresses; }
      addresses, picked := [], [];
      var n := 0;
      while n < |random|
        invariant 0 <= n <= |random|
        invariant Valid() && Ops.Reordered(old(Abs()), Abs())
        invariant Ops.Picked(env, info, random, picked, n, network, now)
        invariant |addresses| == |picked| <= nNodes
        invariant forall k :: 0 <= k < |picked| ==> addresses[k] == info[picked[k]].addr
      {
        if |addresses| >= nNodes { break; }
        ghost var mid := Abs();
        addresses, picked := PickNext(addresses, picked, n, rnd(n) % (|random| - n) + n, network, now);
        Ops.ReorderedTrans(old(Abs()), mid, Abs());
        n := n + 1;
      }
      Ops.PickedAll(env, info, random, picked, n, network, now);
    }

    method PickNext(addresses: seq<Address>, ghost picked: seq<int>, n: nat, pos: nat, network: Option<nat>, now: int)
      returns (addresses': seq<Address>, ghost picked': seq<int>)
      requires Valid() && RandomOk(info, random) && n <= pos < |random|
      requires Ops.Picked(env, info, random, picked, n, network, now)
      requires |addresses| == |picked| && forall k :: 0 <= k < |picked| ==> addresses[k] == info[picked[k]].addr
      modifies this`info, this`random
      ensures Valid() && Ops.Reordered(old(Abs()), Abs())
      ensures Ops.Picked(env, info, random, picked', n + 1, network, now)
      ensures |addresses'| == |picked'| <= |picked| + 1 && forall k :: 0 <= k < |picked'| ==>
                addresses'[k] == info[picked'[k]].addr
    {
      Ops.PickedStep(env, Abs(), picked, n, pos, network, now);
      Shuffle(n, pos);
      addresses', picked' := addresses, picked;
      var e := info[random[n]];
      if (network.None? || env.netClass(e.addr.service.ip) == network.value) && !e.IsTerrible(now) {
        addresses', picked' := addresses + [e.addr], picked + [random[n]];
      }
    }

    method Shuffle(i: nat, j: nat)
      requires Valid() && i < |random| && j < |random| && RandomOk(info, random)
      modifies this`info, this`random
      ensures Valid() && Abs() == SwapRandom(old(Abs()), i, j) && Ops.Reordered(old(Abs()), Abs())
    {
      SwapRandomOk(Abs(), i, j);
      SwapPositions(i, j);
    }
  }
}
