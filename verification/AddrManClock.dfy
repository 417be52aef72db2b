/**
 How the clock decides whether the address manager passes its own check.

 Every operation keeps the manager consistent whatever the time; the check also looks
 at the times that entries are stamped with, and these depend on the clock.
*/
module AddrManClock {
  import opened AddrManState
  import opened AddrManInvariant
  import Ops = AddrManOps
  import opened AddrManCheck

  lemma StampAt(info: map<int, Info>, id: int)
    requires Stamped(info) && id in info
    ensures StampOk(info[id])
  {
  }

  // ------------------------------------------------------------ adding

  lemma InsertStamped(env: Env, s: State, id: int, source: NetAddr, now: int)
    requires Inv(env, s, {}, {id}) && Stamped(s.info)
    requires id in s.info && !s.info[id].inTried && s.info[id].refCount < NEW_BUCKETS_PER_ADDRESS
    ensures Stamped(Ops.InsertNew(env, s, id, source, now).0.info)
  {
    hide Ops.InsertNew, Inv;
    var r := Ops.InsertNew(env, s, id, source, now).0;
    forall x | x in r.info ensures StampOk(r.info[x]) {
      assert Keeps(r.info[x], s.info[x]);
    }
  }

  lemma AddStamped(env: Env, s: State, addr: Address, source: NetAddr, timePenalty: int, now: int, roll: nat)
    requires Consistent(env, s) && Stamped(s.info)
    ensures Stamped(Ops.AddSingle(env, s, addr, source, timePenalty, now, roll).0.info)
  {
    hide Ops.InsertNew, Inv, CollisionsOk, Ops.MayInsert;
    if env.IsRoutable(addr.service.ip) {
      var penalty := if addr.service.ip == source then 0 else timePenalty;
      if addr.service in s.index {
        Ops.IndexFacts(env, s, addr.service);
        var id := s.index[addr.service];
        Ops.ReheardOk(env, s, id, addr, penalty, now);
        var s1 := Ops.Reheard(s, id, addr, penalty, now);
        if Ops.MayInsert(s1.info[id], addr, roll) {
          MayInsertIs(s1.info[id], addr, roll);
          InsertStamped(env, s1, id, source, now);
        }
      } else {
        var s1 := Ops.Introduce(env, s, addr, source, penalty);
        InsertStamped(env, s1, s.idCount, source, now);
      }
    }
  }

  lemma MayInsertIs(e: Info, addr: Address, roll: nat)
    requires Ops.MayInsert(e, addr, roll)
    ensures !e.inTried && e.refCount < NEW_BUCKETS_PER_ADDRESS
  {
  }

  lemma {:induction false} AddAllStamped(env: Env, s: State, addrs: seq<Address>, source: NetAddr, timePenalty: int,
                                         nows: nat -> int, rolls: nat -> nat)
    requires Consistent(env, s) && Stamped(s.info)
    ensures Stamped(Ops.AddAll(env, s, addrs, source, timePenalty, nows, rolls).0.info)
    decreases |addrs|
  {
    hide Ops.AddSingle, Consistent;
    if addrs != [] {
      var n := |addrs| - 1;
      AddAllStamped(env, s, addrs[..n], source, timePenalty, nows, rolls);
      AddStamped(env, Ops.AddAll(env, s, addrs[..n], source, timePenalty, nows, rolls).0, addrs[n], source,
                 timePenalty, nows(n), rolls(n));
    }
  }

  // ------------------------------------------------------------ connection events

  /**
   When a success may be recorded: at a time after the epoch, or at time zero for an
   entry that stays new because its tried slot is taken. An unknown address does not
   matter.
  */
  predicate GoodIsTimely(env: Env, s: State, a: Service, testBeforeEvict: bool, time: int)
    requires Ops.Known(s, a)
  {
    || a !in s.index
    || time >= 1
    || (time == 0 && !s.info[s.index[a]].inTried && testBeforeEvict && env.TriedSlot(a) in s.triedTable)
  }

  lemma SuccessStamps(s: State, r: State, id: int, moved: bool, time: int)
    requires Stamped(s.info) && Ops.SuccessStamped(s, r, id, moved, time)
    ensures Stamped(r.info) <==> time >= 1 || (time == 0 && !moved && !s.info[id].inTried)
  {
    forall x | x in r.info && x != id ensures StampOk(r.info[x]) {
      assert Keeps(r.info[x], s.info[x]);
    }
    assert Stamped(r.info) <==> StampOk(r.info[id]);
  }

  lemma GoodStamped(env: Env, s: State, a: Service, testBeforeEvict: bool, time: int)
    requires Consistent(env, s) && Stamped(s.info)
    ensures Ops.Known(s, a)
    ensures Stamped(Ops.Good(env, s, a, testBeforeEvict, time).0.info) <==>
              GoodIsTimely(env, s, a, testBeforeEvict, time)
  {
    if a in s.index { Ops.IndexFacts(env, s, a); }
    hide Ops.Good, Ops.SuccessStamped, Consistent, Stamped;
    var (r, moved) := Ops.Good(env, s, a, testBeforeEvict, time);
    if a in s.index { SuccessStamps(s, r, s.index[a], moved, time); }
  }

  lemma AttemptStamped(env: Env, s: State, a: Service, countFailure: bool, time: int)
    requires Consistent(env, s) && Stamped(s.info)
    ensures Ops.Known(s, a)
    ensures Stamped(Ops.Attempt(s, a, countFailure, time).info) <==> a !in s.index || time >= 0
  {
    if a in s.index {
      Ops.IndexFacts(env, s, a);
      hide Consistent;
      var id := s.index[a];
      var r := Ops.Attempt(s, a, countFailure, time);
      forall x | x in r.info && x != id ensures StampOk(r.info[x]) {
        assert r.info[x] == s.info[x];
      }
      assert Stamped(r.info) <==> StampOk(r.info[id]);
    }
  }

  /** No other event touches the times the check looks at. */
  lemma OthersStamped(env: Env, s: State, a: Service, time: int, services: set<nat>)
    requires Consistent(env, s) && Stamped(s.info)
    ensures Ops.Known(s, a)
    ensures Stamped(Ops.Connected(s, a, time).info) && Stamped(Ops.SetServices(s, a, services).info)
  {
    if a in s.index {
      Ops.IndexFacts(env, s, a);
      StampAt(s.info, s.index[a]);
    }
  }

  // ------------------------------------------------------------ tried collisions

  /** An occupant is replaced only at a time well after its own, so never before the epoch. */
  lemma ReplacedLate(env: Env, s: State, id: int, now: int)
    requires Stamped(s.info) && Ops.Waiting(env, s, id) && Ops.Judge(env, s, id, now).Replace?
    ensures id in s.info && now >= 1
  {
    StampAt(s.info, s.triedTable[env.TriedSlot(s.info[id].addr.service)]);
    StampAt(s.info, id);
  }

  lemma ResolveOneStamped(env: Env, s: State, id: int, now: int)
    requires Consistent(env, s) && Stamped(s.info) && id in s.collisions
    ensures Stamped(Ops.ResolveOne(env, s, id, now).info)
  {
    hide Ops.Good, Ops.ResolveOne, Consistent, Ops.Judge;
    Ops.ResolveCases(env, s, id, now);
    if Ops.Judge(env, s, id, now).Replace? {
      ReplacedLate(env, s, id, now);
      GoodStamped(env, s, s.info[id].addr.service, false, now);
    }
  }

  /** Resolving collisions keeps the times right, whatever the clock says. */
  lemma {:induction false} ResolveStamped(env: Env, s: State, todo: set<int>, clock: int -> int)
    requires Consistent(env, s) && Stamped(s.info) && todo <= s.collisions
    ensures Stamped(Ops.ResolveFrom(env, s, todo, clock).info)
    decreases |todo|
  {
    hide Ops.ResolveOne, Consistent;
    if todo != {} {
      var id := Ops.Least(todo);
      ResolveOneStamped(env, s, id, clock(id));
      Ops.ResolveFromStep(env, s, todo, clock, id);
      ResolveStamped(env, Ops.ResolveOne(env, s, id, clock(id)), todo - {id}, clock);
    }
  }

  // ------------------------------------------------------------ in terms of the check

  /** Recording a success keeps the check passing exactly at these times. */
  lemma GoodChecks(env: Env, s: State, a: Service, testBeforeEvict: bool, time: int)
    requires Consistent(env, s) && Checks(env, s)
    ensures Ops.Known(s, a)
    ensures Checks(env, Ops.Good(env, s, a, testBeforeEvict, time).0) <==>
              GoodIsTimely(env, s, a, testBeforeEvict, time)
  {
    hide Ops.Good, Consistent, Checks, GoodIsTimely;
    ConsistentChecks(env, s);
    GoodStamped(env, s, a, testBeforeEvict, time);
    ConsistentChecks(env, Ops.Good(env, s, a, testBeforeEvict, time).0);
  }

  lemma AttemptChecks(env: Env, s: State, a: Service, countFailure: bool, time: int)
    requires Consistent(env, s) && Checks(env, s)
    ensures Ops.Known(s, a)
    ensures Checks(env, Ops.Attempt(s, a, countFailure, time)) <==> a !in s.index || time >= 0
  {
    hide Ops.Attempt, Consistent, Checks;
    ConsistentChecks(env, s);
    AttemptStamped(env, s, a, countFailure, time);
    Ops.StatisticsOk(env, s, a, countFailure, time, {});
    ConsistentChecks(env, Ops.Attempt(s, a, countFailure, time));
  }

  /** Resolving collisions keeps the check passing, whatever the clock says. */
  lemma ResolveChecks(env: Env, s: State, clock: int -> int)
    requires Consistent(env, s) && Checks(env, s)
    ensures Checks(env, Ops.ResolveFrom(env, s, s.collisions, clock))
  {
    hide Ops.ResolveFrom, Consistent, Checks;
    ConsistentChecks(env, s);
    ResolveStamped(env, s, s.collisions, clock);
    ConsistentChecks(env, Ops.ResolveFrom(env, s, s.collisions, clock));
  }
}
