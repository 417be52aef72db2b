/**
 Whole runs of the address manager, from the empty one, over every sequence of
 public operations and every choice of clock readings and random numbers.
*/
module AddrManRun {
  import opened Prelude
  import opened AddrManState
  import opened AddrManInvariant
  import Ops = AddrManOps
  import opened AddrManCheck
  import opened AddrManClock
  import opened AddrMan

  datatype Op =
    | Add(addrs: seq<Address>, source: NetAddr, timePenalty: int, nows: nat -> int, rolls: nat -> nat)
    | Good(a: Service, time: int)
    | Attempt(a: Service, countFailure: bool, time: int)
    | Connected(a: Service, time: int)
    | SetServices(a: Service, services: set<nat>)
    | ResolveCollisions(clock: int -> int)
    | SelectTriedCollision(pick: nat)
    | GetAddr(maxAddresses: nat, maxPct: nat, network: Option<nat>, now: int, rnd: nat -> nat)

  /** What one operation does to a consistent manager. */
  ghost predicate Step(env: Env, s: State, op: Op, s': State)
    requires Consistent(env, s)
  {
    match op
    case Add(addrs, source, penalty, nows, rolls) => s' == Ops.AddAll(env, s, addrs, source, penalty, nows, rolls).0
    case Good(a, time) => s' == Ops.Good(env, s, a, true, time).0
    case Attempt(a, count, time) => Ops.Known(s, a) && s' == Ops.Attempt(s, a, count, time)
    case Connected(a, time) => Ops.Known(s, a) && s' == Ops.Connected(s, a, time)
    case SetServices(a, services) => Ops.Known(s, a) && s' == Ops.SetServices(s, a, services)
    case ResolveCollisions(clock) => s' == Ops.ResolveFrom(env, s, s.collisions, clock)
    case SelectTriedCollision(_) =>
      s' == s || exists id :: id in s.collisions && id !in s.info && s' == s.(collisions := s.collisions - {id})
    case GetAddr(_, _, _, _, _) => Ops.Reordered(s, s')
  }

  ghost predicate IsRun(env: Env, states: seq<State>, ops: seq<Op>) {
    && |states| == |ops| + 1 && states[0] == EMPTY
    && forall i :: 0 <= i < |ops| ==> Consistent(env, states[i]) ==> Step(env, states[i], ops[i], states[i + 1])
  }

  lemma EmptyConsistent(env: Env)
    ensures Consistent(env, EMPTY)
  {
    var none: map<int, Info> := map[];
    CountsEmpty(env, none);
    assert none.Keys == {};
  }

  /** The times of the operation, if it has any, are such that the check will pass. */
  predicate Harmless(env: Env, s: State, op: Op) {
    match op
    case Good(a, time) => Ops.Known(s, a) && GoodIsTimely(env, s, a, true, time)
    case Attempt(a, _, time) => a !in s.index || time >= 0
    case _ => true
  }

  /** Every operation keeps the manager consistent, and empties no tried slot. */
  lemma StepKeeps(env: Env, s: State, op: Op, s': State)
    requires Consistent(env, s) && Step(env, s, op, s')
    ensures Consistent(env, s') && Ops.TriedGrows(s, s')
  {
    match op
    case Attempt(a, count, time) => Ops.StatisticsOk(env, s, a, count, time, {});
    case Connected(a, time) => Ops.StatisticsOk(env, s, a, false, time, {});
    case SetServices(a, services) => Ops.StatisticsOk(env, s, a, false, 0, services);
    case SelectTriedCollision(_) =>
      if s' != s {
        var id :| id in s.collisions && id !in s.info && s' == s.(collisions := s.collisions - {id});
        Ops.DelistOk(env, s, id);
      }
    case GetAddr(_, _, _, _, _) => Ops.ReorderedOk(env, s, s');
    case _ =>
  }

  /** The times stay right exactly if the operation is harmless. */
  lemma StepStamps(env: Env, s: State, op: Op, s': State)
    requires Consistent(env, s) && Step(env, s, op, s') && Stamped(s.info)
    ensures Stamped(s'.info) <==> Harmless(env, s, op)
  {
    hide Consistent, GoodIsTimely, Ops.Good, Ops.AddAll, Ops.Attempt, Ops.Connected, Ops.SetServices, Ops.ResolveFrom;
    match op
    case Add(addrs, source, penalty, nows, rolls) => AddAllStamped(env, s, addrs, source, penalty, nows, rolls);
    case Good(a, time) => GoodStamped(env, s, a, true, time);
    case Attempt(a, count, time) => AttemptStamped(env, s, a, count, time);
    case Connected(a, time) => OthersStamped(env, s, a, time, {});
    case SetServices(a, services) => OthersStamped(env, s, a, 0, services);
    case ResolveCollisions(clock) => ResolveStamped(env, s, s.collisions, clock);
    case SelectTriedCollision(_) =>
    case GetAddr(_, _, _, _, _) => ReorderedStamped(s, s');
  }

  lemma ReorderedStamped(s: State, r: State)
    requires Ops.Reordered(s, r) && Stamped(s.info)
    ensures Stamped(r.info)
  {
    forall id | id in r.info ensures StampOk(r.info[id]) {
      StampAt(s.info, id);
    }
  }

  /** Every state of every run is consistent, and passes the runtime check exactly if its times are right. */
  lemma {:induction false} RunConsistent(env: Env, states: seq<State>, ops: seq<Op>, n: nat)
    requires IsRun(env, states, ops) && n <= |ops|
    ensures Consistent(env, states[n]) && (Checks(env, states[n]) <==> Stamped(states[n].info))
  {
    if n == 0 {
      EmptyConsistent(env);
    } else {
      RunConsistent(env, states, ops, n - 1);
      StepKeeps(env, states[n - 1], ops[n - 1], states[n]);
    }
    ConsistentChecks(env, states[n]);
  }

  /** No run reaches a state whose faults the check does not see. */
  lemma NothingUnseen(env: Env, states: seq<State>, ops: seq<Op>, n: nat)
    requires IsRun(env, states, ops) && n <= |ops|
    ensures Unseen(env, states[n])
  {
    RunConsistent(env, states, ops, n);
    ConsistentUnseen(env, states[n]);
  }

  /** The check has passed all along a run exactly if every operation was harmless. */
  lemma {:induction false} RunPasses(env: Env, states: seq<State>, ops: seq<Op>, n: nat)
    requires IsRun(env, states, ops) && n <= |ops|
    ensures (forall i :: 0 <= i <= n ==> Checks(env, states[i])) <==>
            forall i :: 0 <= i < n ==> Harmless(env, states[i], ops[i])
  {
    hide Checks, Harmless, Consistent, Step;
    if n == 0 {
      RunConsistent(env, states, ops, 0);
    } else {
      RunPasses(env, states, ops, n - 1);
      RunConsistent(env, states, ops, n - 1);
      RunConsistent(env, states, ops, n);
      if Stamped(states[n - 1].info) {
        StepStamps(env, states[n - 1], ops[n - 1], states[n]);
      }
    }
  }

  /** After the first address is heard of, a success recorded at time zero makes the check fail. */
  lemma ZeroFails(env: Env, addr: Address, source: NetAddr, penalty: int, nows: nat -> int, rolls: nat -> nat,
                  states: seq<State>)
    requires env.IsRoutable(addr.service.ip)
    requires IsRun(env, states, [Add([addr], source, penalty, nows, rolls), Good(addr.service, 0)])
    ensures Checks(env, states[1]) && !Checks(env, states[2])
  {
    hide Consistent, Checks, Step, Stamped, IsRun, Ops.Known;
    var ops := [Add([addr], source, penalty, nows, rolls), Good(addr.service, 0)];
    EmptyConsistent(env);
    RunStep(env, states, ops, 0);
    RunStep(env, states, ops, 1);
    NoneStamped();
    StepStamps(env, states[0], ops[0], states[1]);
    FirstAdded(env, addr, source, penalty, nows, rolls);
    AddStep(env, states[0], addr, source, penalty, nows, rolls, states[1]);
    NoneTried(env, states[1], addr.service);
    StepStamps(env, states[1], ops[1], states[2]);
  }

  lemma NoneStamped()
    ensures Stamped(EMPTY.info)
  {
  }

  lemma RunStep(env: Env, states: seq<State>, ops: seq<Op>, i: nat)
    requires IsRun(env, states, ops) && i < |ops|
    ensures i + 1 < |states| && states[0] == EMPTY
    ensures Consistent(env, states[i]) && Step(env, states[i], ops[i], states[i + 1])
    ensures Consistent(env, states[i + 1]) && (Checks(env, states[i + 1]) <==> Stamped(states[i + 1].info))
  {
    hide Consistent, Checks, Step, Stamped;
    RunConsistent(env, states, ops, i);
    RunConsistent(env, states, ops, i + 1);
  }

  lemma AddStep(env: Env, s: State, addr: Address, source: NetAddr, penalty: int, nows: nat -> int, rolls: nat -> nat,
                s': State)
    requires Consistent(env, s) && Step(env, s, Add([addr], source, penalty, nows, rolls), s')
    ensures s' == Ops.AddAll(env, s, [addr], source, penalty, nows, rolls).0
  {
    hide Ops.AddAll, Consistent;
  }

  lemma FirstAdded(env: Env, addr: Address, source: NetAddr, penalty: int, nows: nat -> int, rolls: nat -> nat)
    requires env.IsRoutable(addr.service.ip) && Consistent(env, EMPTY)
    ensures var s := Ops.AddAll(env, EMPTY, [addr], source, penalty, nows, rolls).0;
            addr.service in s.index && s.triedTable == map[]
  {
    hide Consistent;
    var none: seq<Address> := [];
    assert [addr][..0] == none;
    assert Ops.AddAll(env, EMPTY, none, source, penalty, nows, rolls).0 == EMPTY;
    assert Ops.AddSingle(env, EMPTY, addr, source, penalty, nows(0), rolls(0)).1;
    Ops.AddAllStep(env, EMPTY, [addr], 0, source, penalty, nows, rolls);
    assert [addr][..1] == [addr];
  }

  lemma NoneTried(env: Env, s: State, a: Service)
    requires Consistent(env, s) && s.triedTable == map[] && a in s.index
    ensures Ops.Known(s, a) && !s.info[s.index[a]].inTried
  {
    Ops.IndexFacts(env, s, a);
    TriedHasSlot(env, s.info, s.triedTable, s.index[a]);
  }

  lemma TriedHasSlot(env: Env, info: map<int, Info>, triedTable: map<Slot, int>, id: int)
    requires TriedOk(env, info, triedTable, {}) && id in info
    ensures info[id].inTried ==> env.TriedSlot(info[id].addr.service) in triedTable
  {
  }

  /** A tried slot that is occupied at some point of a run is occupied ever after. */
  lemma {:induction false} TriedSlotStays(env: Env, states: seq<State>, ops: seq<Op>, m: nat, n: nat, t: Slot)
    requires IsRun(env, states, ops) && m <= n <= |ops|
    requires t in states[m].triedTable
    ensures t in states[n].triedTable
    decreases n - m
  {
    if m < n {
      TriedSlotStays(env, states, ops, m, n - 1, t);
      RunConsistent(env, states, ops, n - 1);
      StepKeeps(env, states[n - 1], ops[n - 1], states[n]);
    }
  }

  // ------------------------------------------------------------ the class runs the same way

  method Apply(m: AddrManager, op: Op)
    requires m.Valid() && Consistent(m.env, m.Abs())
    modifies m, m.vvTried, m.vvNew
    ensures m.Valid() && Step(m.env, old(m.Abs()), op, m.Abs())
  {
    hide Inv, CollisionsOk, AddrMan.Shows,
      Ops.Good, Ops.AddAll, Ops.ResolveFrom, Ops.Attempt, Ops.Connected, Ops.SetServices;
    match op
    case Add(addrs, source, penalty, nows, rolls) =>
      var _ := m.Add(addrs, source, penalty, nows, rolls);
    case Good(a, time) =>
      var _ := m.Good(a, true, time);
    case Attempt(a, count, time) =>
      Ops.StatisticsOk(m.env, m.Abs(), a, count, time, {});
      m.Attempt(a, count, time);
    case Connected(a, time) =>
      Ops.StatisticsOk(m.env, m.Abs(), a, false, time, {});
      m.Connected(a, time);
    case SetServices(a, services) =>
      Ops.StatisticsOk(m.env, m.Abs(), a, false, 0, services);
      m.SetServices(a, services);
    case ResolveCollisions(clock) =>
      m.ResolveCollisions(clock);
    case SelectTriedCollision(pick) =>
      var _, _ := m.SelectTriedCollision(pick);
    case GetAddr(maxAddresses, maxPct, network, now, rnd) =>
      Ops.Lookups(m.env, m.Abs(), {}, {});
      var _, _ := m.GetAddr(maxAddresses, maxPct, network, now, rnd);
  }

  method ApplyChecked(m: AddrManager, op: Op) returns (code: int)
    requires m.Valid() && Consistent(m.env, m.Abs())
    modifies m, m.vvTried, m.vvNew
    ensures m.Valid() && Step(m.env, old(m.Abs()), op, m.Abs()) && Consistent(m.env, m.Abs())
    ensures code == 0 <==> m.key != 0 && Stamped(m.info)
  {
    Apply(m, op);
    StepKeeps(m.env, old(m.Abs()), op, m.Abs());
    ConsistentChecks(m.env, m.Abs());
    code := m.CheckAddrman();
  }

  lemma RunExtends(env: Env, states: seq<State>, ops: seq<Op>, op: Op, s': State)
    requires IsRun(env, states, ops)
    requires Consistent(env, states[|ops|]) && Step(env, states[|ops|], op, s')
    ensures IsRun(env, states + [s'], ops + [op])
  {
  }

  /**
   Starting from the empty manager, the check after an operation returns zero if the key
   is not null and the times are right.
  */
  method Run(env: Env, key: nat, ops: seq<Op>) returns (m: AddrManager, codes: seq<int>, ghost states: seq<State>)
    ensures IsRun(env, states, ops) && m.Valid() && m.Abs() == states[|ops|]
    ensures |codes| == |ops|
    ensures forall i :: 0 <= i < |codes| ==> (codes[i] == 0 <==> key != 0 && Stamped(states[i + 1].info))
  {
    hide Step, Consistent;
    m := new AddrManager(env, key);
    codes, states := [], [EMPTY];
    EmptyConsistent(env);
    for n := 0 to |ops|
      invariant fresh(m) && fresh(m.vvTried) && fresh(m.vvNew)
      invariant m.env == env && m.key == key && m.Valid() && Consistent(env, m.Abs())
      invariant |states| == n + 1 && states[n] == m.Abs() && IsRun(env, states, ops[..n])
      invariant |codes| == n && forall i :: 0 <= i < n ==> (codes[i] == 0 <==> key != 0 && Stamped(states[i + 1].info))
    {
      var code := ApplyChecked(m, ops[n]);
      RunExtends(env, states, ops[..n], ops[n], m.Abs());
      codes, states := codes + [code], states + [m.Abs()];
      assert ops[..n + 1] == ops[..n] + [ops[n]];
    }
    assert ops[..|ops|] == ops;
  }
}
