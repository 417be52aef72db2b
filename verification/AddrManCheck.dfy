/**
 What the runtime consistency check of the address manager tests, stated over
 its state, and how that relates to the invariant.
*/
module AddrManCheck {
  import opened Prelude
  import opened AddrManState
  import opened AddrManInvariant
  import opened AddrManOps

  /** One entry passes: its flags, its two back references and its times. */
  predicate EntryPasses(s: State, id: int)
    requires id in s.info
  {
    var e := s.info[id];
    && (if e.inTried then e.lastSuccess != 0 && e.refCount == 0 else 1 <= e.refCount <= NEW_BUCKETS_PER_ADDRESS)
    && e.addr.service in s.index && s.index[e.addr.service] == id
    && 0 <= e.randomPos < |s.random| && s.random[e.randomPos] == id
    && e.lastTry >= 0 && e.lastSuccess >= 0
  }

  ghost predicate EntriesPass(s: State) {
    forall id :: id in s.info ==> EntryPasses(s, id)
  }

  /** One occupied tried slot holds a tried entry at its hashed place. */
  predicate TriedSlotPasses(env: Env, s: State, t: Slot)
    requires t in s.triedTable
  {
    && s.triedTable[t] in s.info
    && s.info[s.triedTable[t]].inTried
    && t == env.TriedSlot(s.info[s.triedTable[t]].addr.service)
  }

  /** The entry occupies its tried slot. */
  predicate HoldsTriedSlot(env: Env, s: State, id: int)
    requires id in s.info
  {
    var t := env.TriedSlot(s.info[id].addr.service);
    t in s.triedTable && s.triedTable[t] == id
  }

  ghost predicate TriedPasses(env: Env, s: State) {
    && (forall t :: t in s.triedTable ==> TriedSlotPasses(env, s, t))
    && (forall id :: id in s.info && s.info[id].inTried ==> HoldsTriedSlot(env, s, id))
  }

  predicate NewSlotPasses(env: Env, s: State, t: Slot)
    requires t in s.newTable
  {
    && s.newTable[t] in s.info
    && !s.info[s.newTable[t]].inTried
    && t == env.NewSlotIn(s.info[s.newTable[t]].addr.service, t.bucket)
  }

  ghost predicate NewPasses(env: Env, s: State) {
    && (forall t :: t in s.newTable ==> NewSlotPasses(env, s, t))
    && (forall id :: id in s.info && !s.info[id].inTried ==> s.info[id].refCount == |Slots(s.newTable, id)|)
  }

  /** The networks that occur. */
  function Nets(env: Env, info: map<int, Info>, limbo: set<int>): set<nat> {
    set id | id in info && id !in limbo :: env.network(info[id].addr.service.ip)
  }

  ghost predicate CountsPass(env: Env, s: State) {
    && |s.counts| >= |Nets(env, s.info, {})|
    && (forall net :: net in s.counts ==> TallyOk(env, s.info, {}, s.counts, net))
  }

  /** Everything the runtime check tests, the key apart. */
  ghost predicate Checks(env: Env, s: State) {
    && |s.random| == s.nTried + s.nNew
    && EntriesPass(s)
    && |Members(s.info, {}, true)| == s.nTried && |Members(s.info, {}, false)| == s.nNew
    && TriedPasses(env, s)
    && NewPasses(env, s)
    && CountsPass(env, s)
  }

  // ------------------------------------------------------------ the invariant passes

  lemma RandomCard(info: map<int, Info>, random: seq<int>)
    requires RandomOk(info, random)
    ensures |info.Keys| == |random|
  {
    DistinctCard(random);
    var A := set x | x in random;
    assert forall x :: x in A <==> x in info.Keys;
    assert A == info.Keys;
  }

  lemma MembersSplit(info: map<int, Info>)
    ensures |info.Keys| == |Members(info, {}, true)| + |Members(info, {}, false)|
  {
    var A, B := Members(info, {}, true), Members(info, {}, false);
    assert forall x :: x in info.Keys <==> x in A + B;
    assert info.Keys == A + B;
    assert A !! B;
  }

  lemma NetsCounted(env: Env, s: State)
    requires CountsOk(env, s.info, {}, s.nNew, s.nTried, s.counts)
    ensures CountsPass(env, s)
  {
    var N := Nets(env, s.info, {});
    forall net | net in N ensures net in s.counts.Keys {
      var id :| id in s.info && env.network(s.info[id].addr.service.ip) == net;
      assert TallyOk(env, s.info, {}, s.counts, net);
      assert id in MembersOf(env, s.info, {}, s.info[id].inTried, net);
    }
    CardSubset(N, s.counts.Keys);
  }

  /** A consistent manager passes its own check exactly if its times are right. */
  lemma ConsistentChecks(env: Env, s: State)
    requires Consistent(env, s)
    ensures Checks(env, s) <==> Stamped(s.info)
  {
    RandomCard(s.info, s.random);
    MembersSplit(s.info);
    NetsCounted(env, s);
    EntriesStamped(env, s);
    assert TriedPasses(env, s);
    assert NewPasses(env, s);
  }

  lemma EntriesStamped(env: Env, s: State)
    requires Inv(env, s, {}, {})
    ensures EntriesPass(s) <==> Stamped(s.info)
  {
    hide CountsOk, Slots;
    forall id | id in s.info ensures EntryPasses(s, id) <==> StampOk(s.info[id]) {
    }
  }

  // ------------------------------------------------------------ what the check does not see

  /** What the check never looks at. */
  ghost predicate Unseen(env: Env, s: State) {
    && Nets(env, s.info, {}) <= s.counts.Keys
    && (forall a :: a in s.index ==> s.index[a] in s.info && s.info[s.index[a]].addr.service == a)
    && EntriesOk(env, s.info, s.idCount)
    && CollisionsOk(env, s)
    && (forall t :: t in s.newTable ==> t.bucket < NEW_BUCKET_COUNT)
  }

  /** The check passes and what it does not see is in order: exactly then the manager is consistent, times included. */
  lemma CheckExact(env: Env, s: State)
    ensures Checks(env, s) && Unseen(env, s) <==> Consistent(env, s) && Stamped(s.info)
  {
    hide Checks, Unseen, Consistent;
    if Consistent(env, s) && Stamped(s.info) {
      ConsistentChecks(env, s);
      ConsistentUnseen(env, s);
    }
    if Checks(env, s) && Unseen(env, s) {
      PassedConsistent(env, s);
    }
  }

  lemma ConsistentUnseen(env: Env, s: State)
    requires Consistent(env, s)
    ensures Unseen(env, s)
  {
    NetsKnown(env, s);
  }

  lemma NetsKnown(env: Env, s: State)
    requires CountsOk(env, s.info, {}, s.nNew, s.nTried, s.counts)
    ensures Nets(env, s.info, {}) <= s.counts.Keys
  {
    forall net | net in Nets(env, s.info, {}) ensures net in s.counts.Keys {
      var id :| id in s.info && env.network(s.info[id].addr.service.ip) == net;
      assert TallyOk(env, s.info, {}, s.counts, net);
      assert id in MembersOf(env, s.info, {}, s.info[id].inTried, net);
    }
  }

  lemma PassedConsistent(env: Env, s: State)
    requires Checks(env, s) && Unseen(env, s)
    ensures Consistent(env, s) && Stamped(s.info)
  {
    assert IndexOk(s.info, s.index) && Stamped(s.info) by { EntriesRead(s); }
    assert RandomOk(s.info, s.random) by {
      MembersSplit(s.info);
      EntriesRead(s);
      Positions(s.info, s.random);
    }
    assert TriedOk(env, s.info, s.triedTable, {}) && NewOk(env, s.info, s.newTable, {}, {}) by { TablesRead(env, s); }
    CountersExact(env, s);
  }

  lemma EntriesRead(s: State)
    requires EntriesPass(s)
    ensures Stamped(s.info)
    ensures forall id :: id in s.info ==> s.info[id].addr.service in s.index && s.index[s.info[id].addr.service] == id
    ensures forall id :: id in s.info ==> 0 <= s.info[id].randomPos < |s.random| && s.random[s.info[id].randomPos] == id
    ensures forall id :: id in s.info && s.info[id].inTried ==> s.info[id].refCount == 0
    ensures forall id :: id in s.info && !s.info[id].inTried ==> 1 <= s.info[id].refCount <= NEW_BUCKETS_PER_ADDRESS
  {
    forall id | id in s.info ensures EntryPasses(s, id) {
    }
  }

  /** As many positions as there are entries, and a position for each: then every position has its entry. */
  lemma Positions(info: map<int, Info>, random: seq<int>)
    requires |info.Keys| == |random|
    requires forall id :: id in info ==> 0 <= info[id].randomPos < |random| && random[info[id].randomPos] == id
    ensures RandomOk(info, random)
  {
    var A := set x | x in random;
    SeqCard(random);
    forall id | id in info.Keys ensures id in A {
      assert random[info[id].randomPos] == id;
    }
    CardEqual(info.Keys, A);
    forall i | 0 <= i < |random| ensures random[i] in info && info[random[i]].randomPos == i {
      assert random[i] in A;
      var id := random[i];
      assert id in info;
      var p := info[id].randomPos;
      assert random[p] == id;
      OnlyOnce(random, i, p);
    }
  }

  lemma {:induction false} SeqCard(q: seq<int>)
    ensures |set x | x in q| <= |q|
  {
    var A := set x | x in q;
    if q == [] {
      EmptySet(A);
    } else {
      var n := |q| - 1;
      var B := set x | x in q[..n];
      SeqCard(q[..n]);
      assert q == q[..n] + [q[n]];
      assert A == B + {q[n]};
    }
  }

  lemma CardEqual(A: set<int>, B: set<int>)
    requires A <= B && |B| <= |A|
    ensures A == B
  {
    assert B == A + (B - A);
    assert |B| == |A| + |B - A|;
    assert B - A == {};
  }

  /** A sequence with as many elements as places has each once. */
  lemma OnlyOnce(q: seq<int>, i: nat, j: nat)
    requires i < |q| && j < |q| && q[i] == q[j] && |set x | x in q| == |q|
    ensures i == j
  {
    if i < j {
      Shorter(q, i, j);
    } else if j < i {
      Shorter(q, j, i);
    }
  }

  lemma Shorter(q: seq<int>, i: nat, j: nat)
    requires i < j < |q| && q[i] == q[j]
    ensures |set x | x in q| < |q|
  {
    var p := q[..j] + q[j + 1..];
    SeqCard(p);
    var A, B := set x | x in q, set x | x in p;
    forall x | x in q ensures x in p {
      var k :| 0 <= k < |q| && q[k] == x;
      if k == j { assert p[i] == x; } else { assert p[if k < j then k else k - 1] == x; }
    }
    assert A == B;
  }

  lemma TablesRead(env: Env, s: State)
    requires EntriesPass(s) && TriedPasses(env, s) && NewPasses(env, s)
    requires forall t :: t in s.newTable ==> t.bucket < NEW_BUCKET_COUNT
    ensures TriedOk(env, s.info, s.triedTable, {}) && NewOk(env, s.info, s.newTable, {}, {})
  {
    hide Slots;
    EntriesRead(s);
    forall t | t in s.triedTable ensures TriedSlotPasses(env, s, t) {
    }
    forall t | t in s.newTable ensures NewSlotPasses(env, s, t) {
    }
    forall id | id in s.info && s.info[id].inTried ensures HoldsTriedSlot(env, s, id) {
    }
  }

  /** Of a state that passes, the counters are exact if and only if no network is missing among them. */
  lemma CountersExact(env: Env, s: State)
    requires Checks(env, s)
    ensures CountsOk(env, s.info, {}, s.nNew, s.nTried, s.counts) <==> Nets(env, s.info, {}) <= s.counts.Keys
  {
    if CountsOk(env, s.info, {}, s.nNew, s.nTried, s.counts) {
      NetsKnown(env, s);
    }
    if Nets(env, s.info, {}) <= s.counts.Keys {
      forall net: nat ensures TallyOk(env, s.info, {}, s.counts, net) {
        if net !in s.counts {
          forall id | id in s.info ensures env.network(s.info[id].addr.service.ip) != net {
            assert env.network(s.info[id].addr.service.ip) in Nets(env, s.info, {});
          }
          EmptySet(MembersOf(env, s.info, {}, true, net));
          EmptySet(MembersOf(env, s.info, {}, false, net));
        }
      }
    }
  }

  /** A state with one new entry, and the rest of it as given. */
  function Lone(env: Env, a: Service, src: NetAddr, idCount: int, index: map<Service, int>, collisions: set<int>,
                counts: map<nat, Tally>): State {
    var e := NewInfo(Address(a, 0, {}), src, 0).(refCount := 1);
    State(idCount, map[0 := e], index, [0], 0, map[], 1, map[env.NewSlot(a, src) := 0], 1, collisions, counts)
  }

  lemma LonePasses(env: Env, a: Service, src: NetAddr, idCount: int, index: map<Service, int>, collisions: set<int>,
                   counts: map<nat, Tally>)
    requires a in index && index[a] == 0
    requires var net := env.network(a.ip); counts == map[net := Tally(1, 0)] || counts == map[net + 1 := Tally(0, 0)]
    ensures var s := Lone(env, a, src, idCount, index, collisions, counts);
            Checks(env, s) && Nets(env, s.info, {}) == {env.network(a.ip)}
  {
    var s := Lone(env, a, src, idCount, index, collisions, counts);
    var net := env.network(a.ip);
    assert Members(s.info, {}, false) == {0};
    assert Members(s.info, {}, true) == {};
    assert Slots(s.newTable, 0) == {env.NewSlot(a, src)};
    assert Nets(env, s.info, {}) == {net};
    assert EntryPasses(s, 0);
    forall n | n in s.counts ensures TallyOk(env, s.info, {}, s.counts, n) {
      assert MembersOf(env, s.info, {}, true, n) == {};
      assert MembersOf(env, s.info, {}, false, n) == if n == net then {0} else {};
    }
  }

  /**
   The check is not complete. One new entry is enough to pass it with the counter of
   its network missing behind a zero one of another, with a second address leading
   to it, with an id that will be given again, or with an unknown address waiting
   under an id not given yet.
  */
  lemma CheckMisses(env: Env, a: Service, b: Service, src: NetAddr)
    requires env.isValid(a.ip) && a != b
    ensures Consistent(env, Lone(env, a, src, 1, map[a := 0], {}, map[env.network(a.ip) := Tally(1, 0)]))
    ensures var s := Lone(env, a, src, 1, map[a := 0], {}, map[env.network(a.ip) + 1 := Tally(0, 0)]);
            Checks(env, s) && !CountsOk(env, s.info, {}, s.nNew, s.nTried, s.counts)
    ensures var s := Lone(env, a, src, 1, map[a := 0, b := 0], {}, map[env.network(a.ip) := Tally(1, 0)]);
            Checks(env, s) && !IndexOk(s.info, s.index)
    ensures var s := Lone(env, a, src, 0, map[a := 0], {}, map[env.network(a.ip) := Tally(1, 0)]);
            Checks(env, s) && !EntriesOk(env, s.info, s.idCount)
    ensures var s := Lone(env, a, src, 1, map[a := 0], {1}, map[env.network(a.ip) := Tally(1, 0)]);
            Checks(env, s) && !CollisionsOk(env, s)
  {
    hide Checks, Consistent, CountsOk;
    var net := env.network(a.ip);
    var counts, missing := map[net := Tally(1, 0)], map[net + 1 := Tally(0, 0)];
    LonePasses(env, a, src, 1, map[a := 0], {}, counts);
    CheckExact(env, Lone(env, a, src, 1, map[a := 0], {}, counts));
    LonePasses(env, a, src, 1, map[a := 0], {}, missing);
    CountersExact(env, Lone(env, a, src, 1, map[a := 0], {}, missing));
    assert net in {net} && net !in missing.Keys;
    LonePasses(env, a, src, 1, map[a := 0, b := 0], {}, counts);
    assert b in map[a := 0, b := 0];
    LonePasses(env, a, src, 0, map[a := 0], {}, counts);
    assert 0 in Lone(env, a, src, 0, map[a := 0], {}, counts).info;
    LonePasses(env, a, src, 1, map[a := 0], {1}, counts);
    assert 1 in Lone(env, a, src, 1, map[a := 0], {1}, counts).collisions;
  }

  /** Nor does it look whether an address is valid. */
  lemma CheckMissesValidity(env: Env, a: Service, src: NetAddr)
    requires !env.isValid(a.ip)
    ensures var s := Lone(env, a, src, 1, map[a := 0], {}, map[env.network(a.ip) := Tally(1, 0)]);
            Checks(env, s) && !EntriesOk(env, s.info, s.idCount)
  {
    hide Checks;
    var counts := map[env.network(a.ip) := Tally(1, 0)];
    LonePasses(env, a, src, 1, map[a := 0], {}, counts);
    assert 0 in Lone(env, a, src, 1, map[a := 0], {}, counts).info;
  }

  // ------------------------------------------------------------ scanning the tables

  /** The new slots of `id` met so far. */
  function SlotsBefore(newTable: map<Slot, int>, id: int, n: nat, i: nat): set<Slot> {
    set t | t in newTable && newTable[t] == id && Before(t, n, i)
  }

  lemma SlotsBeforeStep(newTable: map<Slot, int>, id: int, n: nat, i: nat)
    ensures |SlotsBefore(newTable, id, n, i + 1)| == |SlotsBefore(newTable, id, n, i)|
              + One(Slot(n, i) in newTable && newTable[Slot(n, i)] == id)
  {
    var A, B := SlotsBefore(newTable, id, n, i + 1), SlotsBefore(newTable, id, n, i);
    var c := Slot(n, i) in newTable && newTable[Slot(n, i)] == id;
    forall t ensures t in A <==> t in B || (c && t == Slot(n, i)) {
      assert Before(t, n, i + 1) <==> Before(t, n, i) || (t.bucket == n && t.pos == i);
    }
    CardWith(A, B, Slot(n, i), c);
  }

  lemma SlotsBeforeBound(newTable: map<Slot, int>, id: int, n: nat, i: nat)
    ensures |SlotsBefore(newTable, id, n, i)| <= |Slots(newTable, id)|
  {
    CardSubset(SlotsBefore(newTable, id, n, i), Slots(newTable, id));
  }

  /** A scan that starts a bucket has seen what one that ended the bucket before has. */
  lemma SlotsBeforeWrap(newTable: map<Slot, int>, id: int, n: nat)
    requires forall t :: t in newTable ==> t.pos < BUCKET_SIZE
    ensures SlotsBefore(newTable, id, n, BUCKET_SIZE) == SlotsBefore(newTable, id, n + 1, 0)
  {
    var A, B := SlotsBefore(newTable, id, n, BUCKET_SIZE), SlotsBefore(newTable, id, n + 1, 0);
    assert forall t :: t in A <==> t in B;
  }

  lemma SlotsBeforeEnd(newTable: map<Slot, int>, id: int)
    requires forall t :: t in newTable ==> t.bucket < NEW_BUCKET_COUNT
    ensures SlotsBefore(newTable, id, NEW_BUCKET_COUNT, 0) == Slots(newTable, id)
    ensures SlotsBefore(newTable, id, 0, 0) == {}
  {
    var A, B, C := SlotsBefore(newTable, id, NEW_BUCKET_COUNT, 0), Slots(newTable, id), SlotsBefore(newTable, id, 0, 0);
    assert forall t :: t in A <==> t in B;
    var D: set<Slot> := {};
    assert forall t :: t in C <==> t in D;
  }

  // ------------------------------------------------------------ counting entries one by one

  lemma CountsEmpty(env: Env, info: map<int, Info>)
    ensures CountsOk(env, info, info.Keys, 0, 0, map[])
    ensures Members(info, info.Keys, true) == {} && Members(info, info.Keys, false) == {}
    ensures Nets(env, info, info.Keys) == {}
  {
    var none: set<int> := {};
    var A, B := Members(info, info.Keys, true), Members(info, info.Keys, false);
    assert forall x :: x in A <==> x in none;
    assert forall x :: x in B <==> x in none;
    assert A == none && B == none;
    forall net: nat ensures TallyOk(env, info, info.Keys, map[], net) {
      var C, D := MembersOf(env, info, info.Keys, true, net), MembersOf(env, info, info.Keys, false, net);
      assert forall x :: x in C <==> x in none;
      assert forall x :: x in D <==> x in none;
      assert C == none && D == none;
    }
    var N, empty := Nets(env, info, info.Keys), {};
    assert forall x :: x in N <==> x in empty;
  }

  lemma CountedOne(env: Env, info: map<int, Info>, todo: set<int>, id: int,
                   setTried: set<int>, mapNew: map<int, int>, local: map<nat, Tally>)
    requires todo <= info.Keys && id in todo
    requires setTried == Members(info, todo, true) && mapNew.Keys == Members(info, todo, false)
    requires CountsOk(env, info, todo, |mapNew.Keys|, |setTried|, local) && local.Keys == Nets(env, info, todo)
    ensures var net := env.network(info[id].addr.service.ip);
            var rest := todo - {id};
            if info[id].inTried then
              && setTried + {id} == Members(info, rest, true) && mapNew.Keys == Members(info, rest, false)
              && CountsOk(env, info, rest, |mapNew.Keys|, |setTried + {id}|, Bump(local, net, 0, 1))
              && Bump(local, net, 0, 1).Keys == Nets(env, info, rest)
            else
              && setTried == Members(info, rest, true)
              && mapNew[id := info[id].refCount].Keys == Members(info, rest, false)
              && CountsOk(env, info, rest, |mapNew[id := info[id].refCount].Keys|, |setTried|, Bump(local, net, 1, 0))
              && Bump(local, net, 1, 0).Keys == Nets(env, info, rest)
  {
    hide CountsOk, Members, Nets, Bump;
    var net := env.network(info[id].addr.service.ip);
    CountIn(env, info, todo, info, todo - {id}, id, |mapNew.Keys|, |setTried|, local);
    MembersOne(info, todo, id);
    NetsOne(env, info, todo, id);
    KeysPlus(mapNew, id, info[id].refCount);
    BumpKeys(local, net, 0, 1);
    BumpKeys(local, net, 1, 0);
  }

  lemma KeysPlus(m: map<int, int>, k: int, v: int)
    ensures m[k := v].Keys == m.Keys + {k}
  {
    var A, B := m[k := v].Keys, m.Keys + {k};
    assert forall x :: x in A <==> x in B;
  }

  lemma BumpKeys(counts: map<nat, Tally>, net: nat, dNew: int, dTried: int)
    ensures Bump(counts, net, dNew, dTried).Keys == counts.Keys + {net}
  {
    var A, B := Bump(counts, net, dNew, dTried).Keys, counts.Keys + {net};
    assert forall x :: x in A <==> x in B;
  }

  lemma MembersOne(info: map<int, Info>, todo: set<int>, id: int)
    requires todo <= info.Keys && id in todo
    ensures forall b :: id !in Members(info, todo, b)
    ensures forall b :: Members(info, todo - {id}, b) == if info[id].inTried == b then Members(info, todo, b) + {id}
        else Members(info, todo, b)
  {
    forall b
      ensures Members(info, todo - {id}, b) == if info[id].inTried == b then Members(info, todo, b) + {id}
          else Members(info, todo, b)
    {
      var A, B := Members(info, todo - {id}, b), if info[id].inTried == b then Members(info, todo, b) + {id}
          else Members(info, todo, b);
      assert forall x :: x in A <==> x in B;
      assert A == B;
    }
  }

  lemma NetsOne(env: Env, info: map<int, Info>, todo: set<int>, id: int)
    requires todo <= info.Keys && id in todo
    ensures Nets(env, info, todo - {id}) == Nets(env, info, todo) + {env.network(info[id].addr.service.ip)}
  {
    var net := env.network(info[id].addr.service.ip);
    var N, M := Nets(env, info, todo - {id}), Nets(env, info, todo);
    forall x ensures x in N <==> x in M + {net} {
      if x in N {
        var j :| j in info && j !in todo - {id} && env.network(info[j].addr.service.ip) == x;
        assert j == id || j !in todo;
      }
      if x in M {
        var j :| j in info && j !in todo && env.network(info[j].addr.service.ip) == x;
        assert j !in todo - {id};
      }
      if x == net { assert id !in todo - {id}; }
    }
    assert N == M + {net};
  }

  // ------------------------------------------------------------ scan invariants

  /** The scan of the tried table got to (n, i); `rest` are the tried entries not met yet. */
  ghost predicate TriedSeen(env: Env, s: State, rest: set<int>, n: nat, i: nat) {
    && (forall t :: t in s.triedTable && Before(t, n, i) ==> TriedSlotPasses(env, s, t))
    && (forall id :: id in rest <==>
          && id in s.info && s.info[id].inTried
          && !(HoldsTriedSlot(env, s, id) && Before(env.TriedSlot(s.info[id].addr.service), n, i)))
  }

  /** An entry at its own slot has not been met before that slot. */
  lemma TriedSeenNext(env: Env, s: State, rest: set<int>, t: Slot)
    requires TriedSeen(env, s, rest, t.bucket, t.pos) && t in s.triedTable && TriedSlotPasses(env, s, t)
    ensures s.triedTable[t] in rest
  {
    var id := s.triedTable[t];
    assert id in s.info && s.info[id].inTried;
    assert !Before(env.TriedSlot(s.info[id].addr.service), t.bucket, t.pos);
  }

  lemma TriedSeenStep(env: Env, s: State, rest: set<int>, n: nat, i: nat)
    requires TriedSeen(env, s, rest, n, i)
    ensures var t := Slot(n, i);
            if t !in s.triedTable then TriedSeen(env, s, rest, n, i + 1)
            else if s.triedTable[t] in rest && TriedSlotPasses(env, s, t) then
                TriedSeen(env, s, rest - {s.triedTable[t]}, n, i + 1)
            else !TriedPasses(env, s)
  {
    var t := Slot(n, i);
    if t in s.triedTable && s.triedTable[t] in rest && TriedSlotPasses(env, s, t) {
      var id := s.triedTable[t];
      assert HoldsTriedSlot(env, s, id);
      forall x ensures x in rest - {id} <==>
          && x in s.info && s.info[x].inTried
          && !(HoldsTriedSlot(env, s, x) && Before(env.TriedSlot(s.info[x].addr.service), n, i + 1))
      {
        if x in s.info {
          var u := env.TriedSlot(s.info[x].addr.service);
          assert Before(u, n, i + 1) <==> Before(u, n, i) || u == t;
        }
      }
    } else if t !in s.triedTable {
      forall x | x in s.info && HoldsTriedSlot(env, s, x)
        ensures Before(env.TriedSlot(s.info[x].addr.service), n, i + 1) <==>
                  Before(env.TriedSlot(s.info[x].addr.service), n, i)
      {
        assert env.TriedSlot(s.info[x].addr.service) != t;
      }
    } else {
      if TriedSlotPasses(env, s, t) { TriedSeenNext(env, s, rest, t); }
    }
  }

  lemma TriedSeenWrap(env: Env, s: State, rest: set<int>, n: nat)
    requires TriedSeen(env, s, rest, n, BUCKET_SIZE)
    requires forall t :: t in s.triedTable ==> t.pos < BUCKET_SIZE
    ensures TriedSeen(env, s, rest, n + 1, 0)
  {
    forall x | x in s.info
      ensures Before(env.TriedSlot(s.info[x].addr.service), n + 1, 0) <==>
                Before(env.TriedSlot(s.info[x].addr.service), n, BUCKET_SIZE)
    {
    }
  }

  lemma TriedSeenEnd(env: Env, s: State, rest: set<int>)
    requires TriedSeen(env, s, rest, TRIED_BUCKET_COUNT, 0)
    requires forall t :: t in s.triedTable ==> t.bucket < TRIED_BUCKET_COUNT
    ensures TriedPasses(env, s) <==> rest == {}
  {
    forall x | x in s.info ensures Before(env.TriedSlot(s.info[x].addr.service), TRIED_BUCKET_COUNT, 0) {
    }
    if forall x :: x !in rest { EmptySet(rest); }
  }

  /** The scan of the new table got to (n, i); `rest` are the references still to be met. */
  ghost predicate NewSeen(env: Env, s: State, rest: map<int, int>, n: nat, i: nat) {
    && (forall t :: t in s.newTable && Before(t, n, i) ==> NewSlotPasses(env, s, t))
    && (forall id :: id in rest ==>
          && id in s.info && !s.info[id].inTried
          && rest[id] == s.info[id].refCount - |SlotsBefore(s.newTable, id, n, i)| > 0)
    && (forall id :: id in s.info && !s.info[id].inTried && id !in rest ==>
          s.info[id].refCount == |SlotsBefore(s.newTable, id, n, i)|)
  }

  /** The references left once one of `id` is met. */
  function Met(rest: map<int, int>, id: int): map<int, int>
    requires id in rest
  {
    if rest[id] - 1 == 0 then rest - {id} else rest[id := rest[id] - 1]
  }

  lemma NewSeenStep(env: Env, s: State, rest: map<int, int>, n: nat, i: nat)
    requires NewSeen(env, s, rest, n, i)
    ensures var t := Slot(n, i);
            if t !in s.newTable then NewSeen(env, s, rest, n, i + 1)
            else if s.newTable[t] in rest && NewSlotPasses(env, s, t) then
                NewSeen(env, s, Met(rest, s.newTable[t]), n, i + 1)
            else !NewPasses(env, s)
  {
    hide SlotsBefore;
    var t := Slot(n, i);
    forall id
      ensures |SlotsBefore(s.newTable, id, n, i + 1)|
           == |SlotsBefore(s.newTable, id, n, i)| + One(t in s.newTable && s.newTable[t] == id)
    {
      SlotsBeforeStep(s.newTable, id, n, i);
    }
    if t in s.newTable && s.newTable[t] !in rest {
      SlotsBeforeBound(s.newTable, s.newTable[t], n, i + 1);
    }
  }

  lemma NewSeenWrap(env: Env, s: State, rest: map<int, int>, n: nat)
    requires NewSeen(env, s, rest, n, BUCKET_SIZE)
    requires forall t :: t in s.newTable ==> t.pos < BUCKET_SIZE
    ensures NewSeen(env, s, rest, n + 1, 0)
  {
    forall id ensures SlotsBefore(s.newTable, id, n, BUCKET_SIZE) == SlotsBefore(s.newTable, id, n + 1, 0) {
      SlotsBeforeWrap(s.newTable, id, n);
    }
  }

  lemma NewSeenEnd(env: Env, s: State, rest: map<int, int>)
    requires NewSeen(env, s, rest, NEW_BUCKET_COUNT, 0)
    requires forall t :: t in s.newTable ==> t.bucket < NEW_BUCKET_COUNT
    ensures NewPasses(env, s) <==> rest.Keys == {}
  {
    forall id ensures SlotsBefore(s.newTable, id, NEW_BUCKET_COUNT, 0) == Slots(s.newTable, id) {
      SlotsBeforeEnd(s.newTable, id);
    }
    if forall x :: x !in rest.Keys { EmptySet(rest.Keys); }
  }

  lemma NewSeenStart(env: Env, s: State, rest: map<int, int>)
    requires rest.Keys == Members(s.info, {}, false)
    requires forall id :: id in rest ==> id in s.info && rest[id] == s.info[id].refCount > 0
    requires forall t :: t in s.newTable ==> t.bucket < NEW_BUCKET_COUNT
    ensures NewSeen(env, s, rest, 0, 0)
  {
    forall id ensures SlotsBefore(s.newTable, id, 0, 0) == {} {
      SlotsBeforeEnd(s.newTable, id);
    }
  }
}
