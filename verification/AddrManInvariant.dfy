/**
 The consistency invariant of the address manager, and the proof that every
 internal step keeps it.

 Between two steps of one operation an entry may be known without being in any
 table. `limbo` holds such entries while they are counted nowhere; `pending`
 holds those already counted as new but not yet referenced from a new slot.
 Outside an operation both sets are empty.
*/
module AddrManInvariant {
  import opened Prelude
  import opened AddrManState

  ghost predicate IndexOk(info: map<int, Info>, index: map<Service, int>) {
    && (forall id :: id in info ==> info[id].addr.service in index && index[info[id].addr.service] == id)
    && (forall a :: a in index ==> index[a] in info && info[index[a]].addr.service == a)
  }

  ghost predicate EntriesOk(env: Env, info: map<int, Info>, idCount: int) {
    && 0 <= idCount
    && forall id :: id in info ==>
         && 0 <= id < idCount
         && env.isValid(info[id].addr.service.ip)
  }

  /** The slots of the new table that refer to `id`. */
  function Slots(newTable: map<Slot, int>, id: int): set<Slot> {
    set t | t in newTable && newTable[t] == id
  }

  ghost predicate NewOk(env: Env, info: map<int, Info>, newTable: map<Slot, int>, limbo: set<int>, pending: set<int>) {
    && (forall t :: t in newTable ==>
          && newTable[t] in info
          && newTable[t] !in limbo
          && !info[newTable[t]].inTried
          && t.bucket < NEW_BUCKET_COUNT
          && t == env.NewSlotIn(info[newTable[t]].addr.service, t.bucket))
    && (forall id :: id in info && !info[id].inTried ==>
          && info[id].refCount == |Slots(newTable, id)|
          && info[id].refCount <= NEW_BUCKETS_PER_ADDRESS
          && (id in limbo || id in pending || 1 <= info[id].refCount))
  }

  ghost predicate TriedOk(env: Env, info: map<int, Info>, triedTable: map<Slot, int>, limbo: set<int>) {
    && (forall t :: t in triedTable ==>
          && triedTable[t] in info
          && info[triedTable[t]].inTried
          && t == env.TriedSlot(info[triedTable[t]].addr.service))
    && (forall id :: id in info && info[id].inTried ==>
          && id !in limbo
          && env.TriedSlot(info[id].addr.service) in triedTable
          && triedTable[env.TriedSlot(info[id].addr.service)] == id
          && info[id].refCount == 0)
  }

  /** The entries counted as tried (or as new). */
  function Members(info: map<int, Info>, limbo: set<int>, tried: bool): set<int> {
    set id | id in info && id !in limbo && info[id].inTried == tried
  }

  function MembersOf(env: Env, info: map<int, Info>, limbo: set<int>, tried: bool, net: nat): set<int> {
    set id | id in info && id !in limbo && info[id].inTried == tried && env.network(info[id].addr.service.ip) == net
  }

  ghost predicate TallyOk(env: Env, info: map<int, Info>, limbo: set<int>, counts: map<nat, Tally>, net: nat) {
    && Count(counts, net).nNew == |MembersOf(env, info, limbo, false, net)|
    && Count(counts, net).nTried == |MembersOf(env, info, limbo, true, net)|
  }

  ghost predicate CountsOk(env: Env, info: map<int, Info>, limbo: set<int>, nNew: int, nTried: int,
                           counts: map<nat, Tally>)
  {
    && nNew == |Members(info, limbo, false)|
    && nTried == |Members(info, limbo, true)|
    && forall net: nat :: TallyOk(env, info, limbo, counts, net)
  }

  ghost predicate Inv(env: Env, s: State, limbo: set<int>, pending: set<int>) {
    && EntriesOk(env, s.info, s.idCount)
    && IndexOk(s.info, s.index)
    && RandomOk(s.info, s.random)
    && NewOk(env, s.info, s.newTable, limbo, pending)
    && TriedOk(env, s.info, s.triedTable, limbo)
    && CountsOk(env, s.info, limbo, s.nNew, s.nTried, s.counts)
  }

  /**
   Every address waiting for a tried slot waits for one that is occupied, and
   there are at most ten of them.
  */
  ghost predicate CollisionsOk(env: Env, s: State) {
    && |s.collisions| <= SET_TRIED_COLLISION_SIZE
    && (forall id :: id in s.collisions ==> id < s.idCount)
    && (forall id :: id in s.collisions && id in s.info ==> env.TriedSlot(s.info[id].addr.service) in s.triedTable)
  }

  /** The state between operations, whatever the clock says. */
  ghost predicate Consistent(env: Env, s: State) {
    Inv(env, s, {}, {}) && CollisionsOk(env, s)
  }

  /** The times of an entry are not before the epoch, and a tried entry has had a success: zero stands for "never". */
  predicate StampOk(e: Info) {
    e.lastTry >= 0 && e.lastSuccess >= 0 && (e.inTried ==> e.lastSuccess != 0)
  }

  ghost predicate Stamped(info: map<int, Info>) {
    forall id :: id in info ==> StampOk(info[id])
  }

  /** An entry that keeps its address and its times, and did not become a tried one. */
  predicate Keeps(e': Info, e: Info) {
    && e'.addr == e.addr && e'.lastTry == e.lastTry && e'.lastSuccess == e.lastSuccess
    && (e'.inTried ==> e.inTried)
  }

  // ------------------------------------------------------------ counting

  /** The two maps agree on every entry but `x`, as far as counting goes. */
  ghost predicate DiffersAt(info: map<int, Info>, info': map<int, Info>, x: int) {
    forall id :: id != x ==>
      && (id in info <==> id in info')
      && (id in info ==>
            && info'[id].inTried == info[id].inTried
            && info'[id].addr.service == info[id].addr.service)
  }

  lemma CardWith<T>(A: set<T>, B: set<T>, x: T, c: bool)
    requires x !in B && forall y :: y in A <==> y in B || (c && y == x)
    ensures |A| == |B| + One(c)
  {
    assert A == B + (if c then {x} else {});
  }

  lemma CardWithout<T>(A: set<T>, B: set<T>, x: T, c: bool)
    requires (c ==> x in B) && forall y :: y in A <==> y in B && !(c && y == x)
    ensures |A| == |B| - One(c)
  {
    assert A == B - (if c then {x} else {});
  }

  /** `x`, in neither table before, now belongs to the one it says. */
  lemma MembersIn(env: Env, info: map<int, Info>, limbo: set<int>, info': map<int, Info>, limbo': set<int>, x: int,
                  b: bool, n: nat)
    requires DiffersAt(info, info', x) && limbo' == limbo - {x}
    requires x !in info || x in limbo
    requires x in info'
    ensures |Members(info', limbo', b)| == |Members(info, limbo, b)| + One(info'[x].inTried == b)
    ensures |MembersOf(env, info', limbo', b, n)| == |MembersOf(env, info, limbo, b, n)|
              + One(info'[x].inTried == b && env.network(info'[x].addr.service.ip) == n)
  {
    var A, B := Members(info', limbo', b), Members(info, limbo, b);
    assert forall y :: y in A <==> y in B || (info'[x].inTried == b && y == x);
    CardWith(A, B, x, info'[x].inTried == b);
    MembersOfIn(env, info, limbo, info', limbo', x, b, n);
  }

  /** `x` leaves the table it was counted in. */
  lemma MembersOut(env: Env, info: map<int, Info>, limbo: set<int>, info': map<int, Info>, limbo': set<int>, x: int,
                   b: bool, n: nat)
    requires DiffersAt(info, info', x)
    requires x in info && x !in limbo
    requires if x in info' then limbo' == limbo + {x} else limbo' == limbo
    ensures |Members(info', limbo', b)| == |Members(info, limbo, b)| - One(info[x].inTried == b)
    ensures |MembersOf(env, info', limbo', b, n)| == |MembersOf(env, info, limbo, b, n)|
              - One(info[x].inTried == b && env.network(info[x].addr.service.ip) == n)
  {
    var A, B := Members(info', limbo', b), Members(info, limbo, b);
    assert forall y :: y in A <==> y in B && !(info[x].inTried == b && y == x);
    CardWithout(A, B, x, info[x].inTried == b);
    MembersOfOut(env, info, limbo, info', limbo', x, b, n);
  }

  lemma MembersOfIn(env: Env, info: map<int, Info>, limbo: set<int>, info': map<int, Info>, limbo': set<int>, x: int,
                    b: bool, n: nat)
    requires DiffersAt(info, info', x) && limbo' == limbo - {x}
    requires x !in info || x in limbo
    requires x in info'
    ensures |MembersOf(env, info', limbo', b, n)| == |MembersOf(env, info, limbo, b, n)|
              + One(info'[x].inTried == b && env.network(info'[x].addr.service.ip) == n)
  {
    var A, B := MembersOf(env, info', limbo', b, n), MembersOf(env, info, limbo, b, n);
    var c := info'[x].inTried == b && env.network(info'[x].addr.service.ip) == n;
    assert forall y :: y in A <==> y in B || (c && y == x);
    CardWith(A, B, x, c);
  }

  lemma MembersOfOut(env: Env, info: map<int, Info>, limbo: set<int>, info': map<int, Info>, limbo': set<int>, x: int,
                     b: bool, n: nat)
    requires DiffersAt(info, info', x)
    requires x in info && x !in limbo
    requires if x in info' then limbo' == limbo + {x} else limbo' == limbo
    ensures |MembersOf(env, info', limbo', b, n)| == |MembersOf(env, info, limbo, b, n)|
              - One(info[x].inTried == b && env.network(info[x].addr.service.ip) == n)
  {
    var A, B := MembersOf(env, info', limbo', b, n), MembersOf(env, info, limbo, b, n);
    var c := info[x].inTried == b && env.network(info[x].addr.service.ip) == n;
    assert forall y :: y in A <==> y in B && !(c && y == x);
    CardWithout(A, B, x, c);
  }

  /** `x`, counted nowhere before, is now counted as tried or as new. */
  lemma CountIn(env: Env, info: map<int, Info>, limbo: set<int>, info': map<int, Info>, limbo': set<int>, x: int,
                nNew: int, nTried: int, counts: map<nat, Tally>)
    requires CountsOk(env, info, limbo, nNew, nTried, counts)
    requires DiffersAt(info, info', x) && limbo' == limbo - {x}
    requires x !in info || x in limbo
    requires x in info'
    ensures var net := env.network(info'[x].addr.service.ip);
            if info'[x].inTried
            then CountsOk(env, info', limbo', nNew, nTried + 1, Bump(counts, net, 0, 1))
            else CountsOk(env, info', limbo', nNew + 1, nTried, Bump(counts, net, 1, 0))
  {
    var b, net := info'[x].inTried, env.network(info'[x].addr.service.ip);
    var counts' := Bump(counts, net, One(!b), One(b));
    forall n: nat
      ensures TallyOk(env, info', limbo', counts', n)
    {
      assert TallyOk(env, info, limbo, counts, n);
      MembersIn(env, info, limbo, info', limbo', x, true, n);
      MembersIn(env, info, limbo, info', limbo', x, false, n);
    }
    MembersIn(env, info, limbo, info', limbo', x, true, 0);
    MembersIn(env, info, limbo, info', limbo', x, false, 0);
  }

  /** `x`, counted before, is now in limbo or gone. */
  lemma CountOut(env: Env, info: map<int, Info>, limbo: set<int>, info': map<int, Info>, limbo': set<int>, x: int,
                 nNew: int, nTried: int, counts: map<nat, Tally>)
    requires CountsOk(env, info, limbo, nNew, nTried, counts)
    requires DiffersAt(info, info', x)
    requires x in info && x !in limbo
    requires if x in info' then limbo' == limbo + {x} else limbo' == limbo
    ensures var net := env.network(info[x].addr.service.ip);
            if info[x].inTried
            then CountsOk(env, info', limbo', nNew, nTried - 1, Bump(counts, net, 0, -1))
            else CountsOk(env, info', limbo', nNew - 1, nTried, Bump(counts, net, -1, 0))
  {
    var b, net := info[x].inTried, env.network(info[x].addr.service.ip);
    var counts' := Bump(counts, net, -One(!b), -One(b));
    forall n: nat
      ensures TallyOk(env, info', limbo', counts', n)
    {
      assert TallyOk(env, info, limbo, counts, n);
      MembersOut(env, info, limbo, info', limbo', x, true, n);
      MembersOut(env, info, limbo, info', limbo', x, false, n);
    }
    MembersOut(env, info, limbo, info', limbo', x, true, 0);
    MembersOut(env, info, limbo, info', limbo', x, false, 0);
  }

  lemma MembersSame(env: Env, info: map<int, Info>, limbo: set<int>, info': map<int, Info>, b: bool, n: nat)
    requires info'.Keys == info.Keys
    requires forall id :: id in info ==>
               info'[id].inTried == info[id].inTried && info'[id].addr.service == info[id].addr.service
    ensures Members(info', limbo, b) == Members(info, limbo, b)
    ensures MembersOf(env, info', limbo, b, n) == MembersOf(env, info, limbo, b, n)
  {
    var A, B := Members(info', limbo, b), Members(info, limbo, b);
    assert forall y :: y in A <==> y in B;
    var C, D := MembersOf(env, info', limbo, b, n), MembersOf(env, info, limbo, b, n);
    assert forall y :: y in C <==> y in D;
  }

  /** Changes that leave every entry's table and address alone keep the counters. */
  lemma CountSame(env: Env, info: map<int, Info>, limbo: set<int>, info': map<int, Info>,
                  nNew: int, nTried: int, counts: map<nat, Tally>)
    requires CountsOk(env, info, limbo, nNew, nTried, counts)
    requires info'.Keys == info.Keys
    requires forall id :: id in info ==>
               info'[id].inTried == info[id].inTried && info'[id].addr.service == info[id].addr.service
    ensures CountsOk(env, info', limbo, nNew, nTried, counts)
  {
    forall n: nat
      ensures TallyOk(env, info', limbo, counts, n)
    {
      assert TallyOk(env, info, limbo, counts, n);
      MembersSame(env, info, limbo, info', true, n);
      MembersSame(env, info, limbo, info', false, n);
    }
    MembersSame(env, info, limbo, info', true, 0);
    MembersSame(env, info, limbo, info', false, 0);
  }

  // ------------------------------------------------------------ steps that move nothing

  /** Changes of one entry that concern neither its address nor its place in `random`. */
  lemma UpdateOne(env: Env, s: State, info': map<int, Info>, id: int)
    requires EntriesOk(env, s.info, s.idCount) && IndexOk(s.info, s.index) && RandomOk(s.info, s.random)
    requires id in s.info && id in info' && info' == s.info[id := info'[id]]
    requires info'[id].addr.service == s.info[id].addr.service && info'[id].randomPos == s.info[id].randomPos
    ensures EntriesOk(env, info', s.idCount) && IndexOk(info', s.index) && RandomOk(info', s.random)
    ensures info'.Keys == s.info.Keys
  {
  }

  /** Rewriting an entry's statistics keeps the invariant. */
  lemma TouchInv(env: Env, s: State, id: int, e: Info, limbo: set<int>, pending: set<int>)
    requires Inv(env, s, limbo, pending)
    requires id in s.info
    requires e.addr.service == s.info[id].addr.service && e.inTried == s.info[id].inTried
    requires e.refCount == s.info[id].refCount && e.randomPos == s.info[id].randomPos
    ensures Inv(env, s.(info := s.info[id := e]), limbo, pending)
  {
    hide CountsOk, Slots, EntriesOk, IndexOk, RandomOk;
    UpdateOne(env, s, s.info[id := e], id);
    CountSame(env, s.info, limbo, s.info[id := e], s.nNew, s.nTried, s.counts);
  }

  lemma SwapRandomOk(s: State, i: nat, j: nat)
    requires i < |s.random| && j < |s.random|
    requires RandomOk(s.info, s.random)
    ensures var t := SwapRandom(s, i, j);
            && RandomOk(t.info, t.random)
            && |t.random| == |s.random|
            && t.info.Keys == s.info.Keys
            && forall id :: id in s.info ==> t.info[id] == s.info[id].(randomPos := t.info[id].randomPos)
  {
    assert i != j ==> s.random[i] != s.random[j];
  }

  /** Nothing but `random` depends on the recorded positions. */
  lemma PositionsFrame(env: Env, s: State, info': map<int, Info>, limbo: set<int>, pending: set<int>)
    requires Inv(env, s, limbo, pending)
    requires info'.Keys == s.info.Keys
    requires forall id :: id in s.info ==> info'[id] == s.info[id].(randomPos := info'[id].randomPos)
    ensures EntriesOk(env, info', s.idCount)
    ensures IndexOk(info', s.index)
    ensures NewOk(env, info', s.newTable, limbo, pending)
    ensures TriedOk(env, info', s.triedTable, limbo)
    ensures CountsOk(env, info', limbo, s.nNew, s.nTried, s.counts)
  {
    CountSame(env, s.info, limbo, info', s.nNew, s.nTried, s.counts);
  }

  lemma SwapRandomInv(env: Env, s: State, i: nat, j: nat, limbo: set<int>, pending: set<int>)
    requires Inv(env, s, limbo, pending)
    requires i < |s.random| && j < |s.random|
    ensures Inv(env, SwapRandom(s, i, j), limbo, pending)
  {
    SwapRandomOk(s, i, j);
    PositionsFrame(env, s, SwapRandom(s, i, j).info, limbo, pending);
  }

  // ------------------------------------------------------------ creating and deleting entries

  lemma CreateInv(env: Env, s: State, addr: Address, source: NetAddr)
    requires Inv(env, s, {}, {})
    requires addr.service !in s.index && env.isValid(addr.service.ip)
    ensures Inv(env, Create(env, s, addr, source), {}, {s.idCount})
  {
    var t := Create(env, s, addr, source);
    assert s.idCount !in s.info;
    CreateIndexOk(env, s, addr, source);
    CountIn(env, s.info, {}, t.info, {}, s.idCount, s.nNew, s.nTried, s.counts);
    CreateTablesOk(env, s, addr, source);
  }

  lemma CreateIndexOk(env: Env, s: State, addr: Address, source: NetAddr)
    requires EntriesOk(env, s.info, s.idCount) && IndexOk(s.info, s.index) && RandomOk(s.info, s.random)
    requires addr.service !in s.index && env.isValid(addr.service.ip)
    ensures var t := Create(env, s, addr, source);
            EntriesOk(env, t.info, t.idCount) && IndexOk(t.info, t.index) && RandomOk(t.info, t.random)
  {
    var t := Create(env, s, addr, source);
    assert s.idCount !in s.info;
    assert IndexOk(t.info, t.index);
    assert RandomOk(t.info, t.random);
  }

  lemma CreateTablesOk(env: Env, s: State, addr: Address, source: NetAddr)
    requires NewOk(env, s.info, s.newTable, {}, {}) && TriedOk(env, s.info, s.triedTable, {})
    requires s.idCount !in s.info
    ensures var t := Create(env, s, addr, source);
            NewOk(env, t.info, t.newTable, {}, {s.idCount}) && TriedOk(env, t.info, t.triedTable, {})
  {
    var A := Slots(s.newTable, s.idCount);
    assert forall t :: t in A ==> t in s.newTable && s.newTable[t] in s.info;
    assert A == {};
  }

  lemma DeleteInv(env: Env, s: State, id: int, limbo: set<int>, pending: set<int>)
    requires Inv(env, s, limbo, pending)
    requires id in s.info && id !in limbo && !s.info[id].inTried && s.info[id].refCount == 0
    ensures Inv(env, Delete(env, s, id), limbo, pending - {id})
  {
    var t := MovedLast(env, s, id, limbo, pending);
    DeleteLast(env, s, t, id, limbo, pending);
  }

  lemma MovedLast(env: Env, s: State, id: int, limbo: set<int>, pending: set<int>) returns (t: State)
    requires Inv(env, s, limbo, pending) && id in s.info
    ensures id in t.info && t.info[id] == s.info[id].(randomPos := |t.random| - 1)
    ensures Inv(env, t, limbo, pending) && Delete(env, t, id) == Delete(env, s, id)
  {
    assert RandomOk(s.info, s.random);
    var i, j := s.info[id].randomPos, |s.random| - 1;
    t := SwapRandom(s, i, j);
    assert Inv(env, t, limbo, pending) by {
      hide Inv, SwapRandom;
      SwapRandomInv(env, s, i, j, limbo, pending);
    }
    hide Inv;
    DeleteViaSwap(env, s, id);
  }

  lemma DeleteLast(env: Env, s: State, t: State, id: int, limbo: set<int>, pending: set<int>)
    requires id in s.info && id in t.info && id !in limbo && !s.info[id].inTried && s.info[id].refCount == 0
    requires t.info[id] == s.info[id].(randomPos := |t.random| - 1) && RandomOk(s.info, s.random)
    requires Inv(env, t, limbo, pending) && Delete(env, t, id) == Delete(env, s, id)
    ensures Inv(env, Delete(env, s, id), limbo, pending - {id})
  {
    DropLastInv(env, t, id, limbo, pending);
  }

  /** Deletion first moves the entry to the end of `random`. */
  lemma DeleteViaSwap(env: Env, s: State, id: int)
    requires id in s.info && RandomOk(s.info, s.random)
    ensures var t := SwapRandom(s, s.info[id].randomPos, |s.random| - 1);
            && RandomOk(t.info, t.random)
            && id in t.info && t.info[id] == s.info[id].(randomPos := |t.random| - 1)
            && Delete(env, t, id) == Delete(env, s, id)
  {
    hide Bump, Count;
    var last := |s.random| - 1;
    SwapRandomOk(s, s.info[id].randomPos, last);
    var t := SwapRandom(s, s.info[id].randomPos, last);
    assert t.random[last] == id && t.info[id].randomPos == last;
    assert SwapRandom(t, last, last) == t;
  }

  /** Deleting removes the one entry; the others at most move within `random`. */
  lemma DeleteFrame(env: Env, s: State, id: int)
    requires id in s.info && RandomOk(s.info, s.random)
    ensures var d := Delete(env, s, id);
            && d.info.Keys == s.info.Keys - {id}
            && forall x :: x in d.info ==> d.info[x] == s.info[x].(randomPos := d.info[x].randomPos)
  {
    var t := SwapRandom(s, s.info[id].randomPos, |s.random| - 1);
    assert Delete(env, s, id).info == t.info - {id};
    hide Delete, SwapRandom;
    SwapRandomOk(s, s.info[id].randomPos, |s.random| - 1);
  }

  lemma DropLastInv(env: Env, t: State, id: int, limbo: set<int>, pending: set<int>)
    requires Inv(env, t, limbo, pending)
    requires id in t.info && id !in limbo && !t.info[id].inTried && t.info[id].refCount == 0
    requires t.info[id].randomPos == |t.random| - 1
    ensures Inv(env, Delete(env, t, id), limbo, pending - {id})
  {
    CountOut(env, t.info, limbo, t.info - {id}, limbo, id, t.nNew, t.nTried, t.counts);
    DeleteIndexOk(env, t, id);
    DeleteTablesOk(env, t, id, limbo, pending);
  }

  lemma DeleteIndexOk(env: Env, t: State, id: int)
    requires EntriesOk(env, t.info, t.idCount) && IndexOk(t.info, t.index) && RandomOk(t.info, t.random)
    requires id in t.info && t.info[id].randomPos == |t.random| - 1
    ensures EntriesOk(env, t.info - {id}, t.idCount)
    ensures IndexOk(t.info - {id}, t.index - {t.info[id].addr.service})
    ensures RandomOk(t.info - {id}, t.random[..|t.random| - 1])
  {
  }

  lemma DeleteTablesOk(env: Env, t: State, id: int, limbo: set<int>, pending: set<int>)
    requires NewOk(env, t.info, t.newTable, limbo, pending) && TriedOk(env, t.info, t.triedTable, limbo)
    requires id in t.info && !t.info[id].inTried && t.info[id].refCount == 0
    ensures NewOk(env, t.info - {id}, t.newTable, limbo, pending - {id})
    ensures TriedOk(env, t.info - {id}, t.triedTable, limbo)
  {
    var A := Slots(t.newTable, id);
    assert A == {};
    assert forall x :: x in t.newTable && t.newTable[x] == id ==> x in A;
  }

  // ------------------------------------------------------------ the new table

  lemma SlotsWithout(newTable: map<Slot, int>, t: Slot, id: int)
    requires t in newTable
    ensures |Slots(newTable - {t}, id)| == |Slots(newTable, id)| - One(newTable[t] == id)
  {
    var A, B := Slots(newTable - {t}, id), Slots(newTable, id);
    assert forall x :: x in A <==> x in B - {t};
    assert A == B - {t};
  }

  lemma SlotsWith(newTable: map<Slot, int>, t: Slot, x: int, id: int)
    requires t !in newTable
    ensures |Slots(newTable[t := x], id)| == |Slots(newTable, id)| + One(x == id)
  {
    var A, B := Slots(newTable[t := x], id), Slots(newTable, id);
    var d := if x == id then {t} else {};
    assert forall y :: y in A <==> y in B + d;
    assert A == B + d;
  }

  lemma UnrefInv(env: Env, s: State, t: Slot, limbo: set<int>, pending: set<int>)
    requires Inv(env, s, limbo, pending)
    requires t in s.newTable
    ensures Inv(env, Unref(s, t), limbo, pending + {s.newTable[t]})
  {
    var u, id := Unref(s, t), s.newTable[t];
    UpdateOne(env, s, u.info, id);
    CountSame(env, s.info, limbo, u.info, s.nNew, s.nTried, s.counts);
    UnrefNewOk(env, s, t, limbo, pending);
  }

  lemma UnrefNewOk(env: Env, s: State, t: Slot, limbo: set<int>, pending: set<int>)
    requires NewOk(env, s.info, s.newTable, limbo, pending)
    requires t in s.newTable
    ensures var u := Unref(s, t); NewOk(env, u.info, u.newTable, limbo, pending + {s.newTable[t]})
  {
    var u := Unref(s, t);
    forall x | x in u.info && !u.info[x].inTried
      ensures u.info[x].refCount == |Slots(u.newTable, x)|
    {
      SlotsWithout(s.newTable, t, x);
    }
  }

  /** An id that is referenced needs no permission to be unreferenced. */
  lemma NotPending(env: Env, s: State, id: int, limbo: set<int>, pending: set<int>)
    requires Inv(env, s, limbo, pending)
    requires id in s.info ==> s.info[id].inTried || s.info[id].refCount >= 1
    ensures Inv(env, s, limbo, pending - {id})
  {
  }

  /** What clearing a slot leaves alone. */
  ghost predicate ClearFrame(s: State, c: State, t: Slot) {
    && c.newTable == s.newTable - {t}
    && c.triedTable == s.triedTable && c.nTried == s.nTried && c.idCount == s.idCount
    && c.collisions == s.collisions && c.lastGood == s.lastGood
    && (forall id :: id in c.info ==>
          && id in s.info
          && c.info[id].addr == s.info[id].addr && c.info[id].source == s.info[id].source
          && c.info[id].lastTry == s.info[id].lastTry && c.info[id].lastSuccess == s.info[id].lastSuccess
          && c.info[id].inTried == s.info[id].inTried)
    && (forall id :: id in s.info && (t !in s.newTable || id != s.newTable[t]) ==>
          id in c.info && c.info[id] == s.info[id].(randomPos := c.info[id].randomPos))
  }

  /** The entry that has no other reference than the slot. */
  ghost function LastHeld(s: State, t: Slot): set<int> {
    if t in s.newTable && s.newTable[t] in s.info && s.info[s.newTable[t]].refCount == 1 then {s.newTable[t]} else {}
  }

  /**
   Clearing a slot keeps the invariant, empties exactly that slot, and costs at
   most the one entry that had no other reference.
  */
  lemma ClearNewInv(env: Env, s: State, t: Slot, limbo: set<int>, pending: set<int>)
    requires Inv(env, s, limbo, pending)
    ensures var c := ClearNew(env, s, t);
            && Inv(env, c, limbo, pending)
            && ClearFrame(s, c, t)
            && c.info.Keys == s.info.Keys - LastHeld(s, t)
  {
    if t !in s.newTable {
      assert s.newTable - {t} == s.newTable;
    } else if s.info[s.newTable[t]].refCount == 1 {
      ClearNewLast(env, s, t, limbo, pending);
    } else {
      ClearNewShared(env, s, t, limbo, pending);
    }
  }

  lemma ClearNewLast(env: Env, s: State, t: Slot, limbo: set<int>, pending: set<int>)
    requires Inv(env, s, limbo, pending)
    requires t in s.newTable && s.info[s.newTable[t]].refCount == 1
    ensures var c := ClearNew(env, s, t);
            Inv(env, c, limbo, pending) && ClearFrame(s, c, t) && c.info.Keys == s.info.Keys - {s.newTable[t]}
  {
    var u, id := Unref(s, t), s.newTable[t];
    UnrefInv(env, s, t, limbo, pending);
    assert id !in limbo && id in u.info && !u.info[id].inTried && u.info[id].refCount == 0;
    DeleteInv(env, u, id, limbo, pending + {id});
    PendingWeaken(env, Delete(env, u, id), limbo, pending + {id} - {id}, pending);
    ClearNewLastFrame(env, s, t);
  }

  lemma ClearNewLastFrame(env: Env, s: State, t: Slot)
    requires t in s.newTable && s.newTable[t] in s.info && s.info[s.newTable[t]].refCount == 1
    requires RandomOk(s.info, s.random)
    ensures var c := ClearNew(env, s, t); ClearFrame(s, c, t) && c.info.Keys == s.info.Keys - {s.newTable[t]}
  {
    assert RandomOk(Unref(s, t).info, s.random);
    DeleteFrame(env, Unref(s, t), s.newTable[t]);
  }

  lemma ClearNewShared(env: Env, s: State, t: Slot, limbo: set<int>, pending: set<int>)
    requires Inv(env, s, limbo, pending)
    requires t in s.newTable && s.info[s.newTable[t]].refCount != 1
    ensures var c := ClearNew(env, s, t);
            Inv(env, c, limbo, pending) && ClearFrame(s, c, t) && c.info.Keys == s.info.Keys
  {
    var u, id := Unref(s, t), s.newTable[t];
    UnrefInv(env, s, t, limbo, pending);
    UnrefStays(env, s, t, limbo, pending);
    NotPending(env, u, id, limbo, pending + {id});
    PendingWeaken(env, u, limbo, pending + {id} - {id}, pending);
  }

  lemma PendingWeaken(env: Env, s: State, limbo: set<int>, pending: set<int>, pending': set<int>)
    requires Inv(env, s, limbo, pending) && pending <= pending'
    ensures Inv(env, s, limbo, pending')
  {
  }

  lemma UnrefStays(env: Env, s: State, t: Slot, limbo: set<int>, pending: set<int>)
    requires NewOk(env, s.info, s.newTable, limbo, pending)
    requires t in s.newTable
    ensures s.info[s.newTable[t]].refCount >= 1
  {
    assert t in Slots(s.newTable, s.newTable[t]);
  }

  lemma PlaceNewInv(env: Env, s: State, id: int, t: Slot, limbo: set<int>, pending: set<int>)
    requires Inv(env, s, limbo, pending)
    requires id in s.info && id !in limbo && !s.info[id].inTried && s.info[id].refCount < NEW_BUCKETS_PER_ADDRESS
    requires t !in s.newTable && t.bucket < NEW_BUCKET_COUNT && t == env.NewSlotIn(s.info[id].addr.service, t.bucket)
    ensures Inv(env, PlaceNew(s, id, t), limbo, pending - {id})
  {
    var p := PlaceNew(s, id, t);
    UpdateOne(env, s, p.info, id);
    CountSame(env, s.info, limbo, p.info, s.nNew, s.nTried, s.counts);
    PlaceNewOk(env, s, id, t, limbo, pending);
  }

  lemma PlaceNewOk(env: Env, s: State, id: int, t: Slot, limbo: set<int>, pending: set<int>)
    requires NewOk(env, s.info, s.newTable, limbo, pending)
    requires id in s.info && id !in limbo && !s.info[id].inTried && s.info[id].refCount < NEW_BUCKETS_PER_ADDRESS
    requires t !in s.newTable && t.bucket < NEW_BUCKET_COUNT && t == env.NewSlotIn(s.info[id].addr.service, t.bucket)
    ensures var p := PlaceNew(s, id, t); NewOk(env, p.info, p.newTable, limbo, pending - {id})
  {
    var p := PlaceNew(s, id, t);
    forall x | x in p.info && !p.info[x].inTried
      ensures p.info[x].refCount == |Slots(p.newTable, x)|
    {
      SlotsWith(s.newTable, t, id, x);
    }
  }

  /** An entry leaves limbo by being counted as new. */
  lemma CountNewInv(env: Env, s: State, id: int, limbo: set<int>)
    requires Inv(env, s, limbo, {})
    requires id in s.info && id in limbo
    ensures Inv(env, CountNew(env, s, id), limbo - {id}, {id})
  {
    assert !s.info[id].inTried;
    CountIn(env, s.info, limbo, s.info, limbo - {id}, id, s.nNew, s.nTried, s.counts);
  }

  lemma StripNewInv(env: Env, s: State, id: int)
    requires Inv(env, s, {}, {})
    requires id in s.info && !s.info[id].inTried
    ensures Inv(env, StripNew(env, s, id), {id}, {})
  {
    var p := StripNew(env, s, id);
    UpdateOne(env, s, p.info, id);
    CountOut(env, s.info, {}, p.info, {id}, id, s.nNew, s.nTried, s.counts);
    StripNewOk(env, s, id);
  }

  lemma StripNewOk(env: Env, s: State, id: int)
    requires NewOk(env, s.info, s.newTable, {}, {})
    requires id in s.info && !s.info[id].inTried
    ensures var p := StripNew(env, s, id); NewOk(env, p.info, p.newTable, {id}, {})
  {
    var p := StripNew(env, s, id);
    forall x | x in p.info && !p.info[x].inTried
      ensures p.info[x].refCount == |Slots(p.newTable, x)|
    {
      var A, B := Slots(p.newTable, x), Slots(s.newTable, x);
      if x == id {
        assert forall y :: y !in A;
        assert A == {};
      } else {
        assert forall y :: y in A <==> y in B;
        assert A == B;
      }
    }
  }

  // ------------------------------------------------------------ the tried table

  /** A tried entry, or one in limbo, has no new slot. */
  lemma NoSlots(env: Env, s: State, id: int, limbo: set<int>, pending: set<int>)
    requires NewOk(env, s.info, s.newTable, limbo, pending)
    requires id in s.info && (s.info[id].inTried || id in limbo)
    ensures forall x :: x in s.newTable ==> s.newTable[x] != id
    ensures Slots(s.newTable, id) == {}
  {
    var A := Slots(s.newTable, id);
    assert forall y :: y !in A;
  }

  lemma StripTriedInv(env: Env, s: State, t: Slot, limbo: set<int>)
    requires Inv(env, s, limbo, {})
    requires t in s.triedTable
    ensures Inv(env, StripTried(env, s, t), limbo + {s.triedTable[t]}, {})
  {
    var p, id := StripTried(env, s, t), s.triedTable[t];
    assert id in s.info && s.info[id].inTried;
    UpdateOne(env, s, p.info, id);
    CountOut(env, s.info, limbo, p.info, limbo + {id}, id, s.nNew, s.nTried, s.counts);
    NoSlots(env, s, id, limbo, {});
    assert NewOk(env, p.info, p.newTable, limbo + {id}, {});
    StripTriedOk(env, s, t, limbo);
  }

  lemma StripTriedOk(env: Env, s: State, t: Slot, limbo: set<int>)
    requires TriedOk(env, s.info, s.triedTable, limbo)
    requires t in s.triedTable
    ensures var p := StripTried(env, s, t); TriedOk(env, p.info, p.triedTable, limbo + {s.triedTable[t]})
  {
  }

  lemma PlaceTriedInv(env: Env, s: State, id: int, t: Slot)
    requires Inv(env, s, {id}, {})
    requires id in s.info
    requires t == env.TriedSlot(s.info[id].addr.service) && t !in s.triedTable
    ensures Inv(env, PlaceTried(env, s, id, t), {}, {})
  {
    var p := PlaceTried(env, s, id, t);
    assert !s.info[id].inTried;
    UpdateOne(env, s, p.info, id);
    CountIn(env, s.info, {id}, p.info, {}, id, s.nNew, s.nTried, s.counts);
    NoSlots(env, s, id, {id}, {});
    assert NewOk(env, p.info, p.newTable, {}, {});
    PlaceTriedOk(env, s, id, t);
  }

  lemma PlaceTriedOk(env: Env, s: State, id: int, t: Slot)
    requires TriedOk(env, s.info, s.triedTable, {id})
    requires id in s.info && s.info[id].refCount == 0
    requires t == env.TriedSlot(s.info[id].addr.service) && t !in s.triedTable
    ensures var p := PlaceTried(env, s, id, t); TriedOk(env, p.info, p.triedTable, {})
  {
  }
}
