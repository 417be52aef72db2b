/**
 Saving an address manager and loading it again.

 The entries are written in some order of their ids and get new ids when loaded:
 first the new ones, then the tried ones.
*/
module AddrManSave {
  import opened Prelude
  import opened AddrManState
  import opened AddrManInvariant
  import Ops = AddrManOps

  /** The part of an entry that is saved. */
  datatype Entry = Entry(addr: Address, source: NetAddr, lastSuccess: int, attempts: int)

  function Persist(e: Info): Entry { Entry(e.addr, e.source, e.lastSuccess, e.attempts) }

  function Loaded(e: Entry, inTried: bool, randomPos: int): Info {
    Info(e.addr, e.source, 0, 0, e.lastSuccess, e.attempts, 0, inTried, randomPos)
  }

  /** `buckets` lists, for every new bucket, the indices of its entries among the new ones. */
  datatype Saved = Saved(newEntries: seq<Entry>, triedEntries: seq<Entry>, buckets: seq<seq<int>>, asmap: int)

  // ------------------------------------------------------------ loading, step by step

  function NewEntry(env: Env, s: State, e: Entry): State {
    s.(idCount := s.idCount + 1,
       info := s.info[s.idCount := Loaded(e, false, |s.random|)],
       index := s.index[e.addr.service := s.idCount],
       random := s.random + [s.idCount],
       nNew := s.nNew + 1,
       counts := Bump(s.counts, env.network(e.addr.service.ip), 1, 0))
  }

  /** A tried entry whose slot is taken, or whose address is not valid, is lost. */
  function TriedEntry(env: Env, s: State, e: Entry): State {
    var t := env.TriedSlot(e.addr.service);
    if !env.isValid(e.addr.service.ip) || t in s.triedTable then s else
      s.(idCount := s.idCount + 1,
         info := s.info[s.idCount := Loaded(e, true, |s.random|)],
         index := s.index[e.addr.service := s.idCount],
         random := s.random + [s.idCount],
         nTried := s.nTried + 1,
         triedTable := s.triedTable[t := s.idCount],
         counts := Bump(s.counts, env.network(e.addr.service.ip), 0, 1))
  }

  function LoadNew(env: Env, es: seq<Entry>): State {
    if es == [] then EMPTY else NewEntry(env, LoadNew(env, es[..|es| - 1]), es[|es| - 1])
  }

  function LoadTried(env: Env, s: State, es: seq<Entry>): State {
    if es == [] then s else TriedEntry(env, LoadTried(env, s, es[..|es| - 1]), es[|es| - 1])
  }

  /** Enter an entry into the slot it had, if `restore` says so and it is free, or else into that of its source. */
  function PlaceOne(env: Env, s: State, bucket: nat, id: int, restore: bool): (r: State)
    requires id in s.info
    ensures r.info.Keys == s.info.Keys
  {
    var e := s.info[id];
    if !env.isValid(e.addr.service.ip) || e.refCount >= NEW_BUCKETS_PER_ADDRESS then s
    else
      var t := env.NewSlotIn(e.addr.service, bucket);
      if restore && t !in s.newTable then PlaceNew(s, id, t)
      else
        var u := env.NewSlot(e.addr.service, e.source);
        if u !in s.newTable then PlaceNew(s, id, u) else s
  }

  function PlaceAll(env: Env, s: State, pairs: seq<(nat, int)>, restore: bool): (r: State)
    requires forall i :: 0 <= i < |pairs| ==> pairs[i].1 in s.info
    ensures r.info.Keys == s.info.Keys
  {
    if pairs == [] then s else
      var n := |pairs| - 1;
      PlaceOne(env, PlaceAll(env, s, pairs[..n], restore), pairs[n].0, pairs[n].1, restore)
  }

  /** The usable indices of a bucket. */
  function BucketPairs(b: nat, list: seq<int>, nNew: int): (r: seq<(nat, int)>)
    ensures forall i :: 0 <= i < |r| ==> r[i].0 == b && 0 <= r[i].1 < nNew
  {
    if list == [] then [] else
      var n := |list| - 1;
      BucketPairs(b, list[..n], nNew) + if 0 <= list[n] < nNew then [(b, list[n])] else []
  }

  function Pairs(buckets: seq<seq<int>>, nNew: int): (r: seq<(nat, int)>)
    ensures forall i :: 0 <= i < |r| ==> r[i].0 < |buckets| && 0 <= r[i].1 < nNew
  {
    if buckets == [] then [] else
      var n := |buckets| - 1;
      Pairs(buckets[..n], nNew) + BucketPairs(n, buckets[n], nNew)
  }

  // ------------------------------------------------------------ each step keeps the invariant

  function Upto(n: nat): (r: set<int>)
    ensures forall k :: k in r <==> 0 <= k < n
  {
    if n == 0 then {} else Upto(n - 1) + {n - 1}
  }

  lemma NoSlotsOf(newTable: map<Slot, int>, id: int)
    requires forall t :: t in newTable ==> newTable[t] != id
    ensures |Slots(newTable, id)| == 0
  {
    var A := Slots(newTable, id);
    var B: set<Slot> := {};
    assert forall t :: t in A <==> t in B;
    assert A == B;
  }

  lemma EntryIndexOk(env: Env, s: State, e: Entry, tried: bool)
    requires EntriesOk(env, s.info, s.idCount) && IndexOk(s.info, s.index) && RandomOk(s.info, s.random)
    requires e.addr.service !in s.index && env.isValid(e.addr.service.ip)
    ensures s.idCount !in s.info
    ensures var info := s.info[s.idCount := Loaded(e, tried, |s.random|)];
            && EntriesOk(env, info, s.idCount + 1)
            && IndexOk(info, s.index[e.addr.service := s.idCount])
            && RandomOk(info, s.random + [s.idCount])
  {
    var info := s.info[s.idCount := Loaded(e, tried, |s.random|)];
    assert s.idCount !in s.info;
    assert IndexOk(info, s.index[e.addr.service := s.idCount]);
    assert RandomOk(info, s.random + [s.idCount]);
  }

  lemma NewEntryTables(env: Env, s: State, e: Entry, pending: set<int>)
    requires NewOk(env, s.info, s.newTable, {}, pending) && TriedOk(env, s.info, s.triedTable, {})
    requires s.idCount !in s.info
    ensures var info := s.info[s.idCount := Loaded(e, false, |s.random|)];
            NewOk(env, info, s.newTable, {}, pending + {s.idCount}) && TriedOk(env, info, s.triedTable, {})
  {
    NoSlotsOf(s.newTable, s.idCount);
  }

  lemma NewEntryInv(env: Env, s: State, e: Entry, pending: set<int>)
    requires Inv(env, s, {}, pending)
    requires e.addr.service !in s.index && env.isValid(e.addr.service.ip)
    ensures Inv(env, NewEntry(env, s, e), {}, pending + {s.idCount})
  {
    hide EntriesOk, IndexOk, RandomOk, NewOk, TriedOk, CountsOk;
    var t := NewEntry(env, s, e);
    EntryIndexOk(env, s, e, false);
    CountIn(env, s.info, {}, t.info, {}, s.idCount, s.nNew, s.nTried, s.counts);
    NewEntryTables(env, s, e, pending);
  }

  lemma TriedEntryTables(env: Env, s: State, e: Entry, pending: set<int>)
    requires NewOk(env, s.info, s.newTable, {}, pending) && TriedOk(env, s.info, s.triedTable, {})
    requires s.idCount !in s.info
    requires env.TriedSlot(e.addr.service) !in s.triedTable
    ensures var info := s.info[s.idCount := Loaded(e, true, |s.random|)];
            && NewOk(env, info, s.newTable, {}, pending)
            && TriedOk(env, info, s.triedTable[env.TriedSlot(e.addr.service) := s.idCount], {})
  {
    NoSlotsOf(s.newTable, s.idCount);
  }

  lemma TriedEntryInv(env: Env, s: State, e: Entry, pending: set<int>)
    requires Inv(env, s, {}, pending)
    requires e.addr.service !in s.index && env.isValid(e.addr.service.ip)
    requires env.TriedSlot(e.addr.service) !in s.triedTable
    ensures Inv(env, TriedEntry(env, s, e), {}, pending)
  {
    hide EntriesOk, IndexOk, RandomOk, NewOk, TriedOk, CountsOk;
    var t := TriedEntry(env, s, e);
    EntryIndexOk(env, s, e, true);
    CountIn(env, s.info, {}, t.info, {}, s.idCount, s.nNew, s.nTried, s.counts);
    TriedEntryTables(env, s, e, pending);
  }

  // ------------------------------------------------------------ loading what was saved

  /** The sequence lists the new (or the tried) entries, each once. */
  ghost predicate Enumerates(s: State, ids: seq<int>, tried: bool) {
    && (forall k :: 0 <= k < |ids| ==> ids[k] in s.info && s.info[ids[k]].inTried == tried)
    && (forall j, k :: 0 <= j < k < |ids| ==> ids[j] != ids[k])
    && (forall id :: id in s.info && s.info[id].inTried == tried ==> id in ids)
  }

  function Entries(s: State, ids: seq<int>): (r: seq<Entry>)
    requires forall k :: 0 <= k < |ids| ==> ids[k] in s.info
    ensures |r| == |ids| && forall k :: 0 <= k < |ids| ==> r[k] == Persist(s.info[ids[k]])
  {
    seq(|ids|, k requires 0 <= k < |ids| => Persist(s.info[ids[k]]))
  }

  /** The state with the first entries of `ids` loaded, of which `n` are new ones. */
  ghost predicate HasEntries(s: State, ids: seq<int>, n: nat, u: State)
    requires n <= |ids| && forall k :: 0 <= k < |ids| ==> ids[k] in s.info
  {
    && u.idCount == |ids| == |u.random|
    && (forall k :: k in u.info <==> 0 <= k < |ids|)
    && (forall k :: 0 <= k < |ids| ==> u.info[k] == Loaded(Persist(s.info[ids[k]]), k >= n, k))
    && u.newTable == map[] && u.lastGood == EMPTY.lastGood && u.collisions == {}
  }

  lemma ServiceUnknown(s: State, ids: seq<int>, n: nat, u: State, x: int)
    requires n <= |ids| && (forall k :: 0 <= k < |ids| ==> ids[k] in s.info) && HasEntries(s, ids, n, u)
    requires IndexOk(s.info, s.index) && IndexOk(u.info, u.index) && x in s.info && x !in ids
    ensures s.info[x].addr.service !in u.index
  {
    var a := s.info[x].addr.service;
    forall k | 0 <= k < |ids| ensures u.info[k].addr.service == s.info[ids[k]].addr.service != a {
      assert ids[k] in ids && ids[k] != x;
      assert s.index[s.info[ids[k]].addr.service] == ids[k] && s.index[a] == x;
    }
    assert forall k :: k in u.info ==> u.info[k].addr.service != a;
  }

  lemma {:induction false} LoadNewOk(env: Env, s: State, ids: seq<int>, n: nat)
    requires Inv(env, s, {}, {}) && Enumerates(s, ids, false) && n <= |ids|
    ensures var u := LoadNew(env, Entries(s, ids[..n]));
            HasEntries(s, ids[..n], n, u) && Inv(env, u, {}, Upto(n)) && u.triedTable == map[]
  {
    hide Inv, HasEntries, NewEntry;
    if n == 0 {
      assert ids[..0] == [] && Entries(s, []) == [];
      EmptyInv(env);
      NothingLoaded(s);
    } else {
      LoadNewOk(env, s, ids, n - 1);
      assert ids[..n][..n - 1] == ids[..n - 1];
      assert Entries(s, ids[..n])[..n - 1] == Entries(s, ids[..n - 1]);
      LoadNewNext(env, s, ids, n - 1, LoadNew(env, Entries(s, ids[..n - 1])));
    }
  }

  lemma NothingLoaded(s: State)
    ensures HasEntries(s, [], 0, EMPTY)
  {
  }

  lemma EmptyInv(env: Env)
    ensures Inv(env, EMPTY, {}, {}) && Upto(0) == {}
  {
    var none: set<int> := {};
    var A, B := Members(EMPTY.info, {}, true), Members(EMPTY.info, {}, false);
    assert forall x :: x in A <==> x in none;
    assert forall x :: x in B <==> x in none;
    assert A == none && B == none;
    forall net: nat ensures TallyOk(env, EMPTY.info, {}, EMPTY.counts, net) {
      var C, D := MembersOf(env, EMPTY.info, {}, true, net), MembersOf(env, EMPTY.info, {}, false, net);
      assert forall x :: x in C <==> x in none;
      assert forall x :: x in D <==> x in none;
      assert C == none && D == none;
    }
  }

  lemma LoadNewNext(env: Env, s: State, ids: seq<int>, n: nat, u: State)
    requires Inv(env, s, {}, {}) && Enumerates(s, ids, false) && n < |ids|
    requires HasEntries(s, ids[..n], n, u) && Inv(env, u, {}, Upto(n)) && u.triedTable == map[]
    ensures var t := NewEntry(env, u, Persist(s.info[ids[n]]));
            HasEntries(s, ids[..n + 1], n + 1, t) && Inv(env, t, {}, Upto(n + 1)) && t.triedTable == map[]
  {
    hide RandomOk, NewOk, TriedOk, CountsOk;
    var e := Persist(s.info[ids[n]]);
    ServiceUnknown(s, ids[..n], n, u, ids[n]);
    NewEntryInv(env, u, e, Upto(n));
    assert Upto(n) + {u.idCount} == Upto(n + 1);
    assert ids[..n + 1] == ids[..n] + [ids[n]];
  }

  /** The ids of a loaded state, in the order of loading. */
  ghost predicate Ids(s: State, newIds: seq<int>, triedIds: seq<int>) {
    Enumerates(s, newIds, false) && Enumerates(s, triedIds, true)
  }

  lemma {:induction false} LoadTriedOk(env: Env, s: State, newIds: seq<int>, triedIds: seq<int>, n: nat, u: State)
    requires Inv(env, s, {}, {}) && Ids(s, newIds, triedIds) && n <= |triedIds|
    requires HasEntries(s, newIds, |newIds|, u) && Inv(env, u, {}, Upto(|newIds|))
    ensures var v := LoadTried(env, u, Entries(s, triedIds[..n]));
            HasEntries(s, newIds + triedIds[..n], |newIds|, v) && Inv(env, v, {}, Upto(|newIds|))
  {
    hide Inv, HasEntries, TriedEntry, Upto;
    if n == 0 {
      assert triedIds[..0] == [] && Entries(s, []) == [] && newIds + [] == newIds;
    } else {
      LoadTriedOk(env, s, newIds, triedIds, n - 1, u);
      assert triedIds[..n][..n - 1] == triedIds[..n - 1];
      assert Entries(s, triedIds[..n])[..n - 1] == Entries(s, triedIds[..n - 1]);
      LoadTriedNext(env, s, newIds, triedIds, n - 1, LoadTried(env, u, Entries(s, triedIds[..n - 1])));
    }
  }

  lemma LoadTriedNext(env: Env, s: State, newIds: seq<int>, triedIds: seq<int>, n: nat, v: State)
    requires Inv(env, s, {}, {}) && Ids(s, newIds, triedIds) && n < |triedIds|
    requires HasEntries(s, newIds + triedIds[..n], |newIds|, v) && Inv(env, v, {}, Upto(|newIds|))
    ensures var t := TriedEntry(env, v, Persist(s.info[triedIds[n]]));
            HasEntries(s, newIds + triedIds[..n + 1], |newIds|, t) && Inv(env, t, {}, Upto(|newIds|))
  {
    hide Inv, Upto, HasEntries, Ids, TriedEntry;
    var ids, x := newIds + triedIds[..n], triedIds[n];
    NextTried(s, newIds, triedIds, n);
    TriedUnknown(env, s, ids, |newIds|, v, x, Upto(|newIds|));
    TriedEntryInv(env, v, Persist(s.info[x]), Upto(|newIds|));
    MoreEntries(env, s, ids, |newIds|, v, x);
    assert newIds + triedIds[..n + 1] == ids + [x];
  }

  lemma NextTried(s: State, newIds: seq<int>, triedIds: seq<int>, n: nat)
    requires Ids(s, newIds, triedIds) && n < |triedIds|
    ensures var ids, x := newIds + triedIds[..n], triedIds[n];
            && (forall k :: 0 <= k < |ids| ==> ids[k] in s.info && (k >= |newIds| ==> s.info[ids[k]].inTried))
            && x in s.info && x !in ids && s.info[x].inTried
  {
  }

  lemma TriedUnknown(env: Env, s: State, ids: seq<int>, n: nat, v: State, x: int, pending: set<int>)
    requires n <= |ids| && (forall k :: 0 <= k < |ids| ==> ids[k] in s.info && (k >= n ==> s.info[ids[k]].inTried))
    requires HasEntries(s, ids, n, v)
    requires Inv(env, s, {}, {}) && Inv(env, v, {}, pending) && x in s.info && x !in ids && s.info[x].inTried
    ensures s.info[x].addr.service !in v.index && env.TriedSlot(s.info[x].addr.service) !in v.triedTable
    ensures env.isValid(s.info[x].addr.service.ip)
  {
    hide RandomOk, NewOk, CountsOk, HasEntries;
    ServiceUnknown(s, ids, n, v, x);
    SlotUnknown(env, s, ids, n, v, x);
  }

  lemma MoreEntries(env: Env, s: State, ids: seq<int>, n: nat, v: State, x: int)
    requires n <= |ids| && (forall k :: 0 <= k < |ids| ==> ids[k] in s.info) && HasEntries(s, ids, n, v) && x in s.info
    requires env.isValid(s.info[x].addr.service.ip) && env.TriedSlot(s.info[x].addr.service) !in v.triedTable
    ensures HasEntries(s, ids + [x], n, TriedEntry(env, v, Persist(s.info[x])))
  {
  }

  /** Different tried entries have different slots. */
  lemma SlotUnknown(env: Env, s: State, ids: seq<int>, n: nat, v: State, x: int)
    requires n <= |ids| && (forall k :: 0 <= k < |ids| ==> ids[k] in s.info && (k >= n ==> s.info[ids[k]].inTried))
    requires HasEntries(s, ids, n, v)
    requires TriedOk(env, s.info, s.triedTable, {}) && TriedOk(env, v.info, v.triedTable, {})
    requires x in s.info && x !in ids && s.info[x].inTried
    ensures env.TriedSlot(s.info[x].addr.service) !in v.triedTable
  {
    var t := env.TriedSlot(s.info[x].addr.service);
    forall k | n <= k < |ids|
      ensures v.info[k].addr.service == s.info[ids[k]].addr.service && env.TriedSlot(v.info[k].addr.service) != t
    {
      assert ids[k] in ids && ids[k] != x;
      assert s.triedTable[env.TriedSlot(s.info[ids[k]].addr.service)] == ids[k] && s.triedTable[t] == x;
    }
    assert forall k :: k in v.info && v.info[k].inTried ==> env.TriedSlot(v.info[k].addr.service) != t;
  }

  // ------------------------------------------------------------ the new table

  function IndexOf(ids: seq<int>, x: int): (k: int)
    ensures -1 <= k < |ids| && (k >= 0 ==> ids[k] == x) && (k == -1 ==> x !in ids)
  {
    if ids == [] then -1 else if ids[|ids| - 1] == x then |ids| - 1 else IndexOf(ids[..|ids| - 1], x)
  }

  /** The new table with the new ids, as far as the slots before bucket `b`, position `n`. */
  function Restored(s: State, ids: seq<int>, b: nat, n: nat): map<Slot, int> {
    map t | t in s.newTable && Before(t, b, n) :: IndexOf(ids, s.newTable[t])
  }

  /** The pairs written for the first `n` positions of bucket `b`. */
  function RowPairs(s: State, ids: seq<int>, b: nat, n: nat): seq<(nat, int)> {
    if n == 0 then [] else
      var t := Slot(b, n - 1);
      RowPairs(s, ids, b, n - 1) + if t in s.newTable then [(b, IndexOf(ids, s.newTable[t]))] else []
  }

  function AllPairs(s: State, ids: seq<int>, b: nat): seq<(nat, int)> {
    if b == 0 then [] else AllPairs(s, ids, b - 1) + RowPairs(s, ids, b - 1, BUCKET_SIZE)
  }

  /** The slots before (b, n) have been filled in, and the references counted. */
  ghost predicate Refilled(env: Env, s: State, ids: seq<int>, b: nat, n: nat, v: State, w: State) {
    && w == v.(info := w.info, newTable := w.newTable)
    && w.newTable == Restored(s, ids, b, n)
    && w.info.Keys == v.info.Keys
    && (forall k :: k in v.info ==> w.info[k] == v.info[k].(refCount := w.info[k].refCount))
    && Inv(env, w, {}, Upto(|ids|))
  }

  lemma RefillNext(env: Env, s: State, ids: seq<int>, b: nat, n: nat, v: State, w: State)
    requires Inv(env, s, {}, {}) && Enumerates(s, ids, false) && b < NEW_BUCKET_COUNT && n < BUCKET_SIZE
    requires |ids| <= v.idCount
    requires (forall k :: 0 <= k < |ids| ==> k in v.info && v.info[k].addr == s.info[ids[k]].addr && !v.info[k].inTried)
    requires Refilled(env, s, ids, b, n, v, w)
    ensures var t := Slot(b, n);
            if t in s.newTable then
              var k := IndexOf(ids, s.newTable[t]);
              k in w.info && Refilled(env, s, ids, b, n + 1, v, PlaceOne(env, w, b, k, true))
            else Refilled(env, s, ids, b, n + 1, v, w)
  {
    hide Inv, Restored;
    var t := Slot(b, n);
    RestoredNext(s, ids, b, n);
    if t in s.newTable {
      var k := RefillFacts(env, s, ids, b, n, v, w);
      PlaceNewInv(env, w, k, t, {}, Upto(|ids|));
      PendingWeaken(env, PlaceNew(w, k, t), {}, Upto(|ids|) - {k}, Upto(|ids|));
    }
  }

  lemma RefillFacts(env: Env, s: State, ids: seq<int>, b: nat, n: nat, v: State, w: State) returns (k: int)
    requires Inv(env, s, {}, {}) && Enumerates(s, ids, false) && b < NEW_BUCKET_COUNT && n < BUCKET_SIZE
    requires |ids| <= v.idCount
    requires (forall k :: 0 <= k < |ids| ==> k in v.info && v.info[k].addr == s.info[ids[k]].addr && !v.info[k].inTried)
    requires Refilled(env, s, ids, b, n, v, w) && Slot(b, n) in s.newTable
    ensures k == IndexOf(ids, s.newTable[Slot(b, n)]) && k in w.info && !w.info[k].inTried
    ensures w.info[k].refCount < NEW_BUCKETS_PER_ADDRESS
    ensures Slot(b, n) !in w.newTable && Slot(b, n) == env.NewSlotIn(w.info[k].addr.service, b)
    ensures PlaceOne(env, w, b, k, true) == PlaceNew(w, k, Slot(b, n))
  {
    hide RandomOk, CountsOk, TriedOk, IndexOk, Slots;
    var t := Slot(b, n);
    var x := s.newTable[t];
    assert x in s.info && !s.info[x].inTried && x in ids;
    k := IndexOf(ids, x);
    FewerReferences(env, s, ids, b, n, w, x, k);
  }

  function RestoredMore(s: State, ids: seq<int>, b: nat, n: nat): map<Slot, int> {
    var t := Slot(b, n);
    if t in s.newTable then Restored(s, ids, b, n)[t := IndexOf(ids, s.newTable[t])] else Restored(s, ids, b, n)
  }

  lemma RestoredNext(s: State, ids: seq<int>, b: nat, n: nat)
    ensures var t := Slot(b, n);
            && t !in Restored(s, ids, b, n)
            && Restored(s, ids, b, n + 1) == RestoredMore(s, ids, b, n)
  {
    var t := Slot(b, n);
    var A, B := Restored(s, ids, b, n + 1), RestoredMore(s, ids, b, n);
    assert forall u :: u in A <==> u in B;
    assert A.Keys == B.Keys;
    assert forall u :: u in A ==> A[u] == B[u];
    assert A == B;
  }

  /** Before its last slot is filled in, an entry has fewer references than it had. */
  lemma FewerReferences(env: Env, s: State, ids: seq<int>, b: nat, n: nat, w: State, x: int, k: int)
    requires NewOk(env, s.info, s.newTable, {}, {}) && NewOk(env, w.info, w.newTable, {}, Upto(|ids|))
    requires w.newTable == Restored(s, ids, b, n) && Slot(b, n) in s.newTable && s.newTable[Slot(b, n)] == x
    requires x in s.info && !s.info[x].inTried && 0 <= k < |ids| && ids[k] == x && k in w.info && !w.info[k].inTried
    ensures w.info[k].refCount < NEW_BUCKETS_PER_ADDRESS
  {
    var A, B := Slots(w.newTable, k), Slots(s.newTable, x);
    assert forall u :: u in A ==> u in B - {Slot(b, n)};
    Ops.CardSubset(A, B - {Slot(b, n)});
  }

  lemma {:induction false} PlaceAppend(env: Env, s: State, p: seq<(nat, int)>, q: seq<(nat, int)>, restore: bool)
    requires forall i :: 0 <= i < |p| ==> p[i].1 in s.info
    requires forall i :: 0 <= i < |q| ==> q[i].1 in s.info
    ensures PlaceAll(env, s, p + q, restore) == PlaceAll(env, PlaceAll(env, s, p, restore), q, restore)
  {
    hide PlaceOne;
    if q == [] {
      assert p + q == p;
    } else {
      var n := |q| - 1;
      assert (p + q)[..|p + q| - 1] == p + q[..n];
      PlaceAppend(env, s, p, q[..n], restore);
    }
  }

  /** The entries `ids` of `s` are new entries of `v`, under their positions. */
  ghost predicate Carries(s: State, ids: seq<int>, v: State) {
    && Enumerates(s, ids, false) && |ids| <= v.idCount
    && forall k :: 0 <= k < |ids| ==> k in v.info && v.info[k].addr == s.info[ids[k]].addr && !v.info[k].inTried
  }

  lemma {:induction false} RowPairsKnown(env: Env, s: State, ids: seq<int>, b: nat, n: nat)
    requires NewOk(env, s.info, s.newTable, {}, {}) && Enumerates(s, ids, false)
    ensures forall i :: 0 <= i < |RowPairs(s, ids, b, n)| ==> 0 <= RowPairs(s, ids, b, n)[i].1 < |ids|
  {
    if n > 0 {
      RowPairsKnown(env, s, ids, b, n - 1);
      var t := Slot(b, n - 1);
      if t in s.newTable { assert s.newTable[t] in ids; }
    }
  }

  lemma {:induction false} RefillRow(env: Env, s: State, ids: seq<int>, b: nat, n: nat, v: State, w: State)
    requires Inv(env, s, {}, {}) && Carries(s, ids, v) && b < NEW_BUCKET_COUNT && n <= BUCKET_SIZE
    requires Refilled(env, s, ids, b, 0, v, w)
    ensures (forall i :: 0 <= i < |RowPairs(s, ids, b, n)| ==> RowPairs(s, ids, b, n)[i].1 in w.info)
    ensures Refilled(env, s, ids, b, n, v, PlaceAll(env, w, RowPairs(s, ids, b, n), true))
  {
    hide PlaceOne, Restored, Inv;
    assert NewOk(env, s.info, s.newTable, {}, {}) by { NewPart(env, s); }
    RowPairsKnown(env, s, ids, b, n);
    if n > 0 {
      RefillRow(env, s, ids, b, n - 1, v, w);
      RefillNext(env, s, ids, b, n - 1, v, PlaceAll(env, w, RowPairs(s, ids, b, n - 1), true));
      var p := RowPairs(s, ids, b, n);
      if Slot(b, n - 1) in s.newTable {
        assert p[..|p| - 1] == RowPairs(s, ids, b, n - 1);
      } else {
        assert p == RowPairs(s, ids, b, n - 1);
      }
    }
  }

  lemma NewPart(env: Env, s: State)
    requires Inv(env, s, {}, {})
    ensures NewOk(env, s.info, s.newTable, {}, {})
  {
  }

  lemma {:induction false} AllPairsKnown(env: Env, s: State, ids: seq<int>, b: nat)
    requires NewOk(env, s.info, s.newTable, {}, {}) && Enumerates(s, ids, false)
    ensures forall i :: 0 <= i < |AllPairs(s, ids, b)| ==> 0 <= AllPairs(s, ids, b)[i].1 < |ids|
  {
    if b > 0 {
      AllPairsKnown(env, s, ids, b - 1);
      RowPairsKnown(env, s, ids, b - 1, BUCKET_SIZE);
    }
  }

  lemma {:induction false} RefillAll(env: Env, s: State, ids: seq<int>, b: nat, v: State)
    requires Inv(env, s, {}, {}) && Carries(s, ids, v) && b <= NEW_BUCKET_COUNT
    requires v.newTable == map[] && Inv(env, v, {}, Upto(|ids|))
    ensures (forall i :: 0 <= i < |AllPairs(s, ids, b)| ==> AllPairs(s, ids, b)[i].1 in v.info)
    ensures Refilled(env, s, ids, b, 0, v, PlaceAll(env, v, AllPairs(s, ids, b), true))
  {
    hide PlaceOne, Restored, Inv, RowPairs, NewOk;
    NewPart(env, s);
    AllPairsKnown(env, s, ids, b);
    if b == 0 {
      NothingRestored(s, ids);
    } else {
      RefillAll(env, s, ids, b - 1, v);
      RefillBucket(env, s, ids, b - 1, v);
    }
  }

  ghost predicate Known(pairs: seq<(nat, int)>, v: State) {
    forall i :: 0 <= i < |pairs| ==> pairs[i].1 in v.info
  }

  lemma RefillBucket(env: Env, s: State, ids: seq<int>, b: nat, v: State)
    requires Inv(env, s, {}, {}) && Carries(s, ids, v) && b < NEW_BUCKET_COUNT
    requires Known(AllPairs(s, ids, b), v) && Known(AllPairs(s, ids, b + 1), v)
    requires Refilled(env, s, ids, b, 0, v, PlaceAll(env, v, AllPairs(s, ids, b), true))
    ensures Refilled(env, s, ids, b + 1, 0, v, PlaceAll(env, v, AllPairs(s, ids, b + 1), true))
  {
    hide PlaceOne, PlaceAll, Restored, Inv, RowPairs;
    var p, q := AllPairs(s, ids, b), RowPairs(s, ids, b, BUCKET_SIZE);
    var w := PlaceAll(env, v, p, true);
    RefillRow(env, s, ids, b, BUCKET_SIZE, v, w);
    PlaceAppend(env, v, p, q, true);
    NewPart(env, s);
    NextRow(env, s, ids, b);
  }

  lemma NothingRestored(s: State, ids: seq<int>)
    ensures Restored(s, ids, 0, 0) == map[]
  {
    var A := Restored(s, ids, 0, 0);
    assert forall t :: t !in A;
  }

  lemma NextRow(env: Env, s: State, ids: seq<int>, b: nat)
    requires NewOk(env, s.info, s.newTable, {}, {})
    ensures Restored(s, ids, b, BUCKET_SIZE) == Restored(s, ids, b + 1, 0)
  {
    var A, B := Restored(s, ids, b, BUCKET_SIZE), Restored(s, ids, b + 1, 0);
    assert forall t :: t in s.newTable ==> t.pos < BUCKET_SIZE;
    assert forall t :: t in A <==> t in B;
    assert A.Keys == B.Keys;
    assert forall t :: t in A ==> A[t] == B[t];
    assert A == B;
  }

  // ------------------------------------------------------------ saving and loading

  /** The indices written for the first `n` positions of bucket `b`. */
  function BucketList(s: State, ids: seq<int>, b: nat, n: nat): seq<int> {
    if n == 0 then [] else
      var t := Slot(b, n - 1);
      BucketList(s, ids, b, n - 1) + if t in s.newTable then [IndexOf(ids, s.newTable[t])] else []
  }

  ghost function SavedOf(s: State, newIds: seq<int>, triedIds: seq<int>, asmap: int): Saved
    requires Ids(s, newIds, triedIds)
  {
    var buckets := seq(NEW_BUCKET_COUNT, b requires 0 <= b => BucketList(s, newIds, b, BUCKET_SIZE));
    Saved(Entries(s, newIds), Entries(s, triedIds), buckets, asmap)
  }

  lemma {:induction false} BucketPairsAre(env: Env, s: State, ids: seq<int>, b: nat, n: nat)
    requires NewOk(env, s.info, s.newTable, {}, {}) && Enumerates(s, ids, false)
    ensures BucketPairs(b, BucketList(s, ids, b, n), |ids|) == RowPairs(s, ids, b, n)
  {
    if n > 0 {
      BucketPairsAre(env, s, ids, b, n - 1);
      var t := Slot(b, n - 1);
      var l := BucketList(s, ids, b, n);
      if t in s.newTable {
        assert s.newTable[t] in ids;
        assert l[..|l| - 1] == BucketList(s, ids, b, n - 1);
      } else {
        assert l == BucketList(s, ids, b, n - 1);
      }
    }
  }

  lemma {:induction false} PairsAre(env: Env, s: State, newIds: seq<int>, triedIds: seq<int>, asmap: int, b: nat)
    requires NewOk(env, s.info, s.newTable, {}, {}) && Ids(s, newIds, triedIds) && b <= NEW_BUCKET_COUNT
    ensures Pairs(SavedOf(s, newIds, triedIds, asmap).buckets[..b], |newIds|) == AllPairs(s, newIds, b)
  {
    hide BucketList, BucketPairs, RowPairs, NewOk;
    if b > 0 {
      var bs := SavedOf(s, newIds, triedIds, asmap).buckets;
      PairsAre(env, s, newIds, triedIds, asmap, b - 1);
      assert bs[..b][..b - 1] == bs[..b - 1];
      BucketPairsAre(env, s, newIds, b - 1, BUCKET_SIZE);
    }
  }

  lemma {:induction false} LoadNewKeys(env: Env, es: seq<Entry>)
    ensures LoadNew(env, es).idCount == |es| && forall k :: k in LoadNew(env, es).info <==> 0 <= k < |es|
  {
    if es != [] { LoadNewKeys(env, es[..|es| - 1]); }
  }

  lemma {:induction false} LoadTriedKeys(env: Env, s: State, es: seq<Entry>)
    ensures forall k :: k in s.info ==> k in LoadTried(env, s, es).info
  {
    if es != [] { LoadTriedKeys(env, s, es[..|es| - 1]); }
  }

  /** The state before pruning: entries whose slots were all taken have no references. */
  function Load(env: Env, saved: Saved, asmap: int): State {
    var nNew := |saved.newEntries|;
    LoadNewKeys(env, saved.newEntries);
    LoadTriedKeys(env, LoadNew(env, saved.newEntries), saved.triedEntries);
    PlaceAll(env, LoadTried(env, LoadNew(env, saved.newEntries), saved.triedEntries),
             Pairs(saved.buckets, nNew), |saved.buckets| == NEW_BUCKET_COUNT && saved.asmap == asmap)
  }

  /** The two states are the same, up to the ids, the order of `random` and what is not saved. */
  ghost predicate Renamed(s: State, t: State, ids: seq<int>) {
    && SameEntries(s, t, ids)
    && SameTable(s.newTable, t.newTable, ids) && SameTable(s.triedTable, t.triedTable, ids)
    && t.nNew == s.nNew && t.nTried == s.nTried
    && (forall net: nat :: Count(t.counts, net) == Count(s.counts, net))
  }

  ghost predicate SameEntries(s: State, t: State, ids: seq<int>) {
    && (forall id :: id in s.info <==> id in ids)
    && (forall j, k :: 0 <= j < k < |ids| ==> ids[j] != ids[k])
    && (forall k :: k in t.info <==> 0 <= k < |ids|)
    && (forall k :: 0 <= k < |ids| ==> ids[k] in s.info && SameEntry(t.info[k], s.info[ids[k]]))
  }

  predicate SameEntry(e: Info, f: Info) {
    Persist(e) == Persist(f) && e.refCount == f.refCount && e.inTried == f.inTried
  }

  ghost predicate SameTable(m: map<Slot, int>, m': map<Slot, int>, ids: seq<int>) {
    && (forall t :: t in m' <==> t in m)
    && (forall t :: t in m' ==> 0 <= m'[t] < |ids| && ids[m'[t]] == m[t])
  }

  lemma {:induction false} RenameCard(A: set<int>, B: set<int>, ids: seq<int>)
    requires forall k :: k in A ==> 0 <= k < |ids| && ids[k] in B
    requires forall x :: x in B ==> exists k :: k in A && ids[k] == x
    requires forall j, k :: 0 <= j < k < |ids| ==> ids[j] != ids[k]
    ensures |A| == |B|
    decreases |A|
  {
    if forall k :: k !in A {
      EmptySet(A);
      EmptySet(B);
    } else {
      var k :| k in A;
      var A', B' := A - {k}, B - {ids[k]};
      forall x | x in B' ensures exists j :: j in A' && ids[j] == x {
        var j :| j in A && ids[j] == x;
        assert j in A';
      }
      RenameCard(A', B', ids);
    }
  }

  // ------------------------------------------------------------ the round trip

  lemma LoadedIs(env: Env, s: State, newIds: seq<int>, triedIds: seq<int>, asmap: int) returns (v: State, w: State)
    requires Inv(env, s, {}, {}) && Ids(s, newIds, triedIds)
    ensures w == Load(env, SavedOf(s, newIds, triedIds, asmap), asmap)
    ensures HasEntries(s, newIds + triedIds, |newIds|, v)
    ensures Refilled(env, s, newIds, NEW_BUCKET_COUNT, 0, v, w)
  {
    hide Inv, Restored, AllPairs, PlaceOne, BucketList;
    var saved := SavedOf(s, newIds, triedIds, asmap);
    assert newIds[..|newIds|] == newIds && triedIds[..|triedIds|] == triedIds;
    LoadNewOk(env, s, newIds, |newIds|);
    var u := LoadNew(env, saved.newEntries);
    LoadTriedOk(env, s, newIds, triedIds, |triedIds|, u);
    v := LoadTried(env, u, saved.triedEntries);
    assert Carries(s, newIds, v) by { CarriesNew(s, newIds, triedIds, v); }
    RefillAll(env, s, newIds, NEW_BUCKET_COUNT, v);
    NewPart(env, s);
    PairsAre(env, s, newIds, triedIds, asmap, NEW_BUCKET_COUNT);
    assert saved.buckets[..NEW_BUCKET_COUNT] == saved.buckets;
    w := PlaceAll(env, v, AllPairs(s, newIds, NEW_BUCKET_COUNT), true);
  }

  lemma CarriesNew(s: State, newIds: seq<int>, triedIds: seq<int>, v: State)
    requires Ids(s, newIds, triedIds) && HasEntries(s, newIds + triedIds, |newIds|, v)
    ensures Carries(s, newIds, v)
  {
    var ids := newIds + triedIds;
    assert forall k :: 0 <= k < |newIds| ==> ids[k] == newIds[k];
  }

  lemma AllRestored(env: Env, s: State, ids: seq<int>)
    requires NewOk(env, s.info, s.newTable, {}, {}) && Enumerates(s, ids, false)
    ensures var m := Restored(s, ids, NEW_BUCKET_COUNT, 0);
            && (forall t :: t in m <==> t in s.newTable)
            && (forall t :: t in m ==> 0 <= m[t] < |ids| && ids[m[t]] == s.newTable[t])
  {
    var m := Restored(s, ids, NEW_BUCKET_COUNT, 0);
    forall t | t in s.newTable ensures t in m && 0 <= m[t] < |ids| && ids[m[t]] == s.newTable[t] {
      assert s.newTable[t] in ids;
    }
  }

  /** Every new entry has the references it had. */
  lemma SameReferences(env: Env, s: State, ids: seq<int>, v: State, w: State, k: int)
    requires Inv(env, s, {}, {}) && Enumerates(s, ids, false) && 0 <= k < |ids|
    requires Refilled(env, s, ids, NEW_BUCKET_COUNT, 0, v, w) && k in w.info && !w.info[k].inTried
    ensures w.info[k].refCount == s.info[ids[k]].refCount >= 1
  {
    hide RandomOk, CountsOk, TriedOk, IndexOk, Restored;
    AllRestored(env, s, ids);
    var A, B := Slots(w.newTable, k), Slots(s.newTable, ids[k]);
    forall t ensures t in A <==> t in B {
      if t in w.newTable && ids[w.newTable[t]] == ids[k] {
        assert w.newTable[t] == k;
      }
    }
    assert A == B;
  }

  lemma LoadedInv(env: Env, s: State, newIds: seq<int>, triedIds: seq<int>, v: State, w: State)
    requires Inv(env, s, {}, {}) && Ids(s, newIds, triedIds)
    requires HasEntries(s, newIds + triedIds, |newIds|, v) && Refilled(env, s, newIds, NEW_BUCKET_COUNT, 0, v, w)
    ensures Inv(env, w, {}, {})
    ensures forall k :: 0 <= k < |newIds + triedIds| ==>
              k in w.info && SameEntry(w.info[k], s.info[(newIds + triedIds)[k]])
  {
    hide Restored;
    var ids := newIds + triedIds;
    forall k | 0 <= k < |ids|
      ensures k in w.info && SameEntry(w.info[k], s.info[ids[k]]) && (k < |newIds| ==> w.info[k].refCount >= 1)
    {
      hide RandomOk, CountsOk, IndexOk, NewOk;
      if k < |newIds| {
        SameReferences(env, s, newIds, v, w, k);
      } else {
        assert ids[k] == triedIds[k - |newIds|];
      }
    }
    NoPending(env, w, Upto(|newIds|));
  }

  lemma NoPending(env: Env, w: State, pending: set<int>)
    requires Inv(env, w, {}, pending) && forall k :: k in pending && k in w.info ==> w.info[k].refCount >= 1
    ensures Inv(env, w, {}, {})
  {
  }

  lemma SameTried(env: Env, s: State, t: State, ids: seq<int>)
    requires TriedOk(env, s.info, s.triedTable, {}) && TriedOk(env, t.info, t.triedTable, {})
    requires SameEntries(s, t, ids)
    ensures SameTable(s.triedTable, t.triedTable, ids)
  {
    forall u | u in s.triedTable ensures u in t.triedTable && ids[t.triedTable[u]] == s.triedTable[u] {
      var x := s.triedTable[u];
      var k :| 0 <= k < |ids| && ids[k] == x;
      assert SameEntry(t.info[k], s.info[x]);
      HasTriedSlot(env, t, k);
    }
    forall u | u in t.triedTable ensures u in s.triedTable {
      var k := t.triedTable[u];
      assert k in t.info && SameEntry(t.info[k], s.info[ids[k]]);
      HasTriedSlot(env, s, ids[k]);
    }
  }

  lemma HasTriedSlot(env: Env, s: State, id: int)
    requires TriedOk(env, s.info, s.triedTable, {}) && id in s.info && s.info[id].inTried
    ensures env.TriedSlot(s.info[id].addr.service) in s.triedTable
    ensures s.triedTable[env.TriedSlot(s.info[id].addr.service)] == id
  {
  }

  lemma SameCounts(env: Env, s: State, t: State, ids: seq<int>)
    requires CountsOk(env, s.info, {}, s.nNew, s.nTried, s.counts)
    requires CountsOk(env, t.info, {}, t.nNew, t.nTried, t.counts)
    requires SameEntries(s, t, ids)
    ensures t.nNew == s.nNew && t.nTried == s.nTried && forall net: nat :: Count(t.counts, net) == Count(s.counts, net)
  {
    forall b: bool ensures |Members(t.info, {}, b)| == |Members(s.info, {}, b)| {
      var A, B := Members(t.info, {}, b), Members(s.info, {}, b);
      forall x | x in B ensures exists k :: k in A && ids[k] == x {
        var k :| 0 <= k < |ids| && ids[k] == x;
        assert k in A;
      }
      RenameCard(A, B, ids);
    }
    forall net: nat ensures Count(t.counts, net) == Count(s.counts, net) {
      assert TallyOk(env, s.info, {}, s.counts, net) && TallyOk(env, t.info, {}, t.counts, net);
      SameTally(env, s, t, ids, true, net);
      SameTally(env, s, t, ids, false, net);
    }
  }

  lemma SameTally(env: Env, s: State, t: State, ids: seq<int>, b: bool, net: nat)
    requires SameEntries(s, t, ids)
    ensures |MembersOf(env, t.info, {}, b, net)| == |MembersOf(env, s.info, {}, b, net)|
  {
    var A, B := MembersOf(env, t.info, {}, b, net), MembersOf(env, s.info, {}, b, net);
    forall x | x in B ensures exists k :: k in A && ids[k] == x {
      var k :| 0 <= k < |ids| && ids[k] == x;
      assert SameEntry(t.info[k], s.info[x]);
      assert k in A;
    }
    forall k | k in A ensures ids[k] in B { assert SameEntry(t.info[k], s.info[ids[k]]); }
    RenameCard(A, B, ids);
  }

  lemma IdsTogether(s: State, newIds: seq<int>, triedIds: seq<int>)
    requires Ids(s, newIds, triedIds)
    ensures var ids := newIds + triedIds;
            (forall id :: id in s.info <==> id in ids) && forall j, k :: 0 <= j < k < |ids| ==> ids[j] != ids[k]
  {
  }

  /** Loading what was saved, with the same net groups, gives the same manager under other ids. */
  lemma RoundTrip(env: Env, s: State, newIds: seq<int>, triedIds: seq<int>, asmap: int)
    requires Consistent(env, s) && Ids(s, newIds, triedIds)
    ensures var t := Load(env, SavedOf(s, newIds, triedIds, asmap), asmap);
            Consistent(env, t) && Renamed(s, t, newIds + triedIds)
  {
    hide Load, SavedOf, HasEntries, Refilled, SameEntries, SameTable, Inv;
    var v, w := LoadedIs(env, s, newIds, triedIds, asmap);
    LoadedConsistent(env, s, newIds, triedIds, v, w);
    LoadedRenamed(env, s, newIds, triedIds, v, w);
  }

  lemma LoadedConsistent(env: Env, s: State, newIds: seq<int>, triedIds: seq<int>, v: State, w: State)
    requires Inv(env, s, {}, {}) && Ids(s, newIds, triedIds)
    requires HasEntries(s, newIds + triedIds, |newIds|, v) && Refilled(env, s, newIds, NEW_BUCKET_COUNT, 0, v, w)
    ensures Consistent(env, w) && SameEntries(s, w, newIds + triedIds)
  {
    hide Inv, Restored;
    LoadedInv(env, s, newIds, triedIds, v, w);
    IdsTogether(s, newIds, triedIds);
  }

  lemma LoadedRenamed(env: Env, s: State, newIds: seq<int>, triedIds: seq<int>, v: State, w: State)
    requires Inv(env, s, {}, {}) && Ids(s, newIds, triedIds)
    requires Refilled(env, s, newIds, NEW_BUCKET_COUNT, 0, v, w)
    requires Inv(env, w, {}, {}) && SameEntries(s, w, newIds + triedIds)
    ensures Renamed(s, w, newIds + triedIds)
  {
    hide Restored, EntriesOk, IndexOk, RandomOk, NewOk, TriedOk, CountsOk, SameEntries, SameTable;
    AllRestored(env, s, newIds);
    NewTableIs(s, w.newTable, newIds, triedIds);
    SameTried(env, s, w, newIds + triedIds);
    SameCounts(env, s, w, newIds + triedIds);
  }

  lemma NewTableIs(s: State, m: map<Slot, int>, newIds: seq<int>, triedIds: seq<int>)
    requires (forall t :: t in m <==> t in s.newTable) && forall t :: t in m ==>
               0 <= m[t] < |newIds| && newIds[m[t]] == s.newTable[t]
    ensures SameTable(s.newTable, m, newIds + triedIds)
  {
  }
}
