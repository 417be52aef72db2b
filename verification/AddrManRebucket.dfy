/**
 Loading what was saved under other net groups: the entries get the slots they
 now belong to, and only those whose slots are taken are lost.
*/
module AddrManRebucket {
  import opened AddrManState
  import opened AddrManInvariant
  import opened AddrManSave

  /** The entries are those of a consistent manager, under whatever net groups; the first `n` are new ones. */
  ghost predicate Sound(env: Env, es: seq<Entry>, n: nat) {
    && n <= |es|
    && (forall k :: 0 <= k < |es| ==> env.isValid(es[k].addr.service.ip))
    && (forall j, k :: 0 <= j < k < |es| ==> es[j].addr.service != es[k].addr.service)
  }

  ghost predicate FromFile(es: seq<Entry>, info: map<int, Info>) {
    forall id :: id in info ==> Persist(info[id]) in es
  }

  lemma ServiceFresh(env: Env, es: seq<Entry>, m: nat, n: nat, u: State)
    requires Sound(env, es, m) && n < |es| && IndexOk(u.info, u.index) && FromFile(es[..n], u.info)
    ensures es[n].addr.service !in u.index
  {
    var a := es[n].addr.service;
    forall id | id in u.info ensures u.info[id].addr.service != a {
      var j :| 0 <= j < n && es[j] == Persist(u.info[id]);
    }
  }

  /** The first `m` ids are those of new entries, as listed. */
  ghost predicate NewIds(es: seq<Entry>, m: nat, info: map<int, Info>) {
    m <= |es| && forall k :: 0 <= k < m ==> k in info && !info[k].inTried && Persist(info[k]) == es[k]
  }

  lemma {:induction false} LoadNewSound(env: Env, es: seq<Entry>, m: nat, n: nat)
    requires Sound(env, es, m) && n <= m
    ensures var u := LoadNew(env, es[..n]);
            && Inv(env, u, {}, Upto(n)) && FromFile(es[..n], u.info) && NewIds(es, n, u.info)
            && u.idCount == n && u.newTable == map[] && u.triedTable == map[] && u.collisions == {}
  {
    hide Inv, NewEntry;
    if n == 0 {
      EmptyInv(env);
    } else {
      LoadNewSound(env, es, m, n - 1);
      assert es[..n][..n - 1] == es[..n - 1];
      AddedNew(env, es, m, n - 1, LoadNew(env, es[..n - 1]));
    }
  }

  lemma AddedNew(env: Env, es: seq<Entry>, m: nat, n: nat, u: State)
    requires Sound(env, es, m) && n < m
    requires Inv(env, u, {}, Upto(n)) && FromFile(es[..n], u.info) && NewIds(es, n, u.info) && u.idCount == n
    ensures var t := NewEntry(env, u, es[n]);
            && Inv(env, t, {}, Upto(n + 1)) && FromFile(es[..n + 1], t.info)
            && NewIds(es, n + 1, t.info) && t.idCount == n + 1
            && t.newTable == u.newTable && t.triedTable == u.triedTable && t.collisions == u.collisions
  {
    hide RandomOk, NewOk, TriedOk, CountsOk;
    ServiceFresh(env, es, m, n, u);
    NewEntryInv(env, u, es[n], Upto(n));
    assert Upto(n) + {u.idCount} == Upto(n + 1);
    MoreFromFile(es, n, u.info, u.idCount, Loaded(es[n], false, |u.random|));
  }

  lemma MoreFromFile(es: seq<Entry>, n: nat, info: map<int, Info>, id: int, e: Info)
    requires n < |es| && FromFile(es[..n], info) && Persist(e) == es[n]
    ensures FromFile(es[..n + 1], info[id := e])
  {
    assert es[..n + 1] == es[..n] + [es[n]];
  }

  /** Every listed tried entry finds its slot occupied, by itself or by another. */
  ghost predicate SlotsTaken(env: Env, es: seq<Entry>, m: nat, n: nat, triedTable: map<Slot, int>)
    requires m <= n <= |es|
  {
    forall k :: m <= k < n ==> env.TriedSlot(es[k].addr.service) in triedTable
  }

  lemma {:induction false} LoadTriedSound(env: Env, es: seq<Entry>, m: nat, n: nat, u: State)
    requires Sound(env, es, m) && m <= n <= |es|
    requires Inv(env, u, {}, Upto(m)) && FromFile(es[..m], u.info) && NewIds(es, m, u.info)
    ensures var v := LoadTried(env, u, es[m..n]);
            && Inv(env, v, {}, Upto(m)) && FromFile(es[..n], v.info) && NewIds(es, m, v.info)
            && SlotsTaken(env, es, m, n, v.triedTable) && v.newTable == u.newTable && v.collisions == u.collisions
  {
    hide Inv, TriedEntry, FromFile, Sound;
    if n == m {
      assert es[m..n] == [];
    } else {
      LoadTriedSound(env, es, m, n - 1, u);
      assert es[m..n][..n - m - 1] == es[m..n - 1];
      AddedTried(env, es, m, n - 1, LoadTried(env, u, es[m..n - 1]));
    }
  }

  lemma AddedTried(env: Env, es: seq<Entry>, m: nat, n: nat, v: State)
    requires Sound(env, es, m) && m <= n < |es|
    requires Inv(env, v, {}, Upto(m)) && FromFile(es[..n], v.info) && NewIds(es, m, v.info)
    requires SlotsTaken(env, es, m, n, v.triedTable)
    ensures var t := TriedEntry(env, v, es[n]);
            && Inv(env, t, {}, Upto(m)) && FromFile(es[..n + 1], t.info) && NewIds(es, m, t.info)
            && SlotsTaken(env, es, m, n + 1, t.triedTable) && t.newTable == v.newTable && t.collisions == v.collisions
  {
    hide RandomOk, NewOk, TriedOk, CountsOk, FromFile, Upto;
    assert es[..n + 1] == es[..n] + [es[n]];
    if env.TriedSlot(es[n].addr.service) in v.triedTable {
      assert FromFile(es[..n + 1], v.info) by { LongerFile(es[..n], es[..n + 1], v.info); }
    } else {
      ServiceFresh(env, es, m, n, v);
      TriedEntryInv(env, v, es[n], Upto(m));
      MoreFromFile(es, n, v.info, v.idCount, Loaded(es[n], true, |v.random|));
      NotListed(env, es, m, v);
    }
  }

  lemma LongerFile(es: seq<Entry>, es': seq<Entry>, info: map<int, Info>)
    requires FromFile(es, info) && es <= es'
    ensures FromFile(es', info)
  {
  }

  lemma NotListed(env: Env, es: seq<Entry>, m: nat, v: State)
    requires EntriesOk(env, v.info, v.idCount) && NewIds(es, m, v.info)
    ensures v.idCount >= m
  {
    if m > 0 { assert m - 1 in v.info; }
  }

  // ------------------------------------------------------------ the new table

  /** The entry has a reference, or the slot of its source is taken. */
  ghost predicate Housed(env: Env, info: map<int, Info>, newTable: map<Slot, int>, k: int) {
    k in info && (info[k].refCount >= 1 || env.NewSlot(info[k].addr.service, info[k].source) in newTable)
  }

  /** Placing entries changes only reference counts and the new table. */
  ghost predicate Placing(v: State, w: State) {
    && w == v.(info := w.info, newTable := w.newTable)
    && w.info.Keys == v.info.Keys
    && (forall k :: k in v.info ==>
          w.info[k] == v.info[k].(refCount := w.info[k].refCount) && w.info[k].refCount >= v.info[k].refCount)
    && (forall t :: t in v.newTable ==> t in w.newTable)
  }

  lemma PlaceOneSound(env: Env, v: State, bucket: nat, k: int, restore: bool, pending: set<int>)
    requires Inv(env, v, {}, pending) && k in v.info && !v.info[k].inTried && (restore ==> bucket < NEW_BUCKET_COUNT)
    ensures var w := PlaceOne(env, v, bucket, k, restore);
            Inv(env, w, {}, pending) && Placing(v, w) && Housed(env, w.info, w.newTable, k)
  {
    var e := v.info[k];
    assert env.isValid(e.addr.service.ip);
    hide Inv;
    if e.refCount < NEW_BUCKETS_PER_ADDRESS {
      var t, u := env.NewSlotIn(e.addr.service, bucket), env.NewSlot(e.addr.service, e.source);
      if restore && t !in v.newTable {
        PlaceFree(env, v, k, t, pending);
      } else if u !in v.newTable {
        PlaceFree(env, v, k, u, pending);
      }
    }
  }

  lemma PlaceFree(env: Env, v: State, k: int, t: Slot, pending: set<int>)
    requires Inv(env, v, {}, pending) && k in v.info && !v.info[k].inTried
    requires v.info[k].refCount < NEW_BUCKETS_PER_ADDRESS
    requires t !in v.newTable && t.bucket < NEW_BUCKET_COUNT && t == env.NewSlotIn(v.info[k].addr.service, t.bucket)
    ensures var w := PlaceNew(v, k, t); Inv(env, w, {}, pending) && Placing(v, w) && w.info[k].refCount >= 1
  {
    assert v.info[k].refCount >= 0;
    hide Inv;
    PlaceNewInv(env, v, k, t, {}, pending);
    PendingWeaken(env, PlaceNew(v, k, t), {}, pending - {k}, pending);
  }

  lemma {:induction false} PlaceAllSound(env: Env, v: State, pairs: seq<(nat, int)>, restore: bool, pending: set<int>)
    requires Inv(env, v, {}, pending)
    requires forall i :: 0 <= i < |pairs| ==>
               pairs[i].1 in v.info && !v.info[pairs[i].1].inTried && (restore ==> pairs[i].0 < NEW_BUCKET_COUNT)
    ensures var w := PlaceAll(env, v, pairs, restore);
            && Inv(env, w, {}, pending) && Placing(v, w)
            && forall i :: 0 <= i < |pairs| ==> Housed(env, w.info, w.newTable, pairs[i].1)
  {
    hide Inv, PlaceOne;
    if pairs != [] {
      var n := |pairs| - 1;
      PlaceAllSound(env, v, pairs[..n], restore, pending);
      var w := PlaceAll(env, v, pairs[..n], restore);
      PlaceOneSound(env, w, pairs[n].0, pairs[n].1, restore, pending);
      var all := PlaceAll(env, v, pairs, restore);
      forall i | 0 <= i < n ensures Housed(env, all.info, all.newTable, pairs[i].1) {
        assert pairs[..n][i] == pairs[i];
      }
    }
  }

  // ------------------------------------------------------------ the file as a whole

  ghost predicate SoundFile(env: Env, saved: Saved) {
    && Sound(env, saved.newEntries + saved.triedEntries, |saved.newEntries|)
    && |saved.newEntries| <= NEW_BUCKET_COUNT * BUCKET_SIZE
    && |saved.triedEntries| <= TRIED_BUCKET_COUNT * BUCKET_SIZE
  }

  ghost predicate IsLoaded(info: map<int, Info>, e: Entry) {
    exists id :: id in info && Persist(info[id]) == e
  }

  /** Nothing is made up, and what is missing has its slot taken by another. */
  ghost predicate Kept(env: Env, saved: Saved, t: State) {
    && FromFile(saved.newEntries + saved.triedEntries, t.info)
    && (forall e :: e in saved.triedEntries ==> env.TriedSlot(e.addr.service) in t.triedTable)
    && (var pairs := Pairs(saved.buckets, |saved.newEntries|);
        forall i :: 0 <= i < |pairs| ==>
          var e := saved.newEntries[pairs[i].1];
          IsLoaded(t.info, e) || env.NewSlot(e.addr.service, e.source) in t.newTable)
  }

  /** Before pruning, the listed entries have their slots, or their slots are taken. */
  ghost predicate Arranged(env: Env, saved: Saved, w: State) {
    && Inv(env, w, {}, Upto(|saved.newEntries|)) && w.collisions == {}
    && FromFile(saved.newEntries + saved.triedEntries, w.info)
    && NewIds(saved.newEntries, |saved.newEntries|, w.info)
    && (forall e :: e in saved.triedEntries ==> env.TriedSlot(e.addr.service) in w.triedTable)
    && (var pairs := Pairs(saved.buckets, |saved.newEntries|);
        forall i :: 0 <= i < |pairs| ==> Housed(env, w.info, w.newTable, pairs[i].1))
  }

  lemma LoadArranged(env: Env, saved: Saved, asmap: int)
    requires SoundFile(env, saved)
    ensures Arranged(env, saved, Load(env, saved, asmap))
  {
    hide Inv, Sound, FromFile, LoadNew, LoadTried, PlaceAll, Pairs;
    var es, m := saved.newEntries + saved.triedEntries, |saved.newEntries|;
    assert es[..m] == saved.newEntries && es[m..|es|] == saved.triedEntries && es[..|es|] == es;
    LoadNewSound(env, es, m, m);
    var u := LoadNew(env, saved.newEntries);
    LoadTriedSound(env, es, m, |es|, u);
    var v := LoadTried(env, u, saved.triedEntries);
    var restore := |saved.buckets| == NEW_BUCKET_COUNT && saved.asmap == asmap;
    PlaceAllSound(env, v, Pairs(saved.buckets, m), restore, Upto(m));
    var w := PlaceAll(env, v, Pairs(saved.buckets, m), restore);
    PlacedFromFile(es, m, v, w);
    forall e | e in saved.triedEntries ensures env.TriedSlot(e.addr.service) in w.triedTable {
      var k :| 0 <= k < |saved.triedEntries| && saved.triedEntries[k] == e;
      assert es[m + k] == e;
    }
  }

  lemma PlacedFromFile(es: seq<Entry>, m: nat, v: State, w: State)
    requires Placing(v, w) && FromFile(es, v.info) && NewIds(es, m, v.info)
    ensures FromFile(es, w.info) && NewIds(es[..m], m, w.info)
  {
    assert forall k :: k in v.info ==> Persist(w.info[k]) == Persist(v.info[k]);
  }

  // ------------------------------------------------------------ pruning

  predicate Used(e: Info) { e.inTried || e.refCount != 0 }

  /** Exactly the unused entries among those not in `todo` are gone. */
  ghost predicate EntriesPruned(s: State, todo: set<int>, t: State) {
    && (forall id :: id in t.info <==> id in s.info && (id in todo || Used(s.info[id])))
    && (forall id :: id in t.info ==> t.info[id] == s.info[id].(randomPos := t.info[id].randomPos))
    && t.newTable == s.newTable && t.triedTable == s.triedTable && t.collisions == s.collisions
  }

  /** The entries that are gone. */
  ghost function Gone(s: State, todo: set<int>): set<int> {
    set id | id in s.info && id !in todo && !Used(s.info[id])
  }

  ghost function GoneOf(env: Env, s: State, todo: set<int>, net: nat): set<int> {
    set id | id in Gone(s, todo) && env.network(s.info[id].addr.service.ip) == net
  }

  ghost predicate LostService(s: State, todo: set<int>, a: Service) {
    exists id :: id in Gone(s, todo) && s.info[id].addr.service == a
  }

  /** The address is looked up as before, unless an entry of it is gone. */
  ghost predicate IndexPruned(s: State, todo: set<int>, t: State) {
    && (forall a :: a in t.index <==> a in s.index && !LostService(s, todo, a))
    && (forall a :: a in t.index ==> t.index[a] == s.index[a])
  }

  /** Every network has as many new entries less as are gone. */
  ghost predicate CountsPruned(env: Env, s: State, todo: set<int>, t: State) {
    && (forall net :: net in t.counts <==> net in s.counts || GoneOf(env, s, todo, net) != {})
    && (forall net :: net in t.counts ==>
          t.counts[net] == Tally(Count(s.counts, net).nNew - |GoneOf(env, s, todo, net)|, Count(s.counts, net).nTried))
  }

  /** Those entries are gone from everywhere, and nothing else changes but the random order. */
  ghost predicate Pruned(env: Env, s: State, todo: set<int>, t: State) {
    && EntriesPruned(s, todo, t)
    && IndexPruned(s, todo, t)
    && CountsPruned(env, s, todo, t)
    && t.nNew == s.nNew - |Gone(s, todo)| && t.nTried == s.nTried
    && t.idCount == s.idCount && t.lastGood == s.lastGood
    && RandomOk(t.info, t.random)
  }

  lemma ArrangedKept(env: Env, saved: Saved, w: State, t: State)
    requires Arranged(env, saved, w) && Pruned(env, w, {}, t) && Inv(env, t, {}, Upto(|saved.newEntries|))
    ensures Consistent(env, t) && Kept(env, saved, t)
  {
    hide Pairs, NewIds, RandomOk, CountsOk, IndexOk, IndexPruned, CountsPruned;
    forall k | k in t.info && k in Upto(|saved.newEntries|) ensures t.info[k].inTried || t.info[k].refCount >= 1 {
      assert Used(w.info[k]);
    }
    NothingPending(env, t, Upto(|saved.newEntries|));
    assert FromFile(saved.newEntries + saved.triedEntries, t.info) by {
      assert forall k :: k in t.info ==> Persist(t.info[k]) == Persist(w.info[k]);
    }
    var pairs := Pairs(saved.buckets, |saved.newEntries|);
    forall i | 0 <= i < |pairs|
      ensures var e := saved.newEntries[pairs[i].1];
              IsLoaded(t.info, e) || env.NewSlot(e.addr.service, e.source) in t.newTable
    {
      HousedKept(env, saved, w, t, pairs[i].1);
    }
  }

  lemma NothingPending(env: Env, t: State, pending: set<int>)
    requires Inv(env, t, {}, pending) && forall k :: k in t.info && k in pending ==>
               t.info[k].inTried || t.info[k].refCount >= 1
    ensures Inv(env, t, {}, {})
  {
    hide RandomOk, CountsOk, IndexOk, TriedOk;
  }

  lemma HousedKept(env: Env, saved: Saved, w: State, t: State, k: int)
    requires NewIds(saved.newEntries, |saved.newEntries|, w.info) && 0 <= k < |saved.newEntries|
    requires Housed(env, w.info, w.newTable, k) && EntriesPruned(w, {}, t)
    ensures var e := saved.newEntries[k]; IsLoaded(t.info, e) || env.NewSlot(e.addr.service, e.source) in t.newTable
  {
    if w.info[k].refCount >= 1 {
      assert k in t.info && Persist(t.info[k]) == saved.newEntries[k];
    }
  }

  // ------------------------------------------------------------ where the entries come from

  /** Every entry is one of the file, new or tried as it was there, and has not been tried since. */
  ghost predicate Drawn(saved: Saved, info: map<int, Info>) {
    forall id :: id in info ==> IsDrawn(saved, info[id])
  }

  ghost predicate IsDrawn(saved: Saved, e: Info) {
    e.lastTry == 0 && Persist(e) in (if e.inTried then saved.triedEntries else saved.newEntries)
  }

  lemma {:induction false} LoadNewDrawn(env: Env, saved: Saved, n: nat)
    requires n <= |saved.newEntries|
    ensures Drawn(saved, LoadNew(env, saved.newEntries[..n]).info)
  {
    if n > 0 {
      LoadNewDrawn(env, saved, n - 1);
      assert saved.newEntries[..n][..n - 1] == saved.newEntries[..n - 1];
      var u := LoadNew(env, saved.newEntries[..n - 1]);
      assert IsDrawn(saved, Loaded(saved.newEntries[n - 1], false, |u.random|));
    }
  }

  lemma {:induction false} LoadTriedDrawn(env: Env, saved: Saved, u: State, n: nat)
    requires n <= |saved.triedEntries| && Drawn(saved, u.info)
    ensures Drawn(saved, LoadTried(env, u, saved.triedEntries[..n]).info)
  {
    if n > 0 {
      LoadTriedDrawn(env, saved, u, n - 1);
      assert saved.triedEntries[..n][..n - 1] == saved.triedEntries[..n - 1];
      var v := LoadTried(env, u, saved.triedEntries[..n - 1]);
      assert IsDrawn(saved, Loaded(saved.triedEntries[n - 1], true, |v.random|));
    }
  }

  lemma {:induction false} PlaceAllDrawn(env: Env, saved: Saved, v: State, pairs: seq<(nat, int)>, restore: bool)
    requires Drawn(saved, v.info) && forall i :: 0 <= i < |pairs| ==> pairs[i].1 in v.info
    ensures Drawn(saved, PlaceAll(env, v, pairs, restore).info)
  {
    hide PlaceOne, Drawn;
    if pairs != [] {
      var n := |pairs| - 1;
      PlaceAllDrawn(env, saved, v, pairs[..n], restore);
      PlaceOneDrawn(env, saved, PlaceAll(env, v, pairs[..n], restore), pairs[n].0, pairs[n].1, restore);
    }
  }

  lemma PlaceOneDrawn(env: Env, saved: Saved, w: State, bucket: nat, id: int, restore: bool)
    requires Drawn(saved, w.info) && id in w.info
    ensures Drawn(saved, PlaceOne(env, w, bucket, id, restore).info)
  {
    assert IsDrawn(saved, w.info[id]);
  }

  lemma LoadDrawn(env: Env, saved: Saved, asmap: int)
    ensures Drawn(saved, Load(env, saved, asmap).info)
  {
    hide LoadNew, LoadTried, PlaceAll, Drawn, Pairs;
    LoadNewDrawn(env, saved, |saved.newEntries|);
    assert saved.newEntries[..|saved.newEntries|] == saved.newEntries;
    var u := LoadNew(env, saved.newEntries);
    LoadTriedDrawn(env, saved, u, |saved.triedEntries|);
    assert saved.triedEntries[..|saved.triedEntries|] == saved.triedEntries;
    LoadNewKeys(env, saved.newEntries);
    LoadTriedKeys(env, u, saved.triedEntries);
    PlaceAllDrawn(env, saved, LoadTried(env, u, saved.triedEntries), Pairs(saved.buckets, |saved.newEntries|),
                  |saved.buckets| == NEW_BUCKET_COUNT && saved.asmap == asmap);
  }

  lemma PrunedDrawn(env: Env, saved: Saved, w: State, t: State)
    requires Drawn(saved, w.info) && Pruned(env, w, {}, t)
    ensures Drawn(saved, t.info)
  {
    forall id | id in t.info ensures IsDrawn(saved, t.info[id]) {
      assert IsDrawn(saved, w.info[id]);
    }
  }

  /** The times of success in the file are not before the epoch, and those of tried entries not zero. */
  ghost predicate SuccessesOk(saved: Saved) {
    && (forall e :: e in saved.newEntries ==> e.lastSuccess >= 0)
    && (forall e :: e in saved.triedEntries ==> e.lastSuccess > 0)
  }

  lemma DrawnStamped(saved: Saved, info: map<int, Info>)
    requires Drawn(saved, info) && SuccessesOk(saved)
    ensures Stamped(info)
  {
    forall id | id in info ensures StampOk(info[id]) {
      assert IsDrawn(saved, info[id]);
    }
  }

  // ------------------------------------------------------------ what was saved is sound

  lemma SavedEntry(env: Env, s: State, p: seq<int>, q: seq<int>, k: nat)
    requires Consistent(env, s) && Ids(s, p, q) && k < |p| + |q|
    ensures var e, id := (Entries(s, p) + Entries(s, q))[k], (p + q)[k];
            && id in s.info && e == Persist(s.info[id]) && s.info[id].inTried == (k >= |p|)
            && env.isValid(e.addr.service.ip)
            && e.addr.service in s.index && s.index[e.addr.service] == id
  {
    hide RandomOk, CountsOk, NewOk;
    if k < |p| {
      assert (p + q)[k] == p[k];
    } else {
      assert (p + q)[k] == q[k - |p|];
    }
  }

  lemma SavedSound(env0: Env, env: Env, s: State, p: seq<int>, q: seq<int>)
    requires Consistent(env0, s) && Ids(s, p, q) && forall a :: env0.isValid(a) ==> env.isValid(a)
    ensures Sound(env, Entries(s, p) + Entries(s, q), |p|)
  {
    hide Consistent;
    var es := Entries(s, p) + Entries(s, q);
    forall k | 0 <= k < |es| ensures env.isValid(es[k].addr.service.ip) {
      SavedEntry(env0, s, p, q, k);
    }
    forall j, k | 0 <= j < k < |es| ensures es[j].addr.service != es[k].addr.service {
      SavedEntry(env0, s, p, q, j);
      SavedEntry(env0, s, p, q, k);
      DistinctIds(s, p, q, j, k);
    }
  }

  lemma DistinctIds(s: State, p: seq<int>, q: seq<int>, j: nat, k: nat)
    requires Ids(s, p, q) && j < k < |p| + |q|
    ensures (p + q)[j] != (p + q)[k]
  {
  }
}
