/**
 Writing an address manager out and reading one in, in place.
*/
module AddrManStore {
  import opened Prelude
  import opened AddrManState
  import opened AddrManInvariant
  import opened AddrManSave
  import opened AddrManRebucket
  import opened AddrManCheck
  import opened AddrMan
  import Ops = AddrManOps

  // ------------------------------------------------------------ sizes

  lemma {:induction false} UptoCard(n: nat)
    ensures |Upto(n)| == n
  {
    if n > 0 {
      UptoCard(n - 1);
      assert Upto(n) == Upto(n - 1) + {n - 1};
    }
  }

  /** Different numbers below `n` are at most `n`. */
  lemma Pigeonhole(q: seq<int>, n: nat)
    requires (forall i, j :: 0 <= i < j < |q| ==> q[i] != q[j]) && forall i :: 0 <= i < |q| ==> 0 <= q[i] < n
    ensures |q| <= n
  {
    var A := set x | x in q;
    var B := Upto(n);
    Ops.DistinctCard(q);
    assert forall x :: x in A ==> x in B;
    Ops.CardSubset(A, B);
    UptoCard(n);
  }

  function Number(t: Slot): nat { t.bucket * BUCKET_SIZE + t.pos }

  lemma NumberOnce(t: Slot, u: Slot)
    requires t.pos < BUCKET_SIZE && u.pos < BUCKET_SIZE && Number(t) == Number(u)
    ensures t == u
  {
  }

  /** Every new entry has a slot of its own. */
  lemma FewNew(env: Env, s: State, ids: seq<int>)
    requires NewOk(env, s.info, s.newTable, {}, {}) && Enumerates(s, ids, false)
    ensures |ids| <= NEW_BUCKET_COUNT * BUCKET_SIZE
  {
    var q := SlotNumbers(env, s, ids, |ids|);
    Pigeonhole(q, NEW_BUCKET_COUNT * BUCKET_SIZE);
  }

  lemma {:induction false} SlotNumbers(env: Env, s: State, ids: seq<int>, n: nat) returns (q: seq<int>)
    requires NewOk(env, s.info, s.newTable, {}, {}) && Enumerates(s, ids, false) && n <= |ids|
    ensures |q| == n && forall i :: 0 <= i < n ==> 0 <= q[i] < NEW_BUCKET_COUNT * BUCKET_SIZE
    ensures forall i :: 0 <= i < n ==> exists t :: t in s.newTable && s.newTable[t] == ids[i] && q[i] == Number(t)
    ensures forall i, j :: 0 <= i < j < n ==> q[i] != q[j]
  {
    if n == 0 {
      q := [];
    } else {
      var p := SlotNumbers(env, s, ids, n - 1);
      var t := SomeSlot(env, s, ids[n - 1]);
      forall i | 0 <= i < n - 1 ensures p[i] != Number(t) {
        var u :| u in s.newTable && s.newTable[u] == ids[i] && p[i] == Number(u);
        assert t.pos < BUCKET_SIZE && u.pos < BUCKET_SIZE;
        if Number(t) == Number(u) { NumberOnce(t, u); }
      }
      q := p + [Number(t)];
    }
  }

  lemma SomeSlot(env: Env, s: State, id: int) returns (t: Slot)
    requires NewOk(env, s.info, s.newTable, {}, {}) && id in s.info && !s.info[id].inTried
    ensures t in s.newTable && s.newTable[t] == id && t.bucket < NEW_BUCKET_COUNT && t.pos < BUCKET_SIZE
  {
    var A := Slots(s.newTable, id);
    if forall u :: u !in A { EmptySet(A); }
    t :| t in A;
  }

  lemma FewTried(env: Env, s: State, ids: seq<int>)
    requires TriedOk(env, s.info, s.triedTable, {}) && Enumerates(s, ids, true)
    ensures |ids| <= TRIED_BUCKET_COUNT * BUCKET_SIZE
  {
    var q := seq(|ids|, i requires 0 <= i < |ids| => Number(env.TriedSlot(s.info[ids[i]].addr.service)));
    forall i, j | 0 <= i < j < |q| ensures q[i] != q[j] {
      var t, u := env.TriedSlot(s.info[ids[i]].addr.service), env.TriedSlot(s.info[ids[j]].addr.service);
      assert s.triedTable[t] == ids[i] && s.triedTable[u] == ids[j];
      if Number(t) == Number(u) { NumberOnce(t, u); }
    }
    Pigeonhole(q, TRIED_BUCKET_COUNT * BUCKET_SIZE);
  }

  // ------------------------------------------------------------ writing

  /** The sequence lists the known ids in the order in which they are written. */
  ghost predicate Order(s: State, order: seq<int>) {
    && (forall id :: id in s.info <==> id in order)
    && (forall j, k :: 0 <= j < k < |order| ==> order[j] != order[k])
  }

  /** The new (or the tried) ones among the first `n` ids. */
  function Pick(s: State, order: seq<int>, n: nat, tried: bool): seq<int>
    requires n <= |order| && forall k :: 0 <= k < |order| ==> order[k] in s.info
  {
    if n == 0 then [] else
      Pick(s, order, n - 1, tried) + if s.info[order[n - 1]].inTried == tried then [order[n - 1]] else []
  }

  lemma {:induction false} PickOk(s: State, order: seq<int>, n: nat, tried: bool)
    requires Order(s, order) && n <= |order| && forall k :: 0 <= k < |order| ==> order[k] in s.info
    ensures var p := Pick(s, order, n, tried);
            && (forall k :: 0 <= k < |p| ==> p[k] in order[..n] && s.info[p[k]].inTried == tried)
            && (forall j, k :: 0 <= j < k < |p| ==> p[j] != p[k])
            && (forall k :: 0 <= k < n && s.info[order[k]].inTried == tried ==> order[k] in p)
  {
    if n > 0 {
      PickOk(s, order, n - 1, tried);
      var p := Pick(s, order, n - 1, tried);
      assert order[..n] == order[..n - 1] + [order[n - 1]];
      assert order[n - 1] !in order[..n - 1];
      forall k | 0 <= k < n && s.info[order[k]].inTried == tried ensures order[k] in Pick(s, order, n, tried) {
        if k < n - 1 { assert order[k] in p; }
      }
    }
  }

  lemma PickAll(s: State, order: seq<int>, tried: bool)
    requires Order(s, order) && forall k :: 0 <= k < |order| ==> order[k] in s.info
    ensures Enumerates(s, Pick(s, order, |order|, tried), tried)
  {
    hide Pick;
    PickOk(s, order, |order|, tried);
    assert order[..|order|] == order;
  }

  /** Entries with references are the new ones, and there are as many as counted. */
  lemma NewByReferences(env: Env, s: State, order: seq<int>, n: nat)
    requires Inv(env, s, {}, {}) && Order(s, order) && n < |order| && forall k :: 0 <= k < |order| ==>
               order[k] in s.info
    ensures s.info[order[n]].refCount != 0 <==> !s.info[order[n]].inTried
    ensures !s.info[order[n]].inTried ==> |Pick(s, order, n, false)| < s.nNew
    ensures s.info[order[n]].inTried ==> |Pick(s, order, n, true)| < s.nTried
  {
    hide IndexOk, RandomOk, EntriesOk, Pick;
    var b := s.info[order[n]].inTried;
    PickOk(s, order, n + 1, b);
    var p := Pick(s, order, n + 1, b);
    PickMore(s, order, n, b);
    Ops.DistinctCard(p);
    var A := set x | x in p;
    var B := Members(s.info, {}, b);
    assert forall x :: x in A ==> x in B;
    Ops.CardSubset(A, B);
  }

  lemma PickMore(s: State, order: seq<int>, n: nat, b: bool)
    requires n < |order| && forall k :: 0 <= k < |order| ==> order[k] in s.info
    ensures Pick(s, order, n + 1, b) == Pick(s, order, n, b) + if s.info[order[n]].inTried == b then [order[n]] else []
  {
  }

  /** The map gives every listed id its position. */
  ghost predicate Positions(p: seq<int>, ids: map<int, int>) {
    forall k :: 0 <= k < |p| ==> p[k] in ids && ids[p[k]] == k
  }

  lemma KnownIds(s: State, order: seq<int>)
    requires Order(s, order)
    ensures forall k :: 0 <= k < |order| ==> order[k] in s.info
  {
    forall k | 0 <= k < |order| ensures order[k] in s.info { assert order[k] in order; }
  }

  method WriteNew(m: AddrManager, order: seq<int>) returns (es: seq<Entry>, ids: map<int, int>)
    requires m.Valid() && Consistent(m.env, m.Abs()) && Order(m.Abs(), order) && forall k :: 0 <= k < |order| ==>
               order[k] in m.info
    ensures var p := Pick(m.Abs(), order, |order|, false);
            Enumerates(m.Abs(), p, false) && es == Entries(m.Abs(), p) && Positions(p, ids)
  {
    hide Inv, CollisionsOk, Pick;
    ghost var s := m.Abs();
    es, ids := [], map[];
    PickNone(s, order, false);
    PickAll(s, order, false);
    for n := 0 to |order|
      invariant |es| == |Pick(s, order, n, false)|
      invariant forall k :: 0 <= k < |es| ==>
                  Pick(s, order, n, false)[k] in s.info && es[k] == Persist(s.info[Pick(s, order, n, false)[k]])
      invariant Positions(Pick(s, order, n, false), ids)
    {
      PickMore(s, order, n, false);
      PickOk(s, order, n + 1, false);
      NewByReferences(m.env, s, order, n);
      PositionsMore(s, order, n, ids);
      ids := ids[order[n] := |es|];
      if m.info[order[n]].refCount != 0 {
        assert |es| != m.nNew;
        es := es + [Persist(m.info[order[n]])];
      }
    }
  }

  lemma PickNone(s: State, order: seq<int>, b: bool)
    requires forall k :: 0 <= k < |order| ==> order[k] in s.info
    ensures Pick(s, order, 0, b) == []
  {
  }

  lemma PositionsMore(s: State, order: seq<int>, n: nat, ids: map<int, int>)
    requires Order(s, order) && n < |order| && forall k :: 0 <= k < |order| ==> order[k] in s.info
    requires Positions(Pick(s, order, n, false), ids)
    ensures Positions(Pick(s, order, n + 1, false), ids[order[n] := |Pick(s, order, n, false)|])
  {
    hide Pick;
    PickMore(s, order, n, false);
    PickOk(s, order, n, false);
    assert order[n] !in order[..n];
  }

  method WriteTried(m: AddrManager, order: seq<int>) returns (es: seq<Entry>)
    requires m.Valid() && Consistent(m.env, m.Abs()) && Order(m.Abs(), order) && forall k :: 0 <= k < |order| ==>
               order[k] in m.info
    ensures var p := Pick(m.Abs(), order, |order|, true); Enumerates(m.Abs(), p, true) && es == Entries(m.Abs(), p)
  {
    hide Inv, CollisionsOk, Pick;
    ghost var s := m.Abs();
    es := [];
    PickNone(s, order, true);
    PickAll(s, order, true);
    for n := 0 to |order|
      invariant |es| == |Pick(s, order, n, true)|
      invariant forall k :: 0 <= k < |es| ==>
                  Pick(s, order, n, true)[k] in s.info && es[k] == Persist(s.info[Pick(s, order, n, true)[k]])
    {
      PickMore(s, order, n, true);
      PickOk(s, order, n + 1, true);
      NewByReferences(m.env, s, order, n);
      if m.info[order[n]].inTried {
        assert |es| != m.nTried;
        es := es + [Persist(m.info[order[n]])];
      }
    }
  }

  method WriteBucket(m: AddrManager, b: nat, ids: map<int, int>, ghost p: seq<int>) returns (list: seq<int>)
    requires m.Valid() && Inv(m.env, m.Abs(), {}, {}) && b < NEW_BUCKET_COUNT && Enumerates(m.Abs(), p, false)
    requires Positions(p, ids)
    ensures list == BucketList(m.Abs(), p, b, BUCKET_SIZE)
  {
    hide IndexOf;
    list := [];
    for i := 0 to BUCKET_SIZE
      invariant list == BucketList(m.Abs(), p, b, i)
    {
      if m.vvNew[b, i] != -1 {
        assert m.newTable[Slot(b, i)] in p;
        list := list + [ids[m.vvNew[b, i]]];
      }
    }
  }

  /** What is written describes the manager completely, in the given order of its entries. */
  method Serialize(m: AddrManager, order: seq<int>, asmap: int) returns (saved: Saved)
    requires m.Valid() && Consistent(m.env, m.Abs()) && Order(m.Abs(), order)
    ensures (forall k :: 0 <= k < |order| ==> order[k] in m.info)
    ensures var p, q := Pick(m.Abs(), order, |order|, false), Pick(m.Abs(), order, |order|, true);
            Ids(m.Abs(), p, q) && saved == SavedOf(m.Abs(), p, q, asmap)
  {
    hide Inv, CollisionsOk, Pick, BucketList;
    ghost var s := m.Abs();
    KnownIds(s, order);
    var newEntries, ids := WriteNew(m, order);
    var triedEntries := WriteTried(m, order);
    ghost var p, q := Pick(s, order, |order|, false), Pick(s, order, |order|, true);
    var buckets := [];
    for b := 0 to NEW_BUCKET_COUNT
      invariant |buckets| == b && forall i :: 0 <= i < b ==> buckets[i] == BucketList(s, p, i, BUCKET_SIZE)
    {
      var list := WriteBucket(m, b, ids, p);
      buckets := buckets + [list];
    }
    saved := Saved(newEntries, triedEntries, buckets, asmap);
    assert buckets == SavedOf(s, p, q, asmap).buckets;
  }

  // ------------------------------------------------------------ reading

  lemma LoadNewNext(env: Env, es: seq<Entry>, n: nat)
    requires n < |es|
    ensures LoadNew(env, es[..n + 1]) == NewEntry(env, LoadNew(env, es[..n]), es[n])
  {
    assert es[..n + 1][..n] == es[..n];
  }

  lemma LoadTriedNext(env: Env, s: State, es: seq<Entry>, n: nat)
    requires n < |es|
    ensures LoadTried(env, s, es[..n + 1]) == TriedEntry(env, LoadTried(env, s, es[..n]), es[n])
  {
    assert es[..n + 1][..n] == es[..n];
  }

  method ReadNew(m: AddrManager, es: seq<Entry>)
    requires m.Valid() && m.Abs() == EMPTY
    modifies m
    ensures m.Valid() && m.Abs() == LoadNew(m.env, es)
  {
    hide LoadNew, AddrMan.Shows;
    m.nNew := |es|;
    assert es[..0] == [];
    LoadNewNone(m.env);
    for n := 0 to |es|
      invariant m.Valid() && LoadNew(m.env, es[..n]).idCount == n && LoadNew(m.env, es[..n]).nNew == n
      invariant m.Abs() == LoadNew(m.env, es[..n]).(idCount := 0, nNew := |es|)
    {
      LoadNewNext(m.env, es, n);
      var e := es[n];
      m.info := m.info[n := Loaded(e, false, |m.random|)];
      m.index := m.index[e.addr.service := n];
      m.random := m.random + [n];
      m.counts := Bump(m.counts, m.env.network(e.addr.service.ip), 1, 0);
    }
    m.idCount := m.nNew;
    assert es[..|es|] == es;
  }

  lemma LoadNewNone(env: Env)
    ensures LoadNew(env, []) == EMPTY
  {
  }

  method WriteTriedSlot(m: AddrManager, t: Slot, id: int)
    requires m.Valid() && id >= 0 && t.bucket < TRIED_BUCKET_COUNT && t.pos < BUCKET_SIZE
    modifies m`triedTable, m.vvTried
    ensures m.Valid() && m.triedTable == old(m.triedTable)[t := id]
  {
    m.vvTried[t.bucket, t.pos] := id;
    m.triedTable := m.triedTable[t := id];
  }

  lemma CellIsFree(m: AddrManager, t: Slot)
    requires m.Valid() && t.bucket < TRIED_BUCKET_COUNT && t.pos < BUCKET_SIZE
    ensures m.vvTried[t.bucket, t.pos] == -1 <==> t !in m.triedTable
  {
  }

  method ReadTriedEntry(m: AddrManager, e: Entry, ghost s: State) returns (lost: bool)
    requires m.Valid() && m.idCount >= 0 && m.Abs() == s.(nTried := m.nTried)
    modifies m, m.vvTried
    ensures m.Valid() && m.idCount >= 0 && m.nTried == old(m.nTried)
    ensures m.Abs() == TriedEntry(m.env, s, e).(nTried := m.nTried)
    ensures TriedEntry(m.env, s, e).nTried == s.nTried + if lost then 0 else 1
  {
    hide AddrMan.Shows, Bump;
    var t := m.env.TriedSlot(e.addr.service);
    CellIsFree(m, t);
    lost := !(m.env.isValid(e.addr.service.ip) && m.vvTried[t.bucket, t.pos] == -1);
    if !lost {
      WriteTriedSlot(m, t, m.idCount);
      AppendTried(m, e);
    }
  }

  method AppendTried(m: AddrManager, e: Entry)
    requires m.Valid()
    modifies m`info, m`random, m`index, m`idCount, m`counts
    ensures m.Valid() && m.idCount == old(m.idCount) + 1
    ensures m.info == old(m.info)[old(m.idCount) := Loaded(e, true, |old(m.random)|)]
    ensures m.random == old(m.random) + [old(m.idCount)] && m.index == old(m.index)[e.addr.service := old(m.idCount)]
    ensures m.counts == Bump(old(m.counts), m.env.network(e.addr.service.ip), 0, 1)
  {
    hide AddrMan.Shows, Bump;
    var id := m.idCount;
    m.info := m.info[id := Loaded(e, true, |m.random|)];
    m.random := m.random + [id];
    m.index := m.index[e.addr.service := id];
    m.idCount := m.idCount + 1;
    m.counts := Bump(m.counts, m.env.network(e.addr.service.ip), 0, 1);
  }

  method ReadTried(m: AddrManager, es: seq<Entry>)
    requires m.Valid() && m.idCount >= 0 && m.nTried == 0
    modifies m, m.vvTried
    ensures m.Valid() && m.idCount >= 0 && m.Abs() == LoadTried(m.env, old(m.Abs()), es)
  {
    hide LoadTried, TriedEntry, AddrMan.Shows;
    ghost var s := m.Abs();
    m.nTried := |es|;
    var nLost := 0;
    assert es[..0] == [];
    LoadTriedNone(m.env, s);
    for n := 0 to |es|
      invariant m.Valid() && m.idCount >= 0 && m.nTried == |es| && LoadTried(m.env, s, es[..n]).nTried == n - nLost
      invariant m.Abs() == LoadTried(m.env, s, es[..n]).(nTried := |es|)
    {
      LoadTriedNext(m.env, s, es, n);
      var lost := ReadTriedEntry(m, es[n], LoadTried(m.env, s, es[..n]));
      if lost { nLost := nLost + 1; }
    }
    m.nTried := m.nTried - nLost;
    assert es[..|es|] == es;
  }

  lemma LoadTriedNone(env: Env, s: State)
    ensures LoadTried(env, s, []) == s
  {
  }

  /** The bucket entries that refer to an entry that was read. */
  method ReadPairs(buckets: seq<seq<int>>, nNew: int) returns (pairs: seq<(nat, int)>)
    ensures pairs == Pairs(buckets, nNew)
  {
    pairs := [];
    for b := 0 to |buckets|
      invariant pairs == Pairs(buckets[..b], nNew)
    {
      ghost var done := pairs;
      var list := buckets[b];
      for n := 0 to |list|
        invariant pairs == done + BucketPairs(b, list[..n], nNew)
      {
        assert list[..n + 1][..n] == list[..n];
        if list[n] >= 0 && list[n] < nNew { pairs := pairs + [(b, list[n])]; }
      }
      assert list[..|list|] == list && buckets[..b + 1][..b] == buckets[..b];
    }
    assert buckets[..|buckets|] == buckets;
  }

  method PlacePair(m: AddrManager, bucket: nat, id: int, restore: bool)
    requires m.Valid() && id in m.info && id >= 0 && (restore ==> bucket < NEW_BUCKET_COUNT)
    modifies m, m.vvNew
    ensures m.Valid() && m.Abs() == PlaceOne(m.env, old(m.Abs()), bucket, id, restore)
  {
    var e := m.info[id];
    if !m.env.isValid(e.addr.service.ip) { return; }
    if e.refCount >= NEW_BUCKETS_PER_ADDRESS { return; }
    var t := m.env.NewSlotIn(e.addr.service, bucket);
    if restore && m.vvNew[t.bucket, t.pos] == -1 {
      m.EnterNew(id, t);
    } else {
      t := m.env.NewSlot(e.addr.service, e.source);
      if m.vvNew[t.bucket, t.pos] == -1 {
        m.EnterNew(id, t);
      }
    }
  }

  method PlacePairs(m: AddrManager, pairs: seq<(nat, int)>, restore: bool)
    requires m.Valid() && Known(pairs, m.Abs())
    requires forall i :: 0 <= i < |pairs| ==> pairs[i].1 >= 0 && (restore ==> pairs[i].0 < NEW_BUCKET_COUNT)
    modifies m, m.vvNew
    ensures m.Valid() && m.Abs() == PlaceAll(m.env, old(m.Abs()), pairs, restore)
  {
    hide PlaceOne, AddrMan.Shows;
    ghost var s := m.Abs();
    for n := 0 to |pairs|
      invariant m.Valid() && m.Abs() == PlaceAll(m.env, s, pairs[..n], restore)
    {
      assert pairs[..n + 1][..n] == pairs[..n];
      PlacePair(m, pairs[n].0, pairs[n].1, restore);
    }
    assert pairs[..|pairs|] == pairs;
  }

  // ------------------------------------------------------------ pruning

  /** The ids are consecutive and every one has its place in `random`. */
  ghost predicate Sequential(s: State) {
    RandomOk(s.info, s.random) && s.idCount >= 0 && forall k :: k in s.info <==> 0 <= k < s.idCount
  }

  lemma {:induction false} LoadNewSequential(env: Env, es: seq<Entry>)
    ensures Sequential(LoadNew(env, es))
  {
    if es != [] { LoadNewSequential(env, es[..|es| - 1]); }
  }

  lemma {:induction false} LoadTriedSequential(env: Env, s: State, es: seq<Entry>)
    requires Sequential(s)
    ensures Sequential(LoadTried(env, s, es))
  {
    if es != [] {
      LoadTriedSequential(env, s, es[..|es| - 1]);
      TriedEntrySequential(env, LoadTried(env, s, es[..|es| - 1]), es[|es| - 1]);
    }
  }

  lemma TriedEntrySequential(env: Env, s: State, e: Entry)
    requires Sequential(s)
    ensures Sequential(TriedEntry(env, s, e))
  {
  }

  lemma {:induction false} PlaceAllSequential(env: Env, s: State, pairs: seq<(nat, int)>, restore: bool)
    requires Sequential(s) && Known(pairs, s)
    ensures Sequential(PlaceAll(env, s, pairs, restore))
  {
    if pairs != [] {
      var n := |pairs| - 1;
      PlaceAllSequential(env, s, pairs[..n], restore);
      PlaceOneSequential(env, PlaceAll(env, s, pairs[..n], restore), pairs[n].0, pairs[n].1, restore);
    }
  }

  lemma PlaceOneSequential(env: Env, s: State, bucket: nat, id: int, restore: bool)
    requires Sequential(s) && id in s.info
    ensures Sequential(PlaceOne(env, s, bucket, id, restore))
  {
  }

  lemma DropLast(info: map<int, Info>, random: seq<int>, id: int)
    requires RandomOk(info, random) && random != [] && random[|random| - 1] == id
    ensures RandomOk(info - {id}, random[..|random| - 1])
  {
  }

  lemma DeleteRandom(env: Env, s: State, id: int)
    requires RandomOk(s.info, s.random) && id in s.info
    ensures Deletable(s, id)
    ensures var d := Delete(env, s, id); RandomOk(d.info, d.random) && d.info.Keys == s.info.Keys - {id}
  {
    var i, j := s.info[id].randomPos, |s.random| - 1;
    var t := SwapRandom(s, i, j);
    assert Deletable(s, id);
    assert Delete(env, s, id).info == t.info - {id} && Delete(env, s, id).random == t.random[..j];
    assert t.random[j] == id;
    SwapRandomOk(s, i, j);
    DropLast(t.info, t.random, id);
  }

  ghost predicate AllUsed(info: map<int, Info>) {
    forall id :: id in info ==> Used(info[id])
  }

  /** One more entry is looked at. */
  lemma PrunedNext(env: Env, s: State, t: State, todo: set<int>, id: int, pending: set<int>)
    requires Pruned(env, s, todo + {id}, t) && id in t.info && id !in todo
    ensures Used(t.info[id]) ==> Pruned(env, s, todo, t)
    ensures !Used(t.info[id]) ==> Deletable(t, id) && Pruned(env, s, todo, Delete(env, t, id))
    ensures !Used(t.info[id]) && Inv(env, t, {}, pending) ==> Inv(env, Delete(env, t, id), {}, pending)
  {
    hide Inv, Pruned;
    if Used(t.info[id]) {
      UsedNext(env, s, t, todo, id);
    } else {
      DeletedNext(env, s, t, todo, id);
      if Inv(env, t, {}, pending) {
        DeleteInv(env, t, id, {}, pending);
        PendingWeaken(env, Delete(env, t, id), {}, pending - {id}, pending);
      }
    }
  }

  lemma UsedNext(env: Env, s: State, t: State, todo: set<int>, id: int)
    requires Pruned(env, s, todo + {id}, t) && id in t.info && id !in todo && Used(t.info[id])
    ensures Pruned(env, s, todo, t)
  {
    hide RandomOk, IndexPruned, CountsPruned, Gone;
    GoneNext(s, todo, id);
    UsedCounts(env, s, t, todo, id);
  }

  lemma DeletedNext(env: Env, s: State, t: State, todo: set<int>, id: int)
    requires Pruned(env, s, todo + {id}, t) && id in t.info && id !in todo && !Used(t.info[id])
    ensures Deletable(t, id) && Pruned(env, s, todo, Delete(env, t, id))
  {
    hide RandomOk, IndexPruned, CountsPruned, Gone, EntriesPruned;
    DeletedEntries(env, s, t, todo, id);
    GoneNext(s, todo, id);
    DeletedIndex(env, s, t, todo, id);
    DeletedCounts(env, s, t, todo, id);
  }

  lemma DeletedEntries(env: Env, s: State, t: State, todo: set<int>, id: int)
    requires EntriesPruned(s, todo + {id}, t) && RandomOk(t.info, t.random)
    requires id in t.info && id !in todo && !Used(t.info[id])
    ensures Deletable(t, id) && id in s.info && !Used(s.info[id]) && t.info[id].addr == s.info[id].addr
    ensures var d := Delete(env, t, id); EntriesPruned(s, todo, d) && RandomOk(d.info, d.random)
  {
    hide RandomOk;
    DeleteRandom(env, t, id);
    DeleteFrame(env, t, id);
  }

  lemma GoneNext(s: State, todo: set<int>, id: int)
    requires id in s.info && id !in todo
    ensures Gone(s, todo) == if Used(s.info[id]) then Gone(s, todo + {id}) else Gone(s, todo + {id}) + {id}
    ensures id !in Gone(s, todo + {id})
  {
    var A, B := Gone(s, todo), if Used(s.info[id]) then Gone(s, todo + {id}) else Gone(s, todo + {id}) + {id};
    assert forall x :: x in A <==> x in B;
  }

  lemma UsedCounts(env: Env, s: State, t: State, todo: set<int>, id: int)
    requires id in s.info && id !in todo && Used(s.info[id])
    requires IndexPruned(s, todo + {id}, t) && CountsPruned(env, s, todo + {id}, t)
    ensures IndexPruned(s, todo, t) && CountsPruned(env, s, todo, t)
  {
    hide Gone;
    GoneNext(s, todo, id);
    forall a ensures LostService(s, todo, a) <==> LostService(s, todo + {id}, a) {
    }
    forall net: nat ensures GoneOf(env, s, todo, net) == GoneOf(env, s, todo + {id}, net) {
    }
  }

  lemma DeletedIndex(env: Env, s: State, t: State, todo: set<int>, id: int)
    requires id in s.info && id !in todo && !Used(s.info[id]) && Deletable(t, id)
    requires t.info[id].addr == s.info[id].addr && IndexPruned(s, todo + {id}, t)
    ensures IndexPruned(s, todo, Delete(env, t, id))
  {
    GoneNext(s, todo, id);
    forall a ensures LostService(s, todo, a) <==> LostService(s, todo + {id}, a) || a == s.info[id].addr.service {
      if a == s.info[id].addr.service { assert id in Gone(s, todo); }
      if LostService(s, todo + {id}, a) {
        var x :| x in Gone(s, todo + {id}) && s.info[x].addr.service == a;
        assert x in Gone(s, todo);
      }
    }
    assert Delete(env, t, id).index == t.index - {s.info[id].addr.service};
  }

  lemma GoneOfNext(env: Env, s: State, todo: set<int>, id: int, net: nat)
    requires id in s.info && id !in todo && !Used(s.info[id])
    ensures var A, B := GoneOf(env, s, todo, net), GoneOf(env, s, todo + {id}, net);
            if env.network(s.info[id].addr.service.ip) == net then id in A && |A| == |B| + 1 else A == B
  {
    hide Gone;
    GoneNext(s, todo, id);
    var A, B := GoneOf(env, s, todo, net), GoneOf(env, s, todo + {id}, net);
    if env.network(s.info[id].addr.service.ip) == net {
      assert forall x :: x in A <==> x in B + {id};
      assert A == B + {id} && id !in B;
    } else {
      assert forall x :: x in A <==> x in B;
    }
  }

  lemma DeletedCounts(env: Env, s: State, t: State, todo: set<int>, id: int)
    requires id in s.info && id !in todo && !Used(s.info[id]) && Deletable(t, id)
    requires t.info[id].addr == s.info[id].addr && CountsPruned(env, s, todo + {id}, t)
    ensures CountsPruned(env, s, todo, Delete(env, t, id))
  {
    hide Gone, GoneOf;
    var mine, d := env.network(s.info[id].addr.service.ip), Delete(env, t, id);
    assert d.counts == Bump(t.counts, mine, -1, 0);
    forall net: nat
      ensures net in d.counts <==> net in s.counts || GoneOf(env, s, todo, net) != {}
      ensures net in d.counts ==>
                d.counts[net] == Tally(Count(s.counts, net).nNew - |GoneOf(env, s, todo, net)|,
                                       Count(s.counts, net).nTried)
    {
      GoneOfNext(env, s, todo, id, net);
    }
  }

  // ------------------------------------------------------------ pruning has one outcome

  /** Two states that differ only in the random order. */
  ghost predicate SameButOrder(s: State, t: State) {
    && (forall id :: id in s.info <==> id in t.info)
    && (forall id :: id in t.info ==> t.info[id] == s.info[id].(randomPos := t.info[id].randomPos))
    && s.index == t.index && s.counts == t.counts && s.nNew == t.nNew && s.nTried == t.nTried
    && s.newTable == t.newTable && s.triedTable == t.triedTable
    && RandomOk(s.info, s.random) && RandomOk(t.info, t.random)
  }

  lemma SameMembers(env: Env, s: State, t: State)
    requires SameButOrder(s, t)
    ensures forall tried :: Members(s.info, {}, tried) == Members(t.info, {}, tried)
    ensures forall tried, net: nat :: MembersOf(env, s.info, {}, tried, net) == MembersOf(env, t.info, {}, tried, net)
    ensures Nets(env, s.info, {}) == Nets(env, t.info, {})
  {
    forall tried, net: nat ensures MembersOf(env, s.info, {}, tried, net) == MembersOf(env, t.info, {}, tried, net) {
      var A, B := MembersOf(env, s.info, {}, tried, net), MembersOf(env, t.info, {}, tried, net);
      assert forall x :: x in A <==> x in B;
    }
    forall tried ensures Members(s.info, {}, tried) == Members(t.info, {}, tried) {
      var A, B := Members(s.info, {}, tried), Members(t.info, {}, tried);
      assert forall x :: x in A <==> x in B;
    }
    var A, B := Nets(env, s.info, {}), Nets(env, t.info, {});
    forall net ensures net in A <==> net in B {
      if net in A {
        var id :| id in s.info && env.network(s.info[id].addr.service.ip) == net;
        assert id in t.info && env.network(t.info[id].addr.service.ip) == net;
      }
      if net in B {
        var id :| id in t.info && env.network(t.info[id].addr.service.ip) == net;
        assert id in s.info && env.network(s.info[id].addr.service.ip) == net;
      }
    }
  }

  lemma SameEntries(s: State, t: State)
    requires SameButOrder(s, t) && EntriesPass(s)
    ensures EntriesPass(t)
  {
    forall id | id in t.info ensures EntryPasses(t, id) {
      assert EntryPasses(s, id);
    }
  }

  lemma EntryLike(s: State, t: State, id: int)
    requires SameButOrder(s, t) && id in s.info
    ensures id in t.info && t.info[id].addr == s.info[id].addr && t.info[id].inTried == s.info[id].inTried
  {
  }

  lemma SameTables(env: Env, s: State, t: State)
    requires SameButOrder(s, t) && TriedPasses(env, s) && NewPasses(env, s)
    ensures TriedPasses(env, t) && NewPasses(env, t)
  {
    hide RandomOk, Slots;
    forall u | u in t.triedTable ensures TriedSlotPasses(env, t, u) {
      assert u in s.triedTable && TriedSlotPasses(env, s, u);
      EntryLike(s, t, s.triedTable[u]);
    }
    forall u | u in t.newTable ensures NewSlotPasses(env, t, u) {
      assert u in s.newTable && NewSlotPasses(env, s, u);
      EntryLike(s, t, s.newTable[u]);
    }
    forall id | id in t.info && t.info[id].inTried ensures HoldsTriedSlot(env, t, id) {
      assert HoldsTriedSlot(env, s, id);
    }
  }

  lemma SameChecks(env: Env, s: State, t: State)
    requires SameButOrder(s, t) && Checks(env, s)
    ensures Checks(env, t)
  {
    hide EntriesPass, TriedPasses, NewPasses, Members, CountsPass, RandomOk;
    SameMembers(env, s, t);
    SameEntries(s, t);
    SameTables(env, s, t);
    SameCounts(env, s, t);
    SameLength(s, t);
  }

  lemma SameLength(s: State, t: State)
    requires SameButOrder(s, t)
    ensures |s.random| == |t.random|
  {
    var A, B := s.info.Keys, t.info.Keys;
    assert forall id :: id in A <==> id in B;
    assert A == B;
    RandomCard(s.info, s.random);
    RandomCard(t.info, t.random);
  }

  lemma SameCounts(env: Env, s: State, t: State)
    requires SameButOrder(s, t) && CountsPass(env, s)
    ensures CountsPass(env, t)
  {
    hide Members, MembersOf, Nets, RandomOk;
    SameMembers(env, s, t);
    forall net | net in t.counts ensures TallyOk(env, t.info, {}, t.counts, net) {
      assert TallyOk(env, s.info, {}, s.counts, net);
      assert MembersOf(env, t.info, {}, false, net) == MembersOf(env, s.info, {}, false, net);
      assert MembersOf(env, t.info, {}, true, net) == MembersOf(env, s.info, {}, true, net);
    }
  }

  lemma PrunedSame(env: Env, w: State, s: State, t: State)
    requires Pruned(env, w, {}, s) && Pruned(env, w, {}, t)
    ensures SameButOrder(s, t)
  {
    hide RandomOk, Gone, GoneOf, LostService;
    assert s.index.Keys == t.index.Keys && s.index == t.index;
    assert s.counts.Keys == t.counts.Keys && s.counts == t.counts;
  }

  /** Whatever the order of deletion, the check says the same afterwards. */
  lemma PrunedChecks(env: Env, w: State, s: State, t: State)
    requires Pruned(env, w, {}, s) && Pruned(env, w, {}, t)
    ensures Checks(env, s) <==> Checks(env, t)
  {
    hide Pruned, Checks, SameButOrder;
    PrunedSame(env, w, s, t);
    PrunedSame(env, w, t, s);
    if Checks(env, s) { SameChecks(env, s, t); }
    if Checks(env, t) { SameChecks(env, t, s); }
  }

  /** Delete the new entries that found no slot: exactly those, and nothing else changes. */
  method Prune(m: AddrManager, ghost pending: set<int>) returns (lost: nat)
    requires m.Valid() && RandomOk(m.info, m.random)
    modifies m
    ensures m.Valid() && Pruned(m.env, old(m.Abs()), {}, m.Abs())
    ensures lost + |m.info.Keys| == |old(m.info.Keys)|
    ensures old(Inv(m.env, m.Abs(), {}, pending)) ==> Inv(m.env, m.Abs(), {}, pending)
    ensures old(AllUsed(m.info)) ==> m.Abs() == old(m.Abs())
  {
    hide RandomOk, AddrMan.Shows, Delete, Inv, Pruned, Used;
    ghost var s := m.Abs();
    lost := 0;
    var todo := m.info.Keys;
    NothingDone(m.env, s, todo);
    while todo != {}
      invariant m.Valid() && RandomOk(m.info, m.random) && todo <= m.info.Keys
      invariant Pruned(m.env, s, todo, m.Abs())
      invariant lost + |m.info.Keys| == |s.info.Keys|
      invariant Inv(m.env, s, {}, pending) ==> Inv(m.env, m.Abs(), {}, pending)
      invariant AllUsed(s.info) ==> m.Abs() == s
      decreases |todo|
    {
      SomeInt(todo);
      var id :| id in todo;
      var rest := todo - {id};
      assert rest + {id} == todo;
      PrunedNext(m.env, s, m.Abs(), rest, id, pending);
      todo := rest;
      if !Used(m.info[id]) {
        UnusedIs(m.info[id]);
        DeleteRandom(m.env, m.Abs(), id);
        m.DeleteEntry(id);
        lost := lost + 1;
      }
    }
  }

  lemma NothingDone(env: Env, s: State, todo: set<int>)
    requires todo == s.info.Keys && RandomOk(s.info, s.random)
    ensures Pruned(env, s, todo, s)
  {
    hide RandomOk;
    assert Gone(s, todo) == {};
    assert forall net: nat :: GoneOf(env, s, todo, net) == {};
  }

  lemma UnusedIs(e: Info)
    ensures !Used(e) <==> !e.inTried && e.refCount == 0
  {
  }

  ghost predicate TooLong(saved: Saved) {
    |saved.newEntries| > NEW_BUCKET_COUNT * BUCKET_SIZE || |saved.triedEntries| > TRIED_BUCKET_COUNT * BUCKET_SIZE
  }

  /**
   Read a manager in. Whatever the file, its entries are entered one after the other
   and those without references deleted; reading fails exactly if the check does. If
   the entries are those of a consistent manager, under whatever net groups, the
   result is consistent, and an entry that is missing has its slot taken.
  */
  method Unserialize(m: AddrManager, saved: Saved, asmap: int) returns (ok: bool)
    requires m.Valid() && m.Abs() == EMPTY
    modifies m, m.vvTried, m.vvNew
    ensures m.Valid() && (TooLong(saved) ==> !ok && m.Abs() == EMPTY)
    ensures !TooLong(saved) ==>
              Pruned(m.env, Load(m.env, saved, asmap), {}, m.Abs()) && (ok <==> Checks(m.env, m.Abs()) && m.key != 0)
    ensures !TooLong(saved) && Consistent(m.env, Load(m.env, saved, asmap)) ==> m.Abs() == Load(m.env, saved, asmap)
    ensures SoundFile(m.env, saved) ==> Consistent(m.env, m.Abs()) && Kept(m.env, saved, m.Abs())
    ensures Drawn(saved, m.info)
  {
    hide LoadNew, LoadTried, PlaceAll, AllUsed, Consistent, Checks, AddrMan.Shows,
      Sound, Arranged, Kept, Pruned, Inv, Drawn;
    if |saved.newEntries| > NEW_BUCKET_COUNT * BUCKET_SIZE {
      DrawnNone(saved);
      return false;
    }
    if |saved.triedEntries| > TRIED_BUCKET_COUNT * BUCKET_SIZE {
      DrawnNone(saved);
      return false;
    }
    LoadSequential(m.env, saved, asmap);
    var nNew := |saved.newEntries|;
    ReadNew(m, saved.newEntries);
    ReadTried(m, saved.triedEntries);
    var pairs := ReadPairs(saved.buckets, nNew);
    PlacePairs(m, pairs, |saved.buckets| == NEW_BUCKET_COUNT && saved.asmap == asmap);
    ghost var t := m.Abs();
    assert t == Load(m.env, saved, asmap);
    if SoundFile(m.env, saved) { LoadArranged(m.env, saved, asmap); }
    ok := Finish(m, saved);
    LoadDrawn(m.env, saved, asmap);
    PrunedDrawn(m.env, saved, t, m.Abs());
  }

  lemma DrawnNone(saved: Saved)
    ensures Drawn(saved, EMPTY.info)
  {
  }

  /** Prune and check. */
  method Finish(m: AddrManager, saved: Saved) returns (ok: bool)
    requires m.Valid() && RandomOk(m.info, m.random)
    modifies m
    ensures m.Valid() && Pruned(m.env, old(m.Abs()), {}, m.Abs()) && (ok <==> Checks(m.env, m.Abs()) && m.key != 0)
    ensures old(Consistent(m.env, m.Abs())) ==> m.Abs() == old(m.Abs())
    ensures old(Arranged(m.env, saved, m.Abs())) ==> Consistent(m.env, m.Abs()) && Kept(m.env, saved, m.Abs())
  {
    hide AllUsed, Consistent, Checks, AddrMan.Shows, Arranged, Kept, Pruned, Inv;
    ghost var t := m.Abs();
    if Consistent(m.env, t) { NothingPruned(m.env, t); }
    if Arranged(m.env, saved, t) { ArrangedInv(m.env, saved, t); }
    var lost := Prune(m, Upto(|saved.newEntries|));
    if Arranged(m.env, saved, t) { ArrangedKept(m.env, saved, t, m.Abs()); }
    var code := m.CheckAddrman();
    ok := code == 0;
  }

  lemma ArrangedInv(env: Env, saved: Saved, w: State)
    requires Arranged(env, saved, w)
    ensures Inv(env, w, {}, Upto(|saved.newEntries|))
  {
    hide Inv;
  }

  lemma LoadSequential(env: Env, saved: Saved, asmap: int)
    ensures var u := LoadNew(env, saved.newEntries);
            var v := LoadTried(env, u, saved.triedEntries);
            && u.idCount >= 0 && u.nTried == 0
            && Known(Pairs(saved.buckets, |saved.newEntries|), v)
    ensures RandomOk(Load(env, saved, asmap).info, Load(env, saved, asmap).random)
  {
    hide RandomOk, Pairs;
    var u := LoadNew(env, saved.newEntries);
    var v := LoadTried(env, u, saved.triedEntries);
    LoadNewSequential(env, saved.newEntries);
    LoadNewKeys(env, saved.newEntries);
    LoadNewTried(env, saved.newEntries);
    LoadTriedKeys(env, u, saved.triedEntries);
    LoadTriedSequential(env, u, saved.triedEntries);
    var restore := |saved.buckets| == NEW_BUCKET_COUNT && saved.asmap == asmap;
    PlaceAllSequential(env, v, Pairs(saved.buckets, |saved.newEntries|), restore);
  }

  lemma {:induction false} LoadNewTried(env: Env, es: seq<Entry>)
    ensures LoadNew(env, es).nTried == 0
  {
    if es != [] { LoadNewTried(env, es[..|es| - 1]); }
  }

  lemma SavedFits(env: Env, s: State, p: seq<int>, q: seq<int>, asmap: int)
    requires Consistent(env, s) && Ids(s, p, q)
    ensures |SavedOf(s, p, q, asmap).newEntries| <= NEW_BUCKET_COUNT * BUCKET_SIZE
    ensures |SavedOf(s, p, q, asmap).triedEntries| <= TRIED_BUCKET_COUNT * BUCKET_SIZE
  {
    hide NewOk, TriedOk, RandomOk, IndexOk, CountsOk, BucketList;
    FewNew(env, s, p);
    FewTried(env, s, q);
  }

  lemma NothingPruned(env: Env, t: State)
    requires Consistent(env, t)
    ensures AllUsed(t.info)
  {
    hide IndexOk, RandomOk, CountsOk;
  }

  /** The times that are saved are right; the time of the last try is not saved. */
  ghost predicate SavedStamped(info: map<int, Info>) {
    forall id :: id in info ==> StampOk(info[id].(lastTry := 0))
  }

  /**
   Written and read in again, a consistent manager is the same one under other ids; it is
   refused exactly for its times or its key.
  */
  method Reload(m: AddrManager, order: seq<int>, asmap: int)
      returns (saved: Saved, n: AddrManager, ok: bool, ghost ids: seq<int>)
    requires m.Valid() && Consistent(m.env, m.Abs()) && Order(m.Abs(), order)
    ensures n.Valid() && n.env == m.env && n.key == m.key && Consistent(m.env, n.Abs())
    ensures forall k :: 0 <= k < |order| ==> order[k] in m.info
    ensures var p, q := Pick(m.Abs(), order, |order|, false), Pick(m.Abs(), order, |order|, true);
            Ids(m.Abs(), p, q) && saved == SavedOf(m.Abs(), p, q, asmap)
    ensures n.Abs() == Load(m.env, saved, asmap) && Renamed(m.Abs(), n.Abs(), ids)
    ensures ok <==> m.key != 0 && SavedStamped(m.info)
  {
    hide Consistent, Renamed, SavedOf, Ids, Pick, Order, Checks, AddrMan.Shows,
      Load, Drawn, SavedStamped, Stamped, Pruned;
    ghost var s := m.Abs();
    saved := Serialize(m, order, asmap);
    n := new AddrManager(m.env, m.key);
    ghost var p, q := Pick(s, order, |order|, false), Pick(s, order, |order|, true);
    SavedFits(m.env, s, p, q, asmap);
    RoundTrip(m.env, s, p, q, asmap);
    ok := Unserialize(n, saved, asmap);
    ids := p + q;
    ConsistentChecks(m.env, n.Abs());
    RenamedStamps(saved, s, n.Abs(), ids);
  }

  lemma RenamedStamps(saved: Saved, s: State, t: State, ids: seq<int>)
    requires Renamed(s, t, ids) && Drawn(saved, t.info)
    ensures Stamped(t.info) <==> SavedStamped(s.info)
  {
    hide SameTable, Drawn;
    forall k | 0 <= k < |ids| ensures StampOk(t.info[k]) <==> StampOk(s.info[ids[k]].(lastTry := 0)) {
      assert SameEntry(t.info[k], s.info[ids[k]]);
      DrawnAt(saved, t.info, k);
    }
    if Stamped(t.info) {
      forall id | id in s.info ensures StampOk(s.info[id].(lastTry := 0)) {
        var k :| 0 <= k < |ids| && ids[k] == id;
        assert k in t.info && StampOk(t.info[k]);
      }
    }
    if SavedStamped(s.info) {
      forall k | k in t.info ensures StampOk(t.info[k]) {
        assert ids[k] in s.info && StampOk(s.info[ids[k]].(lastTry := 0));
      }
    }
  }

  lemma DrawnAt(saved: Saved, info: map<int, Info>, id: int)
    requires Drawn(saved, info) && id in info
    ensures info[id].lastTry == 0
  {
    assert IsDrawn(saved, info[id]);
  }

  /**
   Written, and read in again under other net groups, a consistent manager is a
   consistent one: no address is made up, the ones missing have their slots taken by
   another, and reading succeeds if the times were right.
  */
  method Rebucket(m: AddrManager, order: seq<int>, asmap: int, env: Env, asmap': int)
      returns (n: AddrManager, ok: bool, saved: Saved)
    requires m.Valid() && Consistent(m.env, m.Abs()) && Order(m.Abs(), order)
    requires forall a :: m.env.isValid(a) ==> env.isValid(a)
    ensures n.Valid() && n.env == env && n.key == m.key && Consistent(env, n.Abs()) && Kept(env, saved, n.Abs())
    ensures Pruned(env, Load(env, saved, asmap'), {}, n.Abs())
    ensures ok <==> m.key != 0 && Stamped(n.info)
    ensures SavedStamped(m.info) ==> Stamped(n.info)
    ensures forall k :: 0 <= k < |order| ==> order[k] in m.info
    ensures var p, q := Pick(m.Abs(), order, |order|, false), Pick(m.Abs(), order, |order|, true);
            Ids(m.Abs(), p, q) && saved == SavedOf(m.Abs(), p, q, asmap)
  {
    hide Consistent, SavedOf, Ids, Pick, Order, Checks, AddrMan.Shows, Sound, Kept, Renamed,
      Load, Drawn, SavedStamped, Stamped, Pruned;
    ghost var s := m.Abs();
    saved := Serialize(m, order, asmap);
    n := new AddrManager(env, m.key);
    ghost var p, q := Pick(s, order, |order|, false), Pick(s, order, |order|, true);
    SavedSound(m.env, env, s, p, q);
    SavedFits(m.env, s, p, q, asmap);
    SavedParts(s, p, q, asmap);
    ok := Unserialize(n, saved, asmap');
    ConsistentChecks(env, n.Abs());
    if SavedStamped(s.info) {
      SavedSuccesses(s, p, q, asmap);
      DrawnStamped(saved, n.info);
    }
  }

  lemma SavedSuccesses(s: State, p: seq<int>, q: seq<int>, asmap: int)
    requires Ids(s, p, q) && SavedStamped(s.info)
    ensures SuccessesOk(SavedOf(s, p, q, asmap))
  {
    hide BucketList;
    var saved := SavedOf(s, p, q, asmap);
    forall e | e in saved.newEntries ensures e.lastSuccess >= 0 {
      var k :| 0 <= k < |p| && e == Persist(s.info[p[k]]);
      assert StampOk(s.info[p[k]].(lastTry := 0));
    }
    forall e | e in saved.triedEntries ensures e.lastSuccess > 0 {
      var k :| 0 <= k < |q| && e == Persist(s.info[q[k]]);
      assert StampOk(s.info[q[k]].(lastTry := 0));
    }
  }

  lemma SavedParts(s: State, p: seq<int>, q: seq<int>, asmap: int)
    requires Ids(s, p, q)
    ensures SavedOf(s, p, q, asmap).newEntries == Entries(s, p) && |Entries(s, p)| == |p|
    ensures SavedOf(s, p, q, asmap).triedEntries == Entries(s, q)
  {
  }
}
