/**
 Compact blocks (BIP 152): rebuilding a block from short transaction ids, the
 memory pool, some extra transactions and the ones asked for.
*/
module BlockEncodings {
  import opened Prelude

  /** A transaction, with its witness hash. */
  datatype Tx = Tx(hash: int, isNull: bool, body: int)

  /** `index` counts from the previous prefilled transaction. */
  datatype Prefilled = Prefilled(index: nat, tx: Tx)

  /** Header zero is the null header; `shortId` is the keyed hash of the message. */
  datatype Compact = Compact(header: nat, shortIds: seq<nat>, prefilled: seq<Prefilled>, shortId: int -> nat)

  datatype Status = OK | INVALID | FAILED | CHECKBLOCK_FAILED

  const MAX_TXS: nat := 100000  // the maximal block weight over the least weight of a transaction
  const UINT16_MAX: nat := 65535

  type Slots = seq<Option<Tx>>

  // ------------------------------------------------------------ free slots

  /** The empty slots, in order. */
  function Free(a: Slots): seq<nat> {
    if a == [] then [] else
      Free(a[..|a| - 1]) + if a[|a| - 1].None? then [|a| - 1] else []
  }

  lemma {:induction false} FreeOk(a: Slots)
    ensures |Free(a)| <= |a|
    ensures forall k :: 0 <= k < |Free(a)| ==> Free(a)[k] < |a| && a[Free(a)[k]].None?
    ensures forall j, k :: 0 <= j < k < |Free(a)| ==> Free(a)[j] < Free(a)[k]
  {
    if a != [] { FreeOk(a[..|a| - 1]); }
  }

  lemma {:induction false} FreeHas(a: Slots, s: nat)
    requires s < |a| && a[s].None?
    ensures s in Free(a)
  {
    if s < |a| - 1 { FreeHas(a[..|a| - 1], s); }
  }

  /** The slots of a prefix are the first ones. */
  lemma {:induction false} FreePrefix(a: Slots, n: nat)
    requires n <= |a|
    ensures |Free(a[..n])| <= |Free(a)| && Free(a)[..|Free(a[..n])|] == Free(a[..n])
    decreases |a|
  {
    if n == |a| {
      assert a[..n] == a;
    } else {
      var b := a[..|a| - 1];
      assert a[..n] == b[..n];
      FreePrefix(b, n);
    }
  }

  lemma FreeNext(a: Slots, n: nat)
    requires n < |a|
    ensures Free(a[..n + 1]) == Free(a[..n]) + if a[n].None? then [n] else []
  {
    assert a[..n + 1][..n] == a[..n];
  }

  lemma {:induction false} FreeUpdate(a: Slots, s: nat, v: Option<Tx>)
    requires s < |a|
    ensures |Free(a[s := v])| == |Free(a)| + (if v.None? then 1 else 0) - (if a[s].None? then 1 else 0)
  {
    var n := |a| - 1;
    var b := a[s := v];
    if s == n {
      assert b[..n] == a[..n];
    } else {
      assert b[..n] == a[..n][s := v];
      FreeUpdate(a[..n], s, v);
    }
  }

  lemma {:induction false} FreeEmpty(n: nat)
    ensures |Free(seq(n, i => None))| == n
  {
    if n > 0 {
      var a: Slots := seq(n, i => None);
      assert a[..n - 1] == seq(n - 1, i => None);
      FreeEmpty(n - 1);
    }
  }

  // ------------------------------------------------------------ prefilled transactions

  /** The position of the last of the first `i` prefilled transactions. */
  function Pos(p: seq<Prefilled>, i: nat): (r: int)
    requires i <= |p|
    ensures r >= i - 1
  {
    if i == 0 then -1 else Pos(p, i - 1) + p[i - 1].index + 1
  }

  /** No slot would be left without a transaction or a short id. */
  ghost predicate PlacedUpTo(c: Compact, n: nat)
    requires n <= |c.prefilled|
  {
    forall i :: 0 <= i < n ==>
      && !c.prefilled[i].tx.isNull
      && Pos(c.prefilled, i + 1) <= UINT16_MAX
      && Pos(c.prefilled, i + 1) <= |c.shortIds| + i
  }

  ghost predicate Placed(c: Compact) { PlacedUpTo(c, |c.prefilled|) }

  /** The one of the first `n` prefilled transactions that belongs at position `s`. */
  function PrefilledAt(p: seq<Prefilled>, n: nat, s: nat): Option<Tx>
    requires n <= |p|
  {
    if n == 0 then None else if Pos(p, n) == s then Some(p[n - 1].tx) else PrefilledAt(p, n - 1, s)
  }

  lemma {:induction false} NoneBeyond(p: seq<Prefilled>, n: nat, s: nat)
    requires n <= |p| && s > Pos(p, n)
    ensures PrefilledAt(p, n, s) == None
  {
    if n > 0 { NoneBeyond(p, n - 1, s); }
  }

  /** The slots hold the first `n` prefilled transactions, each at its position, and nothing else. */
  ghost predicate Filled(c: Compact, a: Slots, n: nat)
    requires n <= |c.prefilled|
  {
    && |a| == |c.shortIds| + |c.prefilled|
    && |Free(a)| == |a| - n
    && (forall s :: 0 <= s < |a| ==> a[s] == PrefilledAt(c.prefilled, n, s))
  }

  lemma PlacedNext(c: Compact, n: nat)
    requires n < |c.prefilled| && PlacedUpTo(c, n) && !c.prefilled[n].tx.isNull
    requires Pos(c.prefilled, n + 1) <= UINT16_MAX && Pos(c.prefilled, n + 1) <= |c.shortIds| + n
    ensures PlacedUpTo(c, n + 1)
  {
    hide Pos;
  }

  lemma FillNext(c: Compact, a: Slots, n: nat)
    requires n < |c.prefilled| && Filled(c, a, n) && PlacedUpTo(c, n + 1)
    ensures var s := Pos(c.prefilled, n + 1); 0 <= s < |a| && Filled(c, a[s := Some(c.prefilled[n].tx)], n + 1)
  {
    hide Free;
    var s := Pos(c.prefilled, n + 1);
    NoneBeyond(c.prefilled, n, s);
    FreeUpdate(a, s, Some(c.prefilled[n].tx));
  }

  // ------------------------------------------------------------ what a message stands for

  /** The message describes the block: prefilled transactions in place, short ids of the others in order. */
  ghost predicate Encodes(c: Compact, a: Slots, vtx: seq<Tx>) {
    && |vtx| == |a| && |Free(a)| == |c.shortIds|
    && (forall s :: 0 <= s < |a| && a[s].Some? ==> a[s].value == vtx[s])
    && (forall k :: 0 <= k < |c.shortIds| ==> Free(a)[k] < |vtx| && c.shortIds[k] == c.shortId(vtx[Free(a)[k]].hash))
  }

  ghost predicate Distinct(ids: seq<nat>) {
    forall j, k :: 0 <= j < k < |ids| ==> ids[j] != ids[k]
  }

  // ------------------------------------------------------------ the map of short ids

  /** The first `n` short ids, mapped to their slots; fewer entries than ids mean a collision. */
  ghost predicate Mapped(ids: seq<nat>, slots: seq<nat>, m: map<nat, nat>, n: nat)
    requires n <= |ids| && n <= |slots|
  {
    && (forall k :: 0 <= k < n ==> ids[k] in m)
    && (forall id :: id in m ==> exists k :: 0 <= k < n && ids[k] == id && m[id] == slots[k])
    && |m.Keys| <= n && (|m.Keys| == n <==> Distinct(ids[..n]))
  }

  lemma MapNext(ids: seq<nat>, slots: seq<nat>, m: map<nat, nat>, n: nat)
    requires n < |ids| && n < |slots| && Mapped(ids, slots, m, n)
    ensures Mapped(ids, slots, m[ids[n] := slots[n]], n + 1)
  {
    hide Distinct;
    var m' := m[ids[n] := slots[n]];
    MapSize(ids, slots, m, n);
    forall id | id in m' ensures exists k :: 0 <= k < n + 1 && ids[k] == id && m'[id] == slots[k] {
      if id == ids[n] {
        assert ids[n] == id && m'[id] == slots[n];
      } else {
        var k :| 0 <= k < n && ids[k] == id && m[id] == slots[k];
        assert ids[k] == id && m'[id] == slots[k];
      }
    }
  }

  lemma MapSize(ids: seq<nat>, slots: seq<nat>, m: map<nat, nat>, n: nat)
    requires n < |ids| && n < |slots| && Mapped(ids, slots, m, n)
    ensures var m' := m[ids[n] := slots[n]]; |m'.Keys| <= n + 1 && (|m'.Keys| == n + 1 <==> Distinct(ids[..n + 1]))
  {
    var m' := m[ids[n] := slots[n]];
    DistinctNext(ids, n);
    hide Distinct;
    if ids[n] in m {
      assert m'.Keys == m.Keys;
    } else {
      assert m'.Keys == m.Keys + {ids[n]};
    }
  }

  lemma DistinctNext(ids: seq<nat>, n: nat)
    requires n < |ids|
    ensures Distinct(ids[..n + 1]) <==> Distinct(ids[..n]) && forall k :: 0 <= k < n ==> ids[k] != ids[n]
  {
    var p, q := ids[..n], ids[..n + 1];
    assert forall k :: 0 <= k < n ==> p[k] == ids[k] == q[k];
    assert q[n] == ids[n];
  }

  /** Each short id has its own slot, in order, and every free slot has one. */
  ghost predicate SlotMap(c: Compact, pre: Slots, m: map<nat, nat>) {
    && |Free(pre)| == |c.shortIds| == |m.Keys|
    && (forall k :: 0 <= k < |c.shortIds| ==> c.shortIds[k] in m && m[c.shortIds[k]] == Free(pre)[k])
    && (forall id :: id in m ==> m[id] < |pre| && pre[m[id]].None?)
    && (forall id, jd :: id in m && jd in m && id != jd ==> m[id] != m[jd])
    && (forall s :: 0 <= s < |pre| && pre[s].None? ==> exists id :: id in m && m[id] == s)
  }

  lemma MappedAll(c: Compact, pre: Slots, m: map<nat, nat>)
    requires |Free(pre)| == |c.shortIds| && Mapped(c.shortIds, Free(pre), m, |c.shortIds|) && |m.Keys| == |c.shortIds|
    ensures SlotMap(c, pre, m) && Distinct(c.shortIds)
  {
    hide Free;
    var ids, slots := c.shortIds, Free(pre);
    assert ids[..|ids|] == ids;
    FreeOk(pre);
    MappedValues(ids, slots, m);
    MappedOnce(ids, slots, m);
    forall s | 0 <= s < |pre| && pre[s].None? ensures exists id :: id in m && m[id] == s {
      FreeHas(pre, s);
      var k :| 0 <= k < |slots| && slots[k] == s;
      assert ids[k] in m && m[ids[k]] == s;
    }
  }

  lemma MappedValues(ids: seq<nat>, slots: seq<nat>, m: map<nat, nat>)
    requires |slots| == |ids| && Mapped(ids, slots, m, |ids|) && Distinct(ids)
    ensures forall k :: 0 <= k < |ids| ==> m[ids[k]] == slots[k]
  {
    forall k | 0 <= k < |ids| ensures m[ids[k]] == slots[k] {
      var j :| 0 <= j < |ids| && ids[j] == ids[k] && m[ids[k]] == slots[j];
    }
  }

  lemma MappedOnce(ids: seq<nat>, slots: seq<nat>, m: map<nat, nat>)
    requires |slots| == |ids| && Mapped(ids, slots, m, |ids|)
    requires forall j, k :: 0 <= j < k < |slots| ==> slots[j] < slots[k]
    ensures forall id, jd :: id in m && jd in m && id != jd ==> m[id] != m[jd]
  {
    hide Distinct;
    forall id, jd | id in m && jd in m && id != jd ensures m[id] != m[jd] {
      var j :| 0 <= j < |ids| && ids[j] == id && m[id] == slots[j];
      var k :| 0 <= k < |ids| && ids[k] == jd && m[jd] == slots[k];
      assert j != k;
    }
  }

  /** `crowded` says after which insertions a bucket of the map is too full. */
  method MapShortIds(c: Compact, pre: Slots, crowded: nat -> bool) returns (ok: bool, m: map<nat, nat>)
    requires |Free(pre)| == |c.shortIds| && |pre| <= UINT16_MAX
    ensures ok <==> Distinct(c.shortIds) && forall i :: 0 <= i < |c.shortIds| ==> !crowded(i)
    ensures ok ==> SlotMap(c, pre, m)
  {
    hide Free, Mapped, SlotMap;
    m := map[];
    var offset: nat := 0;
    MapStart(c.shortIds, Free(pre));
    assert pre[..0] == [];
    FreeStart();
    for i := 0 to |c.shortIds|
      invariant i + offset <= |pre| && |Free(pre[..i + offset])| == i
      invariant Mapped(c.shortIds, Free(pre), m, i)
      invariant forall j :: 0 <= j < i ==> !crowded(j)
    {
      offset := NextFree(pre, i, offset);
      MapNext(c.shortIds, Free(pre), m, i);
      m := m[c.shortIds[i] := i + offset];
      if crowded(i) { return false, m; }
    }
    MapDone(c, pre, m);
    ok := |m| == |c.shortIds|;
  }

  lemma FreeStart()
    ensures Free([]) == []
  {
  }

  lemma MapStart(ids: seq<nat>, slots: seq<nat>)
    ensures Mapped(ids, slots, map[], 0)
  {
    assert ids[..0] == [];
  }

  lemma MapDone(c: Compact, pre: Slots, m: map<nat, nat>)
    requires |Free(pre)| == |c.shortIds| && Mapped(c.shortIds, Free(pre), m, |c.shortIds|)
    ensures |m| == |c.shortIds| <==> Distinct(c.shortIds)
    ensures |m| == |c.shortIds| ==> SlotMap(c, pre, m)
  {
    hide Free, SlotMap;
    assert |m| == |m.Keys|;
    assert c.shortIds[..|c.shortIds|] == c.shortIds;
    if |m| == |c.shortIds| { MappedAll(c, pre, m); }
  }

  /** Skip the filled slots: the `i`-th short id belongs to the `i`-th free slot. */
  method NextFree(pre: Slots, i: nat, start: nat) returns (offset: nat)
    requires i + start <= |pre| && |Free(pre[..i + start])| == i < |Free(pre)|
    ensures start <= offset && i + offset < |pre| && i + offset == Free(pre)[i]
    ensures |Free(pre[..i + 1 + offset])| == i + 1
  {
    hide Free;
    offset := start;
    BeforeEnd(pre, i, i + offset);
    while pre[i + offset].Some?
      invariant start <= offset && i + offset < |pre| && |Free(pre[..i + offset])| == i
      decreases |pre| - offset
    {
      FreeNext(pre, i + offset);
      offset := offset + 1;
      BeforeEnd(pre, i, i + offset);
    }
    FreeNext(pre, i + offset);
    FreePrefix(pre, i + offset + 1);
    assert Free(pre)[..i + 1][i] == i + offset;
  }

  lemma BeforeEnd(pre: Slots, i: nat, n: nat)
    requires n <= |pre| && |Free(pre[..n])| == i < |Free(pre)|
    ensures n < |pre|
  {
    hide Free;
    assert pre[..|pre|] == pre;
  }

  // ------------------------------------------------------------ matching transactions to short ids

  ghost predicate Offered(c: Compact, ts: seq<Tx>, id: nat) {
    exists q :: 0 <= q < |ts| && c.shortId(ts[q].hash) == id
  }

  /** Two transactions of the pool have the short id. */
  ghost predicate Twice(c: Compact, pool: seq<Tx>, id: nat) {
    exists q, r :: 0 <= q < r < |pool| && c.shortId(pool[q].hash) == id && c.shortId(pool[r].hash) == id
  }

  /** An extra transaction and another one have the short id. */
  ghost predicate Differ(c: Compact, pool: seq<Tx>, extra: seq<Tx>, id: nat) {
    exists t, u :: (t in pool || t in extra) && u in extra && t.hash != u.hash && c.shortId(t.hash) == id
        && c.shortId(u.hash) == id
  }

  ghost predicate Lost(c: Compact, pool: seq<Tx>, extra: seq<Tx>, id: nat) {
    Twice(c, pool, id) || Differ(c, pool, extra, id)
  }

  /** What is known of a slot after some transactions were offered; `h` records that one matched. */
  ghost predicate SlotState(c: Compact, pool: seq<Tx>, extra: seq<Tx>, id: nat, v: Option<Tx>, h: bool) {
    && (h <==> Offered(c, pool, id) || Offered(c, extra, id))
    && (v.Some? ==> h && c.shortId(v.value.hash) == id && (v.value in pool || v.value in extra))
    && (h && v.None? ==> Lost(c, pool, extra, id))
  }

  lemma OfferedMore(c: Compact, ts: seq<Tx>, t: Tx, id: nat)
    ensures Offered(c, ts + [t], id) <==> Offered(c, ts, id) || c.shortId(t.hash) == id
  {
    var us := ts + [t];
    if Offered(c, ts, id) {
      var q :| 0 <= q < |ts| && c.shortId(ts[q].hash) == id;
      assert us[q] == ts[q];
    }
    if c.shortId(t.hash) == id { assert us[|ts|] == t; }
    if Offered(c, us, id) {
      var q :| 0 <= q < |us| && c.shortId(us[q].hash) == id;
      assert q < |ts| ==> us[q] == ts[q];
    }
  }

  lemma LostMore(c: Compact, pool: seq<Tx>, extra: seq<Tx>, t: Tx, id: nat)
    requires Lost(c, pool, extra, id)
    ensures Lost(c, pool + [t], extra, id) && Lost(c, pool, extra + [t], id)
  {
    if Twice(c, pool, id) {
      var q, r :| 0 <= q < r < |pool| && c.shortId(pool[q].hash) == id && c.shortId(pool[r].hash) == id;
      assert (pool + [t])[q] == pool[q] && (pool + [t])[r] == pool[r];
    } else {
      var w, u :| (w in pool || w in extra) && u in extra && w.hash != u.hash && c.shortId(w.hash) == id
          && c.shortId(u.hash) == id;
      assert u in extra + [t] && (w in pool + [t] || w in extra) && (w in pool || w in extra + [t]);
    }
  }

  /** A transaction with another short id does not matter. */
  lemma Unrelated(c: Compact, pool: seq<Tx>, extra: seq<Tx>, t: Tx, id: nat, v: Option<Tx>, h: bool)
    requires SlotState(c, pool, extra, id, v, h) && c.shortId(t.hash) != id
    ensures SlotState(c, pool + [t], extra, id, v, h) && SlotState(c, pool, extra + [t], id, v, h)
  {
    hide Offered, Lost;
    OfferedMore(c, pool, t, id);
    OfferedMore(c, extra, t, id);
    if h && v.None? { LostMore(c, pool, extra, t, id); }
  }

  lemma FirstMatch(c: Compact, pool: seq<Tx>, extra: seq<Tx>, t: Tx, id: nat, v: Option<Tx>)
    requires SlotState(c, pool, extra, id, v, false) && c.shortId(t.hash) == id
    ensures SlotState(c, pool + [t], extra, id, Some(t), true) && SlotState(c, pool, extra + [t], id, Some(t), true)
  {
    hide Offered, Lost;
    OfferedMore(c, pool, t, id);
    OfferedMore(c, extra, t, id);
    assert t in pool + [t] && t in extra + [t];
  }

  lemma SecondInPool(c: Compact, pool: seq<Tx>, t: Tx, id: nat, v: Option<Tx>)
    requires SlotState(c, pool, [], id, v, true) && c.shortId(t.hash) == id
    ensures SlotState(c, pool + [t], [], id, None, true)
  {
    OfferedMore(c, pool, t, id);
    var q :| 0 <= q < |pool| && c.shortId(pool[q].hash) == id;
    assert (pool + [t])[q] == pool[q] && (pool + [t])[|pool|] == t;
  }

  lemma SameInExtra(c: Compact, pool: seq<Tx>, extra: seq<Tx>, t: Tx, id: nat, v: Option<Tx>)
    requires SlotState(c, pool, extra, id, v, true) && c.shortId(t.hash) == id
    ensures SlotState(c, pool, extra + [t], id, v, true)
    ensures v.Some? && v.value.hash != t.hash ==> SlotState(c, pool, extra + [t], id, None, true)
  {
    hide Offered, Twice;
    OfferedMore(c, extra, t, id);
    if v.None? { LostMore(c, pool, extra, t, id); }
    assert t in extra + [t];
    if v.Some? && v.value.hash != t.hash {
      assert Differ(c, pool, extra + [t], id);
    }
  }

  /** What is known of all slots; `count` is the number of slots found so far. */
  ghost predicate Matching(c: Compact, pre: Slots, m: map<nat, nat>, pool: seq<Tx>, extra: seq<Tx>, a: Slots,
                           have: seq<bool>, count: int)
    requires SlotMap(c, pre, m)
  {
    && |a| == |pre| == |have|
    && (forall s :: 0 <= s < |pre| && pre[s].Some? ==> a[s] == pre[s])
    && (forall id :: id in m ==> SlotState(c, pool, extra, id, a[m[id]], have[m[id]]))
    && count == |c.shortIds| - |Free(a)|
  }

  lemma Counted(c: Compact, pre: Slots, m: map<nat, nat>, pool: seq<Tx>, extra: seq<Tx>, a: Slots, have: seq<bool>,
                count: int)
    requires SlotMap(c, pre, m) && Matching(c, pre, m, pool, extra, a, have, count)
    ensures count == |c.shortIds| - |Free(a)|
  {
    hide Free, SlotState;
  }

  lemma MatchStart(c: Compact, pre: Slots, m: map<nat, nat>)
    requires SlotMap(c, pre, m)
    ensures Matching(c, pre, m, [], [], pre, seq(|pre|, i => false), 0)
  {
  }

  /** One slot changes with one transaction offered, from the pool or from the extra ones. */
  lemma MatchStep(c: Compact, pre: Slots, m: map<nat, nat>, pool: seq<Tx>, extra: seq<Tx>, pool': seq<Tx>,
                  extra': seq<Tx>,
                  a: Slots, have: seq<bool>, count: int, t: Tx, v: Option<Tx>)
    requires SlotMap(c, pre, m) && Matching(c, pre, m, pool, extra, a, have, count)
    requires (pool' == pool + [t] && extra' == extra) || (pool' == pool && extra' == extra + [t])
    requires var id := c.shortId(t.hash); id in m ==> SlotState(c, pool', extra', id, v, true)
    ensures var id := c.shortId(t.hash);
            if id in m then
              Matching(c, pre, m, pool', extra', a[m[id] := v], have[m[id] := true],
                       count + (if a[m[id]].None? then 1 else 0) - (if v.None? then 1 else 0))
            else Matching(c, pre, m, pool', extra', a, have, count)
  {
    hide Free, SlotState;
    var id := c.shortId(t.hash);
    forall jd | jd in m && jd != id ensures SlotState(c, pool', extra', jd, a[m[jd]], have[m[jd]]) {
      Unrelated(c, pool, extra, t, jd, a[m[jd]], have[m[jd]]);
    }
    if id in m { FreeUpdate(a, m[id], v); }
  }

  // ------------------------------------------------------------ the result

  ghost function PreSlots(c: Compact): Slots {
    seq(|c.shortIds| + |c.prefilled|, s requires 0 <= s => PrefilledAt(c.prefilled, |c.prefilled|, s))
  }

  /**
   Prefilled slots hold their transaction. Any other slot holds a transaction with
   its short id, or none if there is no such transaction or there are several.
  */
  ghost predicate Ready(c: Compact, pool: seq<Tx>, extra: seq<Tx>, a: Slots) {
    var pre := PreSlots(c);
    && |a| == |pre| && |Free(pre)| == |c.shortIds|
    && (forall s :: 0 <= s < |pre| && pre[s].Some? ==> a[s] == pre[s])
    && (forall k :: 0 <= k < |c.shortIds| ==>
          Free(pre)[k] < |a| && SlotReady(c, pool, extra, c.shortIds[k], a[Free(pre)[k]]))
  }

  /** The slots are as if only the first ones of the transactions at hand had been there. */
  ghost predicate ReadyWith(c: Compact, pool: seq<Tx>, extra: seq<Tx>, a: Slots) {
    exists i: nat, j: nat :: i <= |pool| && j <= |extra| && Ready(c, pool[..i], extra[..j], a)
  }

  lemma ReadyPrefix(c: Compact, pool: seq<Tx>, extra: seq<Tx>, i: nat, j: nat, a: Slots)
    requires i <= |pool| && j <= |extra| && Ready(c, pool[..i], extra[..j], a)
    ensures ReadyWith(c, pool, extra, a)
  {
  }

  ghost predicate SlotReady(c: Compact, pool: seq<Tx>, extra: seq<Tx>, id: nat, v: Option<Tx>) {
    && (v.Some? ==> c.shortId(v.value.hash) == id && (v.value in pool || v.value in extra))
    && (v.None? ==> Lost(c, pool, extra, id) || (!Offered(c, pool, id) && !Offered(c, extra, id)))
  }

  lemma {:induction false} LostPrefix(c: Compact, pool: seq<Tx>, extra: seq<Tx>, i: nat, j: nat, id: nat)
    requires i <= |pool| && j <= |extra| && Lost(c, pool[..i], extra[..j], id)
    ensures Lost(c, pool, extra, id)
  {
    var p, e := pool[..i], extra[..j];
    if Twice(c, p, id) {
      var q, r :| 0 <= q < r < |p| && c.shortId(p[q].hash) == id && c.shortId(p[r].hash) == id;
      assert p[q] == pool[q] && p[r] == pool[r];
    } else {
      var w, u :| (w in p || w in e) && u in e && w.hash != u.hash && c.shortId(w.hash) == id
          && c.shortId(u.hash) == id;
      assert u in extra && (w in pool || w in extra);
    }
  }

  /** A full set of slots has no empty one. */
  lemma NoneFree(a: Slots, s: nat)
    requires |Free(a)| == 0 && s < |a|
    ensures a[s].Some?
  {
    hide Free;
    if a[s].None? { FreeHas(a, s); }
  }

  /** Scanning stopped at `i` and `j`, early only when every slot was filled. */
  lemma MatchedReady(c: Compact, pre: Slots, m: map<nat, nat>, pool: seq<Tx>, extra: seq<Tx>, i: nat, j: nat, a: Slots,
                     have: seq<bool>, count: int)
    requires pre == PreSlots(c) && SlotMap(c, pre, m) && i <= |pool| && j <= |extra|
    requires Matching(c, pre, m, pool[..i], extra[..j], a, have, count)
    requires i == |pool| || forall id :: id in m ==> Offered(c, pool[..i], id)
    requires j == |extra| || count == |c.shortIds|
    ensures Ready(c, pool, extra, a)
  {
    hide Free, Offered, Lost;
    assert pool[..|pool|] == pool && extra[..|extra|] == extra;
    FreeOk(pre);
    forall k | 0 <= k < |c.shortIds| ensures SlotReady(c, pool, extra, c.shortIds[k], a[Free(pre)[k]]) {
      var id := c.shortIds[k];
      assert m[id] == Free(pre)[k];
      var v := a[m[id]];
      if v.Some? {
        assert v.value in pool || v.value in extra;
      } else {
        if count == |c.shortIds| { NoneFree(a, m[id]); }
        if have[m[id]] { LostPrefix(c, pool, extra, i, j, id); }
      }
    }
  }

  function Outcome(v: Verdict): Status {
    match v
    case Accept => OK
    case Mutated => FAILED
    case Reject => CHECKBLOCK_FAILED
  }

  class PartiallyDownloadedBlock {
    var header: nat
    var txnAvailable: Slots
    var prefilledCount: nat
    var mempoolCount: nat

    constructor ()
      ensures header == 0 && txnAvailable == [] && prefilledCount == 0 && mempoolCount == 0
    {
      header, txnAvailable, prefilledCount, mempoolCount := 0, [], 0, 0;
    }

    /** Place the prefilled transactions, or refuse the message. */
    method Prefill(c: Compact) returns (ok: bool)
      requires |txnAvailable| == |c.shortIds| + |c.prefilled| && txnAvailable == seq(|txnAvailable|, i => None)
      modifies this`txnAvailable
      ensures ok <==> Placed(c)
      ensures ok ==> Filled(c, txnAvailable, |c.prefilled|)
    {
      hide Free;
      FreeEmpty(|txnAvailable|);
      var last := -1;
      for i := 0 to |c.prefilled|
        invariant last == Pos(c.prefilled, i) && PlacedUpTo(c, i) && Filled(c, txnAvailable, i)
      {
        if c.prefilled[i].tx.isNull { return false; }
        last := last + c.prefilled[i].index + 1;
        if last > UINT16_MAX { return false; }
        if last > |c.shortIds| + i { return false; }
        PlacedNext(c, i);
        FillNext(c, txnAvailable, i);
        txnAvailable := txnAvailable[last := Some(c.prefilled[i].tx)];
      }
      ok := true;
    }

    method OfferPool(c: Compact, m: map<nat, nat>, t: Tx, have: seq<bool>,
                     ghost pre: Slots, ghost seen: seq<Tx>, ghost base: nat)
        returns (now: seq<bool>)
      requires SlotMap(c, pre, m) && Matching(c, pre, m, seen, [], txnAvailable, have, mempoolCount - base)
      modifies this`txnAvailable, this`mempoolCount
      ensures Matching(c, pre, m, seen + [t], [], txnAvailable, now, mempoolCount - base)
    {
      hide Free, SlotState, Lost;
      now := have;
      var id := c.shortId(t.hash);
      if id !in m {
        MatchStep(c, pre, m, seen, [], seen + [t], [], txnAvailable, have, mempoolCount - base, t, None);
        return;
      }
      var s := m[id];
      if !have[s] {
        FirstMatch(c, seen, [], t, id, txnAvailable[s]);
        NotYet(c, seen, [], id, txnAvailable[s]);
        MatchStep(c, pre, m, seen, [], seen + [t], [], txnAvailable, have, mempoolCount - base, t, Some(t));
        txnAvailable := txnAvailable[s := Some(t)];
        now := have[s := true];
        mempoolCount := mempoolCount + 1;
      } else {
        SecondInPool(c, seen, t, id, txnAvailable[s]);
        MatchStep(c, pre, m, seen, [], seen + [t], [], txnAvailable, have, mempoolCount - base, t, None);
        assert have[s := true] == have;
        if txnAvailable[s].Some? {
          CountPositive(txnAvailable, |c.shortIds|, s, pre, mempoolCount - base);
          txnAvailable := txnAvailable[s := None];
          mempoolCount := mempoolCount - 1;
        } else {
          assert txnAvailable[s := None] == txnAvailable;
        }
      }
    }

    method OfferExtra(c: Compact, m: map<nat, nat>, t: Tx, have: seq<bool>,
                      ghost pre: Slots, ghost pool: seq<Tx>, ghost seen: seq<Tx>, ghost base: nat)
        returns (now: seq<bool>)
      requires SlotMap(c, pre, m) && Matching(c, pre, m, pool, seen, txnAvailable, have, mempoolCount - base)
      modifies this`txnAvailable, this`mempoolCount
      ensures Matching(c, pre, m, pool, seen + [t], txnAvailable, now, mempoolCount - base)
    {
      hide Free, SlotState, Lost;
      now := have;
      var id := c.shortId(t.hash);
      if id !in m {
        MatchStep(c, pre, m, pool, seen, pool, seen + [t], txnAvailable, have, mempoolCount - base, t, None);
        return;
      }
      var s := m[id];
      var v := txnAvailable[s];
      if !have[s] {
        FirstMatch(c, pool, seen, t, id, v);
        NotYet(c, pool, seen, id, v);
        MatchStep(c, pre, m, pool, seen, pool, seen + [t], txnAvailable, have, mempoolCount - base, t, Some(t));
        txnAvailable := txnAvailable[s := Some(t)];
        now := have[s := true];
        mempoolCount := mempoolCount + 1;
      } else {
        SameInExtra(c, pool, seen, t, id, v);
        assert have[s := true] == have;
        if v.Some? && v.value.hash != t.hash {
          MatchStep(c, pre, m, pool, seen, pool, seen + [t], txnAvailable, have, mempoolCount - base, t, None);
          CountPositive(txnAvailable, |c.shortIds|, s, pre, mempoolCount - base);
          txnAvailable := txnAvailable[s := None];
          mempoolCount := mempoolCount - 1;
        } else {
          MatchStep(c, pre, m, pool, seen, pool, seen + [t], txnAvailable, have, mempoolCount - base, t, v);
          assert txnAvailable[s := v] == txnAvailable;
        }
      }
    }

    method ScanPool(c: Compact, m: map<nat, nat>, pool: seq<Tx>, ghost pre: Slots, ghost base: nat)
        returns (have: seq<bool>, ghost i: nat)
      requires SlotMap(c, pre, m) && txnAvailable == pre && mempoolCount == base
      modifies this`txnAvailable, this`mempoolCount
      ensures i <= |pool| && Matching(c, pre, m, pool[..i], [], txnAvailable, have, mempoolCount - base)
      ensures base == 0 ==> i == |pool| || forall id :: id in m ==> Offered(c, pool[..i], id)
    {
      hide Free, SlotState, SlotMap, Matching;
      have := seq(|txnAvailable|, i => false);
      MatchStart(c, pre, m);
      i := 0;
      assert pool[..0] == [];
      for n := 0 to |pool|
        invariant i == n && Matching(c, pre, m, pool[..n], [], txnAvailable, have, mempoolCount - base)
      {
        have := OfferPool(c, m, pool[n], have, pre, pool[..n], base);
        i := n + 1;
        assert pool[..n + 1] == pool[..n] + [pool[n]];
        if mempoolCount == |m| {
          if base == 0 { AllFound(c, pre, m, pool[..i], txnAvailable, have, mempoolCount); }
          break;
        }
      }
    }

    method ScanExtra(c: Compact, m: map<nat, nat>, extra: seq<Tx>, have0: seq<bool>,
                     ghost pre: Slots, ghost pool: seq<Tx>, ghost base: nat)
        returns (ghost have: seq<bool>, ghost j: nat)
      requires SlotMap(c, pre, m) && Matching(c, pre, m, pool, [], txnAvailable, have0, mempoolCount - base)
      modifies this`txnAvailable, this`mempoolCount
      ensures j <= |extra| && Matching(c, pre, m, pool, extra[..j], txnAvailable, have, mempoolCount - base)
      ensures j == |extra| || mempoolCount == |c.shortIds|
    {
      hide Free, SlotState, Matching;
      var h := have0;
      j := 0;
      assert extra[..0] == [];
      for n := 0 to |extra|
        invariant j == n && Matching(c, pre, m, pool, extra[..n], txnAvailable, h, mempoolCount - base)
      {
        h := OfferExtra(c, m, extra[n], h, pre, pool, extra[..n], base);
        j := n + 1;
        assert extra[..n + 1] == extra[..n] + [extra[n]];
        if mempoolCount == |m| { break; }
      }
      have := h;
    }

    ghost predicate Refuses(c: Compact)
      reads this
    {
      || c.header == 0 || (c.shortIds == [] && c.prefilled == [])
      || |c.shortIds| + |c.prefilled| > MAX_TXS
      || header != 0 || txnAvailable != []
      || !Placed(c)
    }

    /**
     Match the message with the transactions at hand. The count of those found is not
     reset, so an object that is used again may stop looking early.
    */
    method InitData(c: Compact, pool: seq<Tx>, extra: seq<Tx>, crowded: nat -> bool) returns (r: Status)
      requires |c.shortIds| + |c.prefilled| <= UINT16_MAX
      modifies this
      ensures r == INVALID <==> old(Refuses(c))
      ensures r == FAILED <==>
                !old(Refuses(c)) && !(Distinct(c.shortIds) && forall i :: 0 <= i < |c.shortIds| ==> !crowded(i))
      ensures r != CHECKBLOCK_FAILED
      ensures r == OK ==> header == c.header && ReadyWith(c, pool, extra, txnAvailable)
      ensures r == OK && old(mempoolCount) == 0 ==> Ready(c, pool, extra, txnAvailable)
      ensures r == OK ==> mempoolCount == old(mempoolCount) + (|c.shortIds| - |Free(txnAvailable)|)
    {
      hide Free, Ready, SlotMap, Matching, Filled, Distinct;
      if c.header == 0 || (c.shortIds == [] && c.prefilled == []) { return INVALID; }
      if |c.shortIds| + |c.prefilled| > MAX_TXS { return INVALID; }
      if header != 0 || txnAvailable != [] { return INVALID; }
      header := c.header;
      txnAvailable := seq(|c.shortIds| + |c.prefilled|, i => None);
      var ok := Prefill(c);
      if !ok { return INVALID; }
      prefilledCount := |c.prefilled|;
      ghost var pre := txnAvailable;
      FilledAll(c, pre);
      var m;
      ok, m := MapShortIds(c, txnAvailable, crowded);
      if !ok { return FAILED; }
      var have;
      ghost var i, j, last;
      ghost var base := mempoolCount;
      have, i := ScanPool(c, m, pool, pre, base);
      last, j := ScanExtra(c, m, extra, have, pre, pool[..i], base);
      Counted(c, pre, m, pool[..i], extra[..j], txnAvailable, last, mempoolCount - base);
      assert pool[..i][..i] == pool[..i] && extra[..j][..j] == extra[..j];
      MatchedReady(c, pre, m, pool[..i], extra[..j], i, j, txnAvailable, last, mempoolCount - base);
      assert ReadyWith(c, pool, extra, txnAvailable) by { ReadyPrefix(c, pool, extra, i, j, txnAvailable); }
      if base == 0 { MatchedReady(c, pre, m, pool, extra, i, j, txnAvailable, last, mempoolCount); }
      r := OK;
    }

    /**
     Put the missing transactions into the free slots in order and have the block checked.
     If they are too few, the slots before the first one left free have been emptied.
    */
    method FillBlock(missing: seq<Tx>, check: seq<Tx> -> Verdict) returns (r: Status, block: seq<Tx>)
      modifies this
      ensures old(header) == 0 || Fill(old(txnAvailable), missing).None? ==> r == INVALID
      ensures old(header) != 0 && Fill(old(txnAvailable), missing).Some? ==>
              && block == Fill(old(txnAvailable), missing).value
              && header == 0 && txnAvailable == []
              && r == Outcome(check(block))
      ensures old(header) == 0 ==> header == 0 && txnAvailable == old(txnAvailable) && block == []
      ensures old(header) != 0 && |missing| > |Free(old(txnAvailable))| ==> header == 0 && txnAvailable == []
      ensures old(header) != 0 && |missing| < |Free(old(txnAvailable))| ==>
                && header == old(header)
                && Emptied(old(txnAvailable), Free(old(txnAvailable))[|missing|], txnAvailable)
    {
      hide Free, Emptied;
      block := [];
      if header == 0 { return INVALID, block; }
      ghost var a := txnAvailable;
      var offset: nat := 0;
      FreeStart();
      NoneEmptied(a);
      assert a[..0] == [];
      for i := 0 to |txnAvailable|
        invariant |txnAvailable| == |a|
        invariant Emptied(a, i, txnAvailable)
        invariant offset == |Free(a[..i])| <= |missing| && |block| == i
        invariant forall s :: 0 <= s < i ==> |Free(a[..s])| <= |missing| && (a[s].None? ==> |Free(a[..s])| < |missing|)
        invariant forall s :: 0 <= s < i ==> block[s] == Pick(a, missing, s)
        invariant header == old(header)
      {
        FreeNext(a, i);
        OneEmptied(a, i, txnAvailable);
        if txnAvailable[i].None? {
          if |missing| <= offset {
            FreePrefix(a, i + 1);
            FreeAt(a, i);
            return INVALID, block;
          }
          block := block + [missing[offset]];
          offset := offset + 1;
        } else {
          block := block + [txnAvailable[i].value];
          txnAvailable := txnAvailable[i := None];
        }
      }
      assert a[..|a|] == a;
      header, txnAvailable := 0, [];
      if |missing| != offset { return INVALID, block; }
      assert block == Fill(a, missing).value;
      match check(block) {
        case Accept => r := OK;
        case Mutated => r := FAILED;
        case Reject => r := CHECKBLOCK_FAILED;
      }
    }
  }

  /** The first `n` slots are empty, the others as they were. */
  ghost predicate Emptied(a: Slots, n: nat, b: Slots) {
    |b| == |a| && forall s :: 0 <= s < |a| ==> b[s] == if s < n then None else a[s]
  }

  lemma NoneEmptied(a: Slots)
    ensures Emptied(a, 0, a)
  {
  }

  lemma OneEmptied(a: Slots, n: nat, b: Slots)
    requires Emptied(a, n, b) && n < |a|
    ensures b[n] == a[n]
    ensures Emptied(a, n + 1, b[n := None]) && (b[n].None? ==> Emptied(a, n + 1, b))
  {
  }

  datatype Verdict = Accept | Mutated | Reject

  /** The transaction at `s`: the one available, or the next missing one. */
  ghost function Pick(a: Slots, missing: seq<Tx>, s: nat): Tx
    requires s < |a| && (a[s].None? ==> |Free(a[..s])| < |missing|)
  {
    if a[s].Some? then a[s].value else missing[|Free(a[..s])|]
  }

  lemma FreeAt(a: Slots, s: nat)
    requires s < |a| && a[s].None?
    ensures |Free(a[..s])| < |Free(a)| && Free(a)[|Free(a[..s])|] == s
  {
    hide Free;
    FreeNext(a, s);
    FreePrefix(a, s + 1);
    assert Free(a)[..|Free(a[..s])| + 1][|Free(a[..s])|] == s;
  }

  ghost function Fill(a: Slots, missing: seq<Tx>): (r: Option<seq<Tx>>)
    ensures r.Some? <==> |missing| == |Free(a)|
    ensures r.Some? ==> |r.value| == |a|
  {
    if |missing| != |Free(a)| then None else
      Some(seq(|a|, s requires 0 <= s < |a| =>
        assert a[s].None? ==> |Free(a[..s])| < |missing| by { if a[s].None? { FreeAt(a, s); } }
        Pick(a, missing, s)))
  }

  lemma AllFound(c: Compact, pre: Slots, m: map<nat, nat>, pool: seq<Tx>, a: Slots, have: seq<bool>, count: int)
    requires SlotMap(c, pre, m) && Matching(c, pre, m, pool, [], a, have, count) && count == |m|
    ensures forall id :: id in m ==> Offered(c, pool, id)
  {
    hide Free;
    assert |m| == |m.Keys|;
    forall id | id in m ensures Offered(c, pool, id) {
      NoneFree(a, m[id]);
    }
  }

  lemma FilledAll(c: Compact, a: Slots)
    requires Filled(c, a, |c.prefilled|)
    ensures a == PreSlots(c) && |Free(a)| == |c.shortIds|
  {
  }

  lemma NotYet(c: Compact, pool: seq<Tx>, extra: seq<Tx>, id: nat, v: Option<Tx>)
    requires SlotState(c, pool, extra, id, v, false)
    ensures v.None?
  {
  }

  /** The count of found slots is positive if one of them is found. */
  lemma CountPositive(a: Slots, n: nat, s: nat, pre: Slots, count: int)
    requires |a| == |pre| && s < |a| && |Free(pre)| == n && pre[s].None? && a[s].Some? && count == n - |Free(a)|
    requires forall t :: 0 <= t < |pre| && pre[t].Some? ==> a[t] == pre[t]
    ensures count > 0
  {
    hide Free;
    FreeUpdate(a, s, None);
    FewerFree(pre, a[s := None]);
  }

  /** If every filled slot stays filled, there are no more free slots. */
  lemma {:induction false} FewerFree(a: Slots, b: Slots)
    requires |a| == |b| && forall s :: 0 <= s < |a| && a[s].Some? ==> b[s].Some?
    ensures |Free(b)| <= |Free(a)|
  {
    if a != [] { FewerFree(a[..|a| - 1], b[..|b| - 1]); }
  }

  // ------------------------------------------------------------ reconstruction

  /** Among the transactions at hand, only those of the block have its short ids. */
  ghost predicate Faithful(c: Compact, vtx: seq<Tx>, pool: seq<Tx>, extra: seq<Tx>) {
    forall t, i :: (t in pool || t in extra) && 0 <= i < |vtx| && c.shortId(t.hash) == c.shortId(vtx[i].hash) ==>
        t == vtx[i]
  }

  ghost function MissingOf(vtx: seq<Tx>, a: Slots): seq<Tx>
    requires |vtx| == |a|
  {
    FreeOk(a);
    seq(|Free(a)|, k requires 0 <= k < |Free(a)| => vtx[Free(a)[k]])
  }

  lemma SlotIsRight(c: Compact, vtx: seq<Tx>, pool: seq<Tx>, extra: seq<Tx>, a: Slots, s: nat)
    requires Encodes(c, PreSlots(c), vtx) && Ready(c, pool, extra, a) && Faithful(c, vtx, pool, extra)
    requires s < |a|
    ensures a[s].Some? ==> a[s].value == vtx[s]
    ensures a[s].None? ==> SlotReady(c, pool, extra, c.shortId(vtx[s].hash), a[s])
  {
    hide Free, PreSlots, Lost, Offered;
    var pre := PreSlots(c);
    if pre[s].None? {
      FreeHas(pre, s);
      var k :| 0 <= k < |Free(pre)| && Free(pre)[k] == s;
      assert SlotReady(c, pool, extra, c.shortIds[k], a[s]);
    }
  }

  /** Handing over what is missing gives back exactly the block's transactions. */
  lemma Reconstructs(c: Compact, vtx: seq<Tx>, pool: seq<Tx>, extra: seq<Tx>, a: Slots)
    requires Encodes(c, PreSlots(c), vtx) && Ready(c, pool, extra, a) && Faithful(c, vtx, pool, extra)
    ensures |vtx| == |a| && Fill(a, MissingOf(vtx, a)) == Some(vtx)
  {
    hide Free, PreSlots, Faithful, SlotReady;
    var missing := MissingOf(vtx, a);
    var b := Fill(a, missing).value;
    forall s | 0 <= s < |a| ensures b[s] == vtx[s] {
      SlotIsRight(c, vtx, pool, extra, a, s);
      if a[s].None? { FreeAt(a, s); }
      assert b[s] == Pick(a, missing, s);
    }
    assert b == vtx;
  }

  /** A transaction of the block that is at hand is not asked for. */
  lemma NotAskedFor(c: Compact, vtx: seq<Tx>, pool: seq<Tx>, extra: seq<Tx>, a: Slots, s: nat)
    requires Encodes(c, PreSlots(c), vtx) && Ready(c, pool, extra, a) && Faithful(c, vtx, pool, extra)
    requires forall q, r :: 0 <= q < r < |pool| ==> pool[q] != pool[r]
    requires s < |a| && (vtx[s] in pool || vtx[s] in extra)
    ensures a[s].Some?
  {
    hide Free, PreSlots, Ready, Encodes;
    assert |vtx| == |a| by { SameLength(c, vtx, pool, extra, a); }
    SlotIsRight(c, vtx, pool, extra, a, s);
    AtHand(c, vtx, pool, extra, s);
  }

  lemma SameLength(c: Compact, vtx: seq<Tx>, pool: seq<Tx>, extra: seq<Tx>, a: Slots)
    requires Encodes(c, PreSlots(c), vtx) && Ready(c, pool, extra, a)
    ensures |vtx| == |a|
  {
  }

  lemma AtHand(c: Compact, vtx: seq<Tx>, pool: seq<Tx>, extra: seq<Tx>, s: nat)
    requires s < |vtx| && (vtx[s] in pool || vtx[s] in extra) && Faithful(c, vtx, pool, extra)
    requires forall q, r :: 0 <= q < r < |pool| ==> pool[q] != pool[r]
    ensures var id := c.shortId(vtx[s].hash);
            !Lost(c, pool, extra, id) && (Offered(c, pool, id) || Offered(c, extra, id))
  {
    var id := c.shortId(vtx[s].hash);
    assert !Twice(c, pool, id) by {
      forall q, r | 0 <= q < r < |pool| && c.shortId(pool[q].hash) == id ensures c.shortId(pool[r].hash) != id {
        assert pool[q] in pool && pool[r] in pool;
      }
    }
    assert !Differ(c, pool, extra, id);
  }

  /** The message a node sends for a block: the first transaction, and short ids for the others. */
  function FromBlock(header: nat, vtx: seq<Tx>, shortId: int -> nat): Compact
    requires vtx != []
  {
    var shortIds := seq(|vtx| - 1, i requires 0 <= i < |vtx| - 1 => shortId(vtx[i + 1].hash));
    Compact(header, shortIds, [Prefilled(0, vtx[0])], shortId)
  }

  lemma FromBlockEncodes(header: nat, vtx: seq<Tx>, shortId: int -> nat)
    requires vtx != [] && !vtx[0].isNull
    ensures var c := FromBlock(header, vtx, shortId); Placed(c) && Encodes(c, PreSlots(c), vtx)
  {
    var c := FromBlock(header, vtx, shortId);
    var pre := PreSlots(c);
    assert Pos(c.prefilled, 0) == -1 && Pos(c.prefilled, 1) == 0;
    forall s | 0 <= s < |pre| ensures pre[s] == if s == 0 then Some(vtx[0]) else None {
      assert PrefilledAt(c.prefilled, 0, s) == None;
      assert pre[s] == PrefilledAt(c.prefilled, 1, s);
    }
    hide Pos, PrefilledAt;
    FreeAfterFirst(pre);
  }

  lemma {:induction false} FreeAfterFirst(a: Slots)
    requires a != [] && forall s :: 0 <= s < |a| ==> a[s].Some? == (s == 0)
    ensures |Free(a)| == |a| - 1 && forall k :: 0 <= k < |a| - 1 ==> Free(a)[k] == k + 1
  {
    if |a| > 1 {
      FreeAfterFirst(a[..|a| - 1]);
    } else {
      assert a[..0] == [];
    }
  }

  /** The message has clashing short ids, or a bucket of the map is too full. */
  ghost predicate Clashes(c: Compact, crowded: nat -> bool) {
    !Distinct(c.shortIds) || exists i :: 0 <= i < |c.shortIds| && crowded(i)
  }

  /**
   From the sender's block to the receiver's check: the transactions checked are those
   sent, and the relay fails exactly if the short ids clash or the check says so.
  */
  method Relay(header: nat, vtx: seq<Tx>, shortId: int -> nat, pool: seq<Tx>, extra: seq<Tx>,
               crowded: nat -> bool, check: seq<Tx> -> Verdict)
      returns (r: Status, block: seq<Tx>)
    requires header != 0 && 0 < |vtx| <= UINT16_MAX && !vtx[0].isNull
    requires Faithful(FromBlock(header, vtx, shortId), vtx, pool, extra)
    ensures r == if Clashes(FromBlock(header, vtx, shortId), crowded) then FAILED else Outcome(check(vtx))
    ensures !Clashes(FromBlock(header, vtx, shortId), crowded) ==> block == vtx
  {
    hide Free, Encodes, Ready, PreSlots, Faithful, Fill, Distinct;
    var c := FromBlock(header, vtx, shortId);
    FromBlockEncodes(header, vtx, shortId);
    Sizes(header, vtx, shortId);
    var p := new PartiallyDownloadedBlock();
    block := [];
    r := p.InitData(c, pool, extra, crowded);
    if r != OK { return; }
    Reconstructs(c, vtx, pool, extra, p.txnAvailable);
    var missing := Answer(vtx, p.txnAvailable);
    r, block := p.FillBlock(missing, check);
  }

  lemma Sizes(header: nat, vtx: seq<Tx>, shortId: int -> nat)
    requires vtx != []
    ensures var c := FromBlock(header, vtx, shortId);
            c.header == header && |c.shortIds| + |c.prefilled| == |vtx| && c.prefilled != []
  {
  }

  /** The sender's answer to a request for the empty slots. */
  method Answer(vtx: seq<Tx>, a: Slots) returns (missing: seq<Tx>)
    requires |vtx| == |a|
    ensures missing == MissingOf(vtx, a)
  {
    hide Free;
    missing := [];
    FreeStart();
    assert a[..0] == [];
    for i := 0 to |a|
      invariant |missing| == |Free(a[..i])| <= |Free(a)|
      invariant forall k :: 0 <= k < |missing| ==> missing[k] == MissingOf(vtx, a)[k]
    {
      FreeNext(a, i);
      FreePrefix(a, i + 1);
      if a[i].None? {
        FreeAt(a, i);
        missing := missing + [vtx[i]];
      }
    }
    assert a[..|a|] == a;
  }

  // ------------------------------------------------------------ lists of positions

  const UINT64_MAX: nat := 18446744073709551615

  /** Positions are written as the distance from the one before. */
  class DifferenceFormatter {
    var shift: nat

    constructor ()
      ensures shift == 0
    {
      shift := 0;
    }

    method Ser(v: nat) returns (r: Option<nat>)
      modifies this
      ensures r.Some? <==> old(shift) <= v < UINT64_MAX
      ensures r.Some? ==> r.value == v - old(shift) && shift == v + 1
    {
      if v < shift || v >= UINT64_MAX { return None; }
      r := Some(v - shift);
      shift := v + 1;
    }

    /** The sum is taken in 64 bits, and a wrapped one refused. */
    method Unser(n: nat, max: nat) returns (r: Option<nat>)
      requires shift <= UINT64_MAX && n <= UINT64_MAX
      modifies this
      ensures r.Some? <==> old(shift) + n < UINT64_MAX && old(shift) + n <= max
      ensures r.Some? ==> r.value == old(shift) + n && shift == r.value + 1
      ensures shift <= UINT64_MAX
    {
      shift := (shift + n) % (UINT64_MAX + 1);
      if shift < n || shift >= UINT64_MAX || shift > max { return None; }
      r := Some(shift);
      shift := shift + 1;
    }
  }

  ghost predicate Increasing(vs: seq<nat>) {
    forall i, j :: 0 <= i < j < |vs| ==> vs[i] < vs[j]
  }

  /** Each position is the least that may come, plus the distance written. */
  ghost predicate AreDistances(vs: seq<nat>, diffs: seq<nat>) {
    |diffs| == |vs| && forall k :: 0 <= k < |vs| ==> vs[k] == Next(vs, k) + diffs[k]
  }

  method WriteAll(f: DifferenceFormatter, vs: seq<nat>) returns (r: Option<seq<nat>>)
    requires f.shift == 0 && forall i :: 0 <= i < |vs| ==> vs[i] < UINT64_MAX
    modifies f
    ensures r.Some? <==> Increasing(vs)
    ensures r.Some? ==> AreDistances(vs, r.value)
  {
    hide Increasing, AreDistances;
    var diffs: seq<nat> := [];
    StartDistances(vs);
    for i := 0 to |vs|
      invariant |diffs| == i && Increasing(vs[..i]) && f.shift == Next(vs, i) && AreDistances(vs[..i], diffs)
    {
      IncreasingNext(vs, i);
      var d := f.Ser(vs[i]);
      if d.None? { return None; }
      MoreDistances(vs, i, diffs, d.value);
      diffs := diffs + [d.value];
    }
    assert vs[..|vs|] == vs;
    r := Some(diffs);
  }

  lemma StartDistances(vs: seq<nat>)
    ensures Increasing(vs[..0]) && AreDistances(vs[..0], [])
  {
  }

  lemma MoreDistances(vs: seq<nat>, i: nat, diffs: seq<nat>, d: nat)
    requires i < |vs| && AreDistances(vs[..i], diffs) && vs[i] == Next(vs, i) + d
    ensures AreDistances(vs[..i + 1], diffs + [d])
  {
    forall k | 0 <= k < i + 1 ensures vs[..i + 1][k] == Next(vs[..i + 1], k) + (diffs + [d])[k] {
      if k < i { assert vs[..i][k] == Next(vs[..i], k) + diffs[k]; }
    }
  }

  method ReadAll(f: DifferenceFormatter, diffs: seq<nat>, max: nat, ghost vs: seq<nat>) returns (back: seq<nat>)
    requires f.shift == 0 && max < UINT64_MAX && AreDistances(vs, diffs) && forall i :: 0 <= i < |vs| ==> vs[i] <= max
    modifies f
    ensures back == vs
  {
    back := [];
    for i := 0 to |diffs|
      invariant |back| == i && back == vs[..i] && f.shift == Next(vs, i)
    {
      assert vs[i] == Next(vs, i) + diffs[i];
      var v := f.Unser(diffs[i], max);
      back := back + [v.value];
    }
    assert vs[..|vs|] == vs;
  }

  /** Exactly the increasing lists can be written, and they are read back as they were. */
  method WriteAndRead(vs: seq<nat>, max: nat) returns (diffs: Option<seq<nat>>, r: Option<seq<nat>>)
    requires max < UINT64_MAX && forall i :: 0 <= i < |vs| ==> vs[i] <= max
    ensures diffs.Some? <==> Increasing(vs)
    ensures diffs.Some? ==> AreDistances(vs, diffs.value)
    ensures r == if Increasing(vs) then Some(vs) else None
  {
    hide Increasing, AreDistances;
    var f := new DifferenceFormatter();
    diffs := WriteAll(f, vs);
    if diffs.None? { return None, None; }
    var g := new DifferenceFormatter();
    var back := ReadAll(g, diffs.value, max, vs);
    r := Some(back);
  }

  /** The least position that may come next. */
  function Next(vs: seq<nat>, i: nat): nat
    requires i <= |vs|
  {
    if i == 0 then 0 else vs[i - 1] + 1
  }

  lemma IncreasingNext(vs: seq<nat>, i: nat)
    requires i < |vs| && Increasing(vs[..i])
    ensures Next(vs, i) <= vs[i] ==> Increasing(vs[..i + 1])
    ensures Next(vs, i) > vs[i] ==> !Increasing(vs)
  {
    var p, q := vs[..i], vs[..i + 1];
    if Next(vs, i) <= vs[i] {
      forall j, k | 0 <= j < k < |q| ensures q[j] < q[k] {
        if k < i {
          assert p[j] < p[k];
        } else if j < i - 1 {
          assert p[j] < p[i - 1];
        }
      }
    } else {
      assert vs[i - 1] >= vs[i];
    }
  }
}
