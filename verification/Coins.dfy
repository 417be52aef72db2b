/**
 The write-back coins cache, stacked to any depth over a database.

 `View()` is the set of coins a cache shows. Every method says what it does to
 that set, and `Valid()` ties the flags and the memory count of every level to
 what the level below shows.
*/
module Coins {
  import opened Prelude
  import opened CoinsLayer

  /** The coins database: a plain map. */
  class CoinsDb {
    var utxo: Utxo

    constructor (utxo: Utxo)
      ensures this.utxo == utxo
    {
      this.utxo := utxo;
    }

    /** Write the dirty entries: unspent ones are stored, spent ones erased. */
    method BatchWrite(child: CoinsMap)
      requires LayerOk(utxo, child)
      modifies this
      ensures utxo == Visible(old(utxo), child)
    {
      var todo := child.Keys;
      StartWriting(utxo, child);
      while todo != {}
        invariant todo <= child.Keys
        invariant utxo == Visible(old(utxo), child - todo)
        decreases |todo|
      {
        SomeElement(todo);
        var p :| p in todo;
        DonePlus(old(utxo), child, todo, p);
        var e := child[p];
        if e.dirty {
          utxo := if e.coin.Unspent? then utxo[p := e.coin.out] else utxo - {p};
        }
        todo := todo - {p};
      }
      assert child - {} == child;
    }
  }

  lemma StartWriting(parent: Utxo, child: CoinsMap)
    ensures Visible(parent, child - child.Keys) == parent
  {
    EmptyLayer(parent);
    assert child - child.Keys == map[];
  }

  /** Writing one more entry shows what a layer with one more entry shows. */
  lemma DonePlus(parent: Utxo, child: CoinsMap, todo: set<OutPoint>, p: OutPoint)
    requires LayerOk(parent, child) && todo <= child.Keys && p in todo
    ensures Visible(parent, child - (todo - {p})) == Written(Visible(parent, child - todo), p, child[p])
    ensures !child[p].dirty ==> Visible(parent, child - (todo - {p})) == Visible(parent, child - todo)
    ensures EntryOk(Visible(parent, child - todo), p, child[p])
  {
    var before, after := child - todo, child - (todo - {p});
    assert EntryOk(parent, p, child[p]);
    VisibleAt(parent, before, p);
    VisibleAt(parent, after, p);
    forall q ensures q in Visible(parent, after) <==> q in Written(Visible(parent, before), p, child[p]) {
      VisibleAt(parent, before, q); VisibleAt(parent, after, q);
    }
    UtxoEq(Visible(parent, after), Written(Visible(parent, before), p, child[p]));
    if !child[p].dirty {
      UtxoEq(Visible(parent, after), Visible(parent, before));
    }
  }

  datatype Added = Done | Refusal

  class CoinsCache {
    const usage: Output -> nat
    const unspendable: Output -> bool
    /** The level below: another cache, or the database. */
    const base: CoinsCache?
    const db: CoinsDb
    ghost const depth: nat
    ghost const Repr: set<object>

    var cacheCoins: CoinsMap
    var cachedCoinsUsage: int

    /** The objects below are distinct and lead down to the database. */
    ghost predicate Linked()
      decreases depth
    {
      && this in Repr
      && if base == null then Repr == {this, db}
         else base.depth < depth && Repr == base.Repr + {this} && this !in base.Repr && base.db == db && base.Linked()
    }

    ghost function BaseView(): Utxo
      requires Linked()
      reads Repr
      decreases depth, 0
    {
      if base == null then db.utxo else base.View()
    }

    /** The coins this cache shows. */
    ghost function View(): Utxo
      requires Linked()
      reads Repr
      decreases depth, 1
    {
      Visible(BaseView(), cacheCoins)
    }

    ghost predicate Valid()
      reads Repr
      decreases depth
    {
      && Linked()
      && LayerOk(BaseView(), cacheCoins)
      && cachedCoinsUsage == Total(usage, cacheCoins)
      && (base != null ==> base.Valid())
    }

    constructor OverDb(usage: Output -> nat, unspendable: Output -> bool, db: CoinsDb)
      ensures Valid() && View() == db.utxo && this.db == db && fresh(Repr - {db})
    {
      this.usage, this.unspendable, this.base, this.db := usage, unspendable, null, db;
      depth, Repr := 0, {this, db};
      cacheCoins, cachedCoinsUsage := map[], 0;
      new;
      EmptyLayer(db.utxo);
    }

    constructor OverCache(usage: Output -> nat, unspendable: Output -> bool, base: CoinsCache)
      requires base.Valid()
      ensures Valid() && View() == base.View() && this.base == base && fresh(Repr - base.Repr)
    {
      this.usage, this.unspendable, this.base, this.db := usage, unspendable, base, base.db;
      depth, Repr := base.depth + 1, base.Repr + {this};
      cacheCoins, cachedCoinsUsage := map[], 0;
      new;
      EmptyLayer(base.View());
    }

    // ---------------------------------------------------------- reading

    /** What the level below answers; it may fill its own cache meanwhile. */
    method AskBase(p: OutPoint) returns (c: Coin)
      requires Valid()
      modifies Repr - {this}
      ensures Valid() && BaseView() == old(BaseView()) && cacheCoins == old(cacheCoins)
      ensures c == if p in BaseView() then Unspent(BaseView()[p]) else Spent
      decreases depth, 0
    {
      if base == null {
        c := if p in db.utxo then Unspent(db.utxo[p]) else Spent;
      } else {
        c := base.GetCoin(p);
      }
    }

    method FetchCoin(p: OutPoint)
      requires Valid()
      modifies Repr
      ensures Valid() && BaseView() == old(BaseView()) && View() == old(View())
      ensures cacheCoins == Fetch(BaseView(), old(cacheCoins), p)
      decreases depth, 1
    {
      if p in cacheCoins { return; }
      var tmp := AskBase(p);
      FetchOk(BaseView(), cacheCoins, p);
      if tmp.Unspent? {
        TotalUpdate(usage, cacheCoins, p, Entry(tmp, false, false));
        cacheCoins := cacheCoins[p := Entry(tmp, false, false)];
        cachedCoinsUsage := cachedCoinsUsage + Usage(usage, tmp);
      }
    }

    method GetCoin(p: OutPoint) returns (c: Coin)
      requires Valid()
      modifies Repr
      ensures Valid() && BaseView() == old(BaseView()) && View() == old(View())
      ensures c == if p in View() then Unspent(View()[p]) else Spent
      decreases depth, 2
    {
      FetchCoin(p);
      FetchOk(BaseView(), old(cacheCoins), p);
      VisibleAt(BaseView(), cacheCoins, p);
      c := if p in cacheCoins then cacheCoins[p].coin else Spent;
    }

    method HaveCoin(p: OutPoint) returns (have: bool)
      requires Valid()
      modifies Repr
      ensures Valid() && View() == old(View())
      ensures have <==> p in View()
    {
      var c := GetCoin(p);
      have := c.Unspent?;
    }

    // ---------------------------------------------------------- changing coins

    /**
     Add a coin. The cache stays valid, and shows the coin, exactly if the caller
     kept the rule: "no overwrite" only for an outpoint that is not visible. A refusal
     leaves the coins alone, but the memory count has been lowered already.
    */
    method AddCoin(p: OutPoint, out: Output, possibleOverwrite: bool) returns (r: Added)
      requires Valid()
      modifies this
      ensures r == if !unspendable(out) && Refused(old(cacheCoins), p, possibleOverwrite) then Refusal else Done
      ensures unspendable(out) ==> Valid() && View() == old(View()) && cacheCoins == old(cacheCoins)
      ensures r.Done? && !unspendable(out) ==> (Valid() <==> (possibleOverwrite || p !in old(View())))
      ensures r.Done? && !unspendable(out) ==> Linked() && View() == old(View())[p := out]
      ensures r.Refusal? ==>
                && Linked() && cacheCoins == old(cacheCoins) && View() == old(View())
                && p in cacheCoins && cachedCoinsUsage == old(cachedCoinsUsage) - Usage(usage, cacheCoins[p].coin)
    {
      if unspendable(out) { return Done; }
      r := PutCoin(p, out, possibleOverwrite);
      if r.Done? {
        AddExact(BaseView(), old(cacheCoins), p, out, possibleOverwrite);
      }
    }

    method PutCoin(p: OutPoint, out: Output, possibleOverwrite: bool) returns (r: Added)
      requires cachedCoinsUsage == Total(usage, cacheCoins)
      modifies this
      ensures r == if Refused(old(cacheCoins), p, possibleOverwrite) then Refusal else Done
      ensures r.Done? ==>
                cacheCoins == old(cacheCoins)[p := CoinsLayer.Added(old(cacheCoins), p, out, possibleOverwrite)]
      ensures r.Done? ==> cachedCoinsUsage == Total(usage, cacheCoins)
      ensures r.Refusal? ==>
                && cacheCoins == old(cacheCoins) && p in cacheCoins
                && cachedCoinsUsage == old(cachedCoinsUsage) - Usage(usage, cacheCoins[p].coin)
    {
      var e := Entry(Spent, false, false);
      if p in cacheCoins {
        e := cacheCoins[p];
        TotalRemove(usage, cacheCoins, p);
        cachedCoinsUsage := cachedCoinsUsage - Usage(usage, e.coin);
      }
      var isFresh := false;
      if !possibleOverwrite {
        if e.coin.Unspent? { return Refusal; }
        isFresh := !e.dirty;
      }
      var e' := Entry(Unspent(out), true, e.isFresh || isFresh);
      TotalUpdate(usage, cacheCoins, p, e');
      cacheCoins := cacheCoins[p := e'];
      cachedCoinsUsage := cachedCoinsUsage + Usage(usage, e'.coin);
      r := Done;
    }

    /**
     Spend a coin. The answer is whether an entry was found, which includes one
     already spent in this cache; `moved` is the coin that was there.
    */
    method SpendCoin(p: OutPoint) returns (found: bool, moved: Coin)
      requires Valid()
      modifies Repr
      ensures Valid() && View() == old(View()) - {p} && BaseView() == old(BaseView())
      ensures moved == if p in old(View()) then Unspent(old(View())[p]) else Spent
      ensures found <==> p in old(cacheCoins) || p in old(BaseView())
      ensures p in old(View()) ==> found
    {
      FetchCoin(p);
      FetchOk(BaseView(), old(cacheCoins), p);
      VisibleAt(BaseView(), cacheCoins, p);
      SpendOk(BaseView(), cacheCoins, p);
      found, moved := TakeCoin(p);
    }

    method TakeCoin(p: OutPoint) returns (found: bool, moved: Coin)
      requires cachedCoinsUsage == Total(usage, cacheCoins)
      modifies this
      ensures cacheCoins == SpendEntry(old(cacheCoins), p) && cachedCoinsUsage == Total(usage, cacheCoins)
      ensures found <==> p in old(cacheCoins)
      ensures moved == if found then old(cacheCoins)[p].coin else Spent
    {
      if p !in cacheCoins { return false, Spent; }
      var e := cacheCoins[p];
      found, moved := true, e.coin;
      TotalRemove(usage, cacheCoins, p);
      cachedCoinsUsage := cachedCoinsUsage - Usage(usage, e.coin);
      if e.isFresh {
        cacheCoins := cacheCoins - {p};
      } else {
        TotalUpdate(usage, cacheCoins, p, Entry(Spent, true, false));
        cacheCoins := cacheCoins[p := Entry(Spent, true, false)];
      }
    }

    method Uncache(p: OutPoint)
      requires Valid()
      modifies this
      ensures Valid() && View() == old(View())
      ensures cacheCoins == if Clean(old(cacheCoins), p) then old(cacheCoins) - {p} else old(cacheCoins)
    {
      if p in cacheCoins && !cacheCoins[p].dirty && !cacheCoins[p].isFresh {
        UncacheOk(BaseView(), cacheCoins, p);
        TotalRemove(usage, cacheCoins, p);
        cachedCoinsUsage := cachedCoinsUsage - Usage(usage, cacheCoins[p].coin);
        cacheCoins := cacheCoins - {p};
      }
    }

    // ---------------------------------------------------------- writing back

    /** Take over one entry of a child. */
    method MergeEntry(p: OutPoint, e: Entry)
      requires Valid() && EntryOk(View(), p, e)
      modifies this
      ensures Valid() && BaseView() == old(BaseView()) && View() == Written(old(View()), p, e)
    {
      MergeOk(BaseView(), cacheCoins, p, e);
      MergeInto(p, e);
    }

    method MergeInto(p: OutPoint, e: Entry)
      requires cachedCoinsUsage == Total(usage, cacheCoins)
      requires !Misapplied(cacheCoins, p, e)
      modifies this
      ensures cacheCoins == Merge(old(cacheCoins), p, e) && cachedCoinsUsage == Total(usage, cacheCoins)
    {
      if !e.dirty { return; }
      if p !in cacheCoins {
        if !(e.isFresh && e.coin.Spent?) {
          TotalUpdate(usage, cacheCoins, p, Entry(e.coin, true, e.isFresh));
          cacheCoins := cacheCoins[p := Entry(e.coin, true, e.isFresh)];
          cachedCoinsUsage := cachedCoinsUsage + Usage(usage, e.coin);
        }
      } else {
        var us := cacheCoins[p];
        assert !(e.isFresh && us.coin.Unspent?);  // the FRESH flag is never misapplied
        TotalRemove(usage, cacheCoins, p);
        cachedCoinsUsage := cachedCoinsUsage - Usage(usage, us.coin);
        if us.isFresh && e.coin.Spent? {
          cacheCoins := cacheCoins - {p};
        } else {
          TotalUpdate(usage, cacheCoins, p, Entry(e.coin, true, us.isFresh));
          cacheCoins := cacheCoins[p := Entry(e.coin, true, us.isFresh)];
          cachedCoinsUsage := cachedCoinsUsage + Usage(usage, e.coin);
        }
      }
    }

    /** Take over all entries of a child: afterwards this cache shows what the child showed. */
    method BatchWrite(child: CoinsMap)
      requires Valid() && LayerOk(View(), child)
      modifies this
      ensures Valid() && BaseView() == old(BaseView()) && View() == Visible(old(View()), child)
    {
      hide Visible, LayerOk;
      var todo := child.Keys;
      ghost var v := View();
      StartWriting(v, child);
      while todo != {}
        invariant todo <= child.Keys
        invariant Valid() && BaseView() == old(BaseView()) && View() == Visible(v, child - todo)
        decreases |todo|
      {
        SomeElement(todo);
        var p :| p in todo;
        DonePlus(v, child, todo, p);
        MergeEntry(p, child[p]);
        todo := todo - {p};
      }
      assert child - {} == child;
    }

    method WriteBase()
      requires Valid()
      modifies Repr - {this}
      ensures cacheCoins == old(cacheCoins) && cachedCoinsUsage == old(cachedCoinsUsage)
      ensures Linked() && (base != null ==> base.Valid()) && BaseView() == old(View())
    {
      if base == null {
        db.BatchWrite(cacheCoins);
      } else {
        base.BatchWrite(cacheCoins);
      }
    }

    /** Write everything back and forget it: the level below now shows what this one did. */
    method Flush()
      requires Valid()
      modifies Repr
      ensures Valid() && View() == old(View()) && BaseView() == old(View()) && cacheCoins == map[]
    {
      hide Visible, LayerOk;
      WriteBase();
      EmptyLayer(BaseView());
      cacheCoins := map[];
      cachedCoinsUsage := 0;
    }

    /** Write everything back and keep the unspent coins. */
    method Sync()
      requires Valid()
      modifies Repr
      ensures Valid() && View() == old(View()) && BaseView() == old(View())
      ensures cacheCoins == Retained(old(cacheCoins))
    {
      RetainedOk(BaseView(), cacheCoins);
      WriteBase();
      ClearFlags();
    }

    method ClearFlags()
      requires cachedCoinsUsage == Total(usage, cacheCoins)
      modifies this
      ensures cacheCoins == Retained(old(cacheCoins)) && cachedCoinsUsage == Total(usage, cacheCoins)
    {
      hide Total, Usage, Retained, Cleared;
      var todo := cacheCoins.Keys;
      NothingCleared(cacheCoins);
      while todo != {}
        invariant cachedCoinsUsage == Total(usage, cacheCoins)
        invariant Cleared(old(cacheCoins), cacheCoins, todo)
        decreases |todo|
      {
        SomeElement(todo);
        var p :| p in todo;
        ClearedStep(old(cacheCoins), cacheCoins, todo, p);
        var e := cacheCoins[p];
        TotalRemove(usage, cacheCoins, p);
        if e.coin.Spent? {
          cachedCoinsUsage := cachedCoinsUsage - Usage(usage, e.coin);
          cacheCoins := cacheCoins - {p};
        } else {
          TotalUpdate(usage, cacheCoins, p, Entry(e.coin, false, false));
          cacheCoins := cacheCoins[p := Entry(e.coin, false, false)];
          SameUsage(usage, e.coin);
        }
        todo := todo - {p};
      }
      ClearedAll(old(cacheCoins), cacheCoins);
    }

    /** Write every level back: the database ends up holding what the top showed. */
    method FlushAll()
      requires Valid()
      modifies Repr
      ensures Valid() && View() == old(View()) && db.utxo == old(View())
      decreases depth
    {
      Flush();
      if base != null {
        base.FlushAll();
      }
    }

    /** The sanity check: it passes exactly if only legal flag combinations occur and the count is right. */
    method SanityCheck() returns (ok: bool)
      ensures ok <==>
                && (forall p :: p in cacheCoins ==> LegalFlags(cacheCoins[p]))
                && cachedCoinsUsage == Total(usage, cacheCoins)
      ensures Valid() ==> ok
    {
      var rest := cacheCoins;
      var recomputed := 0;
      while rest.Keys != {}
        invariant rest.Keys <= cacheCoins.Keys && forall p :: p in rest ==> rest[p] == cacheCoins[p]
        invariant recomputed + Total(usage, rest) == Total(usage, cacheCoins)
        invariant forall p :: p in cacheCoins && p !in rest ==> LegalFlags(cacheCoins[p])
        decreases |rest.Keys|
      {
        SomeElement(rest.Keys);
        var p :| p in rest;
        RemoveShrinks(rest, p);
        TotalRemove(usage, rest, p);
        if !LegalFlags(rest[p]) { return false; }
        recomputed := recomputed + Usage(usage, rest[p].coin);
        rest := rest - {p};
      }
      ok := recomputed == cachedCoinsUsage;
    }
  }

  /** The five combinations the source allows. */
  predicate LegalFlags(e: Entry) {
    && !(!e.dirty && e.isFresh && e.coin.Unspent?)
    && !(!e.dirty && !e.isFresh && e.coin.Spent?)
    && !(e.dirty && e.isFresh && e.coin.Spent?)
  }

  lemma CoinsMapEq(a: CoinsMap, b: CoinsMap)
    requires forall p :: p in a <==> p in b
    requires forall p :: p in a && p in b ==> a[p] == b[p]
    ensures a == b
  {
    assert a.Keys == b.Keys;
  }

  /** Outside `todo`, the unspent coins are kept without flags and the others are gone. */
  ghost predicate Cleared(before: CoinsMap, now: CoinsMap, todo: set<OutPoint>) {
    && todo <= before.Keys
    && (forall p :: p in todo ==> p in now && now[p] == before[p])
    && (forall p :: p in now && p !in todo ==>
          p in before && before[p].coin.Unspent? && now[p] == Entry(before[p].coin, false, false))
    && (forall p :: p in before && p !in todo && before[p].coin.Unspent? ==> p in now)
  }

  lemma NothingCleared(coins: CoinsMap)
    ensures Cleared(coins, coins, coins.Keys)
  {
  }

  lemma ClearedStep(before: CoinsMap, now: CoinsMap, todo: set<OutPoint>, p: OutPoint)
    requires Cleared(before, now, todo) && p in todo
    ensures p in now
    ensures now[p].coin.Spent? ==> Cleared(before, now - {p}, todo - {p})
    ensures now[p].coin.Unspent? ==> Cleared(before, now[p := Entry(now[p].coin, false, false)], todo - {p})
  {
  }

  lemma ClearedAll(before: CoinsMap, now: CoinsMap)
    requires Cleared(before, now, {})
    ensures now == Retained(before)
  {
    CoinsMapEq(now, Retained(before));
  }

  lemma SameUsage(usage: Output -> nat, c: Coin)
    ensures Usage(usage, Entry(c, false, false).coin) == Usage(usage, c)
  {
  }

  // ------------------------------------------------------------ whole runs

  datatype Op =
    | Get(p: OutPoint)
    | Have(p: OutPoint)
    | Add(p: OutPoint, out: Output, possibleOverwrite: bool)
    | Spend(p: OutPoint)
    | Uncache(p: OutPoint)
    | Sync
    | Flush

  /** The same operation on one plain map. */
  function OnMap(unspendable: Output -> bool, v: Utxo, op: Op): Utxo {
    match op
    case Add(p, out, _) => if unspendable(out) then v else v[p := out]
    case Spend(p) => v - {p}
    case _ => v
  }

  datatype Reply = Found(coin: Coin) | Known(have: bool) | Silent

  /** What one plain map answers. */
  function OfMap(v: Utxo, op: Op): Reply {
    match op
    case Get(p) => Found(if p in v then Unspent(v[p]) else Spent)
    case Have(p) => Known(p in v)
    case Spend(p) => Found(if p in v then Unspent(v[p]) else Spent)
    case _ => Silent
  }

  ghost function Replay(unspendable: Output -> bool, v: Utxo, ops: seq<Op>): Utxo {
    if ops == [] then v else OnMap(unspendable, Replay(unspendable, v, ops[..|ops| - 1]), ops[|ops| - 1])
  }

  lemma ReplaySteps(unspendable: Output -> bool, v: Utxo, ops: seq<Op>, n: nat)
    requires n <= |ops|
    ensures n == 0 ==> Replay(unspendable, v, ops[..n]) == v
    ensures n < |ops| ==>
              Replay(unspendable, v, ops[..n + 1]) == OnMap(unspendable, Replay(unspendable, v, ops[..n]), ops[n])
  {
    if n < |ops| { assert ops[..n + 1][..n] == ops[..n]; }
  }

  /** The rule for callers of `AddCoin`. */
  predicate Allowed(unspendable: Output -> bool, v: Utxo, op: Op) {
    op.Add? && !unspendable(op.out) && !op.possibleOverwrite ==> op.p !in v
  }

  ghost predicate AllAllowed(unspendable: Output -> bool, v: Utxo, ops: seq<Op>) {
    forall k :: 0 <= k < |ops| ==> Allowed(unspendable, Replay(unspendable, v, ops[..k]), ops[k])
  }

  method Perform(c: CoinsCache, op: Op) returns (reply: Reply)
    requires c.Valid() && Allowed(c.unspendable, c.View(), op)
    modifies c.Repr
    ensures c.Valid() && c.View() == OnMap(c.unspendable, old(c.View()), op)
    ensures reply == OfMap(old(c.View()), op)
    ensures op.Flush? || op.Sync? ==> c.BaseView() == c.View()
  {
    reply := Silent;
    match op
    case Get(p) =>
      var coin := c.GetCoin(p);
      reply := Found(coin);
    case Have(p) =>
      var have := c.HaveCoin(p);
      reply := Known(have);
    case Add(p, out, possibleOverwrite) =>
      VisibleAt(c.BaseView(), c.cacheCoins, p);
      var r := c.AddCoin(p, out, possibleOverwrite);
    case Spend(p) =>
      var _, moved := c.SpendCoin(p);
      reply := Found(moved);
    case Uncache(p) => c.Uncache(p);
    case Sync => c.Sync();
    case Flush => c.Flush();
  }

  /**
   Any run of operations at the top of a stack of any depth gives the answers one
   plain map would give and shows the coins it would show, and leaves the stack valid,
   so that the sanity check passes at every level.
  */
  method Run(c: CoinsCache, ops: seq<Op>) returns (replies: seq<Reply>)
    requires c.Valid() && AllAllowed(c.unspendable, c.View(), ops)
    modifies c.Repr
    ensures c.Valid() && c.View() == Replay(c.unspendable, old(c.View()), ops)
    ensures |replies| == |ops|
    ensures forall k :: 0 <= k < |ops| ==> replies[k] == OfMap(Replay(c.unspendable, old(c.View()), ops[..k]), ops[k])
  {
    hide Replay, OnMap, OfMap, Allowed;
    replies := [];
    ReplaySteps(c.unspendable, c.View(), ops, 0);
    for n := 0 to |ops|
      invariant c.Valid() && c.View() == Replay(c.unspendable, old(c.View()), ops[..n])
      invariant |replies| == n
      invariant forall k :: 0 <= k < n ==> replies[k] == OfMap(Replay(c.unspendable, old(c.View()), ops[..k]), ops[k])
    {
      ReplaySteps(c.unspendable, old(c.View()), ops, n);
      var reply := Perform(c, ops[n]);
      replies := replies + [reply];
    }
    assert ops[..|ops|] == ops;
  }

  /**
   Spending a coin that the level below has, and spending it again: the second time
   nothing visible changes and no coin is handed over, but the answer is yes again.
  */
  method SpendTwice(c: CoinsCache, p: OutPoint) returns (first: bool, second: bool, moved: Coin)
    requires c.Valid() && p in c.View() && p in c.BaseView()
    modifies c.Repr
    ensures c.Valid() && c.View() == old(c.View()) - {p}
    ensures first && second && moved == Spent
  {
    first, moved := c.SpendCoin(p);
    assert c.View() - {p} == c.View();
    second, moved := c.SpendCoin(p);
  }

  /** A transaction's outputs, as far as they can be spent. */
  ghost function WithOutputs(unspendable: Output -> bool, v: Utxo, txid: int, outs: seq<Output>): Utxo {
    if outs == [] then v else
      var n := |outs| - 1;
      var w := WithOutputs(unspendable, v, txid, outs[..n]);
      if unspendable(outs[n]) then w else w[OutPoint(txid, n) := outs[n]]
  }

  /**
   Adding all outputs of a transaction. With `check` the caller's rule is kept by
   asking first; without it, it is kept if only coinbases can be duplicates.
  */
  method AddCoins(c: CoinsCache, txid: int, outs: seq<Output>, coinbase: bool, check: bool)
    requires c.Valid()
    requires !check && !coinbase ==> forall i :: 0 <= i < |outs| ==> OutPoint(txid, i) !in c.View()
    modifies c.Repr
    ensures c.Valid() && c.View() == WithOutputs(c.unspendable, old(c.View()), txid, outs)
  {
    for n := 0 to |outs|
      invariant c.Valid() && c.View() == WithOutputs(c.unspendable, old(c.View()), txid, outs[..n])
      invariant !check && !coinbase ==> forall i :: n <= i < |outs| ==> OutPoint(txid, i) !in c.View()
    {
      var overwrite := coinbase;
      if check { overwrite := c.HaveCoin(OutPoint(txid, n)); }
      var _ := Perform(c, Add(OutPoint(txid, n), outs[n], overwrite));
      assert outs[..n + 1][..n] == outs[..n];
    }
    assert outs[..|outs|] == outs;
  }
}
