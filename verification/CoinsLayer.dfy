/**
 One level of the coins cache hierarchy, as a value over the coins its parent
 shows.
*/
module CoinsLayer {
  import opened Prelude

  datatype OutPoint = OutPoint(txid: int, n: nat)

  /** An unspent output and where it came from. */
  datatype Output = Output(value: int, script: seq<nat>, height: nat, coinbase: bool, coinstake: bool, time: nat)

  datatype Coin = Spent | Unspent(out: Output)

  /** The flags DIRTY and FRESH of a cache entry. */
  datatype Entry = Entry(coin: Coin, dirty: bool, isFresh: bool)

  type Utxo = map<OutPoint, Output>
  type CoinsMap = map<OutPoint, Entry>

  /** The coins shown by a cache over a parent that shows `parent`. */
  function Visible(parent: Utxo, coins: CoinsMap): (v: Utxo) {
    map p | p in parent.Keys + coins.Keys && (p in coins ==> coins[p].coin.Unspent?)
      :: if p in coins then coins[p].coin.out else parent[p]
  }

  lemma VisibleAt(parent: Utxo, coins: CoinsMap, p: OutPoint)
    ensures p in Visible(parent, coins) <==> if p in coins then coins[p].coin.Unspent? else p in parent
    ensures p in Visible(parent, coins) ==>
              Visible(parent, coins)[p] == if p in coins then coins[p].coin.out else parent[p]
  {
  }

  /** Two coin sets are equal if they agree on every outpoint. */
  lemma UtxoEq(a: Utxo, b: Utxo)
    requires forall p :: p in a <==> p in b
    requires forall p :: p in a && p in b ==> a[p] == b[p]
    ensures a == b
  {
    assert a.Keys == b.Keys;
  }

  /** What the flags of an entry promise about the parent. */
  predicate EntryOk(parent: Utxo, p: OutPoint, e: Entry) {
    && (e.isFresh ==> e.dirty && e.coin.Unspent? && p !in parent)
    && (!e.dirty ==> e.coin.Unspent? && p in parent && parent[p] == e.coin.out)
  }

  ghost predicate LayerOk(parent: Utxo, coins: CoinsMap) {
    forall p :: p in coins ==> EntryOk(parent, p, coins[p])
  }

  // ------------------------------------------------------------ memory accounting

  function Usage(usage: Output -> nat, c: Coin): nat {
    if c.Spent? then 0 else usage(c.out)
  }

  ghost function Total(usage: Output -> nat, coins: CoinsMap): nat
    decreases |coins.Keys|
  {
    if coins.Keys == {} then 0 else
      SomeElement(coins.Keys);
      var p :| p in coins;
      RemoveShrinks(coins, p);
      Usage(usage, coins[p].coin) + Total(usage, coins - {p})
  }

  lemma RemoveShrinks(coins: CoinsMap, p: OutPoint)
    requires p in coins
    ensures |(coins - {p}).Keys| < |coins.Keys|
  {
    assert (coins - {p}).Keys == coins.Keys - {p};
  }

  lemma {:induction false} TotalRemove(usage: Output -> nat, coins: CoinsMap, p: OutPoint)
    requires p in coins
    ensures Total(usage, coins) == Usage(usage, coins[p].coin) + Total(usage, coins - {p})
    decreases |coins.Keys|
  {
    assert coins.Keys != {};
    SomeElement(coins.Keys);
    var q :| q in coins && Total(usage, coins) == Usage(usage, coins[q].coin) + Total(usage, coins - {q});
    if q != p {
      RemoveShrinks(coins, q);
      TotalRemove(usage, coins - {q}, p);
      RemoveShrinks(coins, p);
      TotalRemove(usage, coins - {p}, q);
      assert coins - {q} - {p} == coins - {p} - {q};
    }
  }

  /** What one update does to the total. */
  lemma TotalUpdate(usage: Output -> nat, coins: CoinsMap, p: OutPoint, e: Entry)
    ensures Total(usage, coins[p := e]) == Total(usage, coins - {p}) + Usage(usage, e.coin)
    ensures p !in coins ==> coins - {p} == coins
  {
    TotalRemove(usage, coins[p := e], p);
    assert coins[p := e] - {p} == coins - {p};
  }

  // ------------------------------------------------------------ operations on one level

  /** Look an outpoint up, filling the cache from the parent. */
  function Fetch(parent: Utxo, coins: CoinsMap, p: OutPoint): CoinsMap {
    if p in coins || p !in parent then coins
    else coins[p := Entry(Unspent(parent[p]), false, false)]
  }

  lemma FetchOk(parent: Utxo, coins: CoinsMap, p: OutPoint)
    requires LayerOk(parent, coins)
    ensures LayerOk(parent, Fetch(parent, coins, p))
    ensures Visible(parent, Fetch(parent, coins, p)) == Visible(parent, coins)
    ensures p in Fetch(parent, coins, p) <==> p in coins || p in parent
  {
    var f := Fetch(parent, coins, p);
    forall q ensures q in Visible(parent, f) <==> q in Visible(parent, coins) {
      VisibleAt(parent, f, q); VisibleAt(parent, coins, q);
    }
    UtxoEq(Visible(parent, f), Visible(parent, coins));
  }

  /** The entry after adding a coin. */
  function Added(coins: CoinsMap, p: OutPoint, out: Output, possibleOverwrite: bool): Entry {
    var e := if p in coins then coins[p] else Entry(Spent, false, false);
    Entry(Unspent(out), true, e.isFresh || (!possibleOverwrite && !e.dirty))
  }

  /** Adding is refused when an unspent coin would be overwritten unannounced. */
  predicate Refused(coins: CoinsMap, p: OutPoint, possibleOverwrite: bool) {
    !possibleOverwrite && p in coins && coins[p].coin.Unspent?
  }

  /**
   An accepted addition keeps the flags honest exactly when the caller was: it
   may say "no overwrite" only for an outpoint that is not visible.
  */
  lemma AddExact(parent: Utxo, coins: CoinsMap, p: OutPoint, out: Output, possibleOverwrite: bool)
    requires LayerOk(parent, coins) && !Refused(coins, p, possibleOverwrite)
    ensures LayerOk(parent, coins[p := Added(coins, p, out, possibleOverwrite)]) <==>
              (possibleOverwrite || p !in Visible(parent, coins))
    ensures Visible(parent, coins[p := Added(coins, p, out, possibleOverwrite)]) == Visible(parent, coins)[p := out]
  {
    var c := coins[p := Added(coins, p, out, possibleOverwrite)];
    VisibleAt(parent, coins, p);
    if possibleOverwrite || p !in Visible(parent, coins) {
      forall q | q in c ensures EntryOk(parent, q, c[q]) {
        assert q != p ==> EntryOk(parent, q, coins[q]);
        assert p in coins ==> EntryOk(parent, p, coins[p]);
      }
    } else {
      assert p !in coins && p in parent;
      assert !EntryOk(parent, p, c[p]);
    }
    forall q ensures q in Visible(parent, c) <==> q in Visible(parent, coins)[p := out] {
      VisibleAt(parent, c, q); VisibleAt(parent, coins, q);
    }
    UtxoEq(Visible(parent, c), Visible(parent, coins)[p := out]);
  }

  /** Spending a fetched entry: a fresh one disappears, another stays as a spent one. */
  function SpendEntry(coins: CoinsMap, p: OutPoint): CoinsMap {
    if p !in coins then coins
    else if coins[p].isFresh then coins - {p}
    else coins[p := Entry(Spent, true, false)]
  }

  lemma SpendOk(parent: Utxo, coins: CoinsMap, p: OutPoint)
    requires LayerOk(parent, coins) && (p in parent ==> p in coins)
    ensures LayerOk(parent, SpendEntry(coins, p))
    ensures Visible(parent, SpendEntry(coins, p)) == Visible(parent, coins) - {p}
  {
    var c := SpendEntry(coins, p);
    assert p in coins ==> EntryOk(parent, p, coins[p]);
    forall q ensures q in Visible(parent, c) <==> q in Visible(parent, coins) - {p} {
      VisibleAt(parent, c, q); VisibleAt(parent, coins, q);
    }
    UtxoEq(Visible(parent, c), Visible(parent, coins) - {p});
  }

  predicate Clean(coins: CoinsMap, p: OutPoint) {
    p in coins && !coins[p].dirty && !coins[p].isFresh
  }

  lemma UncacheOk(parent: Utxo, coins: CoinsMap, p: OutPoint)
    requires LayerOk(parent, coins) && Clean(coins, p)
    ensures LayerOk(parent, coins - {p})
    ensures Visible(parent, coins - {p}) == Visible(parent, coins)
  {
    assert EntryOk(parent, p, coins[p]);
    forall q ensures q in Visible(parent, coins - {p}) <==> q in Visible(parent, coins) {
      VisibleAt(parent, coins - {p}, q); VisibleAt(parent, coins, q);
    }
    UtxoEq(Visible(parent, coins - {p}), Visible(parent, coins));
  }

  // ------------------------------------------------------------ writing a child's entries back

  /** The child says "not in the parent" of a coin the parent holds unspent. */
  predicate Misapplied(coins: CoinsMap, p: OutPoint, e: Entry) {
    e.dirty && e.isFresh && p in coins && coins[p].coin.Unspent?
  }

  /** One entry of the child written into this level. */
  function Merge(coins: CoinsMap, p: OutPoint, e: Entry): CoinsMap {
    if !e.dirty then coins
    else if p !in coins then
      if e.isFresh && e.coin.Spent? then coins else coins[p := Entry(e.coin, true, e.isFresh)]
    else if coins[p].isFresh && e.coin.Spent? then coins - {p}
    else coins[p := Entry(e.coin, true, coins[p].isFresh)]
  }

  /** What writing one entry makes visible. */
  function Written(v: Utxo, p: OutPoint, e: Entry): Utxo {
    if e.coin.Unspent? then v[p := e.coin.out] else v - {p}
  }

  lemma MergeOk(parent: Utxo, coins: CoinsMap, p: OutPoint, e: Entry)
    requires LayerOk(parent, coins) && EntryOk(Visible(parent, coins), p, e)
    ensures !Misapplied(coins, p, e)
    ensures LayerOk(parent, Merge(coins, p, e))
    ensures Visible(parent, Merge(coins, p, e)) == Written(Visible(parent, coins), p, e)
  {
    VisibleAt(parent, coins, p);
    var m := Merge(coins, p, e);
    assert p in coins ==> EntryOk(parent, p, coins[p]);
    MergeLayerOk(parent, coins, p, e);
    forall q ensures q in Visible(parent, m) <==> q in Written(Visible(parent, coins), p, e) {
      VisibleAt(parent, m, q); VisibleAt(parent, coins, q);
    }
    UtxoEq(Visible(parent, m), Written(Visible(parent, coins), p, e));
  }

  lemma MergeLayerOk(parent: Utxo, coins: CoinsMap, p: OutPoint, e: Entry)
    requires LayerOk(parent, coins) && EntryOk(Visible(parent, coins), p, e)
    ensures LayerOk(parent, Merge(coins, p, e))
  {
    VisibleAt(parent, coins, p);
    var m := Merge(coins, p, e);
    assert p in coins ==> EntryOk(parent, p, coins[p]);
    forall q | q in m ensures EntryOk(parent, q, m[q]) {
      assert q != p ==> EntryOk(parent, q, coins[q]);
    }
  }

  // ------------------------------------------------------------ after a write-back

  /** The entries of a cache that stay after `Sync`, with their flags cleared. */
  function Retained(coins: CoinsMap): CoinsMap {
    map p | p in coins && coins[p].coin.Unspent? :: Entry(coins[p].coin, false, false)
  }

  lemma RetainedOk(parent: Utxo, coins: CoinsMap)
    ensures var v := Visible(parent, coins);
            LayerOk(v, Retained(coins)) && Visible(v, Retained(coins)) == v
  {
    var v, r := Visible(parent, coins), Retained(coins);
    forall p | p in r ensures EntryOk(v, p, r[p]) {
      VisibleAt(parent, coins, p);
    }
    forall p ensures p in Visible(v, r) <==> p in v {
      VisibleAt(v, r, p); VisibleAt(parent, coins, p);
    }
    forall p | p in v && p in Visible(v, r) ensures Visible(v, r)[p] == v[p] {
      VisibleAt(v, r, p); VisibleAt(parent, coins, p);
    }
    UtxoEq(Visible(v, r), v);
  }

  lemma EmptyLayer(parent: Utxo)
    ensures LayerOk(parent, map[]) && Visible(parent, map[]) == parent
  {
    var none: CoinsMap := map[];
    forall p ensures p in Visible(parent, none) <==> p in parent {
      VisibleAt(parent, none, p);
    }
    UtxoEq(Visible(parent, none), parent);
  }

  // ------------------------------------------------------------ why the rule matters

  /**
   A caller that says "no overwrite" for a coin only the parent holds, and then
   spends it, leaves it visible: the spend is lost.
  */
  lemma BrokenRuleLosesSpend(p: OutPoint, out: Output)
    ensures var parent: Utxo := map[p := out];
            var c := map[p := Added(map[], p, out, false)];
            !Refused(map[], p, false) && !LayerOk(parent, c) && p in Visible(parent, SpendEntry(c, p))
  {
    var parent: Utxo := map[p := out];
    var c: CoinsMap := map[p := Added(map[], p, out, false)];
    assert !EntryOk(parent, p, c[p]);
    VisibleAt(parent, SpendEntry(c, p), p);
  }
}
