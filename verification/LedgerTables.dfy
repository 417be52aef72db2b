/**
 The tables of the custodial staking pool: deposits, rewards and referral credits, what
 they are worth, and what a pass of the watcher adds to them.
*/
module LedgerTables {
  import opened Prelude

  datatype Status = AWAITING | ACTIVE | WITHDRAWN

  datatype Outpoint = Outpoint(txid: int, vout: nat)

  /** The id of a deposit is its position. `funding` and `amount` count once it is funded. */
  datatype Deposit = Deposit(user: int, status: Status, funding: Outpoint, amount: int)

  datatype Reward = Reward(deposit: nat, txid: int, gross: int, fee: int, net: int)

  datatype Credit = Credit(referrer: int, referred: int, source: nat, amount: int, withdrawn: bool)

  /**
   A transaction, as far as the watcher looks at it; each input with the value it spends.
   It is readable if the node can produce the transactions it spends from.
  */
  datatype Tx = Tx(txid: int, coinstake: bool, inputs: seq<(Outpoint, int)>, outputs: seq<int>, readable: bool)

  /**
   All tables, the order in which deposits were funded, and by user what was paid out,
   given up with a withdrawal, and paid for referrals.
  */
  datatype Tables = Tables(
    deposits: seq<Deposit>,
    rewards: seq<Reward>,
    credits: seq<Credit>,
    referredBy: map<int, int>,
    order: seq<nat>,
    paid: map<int, int>,
    forfeited: map<int, int>,
    referralPaid: map<int, int>)

  const EMPTY: Tables := Tables([], [], [], map[], [], map[], map[], map[])

  // ------------------------------------------------------------ sums

  function Sum(s: seq<int>): int {
    if s == [] then 0 else Sum(s[..|s| - 1]) + s[|s| - 1]
  }

  /** The net rewards of deposit `d`. */
  function Net(rewards: seq<Reward>, d: nat): int {
    if rewards == [] then 0 else
      var r := rewards[|rewards| - 1];
      Net(rewards[..|rewards| - 1], d) + if r.deposit == d then r.net else 0
  }

  /** Principal and rewards of the user's deposits with the given status. */
  function Worth(deposits: seq<Deposit>, rewards: seq<Reward>, user: int, status: Status): int {
    if deposits == [] then 0 else
      var n := |deposits| - 1;
      Worth(deposits[..n], rewards, user, status) +
      if deposits[n].user == user && deposits[n].status == status then deposits[n].amount + Net(rewards, n) else 0
  }

  /** The credits of a referrer that are withdrawn, or not. */
  function Credited(credits: seq<Credit>, referrer: int, withdrawn: bool): int {
    if credits == [] then 0 else
      var c := credits[|credits| - 1];
      Credited(credits[..|credits| - 1], referrer, withdrawn)
      + if c.referrer == referrer && c.withdrawn == withdrawn then c.amount else 0
  }

  function Paid(m: map<int, int>, user: int): int { if user in m then m[user] else 0 }

  lemma {:induction false} WorthFrame(deposits: seq<Deposit>, rewards: seq<Reward>, rewards': seq<Reward>,
                                      user: int, status: Status)
    requires forall d :: 0 <= d < |deposits| && deposits[d].status == status ==> Net(rewards, d) == Net(rewards', d)
    ensures Worth(deposits, rewards, user, status) == Worth(deposits, rewards', user, status)
  {
    if deposits != [] {
      var n := |deposits| - 1;
      forall d | 0 <= d < n && deposits[..n][d].status == status ensures Net(rewards, d) == Net(rewards', d) {
        assert deposits[d].status == status;
      }
      WorthFrame(deposits[..n], rewards, rewards', user, status);
    }
  }

  /** A new deposit, or one just funded, is not withdrawn. */
  lemma {:induction false} WorthSame(deposits: seq<Deposit>, deposits': seq<Deposit>, rewards: seq<Reward>,
                                     user: int)
    requires |deposits| == |deposits'|
    requires forall d :: 0 <= d < |deposits| ==>
               deposits[d] == deposits'[d] || (deposits[d].status != WITHDRAWN && deposits'[d].status != WITHDRAWN)
    ensures Worth(deposits, rewards, user, WITHDRAWN) == Worth(deposits', rewards, user, WITHDRAWN)
  {
    if deposits != [] {
      var n := |deposits| - 1;
      WorthSame(deposits[..n], deposits'[..n], rewards, user);
    }
  }

  /** The deposits after all active ones of `user` are withdrawn. */
  function Closed(deposits: seq<Deposit>, user: int): (r: seq<Deposit>)
    ensures |r| == |deposits|
    ensures forall d :: 0 <= d < |deposits| ==>
              r[d] == if IsActive(deposits, d, user) then deposits[d].(status := WITHDRAWN) else deposits[d]
  {
    seq(|deposits|, d requires 0 <= d < |deposits| =>
      if IsActive(deposits, d, user) then deposits[d].(status := WITHDRAWN) else deposits[d])
  }

  lemma {:induction false} WorthClosed(deposits: seq<Deposit>, rewards: seq<Reward>, user: int, u: int)
    ensures Worth(Closed(deposits, user), rewards, u, WITHDRAWN)
         == Worth(deposits, rewards, u, WITHDRAWN) + if u == user then Worth(deposits, rewards, u, ACTIVE) else 0
  {
    if deposits != [] {
      var n := |deposits| - 1;
      WorthClosed(deposits[..n], rewards, user, u);
      assert Closed(deposits, user)[..n] == Closed(deposits[..n], user);
    }
  }

  /** The credits after all of `user` are withdrawn. */
  function Cashed(credits: seq<Credit>, user: int): (r: seq<Credit>)
    ensures |r| == |credits|
    ensures forall i :: 0 <= i < |credits| ==> r[i] == CashedOne(credits[i], user)
  {
    seq(|credits|, i requires 0 <= i < |credits| => CashedOne(credits[i], user))
  }

  function CashedOne(c: Credit, user: int): Credit { if c.referrer == user then c.(withdrawn := true) else c }

  lemma {:induction false} CreditedCashed(credits: seq<Credit>, user: int, u: int)
    ensures Credited(Cashed(credits, user), u, true)
         == Credited(credits, u, true) + if u == user then Credited(credits, u, false) else 0
  {
    if credits != [] {
      var n := |credits| - 1;
      CreditedCashed(credits[..n], user, u);
      assert Cashed(credits, user)[..n] == Cashed(credits[..n], user);
    }
  }

  // ------------------------------------------------------------ what the tables keep

  /** A reward splits exactly into fee and net, and belongs to a funded deposit. */
  ghost predicate RewardOk(r: Reward, deposits: seq<Deposit>, feeBp: int) {
    && r.deposit < |deposits| && deposits[r.deposit].status != AWAITING
    && r.fee == r.gross * feeBp / 10000 && r.fee + r.net == r.gross
  }

  /** A credit is the share of a funded deposit of the referred user, and goes to their referrer. */
  ghost predicate CreditOk(c: Credit, deposits: seq<Deposit>, referredBy: map<int, int>, rewardBp: int) {
    && c.source < |deposits| && deposits[c.source].user == c.referred && deposits[c.source].status != AWAITING
    && c.amount == deposits[c.source].amount * rewardBp / 10000 && c.amount > 0
    && c.referred in referredBy && referredBy[c.referred] == c.referrer
  }

  ghost predicate TablesOk(deposits: seq<Deposit>, rewards: seq<Reward>, credits: seq<Credit>,
                           referredBy: map<int, int>, feeBp: int, rewardBp: int)
  {
    && (forall i :: 0 <= i < |rewards| ==> RewardOk(rewards[i], deposits, feeBp))
    && (forall i, j :: 0 <= i < j < |rewards| ==> rewards[i].txid != rewards[j].txid)
    && (forall i :: 0 <= i < |credits| ==> CreditOk(credits[i], deposits, referredBy, rewardBp))
    && (forall i, j :: 0 <= i < j < |credits| ==> credits[i].referred != credits[j].referred)
  }

  /** Deposits only move forward, and a funded one never changes its amount. */
  ghost predicate Evolves(before: seq<Deposit>, after: seq<Deposit>) {
    && |before| <= |after|
    && forall d :: 0 <= d < |before| ==>
         && after[d].user == before[d].user
         && (before[d].status != AWAITING ==>
               && after[d].status != AWAITING
               && after[d].amount == before[d].amount && after[d].funding == before[d].funding)
         && (before[d].status == WITHDRAWN ==> after[d].status == WITHDRAWN)
  }

  lemma TablesEvolve(deposits: seq<Deposit>, deposits': seq<Deposit>, rewards: seq<Reward>, credits: seq<Credit>,
                     referredBy: map<int, int>, feeBp: int, rewardBp: int)
    requires TablesOk(deposits, rewards, credits, referredBy, feeBp, rewardBp) && Evolves(deposits, deposits')
    ensures TablesOk(deposits', rewards, credits, referredBy, feeBp, rewardBp)
  {
  }

  // ------------------------------------------------------------ the balance shown

  function Principal(deposits: seq<Deposit>, user: int): int {
    if deposits == [] then 0 else
      var d := deposits[|deposits| - 1];
      Principal(deposits[..|deposits| - 1], user) + if d.user == user && d.status == ACTIVE then d.amount else 0
  }

  predicate IsActive(deposits: seq<Deposit>, d: nat, user: int) {
    d < |deposits| && deposits[d].user == user && deposits[d].status == ACTIVE
  }

  function Accrued(deposits: seq<Deposit>, rewards: seq<Reward>, user: int): int {
    if rewards == [] then 0 else
      var r := rewards[|rewards| - 1];
      Accrued(deposits, rewards[..|rewards| - 1], user) + if IsActive(deposits, r.deposit, user) then r.net else 0
  }

  lemma {:induction false} WorthMore(deposits: seq<Deposit>, rewards: seq<Reward>, r: Reward, user: int)
    ensures Worth(deposits, rewards + [r], user, ACTIVE)
         == Worth(deposits, rewards, user, ACTIVE) + if IsActive(deposits, r.deposit, user) then r.net else 0
  {
    assert (rewards + [r])[..|rewards|] == rewards;
    if deposits != [] {
      WorthMore(deposits[..|deposits| - 1], rewards, r, user);
    }
  }

  lemma {:induction false} WorthNone(deposits: seq<Deposit>, user: int)
    ensures Worth(deposits, [], user, ACTIVE) == Principal(deposits, user)
  {
    if deposits != [] { WorthNone(deposits[..|deposits| - 1], user); }
  }

  /** Principal and accrued rewards together are the worth of the active deposits. */
  lemma {:induction false} BalanceIsWorth(deposits: seq<Deposit>, rewards: seq<Reward>, user: int)
    ensures Principal(deposits, user) + Accrued(deposits, rewards, user) == Worth(deposits, rewards, user, ACTIVE)
  {
    if rewards == [] {
      WorthNone(deposits, user);
    } else {
      var n := |rewards| - 1;
      BalanceIsWorth(deposits, rewards[..n], user);
      WorthMore(deposits, rewards[..n], rewards[n], user);
      assert rewards[..n] + [rewards[n]] == rewards;
    }
  }

  // ------------------------------------------------------------ steps on the tables

  lemma {:induction false} NetMore(rewards: seq<Reward>, r: Reward, d: nat)
    ensures Net(rewards + [r], d) == Net(rewards, d) + if r.deposit == d then r.net else 0
  {
    assert (rewards + [r])[..|rewards|] == rewards;
  }

  /** A reward of an active deposit does not change what withdrawn ones were worth. */
  lemma RewardActive(deposits: seq<Deposit>, rewards: seq<Reward>, r: Reward, user: int)
    requires r.deposit < |deposits| && deposits[r.deposit].status == ACTIVE
    ensures Worth(deposits, rewards + [r], user, WITHDRAWN) == Worth(deposits, rewards, user, WITHDRAWN)
  {
    forall d | 0 <= d < |deposits| && deposits[d].status == WITHDRAWN ensures Net(rewards, d) == Net(rewards + [r], d) {
      NetMore(rewards, r, d);
    }
    WorthFrame(deposits, rewards, rewards + [r], user, WITHDRAWN);
  }

  // ------------------------------------------------------------ what a watcher pass does

  predicate Spends(t: Tx, o: Outpoint) {
    exists i :: 0 <= i < |t.inputs| && t.inputs[i].0 == o
  }

  function Values(inputs: seq<(Outpoint, int)>): seq<int> {
    seq(|inputs|, i requires 0 <= i < |inputs| => inputs[i].1)
  }

  /** What the node answers in one pass; `None` stands for a failed call. */
  datatype Answers = Answers(
    utxo: nat -> Option<seq<(Outpoint, int)>>,
    unspent: nat -> bool,
    history: nat -> Option<seq<Tx>>)

  // The deposits that are funded.

  function FundedOne(d: Deposit, outs: Option<seq<(Outpoint, int)>>): Deposit {
    if d.status == AWAITING && outs.Some? && outs.value != []
    then d.(status := ACTIVE, funding := outs.value[0].0, amount := outs.value[0].1)
    else d
  }

  /** How many deposits are looked at before a call fails. */
  function Answered(deposits: seq<Deposit>, utxo: nat -> Option<seq<(Outpoint, int)>>): (n: nat)
    ensures n <= |deposits| && (n < |deposits| ==> deposits[n].status == AWAITING && utxo(n).None?)
    ensures forall d :: 0 <= d < n ==> deposits[d].status != AWAITING || utxo(d).Some?
  {
    if deposits == [] then 0 else
      var n := |deposits| - 1;
      var m := Answered(deposits[..n], utxo);
      if m < n then m else if deposits[n].status == AWAITING && utxo(n).None? then n else n + 1
  }

  /** The deposits after those with an output are marked as funded. */
  function Funded(deposits: seq<Deposit>, utxo: nat -> Option<seq<(Outpoint, int)>>): (r: seq<Deposit>)
    ensures |r| == |deposits|
    ensures forall d :: 0 <= d < |deposits| ==>
              r[d] == if d < Answered(deposits, utxo) then FundedOne(deposits[d], utxo(d)) else deposits[d]
  {
    seq(|deposits|, d requires 0 <= d < |deposits| =>
      if d < Answered(deposits, utxo) then FundedOne(deposits[d], utxo(d)) else deposits[d])
  }

  // The rewards that are credited.

  /** A coinstake that spends the output of a deposit is what earns it a reward. */
  predicate Earns(t: Tx, d: Deposit) {
    t.coinstake && Spends(t, d.funding)
  }

  /** The row for a coinstake. */
  function RewardOf(t: Tx, id: nat, feeBp: int): Reward {
    var gross := Sum(t.outputs) - Sum(Values(t.inputs));
    Reward(id, t.txid, gross, gross * feeBp / 10000, gross - gross * feeBp / 10000)
  }

  /** What the watcher comes across: a transaction of a deposit, or a call that fails. */
  datatype Event = Met(id: nat, t: Tx) | Failed

  function EventsOf(id: nat, txs: Option<seq<Tx>>): seq<Event> {
    if txs.None? then [Failed] else seq(|txs.value|, k requires 0 <= k < |txs.value| => Met(id, txs.value[k]))
  }

  /** The events of one pass over the active deposits whose output is spent. */
  function Events(deposits: seq<Deposit>, a: Answers): seq<Event> {
    if deposits == [] then [] else
      var n := |deposits| - 1;
      Events(deposits[..n], a)
      + if deposits[n].status == ACTIVE && !a.unspent(n) then EventsOf(n, a.history(n)) else []
  }

  ghost predicate IsRewarded(rewards: seq<Reward>, txid: int) {
    exists i :: 0 <= i < |rewards| && rewards[i].txid == txid
  }

  /** The event is a coinstake with that id that earns its deposit a reward. */
  predicate EarnsRow(deposits: seq<Deposit>, ev: Event, txid: int) {
    ev.Met? && ev.t.txid == txid && ev.id < |deposits| && Earns(ev.t, deposits[ev.id])
  }

  /** The event gets a row: it earns one, and its coinstake has none. */
  ghost predicate GetsRow(rewards: seq<Reward>, deposits: seq<Deposit>, ev: Event) {
    ev.Met? && EarnsRow(deposits, ev, ev.t.txid) && !IsRewarded(rewards, ev.t.txid)
  }

  /** The pass ends here. */
  ghost predicate Stops(rewards: seq<Reward>, deposits: seq<Deposit>, ev: Event) {
    ev.Failed? || (GetsRow(rewards, deposits, ev) && !ev.t.readable)
  }

  ghost function Noted(rewards: seq<Reward>, deposits: seq<Deposit>, ev: Event, feeBp: int): seq<Reward> {
    if GetsRow(rewards, deposits, ev) then rewards + [RewardOf(ev.t, ev.id, feeBp)] else rewards
  }

  /** The rewards after these events. */
  ghost function After(rewards: seq<Reward>, deposits: seq<Deposit>, events: seq<Event>, feeBp: int): seq<Reward> {
    if events == [] then rewards else
      var n := |events| - 1;
      Noted(After(rewards, deposits, events[..n], feeBp), deposits, events[n], feeBp)
  }

  /** How many events are dealt with before the pass ends. */
  ghost function Reached(rewards: seq<Reward>, deposits: seq<Deposit>, events: seq<Event>, feeBp: int): (n: nat)
    ensures n <= |events|
  {
    if events == [] then 0 else
      var n := |events| - 1;
      var m := Reached(rewards, deposits, events[..n], feeBp);
      if m < n || Stops(After(rewards, deposits, events[..n], feeBp), deposits, events[n]) then m else n + 1
  }

  // ------------------------------------------------------------ which coinstakes have rows

  ghost predicate HasRow(rewards: seq<Reward>, id: nat, txid: int) {
    exists i :: 0 <= i < |rewards| && rewards[i].deposit == id && rewards[i].txid == txid
  }

  /** Event `k` is the first that earns a row for the coinstake. */
  ghost predicate IsFirst(deposits: seq<Deposit>, events: seq<Event>, k: nat, txid: int) {
    && k < |events| && EarnsRow(deposits, events[k], txid)
    && forall j :: 0 <= j < k ==> !EarnsRow(deposits, events[j], txid)
  }

  ghost predicate FirstOf(deposits: seq<Deposit>, events: seq<Event>, txid: int, id: nat) {
    exists k: nat :: IsFirst(deposits, events, k, txid) && events[k].id == id
  }

  lemma NotedRows(rewards: seq<Reward>, deposits: seq<Deposit>, ev: Event, feeBp: int, id: nat, txid: int)
    ensures var r := Noted(rewards, deposits, ev, feeBp);
            && (IsRewarded(r, txid) <==> IsRewarded(rewards, txid) || EarnsRow(deposits, ev, txid))
            && (HasRow(r, id, txid) <==>
                || HasRow(rewards, id, txid)
                || (EarnsRow(deposits, ev, txid) && ev.id == id && !IsRewarded(rewards, txid)))
  {
    hide Earns, Sum, Values;
    var r := Noted(rewards, deposits, ev, feeBp);
    assert forall i :: 0 <= i < |rewards| ==> r[i] == rewards[i];
    if GetsRow(rewards, deposits, ev) {
      assert r[|rewards|].txid == ev.t.txid && r[|rewards|].deposit == ev.id;
    }
    if IsRewarded(rewards, txid) {
      var i :| 0 <= i < |rewards| && rewards[i].txid == txid;
      assert r[i].txid == txid;
    }
    if HasRow(rewards, id, txid) {
      var i :| 0 <= i < |rewards| && rewards[i].deposit == id && rewards[i].txid == txid;
      assert r[i].deposit == id && r[i].txid == txid;
    }
  }

  /** A coinstake has a row exactly if it had one or some event earns it one. */
  lemma {:induction false} AfterRewarded(rewards: seq<Reward>, deposits: seq<Deposit>, events: seq<Event>, feeBp: int,
                                         txid: int)
    ensures IsRewarded(After(rewards, deposits, events, feeBp), txid) <==>
            IsRewarded(rewards, txid) || exists k :: 0 <= k < |events| && EarnsRow(deposits, events[k], txid)
  {
    hide Noted, IsRewarded, EarnsRow;
    if events != [] {
      var n := |events| - 1;
      AfterRewarded(rewards, deposits, events[..n], feeBp, txid);
      NotedRows(After(rewards, deposits, events[..n], feeBp), deposits, events[n], feeBp, 0, txid);
      if k :| 0 <= k < |events| && EarnsRow(deposits, events[k], txid) && k < n {
        assert events[..n][k] == events[k];
      }
    }
  }

  /**
   A coinstake has a row with a deposit exactly if it had, or if it had none and the
   first event that earns it one is of that deposit.
  */
  lemma {:induction false} AfterRows(rewards: seq<Reward>, deposits: seq<Deposit>, events: seq<Event>, feeBp: int,
                                     id: nat, txid: int)
    ensures HasRow(After(rewards, deposits, events, feeBp), id, txid) <==>
            || HasRow(rewards, id, txid)
            || (!IsRewarded(rewards, txid) && FirstOf(deposits, events, txid, id))
  {
    hide Noted, IsRewarded, EarnsRow, HasRow;
    if events != [] {
      var n := |events| - 1;
      AfterRows(rewards, deposits, events[..n], feeBp, id, txid);
      AfterRewarded(rewards, deposits, events[..n], feeBp, txid);
      NotedRows(After(rewards, deposits, events[..n], feeBp), deposits, events[n], feeBp, id, txid);
      FirstMore(deposits, events, txid, id);
    }
  }

  /** One more event: the first is the same, or the last if there was none. */
  lemma FirstMore(deposits: seq<Deposit>, events: seq<Event>, txid: int, id: nat)
    requires events != []
    ensures var n := |events| - 1;
            var some := exists k :: 0 <= k < n && EarnsRow(deposits, events[..n][k], txid);
            FirstOf(deposits, events, txid, id) <==>
            if some then FirstOf(deposits, events[..n], txid, id)
            else EarnsRow(deposits, events[n], txid) && events[n].id == id
  {
    hide Earns;
    var n := |events| - 1;
    assert forall k :: 0 <= k < n ==> events[..n][k] == events[k];
    if FirstOf(deposits, events[..n], txid, id) {
      var k: nat :| IsFirst(deposits, events[..n], k, txid) && events[..n][k].id == id;
      assert IsFirst(deposits, events, k, txid);
    }
    if FirstOf(deposits, events, txid, id) {
      var k: nat :| IsFirst(deposits, events, k, txid) && events[k].id == id;
      if k < n {
        assert IsFirst(deposits, events[..n], k, txid);
      }
    }
    if EarnsRow(deposits, events[n], txid) && !exists k :: 0 <= k < n && EarnsRow(deposits, events[..n][k], txid) {
      forall j | 0 <= j < n ensures !EarnsRow(deposits, events[j], txid) { assert events[..n][j] == events[j]; }
      assert IsFirst(deposits, events, n, txid);
    }
  }

  /** Nothing changes if all coinstakes met have their rows. */
  lemma {:induction false} NothingNew(rewards: seq<Reward>, deposits: seq<Deposit>, events: seq<Event>, feeBp: int)
    requires forall k :: 0 <= k < |events| ==> !GetsRow(rewards, deposits, events[k])
    ensures After(rewards, deposits, events, feeBp) == rewards
  {
    hide GetsRow, IsRewarded;
    if events != [] { NothingNew(rewards, deposits, events[..|events| - 1], feeBp); }
  }

  /** After the events, no event gets a row any more. */
  lemma NoneLeft(rewards: seq<Reward>, deposits: seq<Deposit>, events: seq<Event>, feeBp: int, k: nat)
    requires k < |events|
    ensures !GetsRow(After(rewards, deposits, events, feeBp), deposits, events[k])
  {
    hide After, IsRewarded, Earns;
    if events[k].Met? { AfterRewarded(rewards, deposits, events, feeBp, events[k].t.txid); }
  }

  lemma {:induction false} AfterAppend(rewards: seq<Reward>, deposits: seq<Deposit>, p: seq<Event>, q: seq<Event>,
                                       feeBp: int)
    ensures After(rewards, deposits, p + q, feeBp) == After(After(rewards, deposits, p, feeBp), deposits, q, feeBp)
  {
    hide Noted;
    if q == [] {
      assert p + q == p;
    } else {
      var n := |q| - 1;
      assert (p + q)[..|p + q| - 1] == p + q[..n];
      AfterAppend(rewards, deposits, p, q[..n], feeBp);
    }
  }

  /** A pass that ended early is made up for by the next one: nothing is lost and nothing is credited twice. */
  lemma Resume(rewards: seq<Reward>, deposits: seq<Deposit>, events: seq<Event>, feeBp: int, n: nat)
    requires n <= |events|
    ensures After(After(rewards, deposits, events[..n], feeBp), deposits, events, feeBp)
         == After(rewards, deposits, events, feeBp)
  {
    hide After, GetsRow;
    var p, q := events[..n], events[n..];
    assert events == p + q;
    var r := After(rewards, deposits, p, feeBp);
    AfterAppend(rewards, deposits, p, q, feeBp);
    AfterAppend(r, deposits, p, q, feeBp);
    forall k | 0 <= k < |p| ensures !GetsRow(r, deposits, p[k]) { NoneLeft(rewards, deposits, p, feeBp, k); }
    NothingNew(r, deposits, p, feeBp);
  }

  /** Every row that is added is that of a coinstake met, for a deposit whose output it spends. */
  ghost predicate IsEarned(deposits: seq<Deposit>, events: seq<Event>, r: Reward, feeBp: int) {
    exists k :: 0 <= k < |events| && EarnsRow(deposits, events[k], r.txid)
        && r == RewardOf(events[k].t, events[k].id, feeBp)
  }

  lemma {:induction false} AfterEarned(rewards: seq<Reward>, deposits: seq<Deposit>, events: seq<Event>, feeBp: int)
    ensures var r := After(rewards, deposits, events, feeBp);
            rewards <= r && forall i :: |rewards| <= i < |r| ==> IsEarned(deposits, events, r[i], feeBp)
  {
    hide Earns, IsRewarded, RewardOf;
    if events != [] {
      var n := |events| - 1;
      AfterEarned(rewards, deposits, events[..n], feeBp);
      var p, r := After(rewards, deposits, events[..n], feeBp), After(rewards, deposits, events, feeBp);
      forall i | |rewards| <= i < |r| ensures IsEarned(deposits, events, r[i], feeBp) {
        if i < |p| {
          assert r[i] == p[i] && IsEarned(deposits, events[..n], p[i], feeBp);
          var k :| 0 <= k < n && EarnsRow(deposits, events[..n][k], p[i].txid)
              && p[i] == RewardOf(events[..n][k].t, events[..n][k].id, feeBp);
          assert events[..n][k] == events[k];
        } else {
          RowHasId(events[n].t, events[n].id, feeBp);
          assert EarnsRow(deposits, events[n], r[i].txid) && r[i] == RewardOf(events[n].t, events[n].id, feeBp);
        }
      }
    }
  }

  lemma RowHasId(t: Tx, id: nat, feeBp: int)
    ensures RewardOf(t, id, feeBp).txid == t.txid && RewardOf(t, id, feeBp).deposit == id
  {
  }

  /** An event comes from the history of an active deposit whose output is spent. */
  lemma {:induction false} EventFrom(deposits: seq<Deposit>, a: Answers, k: nat)
    requires k < |Events(deposits, a)| && Events(deposits, a)[k].Met?
    ensures var ev := Events(deposits, a)[k];
            && ev.id < |deposits| && deposits[ev.id].status == ACTIVE && !a.unspent(ev.id)
            && a.history(ev.id).Some? && ev.t in a.history(ev.id).value
  {
    if deposits != [] {
      var n := |deposits| - 1;
      if k < |Events(deposits[..n], a)| { EventFrom(deposits[..n], a, k); }
    }
  }

  /** A transaction of such a deposit is met. */
  lemma {:induction false} EventMet(deposits: seq<Deposit>, a: Answers, d: nat, j: nat) returns (k: nat)
    requires d < |deposits| && deposits[d].status == ACTIVE && !a.unspent(d) && a.history(d).Some?
    requires j < |a.history(d).value|
    ensures k < |Events(deposits, a)| && Events(deposits, a)[k] == Met(d, a.history(d).value[j])
  {
    var n := |deposits| - 1;
    if d < n {
      k := EventMet(deposits[..n], a, d, j);
    } else {
      k := |Events(deposits[..n], a)| + j;
    }
  }

  lemma {:induction false} EventsAscend(deposits: seq<Deposit>, a: Answers, j: nat, k: nat)
    requires j <= k < |Events(deposits, a)| && Events(deposits, a)[j].Met? && Events(deposits, a)[k].Met?
    ensures Events(deposits, a)[j].id <= Events(deposits, a)[k].id
  {
    if deposits != [] {
      var n := |deposits| - 1;
      if k < |Events(deposits[..n], a)| {
        EventsAscend(deposits[..n], a, j, k);
      } else if j < |Events(deposits[..n], a)| {
        EventFrom(deposits[..n], a, j);
      }
    }
  }

  lemma {:induction false} FirstExists(deposits: seq<Deposit>, events: seq<Event>, j: nat, txid: int) returns (k: nat)
    requires j < |events| && EarnsRow(deposits, events[j], txid)
    ensures k <= j && IsFirst(deposits, events, k, txid)
  {
    if i :| 0 <= i < j && EarnsRow(deposits, events[i], txid) {
      k := FirstExists(deposits, events, i, txid);
    } else {
      k := j;
    }
  }

  /** The deposit is looked at, and the transaction is in its history. */
  predicate Reported(deposits: seq<Deposit>, a: Answers, d: nat, t: Tx) {
    d < |deposits| && deposits[d].status == ACTIVE && !a.unspent(d) && a.history(d).Some? && t in a.history(d).value
  }

  /**
   A transaction that is reported for an active deposit gets a row with it exactly if
   it is a coinstake that spends the output the deposit was funded with, has no row
   yet, and is not reported for a deposit with a lower id whose output it spends too.
  */
  lemma ReportedIff(deposits: seq<Deposit>, rewards: seq<Reward>, a: Answers, feeBp: int, d: nat, t: Tx)
    requires Reported(deposits, a, d, t) && !IsRewarded(rewards, t.txid)
    requires forall e: nat, u :: Reported(deposits, a, e, u) && u.txid == t.txid ==> u == t
    ensures HasRow(After(rewards, deposits, Events(deposits, a), feeBp), d, t.txid) <==>
            Earns(t, deposits[d]) && forall e: nat :: e < d && Reported(deposits, a, e, t) ==> !Earns(t, deposits[e])
  {
    hide After, Events, Earns, HasRow, IsRewarded;
    var events := Events(deposits, a);
    AfterRows(rewards, deposits, events, feeBp, d, t.txid);
    NoRow(rewards, d, t.txid);
    if FirstOf(deposits, events, t.txid, d) {
      var k: nat :| IsFirst(deposits, events, k, t.txid) && events[k].id == d;
      EventFrom(deposits, a, k);
      assert Reported(deposits, a, d, events[k].t);
      forall e: nat | e < d && Reported(deposits, a, e, t) ensures !Earns(t, deposits[e]) {
        LaterEvent(deposits, a, k, e, t);
      }
    }
    if Earns(t, deposits[d]) && forall e: nat :: e < d && Reported(deposits, a, e, t) ==> !Earns(t, deposits[e]) {
      var i :| 0 <= i < |a.history(d).value| && a.history(d).value[i] == t;
      var j := EventMet(deposits, a, d, i);
      var k := FirstExists(deposits, events, j, t.txid);
      EventFrom(deposits, a, k);
      EventsAscend(deposits, a, k, j);
      assert Reported(deposits, a, events[k].id, events[k].t);
      assert IsFirst(deposits, events, k, t.txid) && events[k].id == d;
    }
  }

  lemma NoRow(rewards: seq<Reward>, d: nat, txid: int)
    requires !IsRewarded(rewards, txid)
    ensures !HasRow(rewards, d, txid)
  {
  }

  /** What is reported for a lower id is met earlier, so it does not earn what is first earned later. */
  lemma LaterEvent(deposits: seq<Deposit>, a: Answers, k: nat, e: nat, t: Tx)
    requires IsFirst(deposits, Events(deposits, a), k, t.txid) && e < Events(deposits, a)[k].id
    requires Reported(deposits, a, e, t)
    ensures !Earns(t, deposits[e])
  {
    hide Earns, Events;
    var events := Events(deposits, a);
    var i :| 0 <= i < |a.history(e).value| && a.history(e).value[i] == t;
    var j := EventMet(deposits, a, e, i);
    if k <= j { EventsAscend(deposits, a, k, j); }
  }

  // ------------------------------------------------------------ how far a pass gets

  lemma ReachedNone(start: seq<Reward>, deposits: seq<Deposit>, feeBp: int)
    ensures Reached(start, deposits, [], feeBp) == 0 && After(start, deposits, [], feeBp) == start
  {
  }

  lemma AfterNext(start: seq<Reward>, deposits: seq<Deposit>, events: seq<Event>, feeBp: int, id: nat, txs: seq<Tx>,
                  k: nat)
    requires k < |txs|
    ensures var p := events + EventsOf(id, Some(txs[..k]));
            var ev := Met(id, txs[k]);
            && events + EventsOf(id, Some(txs[..k + 1])) == p + [ev]
            && After(start, deposits, p + [ev], feeBp) == Noted(After(start, deposits, p, feeBp), deposits, ev, feeBp)
  {
    hide Noted;
    var p := events + EventsOf(id, Some(txs[..k]));
    assert EventsOf(id, Some(txs[..k + 1])) == EventsOf(id, Some(txs[..k])) + [Met(id, txs[k])];
    assert (p + [Met(id, txs[k])])[..|p|] == p;
  }

  lemma {:induction false} ReachedHistory(start: seq<Reward>, deposits: seq<Deposit>, events: seq<Event>, id: nat,
                                          txs: seq<Tx>, feeBp: int, n: nat)
    requires n <= |txs| && Reached(start, deposits, events, feeBp) == |events|
    requires forall k :: 0 <= k < n ==>
               !Stops(After(start, deposits, events + EventsOf(id, Some(txs[..k])), feeBp), deposits, Met(id, txs[k]))
    ensures var p := events + EventsOf(id, Some(txs[..n])); Reached(start, deposits, p, feeBp) == |p|
  {
    hide Stops, Noted, After;
    if n == 0 {
      assert events + EventsOf(id, Some(txs[..0])) == events;
    } else {
      ReachedHistory(start, deposits, events, id, txs, feeBp, n - 1);
      AfterNext(start, deposits, events, feeBp, id, txs, n - 1);
      var q, p := events + EventsOf(id, Some(txs[..n - 1])), events + EventsOf(id, Some(txs[..n]));
      assert p[..|p| - 1] == q && p[|p| - 1] == Met(id, txs[n - 1]);
    }
  }

  /** The pass ends at an event that stops it, whatever comes after. */
  lemma {:induction false} ReachedStop(start: seq<Reward>, deposits: seq<Deposit>, met: seq<Event>, more: seq<Event>,
                                       events: seq<Event>, feeBp: int, n: nat)
    requires met + more <= events && n < |more| && Reached(start, deposits, met + more[..n], feeBp) == |met| + n
    requires Stops(After(start, deposits, met + more[..n], feeBp), deposits, more[n])
    ensures Reached(start, deposits, events, feeBp) == |met| + n && events[..|met| + n] == met + more[..n]
  {
    hide Stops, After;
    var m := |events| - 1;
    assert events[..|met| + n] == met + more[..n] by {
      assert (met + more)[..|met| + n] == met + more[..n];
    }
    if |met| + n == m {
      assert events[..m] == met + more[..n] && events[m] == more[n];
    } else {
      var less := if |met + more| <= m then more else more[..|more| - 1];
      assert met + less <= events[..m];
      assert less[..n] == more[..n];
      ReachedStop(start, deposits, met, less, events[..m], feeBp, n);
    }
  }

  /** The events of the first deposits come first. */
  lemma {:induction false} EventsSplit(deposits: seq<Deposit>, a: Answers, d: nat)
    requires d < |deposits|
    ensures var own := if deposits[d].status == ACTIVE && !a.unspent(d) then EventsOf(d, a.history(d)) else [];
            && Events(deposits[..d + 1], a) == Events(deposits[..d], a) + own
            && Events(deposits[..d + 1], a) <= Events(deposits, a)
  {
    assert deposits[..d + 1][..d] == deposits[..d];
    var n := |deposits| - 1;
    if d < n {
      EventsSplit(deposits[..n], a, d);
      assert deposits[..n][..d] == deposits[..d] && deposits[..n][..d + 1] == deposits[..d + 1];
    } else {
      assert deposits[..d + 1] == deposits;
    }
  }

  lemma EventsPrefix(d: nat, txs: Option<seq<Tx>>, n: nat)
    requires txs.Some? && n <= |txs.value|
    ensures |EventsOf(d, txs)| == |txs.value| && EventsOf(d, txs)[..n] == EventsOf(d, Some(txs.value[..n]))
    ensures n < |txs.value| ==> EventsOf(d, txs)[n] == Met(d, txs.value[n])
  {
  }

  lemma FailedOne(d: nat, txs: Option<seq<Tx>>)
    requires txs.None?
    ensures EventsOf(d, txs) == [Failed] && forall r, ds :: Stops(r, ds, Failed)
  {
  }

  /** What is earned early in the events is earned in the events. */
  lemma EarnedPrefix(start: seq<Reward>, deposits: seq<Deposit>, events: seq<Event>, n: nat, feeBp: int)
    requires n <= |events|
    ensures var r := After(start, deposits, events[..n], feeBp);
            start <= r && forall i :: |start| <= i < |r| ==> IsEarned(deposits, events, r[i], feeBp)
  {
    hide After, EarnsRow, RewardOf;
    AfterEarned(start, deposits, events[..n], feeBp);
    var r := After(start, deposits, events[..n], feeBp);
    forall i | |start| <= i < |r| ensures IsEarned(deposits, events, r[i], feeBp) {
      IsEarnedMore(deposits, events, n, r[i], feeBp);
    }
  }

  lemma IsEarnedMore(deposits: seq<Deposit>, events: seq<Event>, n: nat, r: Reward, feeBp: int)
    requires n <= |events| && IsEarned(deposits, events[..n], r, feeBp)
    ensures IsEarned(deposits, events, r, feeBp)
  {
    hide Earns, RewardOf;
    var p := events[..n];
    var k :| 0 <= k < |p| && EarnsRow(deposits, p[k], r.txid) && r == RewardOf(p[k].t, p[k].id, feeBp);
    assert p[k] == events[k];
  }

  /** Marking funded deposits a second time changes nothing, if the first time got to the end. */
  lemma FundedTwice(deposits: seq<Deposit>, utxo: nat -> Option<seq<(Outpoint, int)>>)
    requires Answered(deposits, utxo) == |deposits|
    ensures Funded(Funded(deposits, utxo), utxo) == Funded(deposits, utxo)
  {
    hide Answered;
    var once := Funded(deposits, utxo);
    var n := Answered(once, utxo);
    if n < |once| { assert deposits[n].status != AWAITING || utxo(n).Some?; }
    assert forall d :: 0 <= d < |once| ==> Funded(once, utxo)[d] == once[d];
  }

  // ------------------------------------------------------------ staking again

  /**
   A deposit is staked, and what the coinstake paid out is staked again. The second
   coinstake does not spend the output the deposit was funded with, so it is not
   credited, however often the watcher looks.
  */
  lemma StakedTwice(d: Deposit, first: Tx, second: Tx, feeBp: int)
    requires first.coinstake && Spends(first, d.funding) && d.funding.txid != first.txid && first.txid != second.txid
    requires second.coinstake && second.inputs == [(Outpoint(first.txid, 1), Sum(first.outputs))]
    ensures var events := [Met(0, first), Met(0, second)];
            var r := After([], [d], events, feeBp);
            && r == [RewardOf(first, 0, feeBp)] && !IsRewarded(r, second.txid)
            && After(r, [d], events, feeBp) == r
  {
    hide Sum;
    var events, none: seq<Reward> := [Met(0, first), Met(0, second)], [];
    assert !Earns(second, d);
    assert events[..1] == [Met(0, first)] && events[..1][..0] == [];
    assert After(none, [d], events[..1], feeBp) == [RewardOf(first, 0, feeBp)] by {
      assert After(none, [d], events[..1][..0], feeBp) == none;
    }
    var r := [RewardOf(first, 0, feeBp)];
    assert r[0].txid == first.txid;
    forall k | 0 <= k < 2 ensures !GetsRow(r, [d], events[k]) {
      assert k == 0 || k == 1;
    }
    NothingNew(r, [d], events, feeBp);
  }

  // ------------------------------------------------------------ referral credits

  predicate Counts(d: Deposit, user: int) { d.user == user && d.status != AWAITING }

  ghost predicate HasCredit(credits: seq<Credit>, user: int) {
    exists i :: 0 <= i < |credits| && credits[i].referred == user
  }

  function Share(d: Deposit, rewardBp: int): int { d.amount * rewardBp / 10000 }

  /**
   A deposit earns the referrer a credit if it is the only funded one of a referred user
   and its share is positive.
  */
  ghost predicate Eligible(deposits: seq<Deposit>, credits: seq<Credit>, referredBy: map<int, int>, rewardBp: int,
                           id: nat)
    requires id < |deposits|
  {
    && deposits[id].user in referredBy && !HasCredit(credits, deposits[id].user)
    && (forall d :: 0 <= d < |deposits| && d != id ==> !Counts(deposits[d], deposits[id].user))
    && Share(deposits[id], rewardBp) > 0
  }

  /** `order` lists the funded deposits as they were funded. */
  ghost predicate OrderOk(deposits: seq<Deposit>, order: seq<nat>) {
    && (forall k :: 0 <= k < |order| ==> order[k] < |deposits| && deposits[order[k]].status != AWAITING)
    && (forall d: nat :: d < |deposits| && deposits[d].status != AWAITING ==> d in order)
  }

  /** The first funded deposit of a user. */
  function FirstFunded(deposits: seq<Deposit>, order: seq<nat>, user: int): (r: Option<nat>)
    ensures r.Some? ==> r.value in order && r.value < |deposits| && deposits[r.value].user == user
    ensures r.None? ==> forall k :: 0 <= k < |order| ==> order[k] >= |deposits| || deposits[order[k]].user != user
  {
    if order == [] then None else
      var n := |order| - 1;
      var r := FirstFunded(deposits, order[..n], user);
      if r.Some? then r
      else if order[n] < |deposits| && deposits[order[n]].user == user then Some(order[n]) else None
  }

  /**
   A user has caused a credit exactly if they were referred and the share of their first
   funded deposit is positive.
  */
  ghost predicate CreditDue(deposits: seq<Deposit>, order: seq<nat>, referredBy: map<int, int>, rewardBp: int,
                            user: int)
  {
    && user in referredBy
    && FirstFunded(deposits, order, user).Some?
    && Share(deposits[FirstFunded(deposits, order, user).value], rewardBp) > 0
  }

  ghost predicate CreditsExact(deposits: seq<Deposit>, order: seq<nat>, credits: seq<Credit>,
                               referredBy: map<int, int>, rewardBp: int)
  {
    forall u: int :: HasCredit(credits, u) <==> CreditDue(deposits, order, referredBy, rewardBp, u)
  }

  lemma {:induction false} FirstSame(deposits: seq<Deposit>, deposits': seq<Deposit>, order: seq<nat>, user: int)
    requires forall k :: 0 <= k < |order| ==>
               order[k] < |deposits| && order[k] < |deposits'| && deposits[order[k]].user == deposits'[order[k]].user
    ensures FirstFunded(deposits', order, user) == FirstFunded(deposits, order, user)
  {
    if order != [] { FirstSame(deposits, deposits', order[..|order| - 1], user); }
  }

  /** What only moves deposits along changes nothing about the credits due. */
  lemma DueSame(deposits: seq<Deposit>, deposits': seq<Deposit>, order: seq<nat>, referredBy: map<int, int>,
                rewardBp: int, u: int)
    requires OrderOk(deposits, order) && Evolves(deposits, deposits')
    ensures CreditDue(deposits', order, referredBy, rewardBp, u) <==>
              CreditDue(deposits, order, referredBy, rewardBp, u)
  {
    FirstSame(deposits, deposits', order, u);
    if FirstFunded(deposits, order, u).Some? {
      var d := FirstFunded(deposits, order, u).value;
      assert d in order && deposits[d].status != AWAITING;
      assert deposits'[d].amount == deposits[d].amount;
    }
  }

  lemma StillExact(deposits: seq<Deposit>, deposits': seq<Deposit>, order: seq<nat>, credits: seq<Credit>,
                   referredBy: map<int, int>, rewardBp: int)
    requires OrderOk(deposits, order) && Evolves(deposits, deposits')
    requires CreditsExact(deposits, order, credits, referredBy, rewardBp)
    requires forall d :: 0 <= d < |deposits'| && deposits'[d].status != AWAITING ==>
               d < |deposits| && deposits[d].status != AWAITING
    ensures OrderOk(deposits', order) && CreditsExact(deposits', order, credits, referredBy, rewardBp)
  {
    hide CreditDue, HasCredit;
    forall u: int ensures HasCredit(credits, u) <==> CreditDue(deposits', order, referredBy, rewardBp, u) {
      DueSame(deposits, deposits', order, referredBy, rewardBp, u);
    }
  }

  function Fund(d: Deposit, out: Outpoint, amount: int): Deposit {
    d.(status := ACTIVE, funding := out, amount := amount)
  }

  /** The credit for a deposit just funded, if it earns one. */
  ghost function CreditFor(deposits: seq<Deposit>, credits: seq<Credit>, referredBy: map<int, int>, rewardBp: int,
                           id: nat): seq<Credit>
    requires id < |deposits|
  {
    var user := deposits[id].user;
    if Eligible(deposits, credits, referredBy, rewardBp, id)
    then [Credit(referredBy[user], user, id, Share(deposits[id], rewardBp), false)]
    else []
  }

  /** A deposit is funded, and the referrer credited if one is due. */
  ghost function FundNext(s: Tables, rewardBp: int, id: nat, out: Outpoint, amount: int): Tables
    requires id < |s.deposits|
  {
    var deposits := s.deposits[id := Fund(s.deposits[id], out, amount)];
    s.(deposits := deposits, order := s.order + [id],
       credits := s.credits + CreditFor(deposits, s.credits, s.referredBy, rewardBp, id))
  }

  /** The first `n` deposits are funded if they have an output. */
  ghost function Marked(s: Tables, utxo: nat -> Option<seq<(Outpoint, int)>>, rewardBp: int, n: nat): (r: Tables)
    requires n <= |s.deposits|
    ensures |r.deposits| == |s.deposits| && r.rewards == s.rewards
    ensures forall d :: n <= d < |s.deposits| ==> r.deposits[d] == s.deposits[d]
  {
    if n == 0 then s else
      var t := Marked(s, utxo, rewardBp, n - 1);
      if s.deposits[n - 1].status == AWAITING && utxo(n - 1).Some? && utxo(n - 1).value != []
      then FundNext(t, rewardBp, n - 1, utxo(n - 1).value[0].0, utxo(n - 1).value[0].1)
      else t
  }

  lemma MarkedNone(s: Tables, utxo: nat -> Option<seq<(Outpoint, int)>>, rewardBp: int)
    ensures Marked(s, utxo, rewardBp, 0) == s
  {
  }

  lemma MarkedNext(s: Tables, utxo: nat -> Option<seq<(Outpoint, int)>>, rewardBp: int, n: nat)
    requires n < |s.deposits|
    ensures var t := Marked(s, utxo, rewardBp, n);
            && t.deposits[n] == s.deposits[n]
            && Marked(s, utxo, rewardBp, n + 1) ==
               if s.deposits[n].status == AWAITING && utxo(n).Some? && utxo(n).value != []
               then FundNext(t, rewardBp, n, utxo(n).value[0].0, utxo(n).value[0].1) else t
  {
    hide FundNext;
  }

  /** Each of them is funded by its first output, nothing is lost, and without funding there is no credit. */
  lemma {:induction false} MarkedIs(s: Tables, utxo: nat -> Option<seq<(Outpoint, int)>>, rewardBp: int, n: nat)
    requires n <= |s.deposits|
    ensures var t := Marked(s, utxo, rewardBp, n);
            && (forall d :: 0 <= d < n ==> t.deposits[d] == FundedOne(s.deposits[d], utxo(d)))
            && s.credits <= t.credits && s.order <= t.order
            && (t.credits == s.credits || exists d :: 0 <= d < n && t.deposits[d] != s.deposits[d])
  {
    hide CreditFor;
    if n > 0 {
      MarkedIs(s, utxo, rewardBp, n - 1);
      var t, u := Marked(s, utxo, rewardBp, n - 1), Marked(s, utxo, rewardBp, n);
      if t == u {
        if t.credits != s.credits {
          var d :| 0 <= d < n - 1 && t.deposits[d] != s.deposits[d];
          assert u.deposits[d] != s.deposits[d];
        }
      } else {
        assert u.deposits[n - 1] != s.deposits[n - 1];
      }
    }
  }

  lemma MarkedFunded(s: Tables, utxo: nat -> Option<seq<(Outpoint, int)>>, rewardBp: int)
    ensures var t := Marked(s, utxo, rewardBp, Answered(s.deposits, utxo));
            && t.deposits == Funded(s.deposits, utxo) && s.credits <= t.credits && s.order <= t.order
            && (t.deposits == s.deposits ==> t.credits == s.credits)
  {
    hide Marked, Answered, FundedOne;
    MarkedIs(s, utxo, rewardBp, Answered(s.deposits, utxo));
  }

  /** A pass of the watcher, as far as the node answers. */
  ghost function Passed(s: Tables, a: Answers, feeBp: int, rewardBp: int): Tables {
    var n := Answered(s.deposits, a.utxo);
    var t := Marked(s, a.utxo, rewardBp, n);
    if n < |s.deposits| then t else
      var events := Events(t.deposits, a);
      var met := events[..Reached(t.rewards, t.deposits, events, feeBp)];
      t.(rewards := After(t.rewards, t.deposits, met, feeBp))
  }

  /** Funding a deposit gives exactly the credit that is due. */
  lemma FundedExact(deposits: seq<Deposit>, order: seq<nat>, credits: seq<Credit>, referredBy: map<int, int>,
                    rewardBp: int, id: nat, out: Outpoint, amount: int, credits': seq<Credit>)
    requires OrderOk(deposits, order) && CreditsExact(deposits, order, credits, referredBy, rewardBp)
    requires id < |deposits| && deposits[id].status == AWAITING
    requires forall u: int :: HasCredit(credits', u) <==>
               || HasCredit(credits, u)
               || (u == deposits[id].user
                   && Eligible(deposits[id := Fund(deposits[id], out, amount)], credits, referredBy, rewardBp, id))
    ensures var deposits' := deposits[id := Fund(deposits[id], out, amount)];
            OrderOk(deposits', order + [id]) && CreditsExact(deposits', order + [id], credits', referredBy, rewardBp)
  {
    hide HasCredit, CreditDue;
    var deposits' := deposits[id := Fund(deposits[id], out, amount)];
    assert id !in order;
    OrderMore(deposits, order, id, out, amount);
    forall u: int ensures HasCredit(credits', u) <==> CreditDue(deposits', order + [id], referredBy, rewardBp, u) {
      DueMore(deposits, order, credits, referredBy, rewardBp, id, out, amount, u);
    }
  }

  lemma OrderMore(deposits: seq<Deposit>, order: seq<nat>, id: nat, out: Outpoint, amount: int)
    requires OrderOk(deposits, order) && id < |deposits|
    ensures OrderOk(deposits[id := Fund(deposits[id], out, amount)], order + [id])
  {
    var more := order + [id];
    assert more[|order|] == id;
    forall d: nat | d < |deposits| && (d == id || deposits[d].status != AWAITING) ensures d in more {
      if d != id {
        var k :| 0 <= k < |order| && order[k] == d;
        assert more[k] == d;
      }
    }
  }

  lemma DueMore(deposits: seq<Deposit>, order: seq<nat>, credits: seq<Credit>, referredBy: map<int, int>, rewardBp: int,
                id: nat, out: Outpoint, amount: int, u: int)
    requires OrderOk(deposits, order) && id < |deposits| && deposits[id].status == AWAITING
    requires HasCredit(credits, u) <==> CreditDue(deposits, order, referredBy, rewardBp, u)
    ensures var deposits' := deposits[id := Fund(deposits[id], out, amount)];
            CreditDue(deposits', order + [id], referredBy, rewardBp, u) <==>
            HasCredit(credits, u) || (u == deposits[id].user && Eligible(deposits', credits, referredBy, rewardBp, id))
  {
    hide HasCredit;
    var deposits' := deposits[id := Fund(deposits[id], out, amount)];
    assert (order + [id])[..|order|] == order;
    FirstSame(deposits, deposits', order, u);
    var first := FirstFunded(deposits, order, u);
    if first.Some? {
      var d := first.value;
      assert d in order && d != id && Counts(deposits'[d], u);
    } else {
      forall d | 0 <= d < |deposits'| && d != id ensures !Counts(deposits'[d], u) {
        if deposits[d].status != AWAITING { assert d in order; }
      }
    }
  }

  /** The credits after one is added, or not. */
  lemma CreditsMore(credits: seq<Credit>, credits': seq<Credit>, user: int, more: bool)
    requires more ==> |credits'| == |credits| + 1 && credits <= credits' && credits'[|credits|].referred == user
    requires !more ==> credits' == credits
    ensures forall u: int :: HasCredit(credits', u) <==> HasCredit(credits, u) || (u == user && more)
  {
    forall u: int ensures HasCredit(credits', u) <==> HasCredit(credits, u) || (u == user && more) {
      if i :| 0 <= i < |credits| && credits[i].referred == u { assert credits'[i].referred == u; }
      if more { assert credits'[|credits|].referred == user; }
    }
  }

  lemma {:induction false} NothingActive(deposits: seq<Deposit>, rewards: seq<Reward>, user: int)
    ensures Worth(Closed(deposits, user), rewards, user, ACTIVE) == 0
  {
    if deposits != [] {
      var n := |deposits| - 1;
      NothingActive(deposits[..n], rewards, user);
      assert Closed(deposits, user)[..n] == Closed(deposits[..n], user);
    }
  }

  lemma CashedTables(deposits: seq<Deposit>, rewards: seq<Reward>, credits: seq<Credit>,
                     referredBy: map<int, int>, feeBp: int, rewardBp: int, user: int)
    requires TablesOk(deposits, rewards, credits, referredBy, feeBp, rewardBp)
    ensures TablesOk(deposits, rewards, Cashed(credits, user), referredBy, feeBp, rewardBp)
    ensures forall u: int :: HasCredit(Cashed(credits, user), u) <==> HasCredit(credits, u)
  {
    var cashed := Cashed(credits, user);
    forall u: int ensures HasCredit(cashed, u) <==> HasCredit(credits, u) {
      if i :| 0 <= i < |credits| && credits[i].referred == u { assert cashed[i].referred == u; }
      if i :| 0 <= i < |cashed| && cashed[i].referred == u { assert credits[i].referred == u; }
    }
  }
}
