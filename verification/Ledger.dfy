/**
 The custodial staking pool: what its operations do to the tables, and what holds over
 any run of them.
*/
module Ledger {
  import opened Prelude
  import opened LedgerTables

  class Pool {
    const feeBp: int
    const rewardBp: int
    var deposits: seq<Deposit>
    var rewards: seq<Reward>
    var credits: seq<Credit>
    var referredBy: map<int, int>

    /** The funded deposits, in the order in which they were funded. */
    ghost var order: seq<nat>

    /** What was paid out, and what was given up with a withdrawal, by user. */
    ghost var paid: map<int, int>
    ghost var forfeited: map<int, int>
    ghost var referralPaid: map<int, int>

    constructor (feeBp: int, rewardBp: int)
      ensures Valid() && deposits == [] && rewards == [] && credits == []
      ensures this.feeBp == feeBp && this.rewardBp == rewardBp && Contents() == EMPTY
    {
      this.feeBp, this.rewardBp := feeBp, rewardBp;
      deposits, rewards, credits, referredBy, order := [], [], [], map[], [];
      paid, forfeited, referralPaid := map[], map[], map[];
    }

    ghost function Contents(): Tables
      reads this
    {
      Tables(deposits, rewards, credits, referredBy, order, paid, forfeited, referralPaid)
    }

    ghost predicate Valid()
      reads this
    {
      && Books()
      && OrderOk(deposits, order)
      && CreditsExact(deposits, order, credits, referredBy, rewardBp)
    }

    /** The tables agree with each other and with what was paid. */
    ghost predicate Books()
      reads this
    {
      && TablesOk(deposits, rewards, credits, referredBy, feeBp, rewardBp)
      && (forall u: int :: Balanced(u))
      && (forall u: int :: Paid(referralPaid, u) == Credited(credits, u, true))
    }

    /** Withdrawn deposits were paid out or given up, to the last unit. */
    ghost predicate Balanced(u: int)
      reads this
    {
      Paid(paid, u) + Paid(forfeited, u) == Worth(deposits, rewards, u, WITHDRAWN) && Paid(forfeited, u) >= 0
    }

    /** No row disappears, deposits only move forward, and nothing is paid. */
    twostate predicate Forward()
      reads this
    {
      && Evolves(old(deposits), deposits)
      && old(rewards) <= rewards && |old(credits)| <= |credits|
      && (forall i :: 0 <= i < |old(credits)| ==>
            && old(credits)[i] == credits[i].(withdrawn := old(credits)[i].withdrawn)
            && (old(credits)[i].withdrawn ==> credits[i].withdrawn))
    }

    /** A new user, who has no deposits yet, is referred by another. */
    method SignUp(user: int, referrer: int)
      requires Valid() && user !in referredBy && forall d :: 0 <= d < |deposits| ==> deposits[d].user != user
      modifies this`referredBy
      ensures Valid() && referredBy == old(referredBy)[user := referrer]
    {
      assert FirstFunded(deposits, order, user).None?;
      referredBy := referredBy[user := referrer];
      forall u: int ensures Balanced(u) { assert old(Balanced(u)); }
      forall u: int
        ensures CreditDue(deposits, order, referredBy, rewardBp, u) <==>
                  CreditDue(deposits, order, old(referredBy), rewardBp, u)
      {
      }
    }

    method CreateDeposit(user: int) returns (id: nat)
      requires Valid()
      modifies this`deposits
      ensures Valid() && Forward() && id == |old(deposits)|
      ensures deposits == old(deposits) + [Deposit(user, AWAITING, Outpoint(0, 0), 0)]
    {
      hide TablesOk, CreditsExact, OrderOk;
      id := |deposits|;
      deposits := deposits + [Deposit(user, AWAITING, Outpoint(0, 0), 0)];
      TablesEvolve(old(deposits), deposits, rewards, credits, referredBy, feeBp, rewardBp);
      StillExact(old(deposits), deposits, order, credits, referredBy, rewardBp);
      assert deposits[..id] == old(deposits);
      forall u: int ensures Balanced(u) { assert old(Balanced(u)); }
    }

    /** Whether the user has another funded deposit. */
    method HadDeposit(user: int, id: nat) returns (had: bool)
      ensures had <==> exists d :: 0 <= d < |deposits| && d != id && Counts(deposits[d], user)
    {
      had := false;
      for d := 0 to |deposits|
        invariant had <==> exists e :: 0 <= e < d && e != id && Counts(deposits[e], user)
      {
        if d != id && Counts(deposits[d], user) { had := true; }
      }
    }

    method AlreadyCredited(user: int) returns (already: bool)
      ensures already <==> HasCredit(credits, user)
    {
      already := false;
      for i := 0 to |credits|
        invariant already <==> exists j :: 0 <= j < i && credits[j].referred == user
      {
        if credits[i].referred == user { already := true; }
      }
    }

    /** Credit the referrer once, for the first funded deposit of a referred user. */
    method CreditReferralIfEligible(id: nat)
      requires Books() && id < |deposits| && deposits[id].status != AWAITING
      modifies this`credits
      ensures Books() && Forward()
      ensures credits == old(credits) + CreditFor(deposits, old(credits), referredBy, rewardBp, id)
    {
      var user := deposits[id].user;
      if user !in referredBy { return; }
      var already := AlreadyCredited(user);
      if already { return; }
      var had := HadDeposit(user, id);
      if had { return; }
      var reward := deposits[id].amount * rewardBp / 10000;
      if reward <= 0 { return; }
      credits := credits + [Credit(referredBy[user], user, id, reward, false)];
      assert credits[..|old(credits)|] == old(credits);
      forall u: int ensures Balanced(u) { assert old(Balanced(u)); }
    }

    method FundOne(id: nat, out: Outpoint, amount: int)
      requires Valid() && id < |deposits| && deposits[id].status == AWAITING
      modifies this`deposits, this`credits, this`order
      ensures Valid() && Forward() && |deposits| == |old(deposits)|
      ensures Contents() == FundNext(old(Contents()), rewardBp, id, out, amount)
    {
      hide TablesOk, CreditsExact, OrderOk, Eligible, HasCredit;
      deposits := deposits[id := deposits[id].(status := ACTIVE, funding := out, amount := amount)];
      order := order + [id];
      TablesEvolve(old(deposits), deposits, rewards, credits, referredBy, feeBp, rewardBp);
      forall u: int ensures Balanced(u) {
        assert old(Balanced(u));
        WorthSame(old(deposits), deposits, rewards, u);
      }
      CreditReferralIfEligible(id);
      CreditsMore(old(credits), credits, deposits[id].user, Eligible(deposits, old(credits), referredBy, rewardBp, id));
      FundedExact(old(deposits), old(order), old(credits), referredBy, rewardBp, id, out, amount, credits);
    }

    /** Mark the deposits that now have an output; the first one funds it. A failed call ends the pass. */
    method MarkFundedDeposits(utxo: nat -> Option<seq<(Outpoint, int)>>) returns (done: bool)
      requires Valid()
      modifies this`deposits, this`credits, this`order
      ensures Valid() && Forward() && old(credits) <= credits && old(order) <= order
      ensures deposits == Funded(old(deposits), utxo)
      ensures Contents() == Marked(old(Contents()), utxo, rewardBp, Answered(old(deposits), utxo))
      ensures done <==> Answered(old(deposits), utxo) == |old(deposits)|
      ensures deposits == old(deposits) ==> credits == old(credits)
    {
      hide Pool.Valid, Pool.Books, Answered, Marked, FundNext;
      ghost var s, all := Contents(), Answered(deposits, utxo);
      MarkedNone(s, utxo, rewardBp);
      MarkedFunded(s, utxo, rewardBp);
      for d := 0 to |deposits|
        invariant Valid() && Forward() && |deposits| == |s.deposits|
        invariant d <= all && Contents() == Marked(s, utxo, rewardBp, d)
      {
        MarkedNext(s, utxo, rewardBp, d);
        if deposits[d].status == AWAITING {
          var outs := utxo(d);
          if outs.None? { return false; }
          if outs.value != [] { FundOne(d, outs.value[0].0, outs.value[0].1); }
        }
      }
      done := true;
    }

    method AlreadyRewarded(txid: int) returns (already: bool)
      ensures already <==> IsRewarded(rewards, txid)
    {
      already := false;
      for i := 0 to |rewards|
        invariant already <==> exists j :: 0 <= j < i && rewards[j].txid == txid
      {
        if rewards[i].txid == txid { already := true; }
      }
    }

    /** Credit a coinstake that spends the deposit's output, unless it was credited before; `false` ends the pass. */
    method Attribute(id: nat, t: Tx) returns (done: bool)
      requires Valid() && id < |deposits| && deposits[id].status == ACTIVE
      modifies this`rewards
      ensures Valid() && Forward()
      ensures done <==> !Stops(old(rewards), deposits, Met(id, t))
      ensures rewards == if done then Noted(old(rewards), deposits, Met(id, t), feeBp) else old(rewards)
    {
      hide Pool.Valid, Pool.Books, Sum, Values, IsRewarded;
      var already := AlreadyRewarded(t.txid);
      if already { return true; }
      if !t.coinstake { return true; }
      if !Spends(t, deposits[id].funding) { return true; }
      if !t.readable { return false; }
      var outTotal := Total(t.outputs);
      var inTotal := Total(Values(t.inputs));
      var gross := outTotal - inTotal;
      var fee := gross * feeBp / 10000;
      AddRow(Reward(id, t.txid, gross, fee, gross - fee));
      done := true;
    }

    method AddRow(r: Reward)
      requires Valid() && r.deposit < |deposits| && deposits[r.deposit].status == ACTIVE && !IsRewarded(rewards, r.txid)
      requires r.fee == r.gross * feeBp / 10000 && r.net == r.gross - r.fee
      modifies this`rewards
      ensures Valid() && Forward() && rewards == old(rewards) + [r]
    {
      hide CreditsExact, OrderOk;
      rewards := rewards + [r];
      forall u: int ensures Balanced(u) {
        assert old(Balanced(u));
        RewardActive(deposits, old(rewards), r, u);
      }
    }

    /** The transactions of one deposit, after the events of those before it. */
    method AttributeHistory(id: nat, txs: seq<Tx>, ghost start: seq<Reward>, ghost events: seq<Event>)
        returns (done: bool, ghost n: nat)
      requires Valid() && id < |deposits| && deposits[id].status == ACTIVE
      requires rewards == After(start, deposits, events, feeBp)
      modifies this`rewards
      ensures Valid() && Forward() && n <= |txs|
      ensures rewards == After(start, deposits, events + EventsOf(id, Some(txs[..n])), feeBp)
      ensures if done then n == |txs| else n < |txs| && Stops(rewards, deposits, Met(id, txs[n]))
      ensures forall k :: 0 <= k < n ==>
                !Stops(After(start, deposits, events + EventsOf(id, Some(txs[..k])), feeBp), deposits, Met(id, txs[k]))
    {
      hide Pool.Valid, Pool.Books, Stops, Noted, After;
      n := 0;
      assert events + EventsOf(id, Some(txs[..0])) == events;
      for k := 0 to |txs|
        invariant Valid() && Forward() && n == k
        invariant rewards == After(start, deposits, events + EventsOf(id, Some(txs[..k])), feeBp)
        invariant forall j :: 0 <= j < k ==>
                    !Stops(After(start, deposits, events + EventsOf(id, Some(txs[..j])), feeBp), deposits,
                           Met(id, txs[j]))
      {
        AfterNext(start, deposits, events, feeBp, id, txs, k);
        var one := Attribute(id, txs[k]);
        if !one { return false, k; }
        n := k + 1;
      }
      done := true;
      assert txs[..|txs|] == txs;
    }

    /** The events of one more deposit. */
    method AttributeNext(a: Answers, d: nat, ghost start: seq<Reward>) returns (done: bool)
      requires Valid() && d < |deposits|
      requires var met := Events(deposits[..d], a);
               rewards == After(start, deposits, met, feeBp) && Reached(start, deposits, met, feeBp) == |met|
      modifies this`rewards
      ensures Valid() && Forward()
      ensures var events := if done then Events(deposits[..d + 1], a) else Events(deposits, a);
              var n := Reached(start, deposits, events, feeBp);
              rewards == After(start, deposits, events[..n], feeBp) && (done <==> n == |events|)
    {
      hide Pool.Valid, Pool.Books, Stops, Noted, After, Reached, EventsOf, Events;
      ghost var met, events := Events(deposits[..d], a), Events(deposits, a);
      done := true;
      EventsSplit(deposits, a, d);
      if deposits[d].status == ACTIVE && !a.unspent(d) {
        var txs := a.history(d);
        if txs.None? {
          FailedOne(d, txs);
          assert met + EventsOf(d, txs)[..0] == met;
          ReachedStop(start, deposits, met, EventsOf(d, txs), events, feeBp, 0);
          return false;
        }
        ghost var n: nat;
        done, n := AttributeHistory(d, txs.value, start, met);
        ReachedHistory(start, deposits, met, d, txs.value, feeBp, n);
        EventsPrefix(d, txs, n);
        if !done {
          ReachedStop(start, deposits, met, EventsOf(d, txs), events, feeBp, n);
          return;
        }
        assert txs.value[..n] == txs.value && Some(txs.value) == txs;
      } else {
        assert met == Events(deposits[..d + 1], a);
      }
      assert Events(deposits[..d + 1], a)[..|Events(deposits[..d + 1], a)|] == Events(deposits[..d + 1], a);
    }

    /** One watcher pass over the active deposits whose output is spent, as far as the node answers. */
    method AttributeRewards(a: Answers) returns (done: bool)
      requires Valid()
      modifies this`rewards
      ensures Valid() && Forward()
      ensures var events := Events(deposits, a);
              var n := Reached(old(rewards), deposits, events, feeBp);
              rewards == After(old(rewards), deposits, events[..n], feeBp) && (done <==> n == |events|)
    {
      hide Pool.Valid, Pool.Books, After, Reached;
      ghost var start, events := rewards, Events(deposits, a);
      ReachedNone(start, deposits, feeBp);
      for d := 0 to |deposits|
        invariant Valid() && Forward()
        invariant rewards == After(start, deposits, Events(deposits[..d], a), feeBp)
        invariant Reached(start, deposits, Events(deposits[..d], a), feeBp) == |Events(deposits[..d], a)|
      {
        done := AttributeNext(a, d, start);
        if !done { return; }
        assert Events(deposits[..d + 1], a)[..|Events(deposits[..d + 1], a)|] == Events(deposits[..d + 1], a);
      }
      done := true;
      assert deposits[..|deposits|] == deposits && events[..|events|] == events;
    }

    method StatusForUser(user: int) returns (delegated: int, accrued: int)
      ensures delegated == Principal(deposits, user) && accrued == Accrued(deposits, rewards, user)
      ensures delegated + accrued == Worth(deposits, rewards, user, ACTIVE)
    {
      delegated, accrued := 0, 0;
      for d := 0 to |deposits|
        invariant delegated == Principal(deposits[..d], user)
      {
        assert deposits[..d + 1][..d] == deposits[..d];
        if deposits[d].user == user && deposits[d].status == ACTIVE { delegated := delegated + deposits[d].amount; }
      }
      for i := 0 to |rewards|
        invariant accrued == Accrued(deposits, rewards[..i], user)
      {
        assert rewards[..i + 1][..i] == rewards[..i];
        if IsActive(deposits, rewards[i].deposit, user) { accrued := accrued + rewards[i].net; }
      }
      assert deposits[..|deposits|] == deposits && rewards[..|rewards|] == rewards;
      BalanceIsWorth(deposits, rewards, user);
    }

    /**
     Pay `amount` and close all active deposits; `sent` is whether the node could send
     it. What the deposits are worth beyond the amount is given up, so nothing is lost
     exactly if the amount is their worth.
    */
    method Withdraw(user: int, amount: int, sent: bool) returns (ok: bool)
      requires Valid()
      modifies this`deposits, this`paid, this`forfeited
      ensures Valid() && Forward()
      ensures ok <==> amount <= Worth(old(deposits), rewards, user, ACTIVE) && sent
      ensures if ok then
                && deposits == Closed(old(deposits), user)
                && paid == old(paid)[user := Paid(old(paid), user) + amount]
                && forfeited == old(forfeited)[user := Paid(old(forfeited), user)
                                                       + (Worth(old(deposits), rewards, user, ACTIVE) - amount)]
              else deposits == old(deposits) && paid == old(paid) && forfeited == old(forfeited)
      ensures ok ==> Worth(deposits, rewards, user, ACTIVE) == 0
      ensures ok ==> (Paid(forfeited, user) == Paid(old(forfeited), user) <==>
                      amount == Worth(old(deposits), rewards, user, ACTIVE))
    {
      hide TablesOk, CreditsExact, OrderOk;
      var delegated, accrued := StatusForUser(user);
      var available := delegated + accrued;
      if amount > available { return false; }
      if !sent { return false; }
      paid := paid[user := Paid(paid, user) + amount];
      forfeited := forfeited[user := Paid(forfeited, user) + (available - amount)];
      deposits := Closed(deposits, user);
      TablesEvolve(old(deposits), deposits, rewards, credits, referredBy, feeBp, rewardBp);
      StillExact(old(deposits), deposits, order, credits, referredBy, rewardBp);
      forall u: int ensures Balanced(u) {
        assert old(Balanced(u));
        WorthClosed(old(deposits), rewards, user, u);
      }
      NothingActive(old(deposits), rewards, user);
      ok := true;
    }

    method ReferralAvailable(user: int) returns (available: int)
      ensures available == Credited(credits, user, false)
    {
      available := 0;
      for i := 0 to |credits|
        invariant available == Credited(credits[..i], user, false)
      {
        assert credits[..i + 1][..i] == credits[..i];
        if credits[i].referrer == user && !credits[i].withdrawn { available := available + credits[i].amount; }
      }
      assert credits[..|credits|] == credits;
    }

    /** Pay out all open credits of a referrer, and mark exactly those as paid. */
    method WithdrawReferral(user: int, sent: bool) returns (ok: bool)
      requires Valid()
      modifies this`credits, this`referralPaid
      ensures Valid() && Forward()
      ensures ok <==> Credited(old(credits), user, false) > 0 && sent
      ensures if ok then
                && credits == Cashed(old(credits), user)
                && referralPaid == old(referralPaid)[user := Paid(old(referralPaid), user)
                                                             + Credited(old(credits), user, false)]
              else credits == old(credits) && referralPaid == old(referralPaid)
    {
      hide TablesOk, Credited, Cashed, Worth, CreditDue, HasCredit;
      var amount := ReferralAvailable(user);
      if amount <= 0 { return false; }
      if !sent { return false; }
      referralPaid := referralPaid[user := Paid(referralPaid, user) + amount];
      credits := Cashed(credits, user);
      CashedTables(deposits, rewards, old(credits), referredBy, feeBp, rewardBp, user);
      forall u: int ensures Paid(referralPaid, u) == Credited(credits, u, true) {
        CreditedCashed(old(credits), user, u);
      }
      forall u: int ensures Balanced(u) { assert old(Balanced(u)); }
      ok := true;
    }
  }

  method Total(s: seq<int>) returns (total: int)
    ensures total == Sum(s)
  {
    total := 0;
    for i := 0 to |s|
      invariant total == Sum(s[..i])
    {
      assert s[..i + 1][..i] == s[..i];
      total := total + s[i];
    }
    assert s[..|s|] == s;
  }

  // ------------------------------------------------------------ a whole pass

  /** Nothing is left to fund, and every coinstake that is met has its row. */
  ghost predicate Settled(p: Pool, a: Answers)
    reads p
  {
    && p.deposits == Funded(p.deposits, a.utxo)
    && forall k :: 0 <= k < |Events(p.deposits, a)| ==> !GetsRow(p.rewards, p.deposits, Events(p.deposits, a)[k])
  }

  /**
   A pass of the watcher. If the node answers every call nothing is left to do, and if
   there was nothing to do nothing is changed: the watcher may be called repeatedly.
  */
  method WatcherPass(p: Pool, a: Answers) returns (done: bool)
    requires p.Valid()
    modifies p`deposits, p`rewards, p`credits, p`order
    ensures p.Valid() && p.Forward()
    ensures p.Contents() == Passed(old(p.Contents()), a, p.feeBp, p.rewardBp)
    ensures p.deposits == Funded(old(p.deposits), a.utxo)
    ensures done ==> Settled(p, a)
    ensures old(Settled(p, a)) ==>
              p.deposits == old(p.deposits) && p.rewards == old(p.rewards) && p.credits == old(p.credits)
    ensures done ==> p.rewards == After(old(p.rewards), p.deposits, Events(p.deposits, a), p.feeBp)
    ensures forall i :: |old(p.rewards)| <= i < |p.rewards| ==>
              IsEarned(p.deposits, Events(p.deposits, a), p.rewards[i], p.feeBp)
  {
    hide Pool.Valid, Pool.Books, GetsRow, Events, After, Reached, Answered, IsEarned, Marked;
    done := p.MarkFundedDeposits(a.utxo);
    if !done { return; }
    ghost var start, events := p.rewards, Events(p.deposits, a);
    FundedTwice(old(p.deposits), a.utxo);
    done := p.AttributeRewards(a);
    ghost var n := Reached(start, p.deposits, events, p.feeBp);
    assert events[..|events|] == events;
    if done {
      forall k | 0 <= k < |events| ensures !GetsRow(p.rewards, p.deposits, events[k]) {
        NoneLeft(start, p.deposits, events, p.feeBp, k);
      }
    }
    if old(Settled(p, a)) {
      NothingNew(start, p.deposits, events[..n], p.feeBp);
    }
    EarnedPrefix(start, p.deposits, events, n, p.feeBp);
  }

  // ------------------------------------------------------------ runs

  datatype Op =
    | SignUpOp(user: int, referrer: int)
    | DepositOp(user: int)
    | PassOp(answers: Answers)
    | WithdrawOp(user: int, amount: int, sent: bool)
    | ReferralOp(user: int, sent: bool)

  /** On the chain, an output is spent by one transaction only. */
  ghost predicate Honest(op: Op, spentBy: Outpoint -> int) {
    op.PassOp? ==>
      forall d: nat, t, o :: op.answers.history(d).Some? && t in op.answers.history(d).value && Spends(t, o) ==>
          t.txid == spentBy(o)
  }

  ghost predicate Backed(deposits: seq<Deposit>, rewards: seq<Reward>, spentBy: Outpoint -> int) {
    forall i :: 0 <= i < |rewards| ==>
      && rewards[i].deposit < |deposits|
      && deposits[rewards[i].deposit].status != AWAITING
      && rewards[i].txid == spentBy(deposits[rewards[i].deposit].funding)
  }

  lemma BackedForward(before: seq<Deposit>, after: seq<Deposit>, rewards: seq<Reward>, spentBy: Outpoint -> int)
    requires Backed(before, rewards, spentBy) && Evolves(before, after)
    ensures Backed(after, rewards, spentBy)
  {
  }

  lemma BackedMore(deposits: seq<Deposit>, rewards: seq<Reward>, rewards': seq<Reward>, a: Answers, feeBp: int,
                   spentBy: Outpoint -> int)
    requires Backed(deposits, rewards, spentBy) && Honest(PassOp(a), spentBy) && rewards <= rewards'
    requires forall i :: |rewards| <= i < |rewards'| ==> IsEarned(deposits, Events(deposits, a), rewards'[i], feeBp)
    ensures Backed(deposits, rewards', spentBy)
  {
    hide Events, RewardOf;
    var events := Events(deposits, a);
    forall i | 0 <= i < |rewards'|
      ensures rewards'[i].deposit < |deposits| && deposits[rewards'[i].deposit].status != AWAITING
      ensures rewards'[i].txid == spentBy(deposits[rewards'[i].deposit].funding)
    {
      if i < |rewards| {
        assert rewards'[i] == rewards[i];
      } else {
        var r := rewards'[i];
        var k :| 0 <= k < |events| && EarnsRow(deposits, events[k], r.txid)
            && r == RewardOf(events[k].t, events[k].id, feeBp);
        EventFrom(deposits, a, k);
        RowHasId(events[k].t, events[k].id, feeBp);
      }
    }
  }

  /** No deposit is credited with more than one coinstake. */
  lemma OneRewardEach(deposits: seq<Deposit>, rewards: seq<Reward>, spentBy: Outpoint -> int)
    requires Backed(deposits, rewards, spentBy)
    requires forall i, j :: 0 <= i < j < |rewards| ==> rewards[i].txid != rewards[j].txid
    ensures forall i, j :: 0 <= i < j < |rewards| ==> rewards[i].deposit != rewards[j].deposit
  {
    forall i, j | 0 <= i < j < |rewards| ensures rewards[i].deposit != rewards[j].deposit {
      assert rewards[i].txid != rewards[j].txid;
    }
  }

  /** Whether the user has neither a referrer nor a deposit. */
  predicate NewUser(s: Tables, user: int) {
    user !in s.referredBy && forall d :: 0 <= d < |s.deposits| ==> s.deposits[d].user != user
  }

  /** What an operation does to the tables. */
  ghost function Next(s: Tables, op: Op, feeBp: int, rewardBp: int): Tables {
    match op
    case SignUpOp(user, referrer) =>
      if NewUser(s, user) then s.(referredBy := s.referredBy[user := referrer]) else s
    case DepositOp(user) => s.(deposits := s.deposits + [Deposit(user, AWAITING, Outpoint(0, 0), 0)])
    case PassOp(a) => Passed(s, a, feeBp, rewardBp)
    case WithdrawOp(user, amount, sent) =>
      var worth := Worth(s.deposits, s.rewards, user, ACTIVE);
      if amount <= worth && sent then
        s.(deposits := Closed(s.deposits, user),
           paid := s.paid[user := Paid(s.paid, user) + amount],
           forfeited := s.forfeited[user := Paid(s.forfeited, user) + (worth - amount)])
      else s
    case ReferralOp(user, sent) =>
      var open := Credited(s.credits, user, false);
      if open > 0 && sent then
        s.(credits := Cashed(s.credits, user),
           referralPaid := s.referralPaid[user := Paid(s.referralPaid, user) + open])
      else s
  }

  ghost predicate IsRun(states: seq<Tables>, ops: seq<Op>, feeBp: int, rewardBp: int) {
    && |states| == |ops| + 1 && states[0] == EMPTY
    && forall k :: 0 <= k < |ops| ==> states[k + 1] == Next(states[k], ops[k], feeBp, rewardBp)
  }

  method IsNew(p: Pool, user: int) returns (isNew: bool)
    ensures isNew <==> NewUser(p.Contents(), user)
  {
    isNew := user !in p.referredBy;
    for d := 0 to |p.deposits|
      invariant isNew <==> user !in p.referredBy && forall e :: 0 <= e < d ==> p.deposits[e].user != user
    {
      if p.deposits[d].user == user { isNew := false; }
    }
  }

  method Apply(p: Pool, op: Op, ghost spentBy: Outpoint -> int)
    requires p.Valid() && Honest(op, spentBy) && Backed(p.deposits, p.rewards, spentBy)
    modifies p
    ensures p.Valid() && p.Forward() && Backed(p.deposits, p.rewards, spentBy)
    ensures p.Contents() == Next(old(p.Contents()), op, p.feeBp, p.rewardBp)
  {
    hide Pool.Valid, Settled, Events, After, IsEarned, Passed, Worth, Credited, Closed, Cashed;
    ghost var before, rows := p.deposits, p.rewards;
    match op {
      case SignUpOp(u, r) =>
        var isNew := IsNew(p, u);
        if isNew { p.SignUp(u, r); }
      case DepositOp(u) =>
        var id := p.CreateDeposit(u);
        BackedForward(before, p.deposits, p.rewards, spentBy);
      case PassOp(a) =>
        var done := WatcherPass(p, a);
        BackedForward(before, p.deposits, rows, spentBy);
        BackedMore(p.deposits, rows, p.rewards, a, p.feeBp, spentBy);
      case WithdrawOp(u, amount, sent) =>
        var ok := p.Withdraw(u, amount, sent);
        BackedForward(before, p.deposits, p.rewards, spentBy);
      case ReferralOp(u, sent) =>
        var ok := p.WithdrawReferral(u, sent);
    }
  }

  /** What a user was paid and gave up is what their withdrawn deposits are worth. */
  ghost predicate Accounted(s: Tables, user: int) {
    && Paid(s.paid, user) + Paid(s.forfeited, user) == Worth(s.deposits, s.rewards, user, WITHDRAWN)
    && Paid(s.forfeited, user) >= 0
    && Paid(s.referralPaid, user) == Credited(s.credits, user, true)
  }

  /** No coinstake has two rows, no deposit has two, and every row splits exactly into fee and net. */
  ghost predicate RowsExact(rewards: seq<Reward>, feeBp: int) {
    && (forall i, j :: 0 <= i < j < |rewards| ==>
          rewards[i].txid != rewards[j].txid && rewards[i].deposit != rewards[j].deposit)
    && (forall i :: 0 <= i < |rewards| ==>
          && rewards[i].fee + rewards[i].net == rewards[i].gross
          && rewards[i].fee == rewards[i].gross * feeBp / 10000)
  }

  /** Nobody has two credits, and one if and only if it is due. */
  ghost predicate CreditsOnce(s: Tables, rewardBp: int) {
    && (forall i, j :: 0 <= i < j < |s.credits| ==> s.credits[i].referred != s.credits[j].referred)
    && OrderOk(s.deposits, s.order)
    && (forall u: int :: HasCredit(s.credits, u) <==> CreditDue(s.deposits, s.order, s.referredBy, rewardBp, u))
  }

  ghost predicate Right(s: Tables, feeBp: int, rewardBp: int) {
    (forall u: int :: Accounted(s, u)) && RowsExact(s.rewards, feeBp) && CreditsOnce(s, rewardBp)
  }

  lemma ValidRight(p: Pool, spentBy: Outpoint -> int)
    requires p.Valid() && Backed(p.deposits, p.rewards, spentBy)
    ensures Right(p.Contents(), p.feeBp, p.rewardBp)
  {
    hide OrderOk, CreditDue, Worth, Credited;
    OneRewardEach(p.deposits, p.rewards, spentBy);
    forall u: int ensures Accounted(p.Contents(), u) { assert p.Balanced(u); }
  }

  /**
   The pool does what the operations say, one after the other. In every state of every
   run, what users were paid and what they gave up is, to the last unit, the principal
   and net rewards of their withdrawn deposits; every coinstake is credited once and
   every deposit at most once; what referrers were paid is the sum of their paid
   credits; and every referred user caused exactly the one credit due for their first
   funded deposit.
  */
  method Run(feeBp: int, rewardBp: int, ops: seq<Op>, ghost spentBy: Outpoint -> int)
      returns (p: Pool, ghost states: seq<Tables>)
    requires forall i :: 0 <= i < |ops| ==> Honest(ops[i], spentBy)
    ensures IsRun(states, ops, feeBp, rewardBp) && p.Contents() == states[|ops|]
    ensures forall k :: 0 <= k <= |ops| ==> Right(states[k], feeBp, rewardBp)
  {
    hide Pool.Valid, Pool.Books, Next, Right;
    p := new Pool(feeBp, rewardBp);
    states := [p.Contents()];
    ValidRight(p, spentBy);
    for n := 0 to |ops|
      invariant fresh(p) && p.feeBp == feeBp && p.rewardBp == rewardBp && p.Valid()
      invariant Backed(p.deposits, p.rewards, spentBy)
      invariant IsRun(states, ops[..n], feeBp, rewardBp) && p.Contents() == states[n]
      invariant forall k :: 0 <= k <= n ==> Right(states[k], feeBp, rewardBp)
    {
      Apply(p, ops[n], spentBy);
      ValidRight(p, spentBy);
      states := states + [p.Contents()];
      assert ops[..n + 1][..n] == ops[..n];
    }
    assert ops[..|ops|] == ops;
  }
}
