/**
 The script check queue: one master and any number of workers share a stack of
 checks under one mutex.

 A critical section (everything between taking and releasing the mutex) is one
 atomic step. The class at the end performs these sections on its fields; the
 functions before it say what each does.
*/
module CheckQueue {

  datatype Check = Check(id: int, ok: bool)

  /** The fields guarded by the mutex. */
  datatype Shared = Shared(queue: seq<Check>, nIdle: int, nTotal: int, allOk: bool, nTodo: int)

  /** How a critical section ends: the loop returns, waits, or takes a batch. */
  datatype Outcome = Return(result: bool) | Wait | Take(batch: seq<Check>)

  // ------------------------------------------------------------ critical sections

  function Push(sh: Shared, checks: seq<Check>): Shared {
    sh.(queue := sh.queue + checks, nTodo := sh.nTodo + |checks|)
  }

  /** Account for the batch just processed, or for the first time round. */
  function Settle(sh: Shared, nNow: nat, ok: bool): Shared {
    if nNow != 0 then sh.(allOk := sh.allOk && ok, nTodo := sh.nTodo - nNow)
    else sh.(nTotal := sh.nTotal + 1)
  }

  /** The size of the next batch. */
  function BatchSize(sh: Shared, limit: nat): (n: nat)
    requires sh.queue != [] && sh.nTotal + sh.nIdle >= 0
    ensures 1 <= n <= |sh.queue|
  {
    var share := |sh.queue| / (sh.nTotal + sh.nIdle + 1);
    var n := if share < limit then share else limit;
    if n < 1 then 1 else n
  }

  /** The part of the section the loop comes back to after waiting. */
  function Proceed(sh: Shared, master: bool, limit: nat): (Shared, Outcome)
    requires sh.nTotal + sh.nIdle >= 0
  {
    if sh.queue == [] then
      if master && sh.nTodo == 0 then (sh.(nTotal := sh.nTotal - 1, allOk := true), Return(sh.allOk))
      else (sh.(nIdle := sh.nIdle + 1), Wait)
    else
      var k := |sh.queue| - BatchSize(sh, limit);
      (sh.(queue := sh.queue[..k]), Take(sh.queue[k..]))
  }

  // ------------------------------------------------------------ the system

  /** `Away` is the master outside `Wait`; `Busy` has executed the first `done` checks of its batch. */
  datatype Thread = Away | Start | Busy(batch: seq<Check>, done: nat, ok: bool) | Blocked(woken: bool)

  /**
   Thread 0 is the master. `notifying` is the size of a batch whose notification
   is still to be sent. `added` and `finished` record the checks of this session.
  */
  datatype System = System(sh: Shared, threads: seq<Thread>, limit: nat, notifying: nat,
                           added: multiset<Check>, finished: multiset<Check>)

  datatype Action =
    | Add(checks: seq<Check>)
    | Notify(target: nat)
    | BeginWait
    | Run(i: nat)
    | Spurious(i: nat)

  function Initial(workers: nat, limit: nat): System {
    System(Shared([], 0, 0, true, 0), [Away] + seq(workers, i => Start), limit, 0, multiset{}, multiset{})
  }

  predicate Runnable(t: Thread) {
    t.Start? || t.Busy? || (t.Blocked? && t.woken)
  }

  predicate Enabled(s: System, a: Action)
    requires |s.threads| > 0
  {
    match a
    case Add(checks) => s.threads[0].Away? && s.notifying == 0 && checks != []
    case Notify(target) =>
      && s.notifying != 0
      && (s.notifying == 1 ==>
            if exists i :: 0 < i < |s.threads| && s.threads[i] == Blocked(false)
            then 0 < target < |s.threads| && s.threads[target] == Blocked(false)
            else target == 0)
    case BeginWait => s.threads[0].Away? && s.notifying == 0
    case Run(i) => i < |s.threads| && Runnable(s.threads[i])
    case Spurious(i) => i < |s.threads| && s.threads[i] == Blocked(false)
  }

  function WakeWorkers(threads: seq<Thread>): (r: seq<Thread>)
    requires |threads| > 0
    ensures |r| == |threads|
  {
    seq(|threads|, i requires 0 <= i < |threads| => if i > 0 && threads[i].Blocked? then Blocked(true) else threads[i])
  }

  /** A thread executes its next check; after a failure the rest are skipped. */
  function Execute(t: Thread): Thread
    requires t.Busy? && t.done < |t.batch|
  {
    t.(done := t.done + 1, ok := t.ok && t.batch[t.done].ok)
  }

  /** The number of checks a thread comes back with. */
  function Processed(t: Thread): nat {
    if t.Busy? then |t.batch| else 0
  }

  /** The shared state at the point where the loop proper begins. */
  function Reenter(sh: Shared, t: Thread): Shared
    requires Runnable(t)
  {
    if t.Blocked? then sh.(nIdle := sh.nIdle - 1)
    else if t.Busy? then Settle(sh, |t.batch|, t.ok)
    else Settle(sh, 0, true)
  }

  /** A worker that settles the last check wakes the master. */
  function WakeMaster(threads: seq<Thread>, i: nat, sh: Shared): (r: seq<Thread>)
    requires i < |threads|
    ensures |r| == |threads|
  {
    if i > 0 && threads[i].Busy? && |threads[i].batch| > 0 && sh.nTodo == 0 && threads[0].Blocked?
    then threads[0 := Blocked(true)] else threads
  }

  function After(o: Outcome, sh: Shared): Thread {
    match o
    case Return(_) => Away
    case Wait => Blocked(false)
    case Take(batch) => Busy(batch, 0, sh.allOk)
  }

  /** A thread goes through its critical section. */
  function Section(s: System, i: nat): (System, Outcome)
    requires i < |s.threads| && Runnable(s.threads[i])
    requires Reenter(s.sh, s.threads[i]).nTotal + Reenter(s.sh, s.threads[i]).nIdle >= 0
  {
    var t := s.threads[i];
    var sh := Reenter(s.sh, t);
    var (sh', o) := Proceed(sh, i == 0, s.limit);
    var finished := if t.Busy? then s.finished + multiset(t.batch) else s.finished;
    (s.(sh := sh',
        threads := WakeMaster(s.threads, i, sh)[i := After(o, sh')],
        added := if o.Return? then multiset{} else s.added,
        finished := if o.Return? then multiset{} else finished),
     o)
  }

  function Next(s: System, a: Action): System
    requires Inv(s) && Enabled(s, a)
  {
    match a
    case Add(checks) => s.(sh := Push(s.sh, checks), notifying := |checks|, added := s.added + multiset(checks))
    case Notify(target) =>
      if s.notifying != 1 then s.(notifying := 0, threads := WakeWorkers(s.threads))
      else if target == 0 then s.(notifying := 0)
      else s.(notifying := 0, threads := s.threads[target := Blocked(true)])
    case BeginWait => s.(threads := s.threads[0 := Start])
    case Run(i) =>
      var t := s.threads[i];
      if t.Busy? && t.done < |t.batch| then s.(threads := s.threads[i := Execute(t)])
      else
        CountersFit(s, i);
        Section(s, i).0
    case Spurious(i) => s.(threads := s.threads[i := Blocked(true)])
  }

  // ------------------------------------------------------------ sums over threads

  ghost function Sum(ts: seq<Thread>, f: Thread -> nat): nat {
    if ts == [] then 0 else Sum(ts[..|ts| - 1], f) + f(ts[|ts| - 1])
  }

  lemma {:induction false} SumUpdate(ts: seq<Thread>, f: Thread -> nat, i: nat, t: Thread)
    requires i < |ts|
    ensures Sum(ts[i := t], f) == Sum(ts, f) - f(ts[i]) + f(t)
    ensures f(ts[i]) <= Sum(ts, f)
  {
    var n := |ts| - 1;
    if i < n {
      SumUpdate(ts[..n], f, i, t);
      assert ts[i := t][..n] == ts[..n][i := t];
    } else {
      assert ts[i := t][..n] == ts[..n];
    }
  }

  lemma {:induction false} SumPositive(ts: seq<Thread>, f: Thread -> nat)
    requires Sum(ts, f) > 0
    ensures exists i :: 0 <= i < |ts| && f(ts[i]) > 0
  {
    var n := |ts| - 1;
    if f(ts[n]) == 0 {
      SumPositive(ts[..n], f);
      var i :| 0 <= i < n && f(ts[..n][i]) > 0;
      assert f(ts[i]) > 0;
    }
  }

  lemma {:induction false} SumSame(ts: seq<Thread>, us: seq<Thread>, f: Thread -> nat)
    requires |ts| == |us| && forall i :: 0 <= i < |ts| ==> f(ts[i]) == f(us[i])
    ensures Sum(ts, f) == Sum(us, f)
  {
    if ts != [] {
      SumSame(ts[..|ts| - 1], us[..|us| - 1], f);
    }
  }

  function Batch(t: Thread): multiset<Check> {
    if t.Busy? then multiset(t.batch) else multiset{}
  }

  /** How often a thread holds the check `c`. */
  function Holding(c: Check): Thread -> nat {
    (t: Thread) => Batch(t)[c]
  }

  // ------------------------------------------------------------ the invariant

  function Idle(t: Thread): nat { if t.Blocked? then 1 else 0 }

  function Joined(t: Thread): nat { if t.Blocked? || t.Busy? then 1 else 0 }

  ghost predicate AllOk(m: multiset<Check>) { forall c :: c in m ==> c.ok }

  /** What a busy thread's verdict says about its batch and the session. */
  ghost predicate VerdictOk(s: System, t: Thread) {
    t.Busy? ==>
      && 0 < |t.batch| && t.done <= |t.batch|
      && (t.ok ==> forall k :: 0 <= k < t.done ==> t.batch[k].ok)
      && (!t.ok ==> !AllOk(s.added))
  }

  ghost predicate CountersOk(s: System) {
    && s.sh.nTodo == |s.sh.queue| + Sum(s.threads, Processed)
    && s.sh.nIdle == Sum(s.threads, Idle)
    && s.sh.nTotal == Sum(s.threads, Joined)
  }

  ghost predicate ResultsOk(s: System) {
    && (forall c :: s.added[c] == multiset(s.sh.queue)[c] + Sum(s.threads, Holding(c)) + s.finished[c])
    && (s.sh.allOk ==> AllOk(s.finished))
    && (!s.sh.allOk ==> !AllOk(s.added))
    && forall i :: 0 <= i < |s.threads| ==> VerdictOk(s, s.threads[i])
  }

  ghost predicate MasterOk(s: System) {
    && |s.threads| > 0
    && (forall i :: 0 < i < |s.threads| ==> !s.threads[i].Away?)
    && (s.notifying != 0 ==> s.threads[0].Away?)
    && (s.threads[0].Blocked? ==> s.sh.queue == [])
    && (s.threads[0] == Blocked(false) ==> s.sh.nTodo > 0)
  }

  ghost predicate Inv(s: System) {
    MasterOk(s) && CountersOk(s) && ResultsOk(s)
  }

  lemma CountersFit(s: System, i: nat)
    requires Inv(s) && i < |s.threads| && Runnable(s.threads[i])
    ensures Reenter(s.sh, s.threads[i]).nTotal + Reenter(s.sh, s.threads[i]).nIdle >= 0
  {
    SumUpdate(s.threads, Idle, i, s.threads[i]);
    SumUpdate(s.threads, Joined, i, s.threads[i]);
  }

  // ------------------------------------------------------------ every step keeps it

  lemma {:induction false} InitialSums(ts: seq<Thread>)
    requires forall i :: 0 <= i < |ts| ==> ts[i].Away? || ts[i].Start?
    ensures Sum(ts, Processed) == 0 && Sum(ts, Idle) == 0 && Sum(ts, Joined) == 0
    ensures forall c :: Sum(ts, Holding(c)) == 0
  {
    if ts != [] { InitialSums(ts[..|ts| - 1]); }
  }

  lemma InitialInv(workers: nat, limit: nat)
    ensures Inv(Initial(workers, limit))
  {
    InitialSums(Initial(workers, limit).threads);
  }

  /** The two thread lists hold the same batches and count the same, thread by thread. */
  ghost predicate Alike(ts: seq<Thread>, us: seq<Thread>) {
    && |ts| == |us|
    && forall i :: 0 <= i < |ts| ==>
         && Processed(ts[i]) == Processed(us[i]) && Idle(ts[i]) == Idle(us[i])
         && Joined(ts[i]) == Joined(us[i]) && Batch(ts[i]) == Batch(us[i])
  }

  lemma AlikeSums(ts: seq<Thread>, us: seq<Thread>)
    requires Alike(ts, us)
    ensures Sum(ts, Processed) == Sum(us, Processed) && Sum(ts, Idle) == Sum(us, Idle)
    ensures Sum(ts, Joined) == Sum(us, Joined)
    ensures forall c :: Sum(ts, Holding(c)) == Sum(us, Holding(c))
  {
    SumSame(ts, us, Processed);
    SumSame(ts, us, Idle);
    SumSame(ts, us, Joined);
    forall c ensures Sum(ts, Holding(c)) == Sum(us, Holding(c)) {
      SumSame(ts, us, Holding(c));
    }
  }

  lemma AlikeInv(s: System, ts: seq<Thread>)
    requires Inv(s) && Alike(ts, s.threads)
    requires MasterOk(s.(threads := ts))
    requires forall i :: 0 <= i < |ts| ==> VerdictOk(s, ts[i])
    ensures Inv(s.(threads := ts))
  {
    AlikeSums(ts, s.threads);
    var s' := s.(threads := ts);
    assert forall i :: 0 <= i < |ts| ==> VerdictOk(s, ts[i]) ==> VerdictOk(s', ts[i]);
  }

  lemma AddInv(s: System, checks: seq<Check>)
    requires Inv(s) && Enabled(s, Add(checks))
    ensures Inv(Next(s, Add(checks)))
  {
    var s' := Next(s, Add(checks));
    assert multiset(s.sh.queue + checks) == multiset(s.sh.queue) + multiset(checks);
    assert forall c :: c in s.added ==> c in s'.added;
  }

  /** `ts` is `us` with some blocked threads woken. */
  ghost predicate Woken(ts: seq<Thread>, us: seq<Thread>) {
    && |ts| == |us|
    && forall i :: 0 <= i < |ts| ==> ts[i] == us[i] || (us[i].Blocked? && ts[i] == Blocked(true))
  }

  lemma WokenInv(s: System, ts: seq<Thread>)
    requires Inv(s) && Woken(ts, s.threads)
    ensures Inv(s.(threads := ts))
  {
    hide CountersOk;
    WokenAlike(ts, s.threads);
    AlikeInv(s, ts);
  }

  lemma WokenAlike(ts: seq<Thread>, us: seq<Thread>)
    requires Woken(ts, us)
    ensures Alike(ts, us)
  {
  }

  lemma QuietInv(s: System)
    requires Inv(s)
    ensures Inv(s.(notifying := 0))
  {
    var q := s.(notifying := 0);
    assert forall i :: 0 <= i < |s.threads| ==> VerdictOk(s, s.threads[i]) ==> VerdictOk(q, s.threads[i]);
  }

  lemma NotifyInv(s: System, target: nat)
    requires Inv(s) && Enabled(s, Notify(target))
    ensures Inv(Next(s, Notify(target)))
  {
    QuietInv(s);
    WokenInv(s.(notifying := 0), Next(s, Notify(target)).threads);
  }

  lemma BeginWaitInv(s: System)
    requires Inv(s) && Enabled(s, BeginWait)
    ensures Inv(Next(s, BeginWait))
  {
    hide CountersOk, Sum;
    AlikeInv(s, s.threads[0 := Start]);
  }

  lemma SpuriousInv(s: System, i: nat)
    requires Inv(s) && Enabled(s, Spurious(i))
    ensures Inv(Next(s, Spurious(i)))
  {
    WokenInv(s, s.threads[i := Blocked(true)]);
  }

  lemma BatchAdded(s: System, i: nat, k: nat)
    requires Inv(s) && i < |s.threads| && s.threads[i].Busy? && k < |s.threads[i].batch|
    ensures s.threads[i].batch[k] in s.added
  {
    var c := s.threads[i].batch[k];
    assert c in multiset(s.threads[i].batch);
    SumUpdate(s.threads, Holding(c), i, s.threads[i]);
  }

  lemma ExecuteVerdict(s: System, i: nat)
    requires Inv(s) && i < |s.threads| && s.threads[i].Busy? && s.threads[i].done < |s.threads[i].batch|
    ensures VerdictOk(s, Execute(s.threads[i]))
  {
    BatchAdded(s, i, s.threads[i].done);
    assert VerdictOk(s, s.threads[i]);
  }

  lemma ExecuteInv(s: System, i: nat)
    requires Inv(s) && i < |s.threads| && s.threads[i].Busy? && s.threads[i].done < |s.threads[i].batch|
    ensures Inv(s.(threads := s.threads[i := Execute(s.threads[i])]))
  {
    ExecuteVerdict(s, i);
    AlikeInv(s, s.threads[i := Execute(s.threads[i])]);
  }

  /** Waking the master changes no batch and no count. */
  lemma WakeMasterAlike(s: System, i: nat, sh: Shared)
    requires Inv(s) && i < |s.threads| && Runnable(s.threads[i])
    ensures var ts := WakeMaster(s.threads, i, sh);
            && Alike(ts, s.threads) && ts[i] == s.threads[i]
            && (forall k :: 0 <= k < |ts| ==> VerdictOk(s, ts[k]))
            && (forall k :: 0 < k < |ts| ==> !ts[k].Away?)
  {
  }

  /** The checks accounted for when the loop proper begins. */
  function Settled(s: System, i: nat): multiset<Check>
    requires i < |s.threads|
  {
    s.finished + Batch(s.threads[i])
  }

  lemma SettleResults(s: System, i: nat)
    requires Inv(s) && i < |s.threads| && Runnable(s.threads[i])
    requires s.threads[i].Busy? ==> s.threads[i].done == |s.threads[i].batch|
    ensures var sh := Reenter(s.sh, s.threads[i]);
            && sh.queue == s.sh.queue
            && (sh.allOk ==> AllOk(Settled(s, i)))
            && (!sh.allOk ==> !AllOk(s.added))
            && sh.nTodo == s.sh.nTodo - Processed(s.threads[i])
            && sh.nIdle == s.sh.nIdle - Idle(s.threads[i])
            && sh.nTotal == s.sh.nTotal + (if s.threads[i].Start? then 1 else 0)
  {
    var t := s.threads[i];
    var sh := Reenter(s.sh, t);
    if t.Busy? && sh.allOk {
      forall c | c in Settled(s, i) ensures c.ok {
        if c in multiset(t.batch) {
          var k :| 0 <= k < |t.batch| && t.batch[k] == c;
        }
      }
    }
  }

  lemma SectionCounters(s: System, i: nat)
    requires Inv(s) && i < |s.threads| && Runnable(s.threads[i])
    requires s.threads[i].Busy? ==> s.threads[i].done == |s.threads[i].batch|
    requires Reenter(s.sh, s.threads[i]).nTotal + Reenter(s.sh, s.threads[i]).nIdle >= 0
    ensures CountersOk(Section(s, i).0)
  {
    SettleResults(s, i);
    WakeMasterAlike(s, i, Reenter(s.sh, s.threads[i]));
    AlikeSums(WakeMaster(s.threads, i, Reenter(s.sh, s.threads[i])), s.threads);
    SectionSums(s, i);
  }

  lemma SectionSums(s: System, i: nat)
    requires CountersOk(s) && i < |s.threads| && Runnable(s.threads[i])
    requires Reenter(s.sh, s.threads[i]).nTotal + Reenter(s.sh, s.threads[i]).nIdle >= 0
    requires var ts := WakeMaster(s.threads, i, Reenter(s.sh, s.threads[i]));
             && ts[i] == s.threads[i]
             && Sum(ts, Processed) == Sum(s.threads, Processed) && Sum(ts, Idle) == Sum(s.threads, Idle)
             && Sum(ts, Joined) == Sum(s.threads, Joined)
    requires s.threads[i].Busy? ==> |s.threads[i].batch| > 0
    ensures CountersOk(Section(s, i).0)
  {
    var sh := Reenter(s.sh, s.threads[i]);
    var (s', o) := Section(s, i);
    var ts := WakeMaster(s.threads, i, sh);
    var t' := After(o, s'.sh);
    SumUpdate(ts, Processed, i, t');
    SumUpdate(ts, Idle, i, t');
    SumUpdate(ts, Joined, i, t');
  }

  /** The queue is split between what stays and what the outcome takes. */
  lemma ProceedSplits(sh: Shared, master: bool, limit: nat)
    requires sh.nTotal + sh.nIdle >= 0
    ensures var (sh', o) := Proceed(sh, master, limit);
            && sh'.queue + (if o.Take? then o.batch else []) == sh.queue
            && (o.Take? ==> |o.batch| > 0)
            && (!o.Take? ==> sh.queue == [])
            && (o.Return? ==> master && sh.nTodo == 0)
            && (o.Wait? && master ==> sh.nTodo != 0)
            && sh'.allOk == (o.Return? || sh.allOk)
  {
  }

  lemma SectionBalance(s: System, i: nat, c: Check)
    requires Inv(s) && i < |s.threads| && Runnable(s.threads[i])
    requires Reenter(s.sh, s.threads[i]).nTotal + Reenter(s.sh, s.threads[i]).nIdle >= 0
    requires !Section(s, i).1.Return?
    ensures var s' := Section(s, i).0;
            s'.added[c] == multiset(s'.sh.queue)[c] + Sum(s'.threads, Holding(c)) + s'.finished[c]
  {
    var sh := Reenter(s.sh, s.threads[i]);
    var (s', o) := Section(s, i);
    var ts := WakeMaster(s.threads, i, sh);
    WakeMasterAlike(s, i, sh);
    AlikeSums(ts, s.threads);
    SumUpdate(ts, Holding(c), i, After(o, s'.sh));
    ProceedSplits(sh, i == 0, s.limit);
    assert multiset(s'.sh.queue + (if o.Take? then o.batch else [])) == multiset(s'.sh.queue) + Batch(After(o, s'.sh));
    assert sh.queue == s.sh.queue;
  }

  lemma SectionResults(s: System, i: nat)
    requires Inv(s) && i < |s.threads| && Runnable(s.threads[i])
    requires s.threads[i].Busy? ==> s.threads[i].done == |s.threads[i].batch|
    requires Reenter(s.sh, s.threads[i]).nTotal + Reenter(s.sh, s.threads[i]).nIdle >= 0
    requires !Section(s, i).1.Return?
    ensures ResultsOk(Section(s, i).0)
  {
    var sh := Reenter(s.sh, s.threads[i]);
    var (s', o) := Section(s, i);
    forall c ensures s'.added[c] == multiset(s'.sh.queue)[c] + Sum(s'.threads, Holding(c)) + s'.finished[c] {
      SectionBalance(s, i, c);
    }
    SettleResults(s, i);
    WakeMasterAlike(s, i, sh);
    ProceedSplits(sh, i == 0, s.limit);
    SectionVerdicts(s, i);
  }

  lemma SectionVerdicts(s: System, i: nat)
    requires i < |s.threads| && Runnable(s.threads[i])
    requires Reenter(s.sh, s.threads[i]).nTotal + Reenter(s.sh, s.threads[i]).nIdle >= 0
    requires !Section(s, i).1.Return?
    requires forall k :: 0 <= k < |s.threads| ==> VerdictOk(s, WakeMaster(s.threads, i, Reenter(s.sh, s.threads[i]))[k])
    requires !Reenter(s.sh, s.threads[i]).allOk ==> !AllOk(s.added)
    ensures forall k :: 0 <= k < |s.threads| ==> VerdictOk(Section(s, i).0, Section(s, i).0.threads[k])
  {
    var sh := Reenter(s.sh, s.threads[i]);
    ProceedSplits(sh, i == 0, s.limit);
    var s' := Section(s, i).0;
    forall k | 0 <= k < |s.threads| ensures VerdictOk(s', s'.threads[k]) {
      assert VerdictOk(s, WakeMaster(s.threads, i, sh)[k]);
    }
  }

  lemma {:induction false} SumZero(ts: seq<Thread>, f: Thread -> nat)
    ensures Sum(ts, f) == 0 <==> forall i :: 0 <= i < |ts| ==> f(ts[i]) == 0
  {
    if ts != [] {
      var n := |ts| - 1;
      SumZero(ts[..n], f);
      assert forall i :: 0 <= i < n ==> ts[..n][i] == ts[i];
      if Sum(ts, f) == 0 {
        forall i | 0 <= i < |ts| ensures f(ts[i]) == 0 {
          assert i < n ==> f(ts[..n][i]) == 0;
        }
      }
    }
  }

  /** When the master returns, nobody else holds a check. */
  lemma ReturnHolds(s: System)
    requires Inv(s) && Runnable(s.threads[0])
    requires Reenter(s.sh, s.threads[0]).nTodo == 0 && s.sh.queue == []
    requires s.threads[0].Busy? ==> s.threads[0].done == |s.threads[0].batch|
    ensures forall k :: 0 < k < |s.threads| ==> !s.threads[k].Busy?
    ensures forall c :: Sum(s.threads[0 := Away], Holding(c)) == 0
    ensures forall c :: s.added[c] == Settled(s, 0)[c]
  {
    var us := s.threads[0 := Away];
    SettleResults(s, 0);
    SumUpdate(s.threads, Processed, 0, Away);
    SumZero(us, Processed);
    forall k | 0 < k < |s.threads| ensures !s.threads[k].Busy? {
      assert Processed(us[k]) == 0 && us[k] == s.threads[k];
      assert VerdictOk(s, s.threads[k]);
    }
    forall c ensures Sum(us, Holding(c)) == 0 && s.added[c] == Settled(s, 0)[c] {
      SumZero(us, Holding(c));
      SumUpdate(s.threads, Holding(c), 0, Away);
    }
  }

  /** The value `Wait` returns: whether every check of the session passed. */
  lemma ReturnResult(s: System)
    requires Inv(s) && Runnable(s.threads[0])
    requires s.threads[0].Busy? ==> s.threads[0].done == |s.threads[0].batch|
    requires Reenter(s.sh, s.threads[0]).nTotal + Reenter(s.sh, s.threads[0]).nIdle >= 0
    requires Section(s, 0).1.Return?
    ensures Section(s, 0).1.result <==> AllOk(s.added)
    ensures ResultsOk(Section(s, 0).0)
  {
    hide CountersOk;
    ReturnVerdict(s);
    ReturnHolds(s);
    var s' := Section(s, 0).0;
    assert s'.threads == s.threads[0 := Away];
    assert forall k :: 0 < k < |s.threads| ==> s'.threads[k] == s.threads[k];
  }

  lemma ReturnVerdict(s: System)
    requires Inv(s) && Runnable(s.threads[0])
    requires s.threads[0].Busy? ==> s.threads[0].done == |s.threads[0].batch|
    requires Reenter(s.sh, s.threads[0]).nTotal + Reenter(s.sh, s.threads[0]).nIdle >= 0
    requires Section(s, 0).1.Return?
    ensures Section(s, 0).1.result <==> AllOk(s.added)
  {
    hide CountersOk;
    ProceedSplits(Reenter(s.sh, s.threads[0]), true, s.limit);
    SettleResults(s, 0);
    ReturnHolds(s);
    assert forall c :: c in s.added <==> c in Settled(s, 0);
  }

  lemma SectionMaster(s: System, i: nat)
    requires Inv(s) && i < |s.threads| && Runnable(s.threads[i])
    requires s.threads[i].Busy? ==> s.threads[i].done == |s.threads[i].batch|
    requires Reenter(s.sh, s.threads[i]).nTotal + Reenter(s.sh, s.threads[i]).nIdle >= 0
    ensures MasterOk(Section(s, i).0)
  {
    hide AllOk, Settled, MasterOk, Section;
    SettleResults(s, i);
    SumUpdate(s.threads, Processed, i, s.threads[i]);
    VerdictAt(s, i);
    SectionMasterFrom(s, i);
  }

  lemma SectionMasterFrom(s: System, i: nat)
    requires MasterOk(s) && i < |s.threads| && Runnable(s.threads[i])
    requires s.threads[i].Busy? ==> 0 < |s.threads[i].batch|
    requires var sh := Reenter(s.sh, s.threads[i]);
             sh.nTotal + sh.nIdle >= 0 && sh.queue == s.sh.queue
                 && 0 <= sh.nTodo == s.sh.nTodo - Processed(s.threads[i])
    ensures MasterOk(Section(s, i).0)
  {
    ProceedSplits(Reenter(s.sh, s.threads[i]), i == 0, s.limit);
  }

  lemma VerdictAt(s: System, i: nat)
    requires Inv(s) && i < |s.threads|
    ensures VerdictOk(s, s.threads[i])
  {
  }

  lemma RunInv(s: System, i: nat)
    requires Inv(s) && Enabled(s, Run(i))
    ensures Inv(Next(s, Run(i)))
  {
    var t := s.threads[i];
    if t.Busy? && t.done < |t.batch| {
      ExecuteInv(s, i);
    } else {
      assert VerdictOk(s, t);
      CountersFit(s, i);
      SectionCounters(s, i);
      SectionMaster(s, i);
      ProceedSplits(Reenter(s.sh, t), i == 0, s.limit);
      if Section(s, i).1.Return? {
        ReturnResult(s);
      } else {
        SectionResults(s, i);
      }
    }
  }

  /** Every step of every thread, in any order, keeps the invariant. */
  lemma NextInv(s: System, a: Action)
    requires Inv(s) && Enabled(s, a)
    ensures Inv(Next(s, a))
  {
    match a
    case Add(checks) => AddInv(s, checks);
    case Notify(target) => NotifyInv(s, target);
    case BeginWait => BeginWaitInv(s);
    case Run(i) => RunInv(s, i);
    case Spurious(i) => SpuriousInv(s, i);
  }

  // ------------------------------------------------------------ whole runs

  /** An interleaving: every action is enabled in the state it is taken in. */
  ghost predicate IsRun(states: seq<System>, actions: seq<Action>, workers: nat, limit: nat) {
    && |states| == |actions| + 1 && states[0] == Initial(workers, limit)
    && forall k :: 0 <= k < |actions| ==>
         |states[k].threads| > 0 && Enabled(states[k], actions[k])
             && (Inv(states[k]) ==> states[k + 1] == Next(states[k], actions[k]))
  }

  lemma {:induction false} RunSafe(states: seq<System>, actions: seq<Action>, workers: nat, limit: nat, k: nat)
    requires IsRun(states, actions, workers, limit) && k <= |actions|
    ensures Inv(states[k])
  {
    if k == 0 {
      InitialInv(workers, limit);
    } else {
      RunSafe(states, actions, workers, limit, k - 1);
      NextInv(states[k - 1], actions[k - 1]);
    }
  }

  /** The master leaves `Wait` in this step. */
  predicate Returns(s: System, a: Action)
    requires |s.threads| > 0
  {
    a == Run(0) && Enabled(s, a) && !(s.threads[0].Busy? && s.threads[0].done < |s.threads[0].batch|)
    && s.sh.queue == [] && Reenter(s.sh, s.threads[0]).nTodo == 0
  }

  /** Nothing of a session is left: no check, no verdict, no batch in anyone's hands. */
  ghost predicate CleanSlate(s: System) {
    && s.added == multiset{} && s.finished == multiset{}
    && s.sh.queue == [] && s.sh.nTodo == 0 && s.sh.allOk
    && |s.threads| > 0 && s.threads[0].Away?
    && forall i :: 0 <= i < |s.threads| ==> !s.threads[i].Busy?
  }

  /**
   In every interleaving `nTodo` is the number of checks queued or in hand, and
   when `Wait` returns it returns true exactly if every check added in the
   session is true; nothing of the session is left behind.
  */
  lemma WaitCorrect(states: seq<System>, actions: seq<Action>, workers: nat, limit: nat, k: nat)
    requires IsRun(states, actions, workers, limit) && k < |actions|
    ensures states[k].sh.nTodo == |states[k].sh.queue| + Sum(states[k].threads, Processed)
    ensures Returns(states[k], actions[k]) ==>
              && (var sh := Reenter(states[k].sh, states[k].threads[0]); sh.nTotal + sh.nIdle >= 0)
              && Section(states[k], 0).1 == Return(AllOk(states[k].added))
              && CleanSlate(states[k + 1])
  {
    RunSafe(states, actions, workers, limit, k);
    var s := states[k];
    if Returns(s, actions[k]) {
      assert VerdictOk(s, s.threads[0]);
      CountersFit(s, 0);
      ReturnResult(s);
      ReturnHolds(s);
    }
  }

  // ------------------------------------------------------------ progress

  /**
   While the master is in `Wait`, some thread can step without any spurious
   wakeup: the system never deadlocks.
  */
  lemma NoDeadlock(s: System)
    requires Inv(s) && !s.threads[0].Away?
    ensures exists i: nat :: Enabled(s, Run(i))
  {
    if Runnable(s.threads[0]) {
      assert Enabled(s, Run(0));
    } else {
      assert s.threads[0] == Blocked(false) && s.sh.queue == [];
      SumPositive(s.threads, Processed);
      var i :| 0 <= i < |s.threads| && Processed(s.threads[i]) > 0;
      assert Enabled(s, Run(i));
    }
  }

  /** Work left in a thread. */
  function Weight(t: Thread): nat {
    match t
    case Away => 0
    case Start => 1
    case Busy(batch, done, _) => if done <= |batch| then 1 + 2 * |batch| - done else 0
    case Blocked(woken) => if woken then 1 else 0
  }

  /** A bound on the steps left until `Wait` returns. */
  ghost function Work(s: System): nat {
    3 * |s.sh.queue| + Sum(s.threads, Weight)
  }

  /** Every step of a thread inside the loop reduces the work left. */
  lemma RunWorks(s: System, i: nat)
    requires Inv(s) && Enabled(s, Run(i))
    ensures Work(Next(s, Run(i))) < Work(s)
  {
    var t := s.threads[i];
    assert VerdictOk(s, t);
    if t.Busy? && t.done < |t.batch| {
      SumUpdate(s.threads, Weight, i, Execute(t));
    } else {
      CountersFit(s, i);
      SectionWorks(s, i);
    }
  }

  lemma SectionWorks(s: System, i: nat)
    requires i < |s.threads| && Runnable(s.threads[i]) && VerdictOk(s, s.threads[i])
    requires s.threads[i].Busy? ==> s.threads[i].done == |s.threads[i].batch|
    requires Reenter(s.sh, s.threads[i]).nTotal + Reenter(s.sh, s.threads[i]).nIdle >= 0
    ensures Work(Section(s, i).0) < Work(s)
  {
    var sh := Reenter(s.sh, s.threads[i]);
    var (s', o) := Section(s, i);
    ProceedSplits(sh, i == 0, s.limit);
    var ts := WakeMaster(s.threads, i, sh);
    if ts != s.threads {
      SumUpdate(s.threads, Weight, 0, Blocked(true));
    }
    SumUpdate(ts, Weight, i, After(o, s'.sh));
  }

  /** A schedule of thread steps; while the master is in `Wait` there are no others but spurious wakeups. */
  ghost predicate IsSchedule(states: seq<System>, schedule: seq<nat>) {
    && |states| == |schedule| + 1 && Inv(states[0])
    && forall k :: 0 <= k < |schedule| ==>
         && |states[k].threads| > 0 && Enabled(states[k], Run(schedule[k]))
         && (Inv(states[k]) ==> states[k + 1] == Next(states[k], Run(schedule[k])))
  }

  /** A schedule of thread steps is no longer than the work left at its start. */
  lemma {:induction false} WaitEnds(states: seq<System>, schedule: seq<nat>, n: nat)
    requires IsSchedule(states, schedule) && n <= |schedule|
    ensures Inv(states[n]) && n + Work(states[n]) <= Work(states[0])
  {
    if n > 0 {
      WaitEnds(states, schedule, n - 1);
      NextInv(states[n - 1], Run(schedule[n - 1]));
      RunWorks(states[n - 1], schedule[n - 1]);
    }
  }

  /** The master leaves `Wait` only by returning from it. */
  lemma StaysWaiting(s: System, i: nat)
    requires Inv(s) && Enabled(s, Run(i)) && !s.threads[0].Away?
    ensures Returns(s, Run(i)) || (|Next(s, Run(i)).threads| > 0 && !Next(s, Run(i)).threads[0].Away?)
  {
    hide CountersOk, ResultsOk, Proceed, WakeMaster;
    var t := s.threads[i];
    if !(t.Busy? && t.done < |t.batch|) {
      CountersFit(s, i);
      SectionWaits(s, i);
    }
  }

  lemma SectionWaits(s: System, i: nat)
    requires i < |s.threads| && Runnable(s.threads[i]) && !s.threads[0].Away?
    requires Reenter(s.sh, s.threads[i]).nTotal + Reenter(s.sh, s.threads[i]).nIdle >= 0
    ensures |Section(s, i).0.threads| == |s.threads|
    ensures Section(s, i).0.threads[0].Away? ==>
              i == 0 && s.sh.queue == [] && Reenter(s.sh, s.threads[0]).nTodo == 0
  {
  }

  lemma {:induction false} ReturnsOrWaits(states: seq<System>, schedule: seq<nat>, n: nat)
    requires IsSchedule(states, schedule) && n <= |schedule| && !states[0].threads[0].Away?
    ensures (exists k :: 0 <= k < n && Returns(states[k], Run(schedule[k])))
         || (Inv(states[n]) && !states[n].threads[0].Away?)
  {
    hide Inv, Enabled, Next, Returns;
    WaitEnds(states, schedule, n);
    if n > 0 {
      ReturnsOrWaits(states, schedule, n - 1);
      WaitEnds(states, schedule, n - 1);
      if Inv(states[n - 1]) && !states[n - 1].threads[0].Away? {
        StaysWaiting(states[n - 1], schedule[n - 1]);
      }
    }
  }

  /**
   `Wait` returns: from any reachable state with the master in `Wait`, every schedule
   of thread steps that goes on until no thread can step, or for as many steps as there
   is work left, contains the step in which the master returns.
  */
  lemma WaitReturns(states: seq<System>, schedule: seq<nat>)
    requires IsSchedule(states, schedule) && !states[0].threads[0].Away?
    requires |states[|schedule|].threads| > 0
    requires |schedule| >= Work(states[0]) || forall i: nat :: !Enabled(states[|schedule|], Run(i))
    ensures exists k :: 0 <= k < |schedule| && Returns(states[k], Run(schedule[k]))
  {
    hide Inv, Enabled, Next, Returns;
    var n := |schedule|;
    ReturnsOrWaits(states, schedule, n);
    WaitEnds(states, schedule, n);
    if Inv(states[n]) && !states[n].threads[0].Away? {
      NoDeadlock(states[n]);
      var i: nat :| Enabled(states[n], Run(i));
      RunWorks(states[n], i);
    }
  }

  // ------------------------------------------------------------ the class

  class Queue {
    const nBatchSize: nat
    var queue: seq<Check>
    var nIdle: int
    var nTotal: int
    var fAllOk: bool
    var nTodo: int

    ghost function View(): Shared
      reads this
    {
      Shared(queue, nIdle, nTotal, fAllOk, nTodo)
    }

    constructor (batchSize: nat)
      ensures nBatchSize == batchSize && View() == Initial(0, batchSize).sh
    {
      nBatchSize := batchSize;
      queue, nIdle, nTotal, fAllOk, nTodo := [], 0, 0, true, 0;
    }

    /** The section of `Add`; the return value says how to notify. */
    method Append(checks: seq<Check>) returns (notify: nat)
      modifies this
      ensures View() == if checks == [] then old(View()) else Push(old(View()), checks)
      ensures notify == |checks|
    {
      if checks == [] { return 0; }
      queue := queue + checks;
      nTodo := nTodo + |checks|;
      notify := |checks|;
    }

    /** The section a thread enters with `nNow` processed checks (none the first time). */
    method Enter(master: bool, nNow: nat, fOk: bool) returns (wakeMaster: bool, o: Outcome)
      requires Settle(View(), nNow, fOk).nTotal + Settle(View(), nNow, fOk).nIdle >= 0
      modifies this
      ensures (View(), o) == Proceed(Settle(old(View()), nNow, fOk), master, nBatchSize)
      ensures wakeMaster <==> nNow != 0 && !master && old(nTodo) == nNow
    {
      wakeMaster := false;
      if nNow != 0 {
        fAllOk := fAllOk && fOk;
        nTodo := nTodo - nNow;
        wakeMaster := nTodo == 0 && !master;
      } else {
        nTotal := nTotal + 1;
      }
      o := Continue(master);
    }

    /** The section a thread is in after `wait` returns. */
    method Resume(master: bool) returns (o: Outcome)
      requires nTotal + nIdle >= 1
      modifies this
      ensures (View(), o) == Proceed(old(View()).(nIdle := old(nIdle) - 1), master, nBatchSize)
    {
      nIdle := nIdle - 1;
      o := Continue(master);
    }

    method Continue(master: bool) returns (o: Outcome)
      requires nTotal + nIdle >= 0
      modifies this
      ensures (View(), o) == Proceed(old(View()), master, nBatchSize)
    {
      if queue == [] {
        if master && nTodo == 0 {
          nTotal := nTotal - 1;
          o := Return(fAllOk);
          fAllOk := true;
        } else {
          nIdle := nIdle + 1;
          o := Wait;
        }
      } else {
        var share := |queue| / (nTotal + nIdle + 1);
        var nNow := if share < nBatchSize then share else nBatchSize;
        if nNow < 1 { nNow := 1; }
        o := Take(queue[|queue| - nNow..]);
        queue := queue[..|queue| - nNow];
      }
    }

    /** Executing a batch outside the mutex: after the first failure the rest are skipped. */
    method Process(checks: seq<Check>, ok: bool) returns (fOk: bool)
      ensures fOk <==> ok && forall k :: 0 <= k < |checks| ==> checks[k].ok
    {
      fOk := ok;
      for n := 0 to |checks|
        invariant fOk <==> ok && forall k :: 0 <= k < n ==> checks[k].ok
      {
        if fOk { fOk := checks[n].ok; }
      }
    }
  }
}
