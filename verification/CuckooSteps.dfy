/**
 What the operations of the cuckoo cache do to its table, as functions on values, and
 what they keep over any run.
*/
module CuckooSteps {
  import opened Prelude
  import opened CuckooTable

  /** An index no slot has. */
  const INVALID: nat := 0xFFFF_FFFF

  /** The table, the discardable slots, the slots of the current epoch, and the countdown. */
  datatype Snap<T> = Snap(cells: seq<T>, dead: seq<bool>, epoch: seq<bool>, counter: nat)

  datatype Setup<!T> = Setup(locs: T -> seq<nat>, epochSize: nat, depthLimit: nat)

  datatype Op<T> = Insert(e: T) | Lookup(e: T, erase: bool)

  /** An insertion may lose an element; a lookup says whether it found one. */
  datatype Reply<T> = Dropped(lost: Option<T>) | Found(found: bool)

  /** How far an epoch may grow beyond its nominal size. */
  function Slack(epochSize: nat): nat { Max(1, epochSize / 16) }

  ghost predicate Fits<T(!new)>(locs: T -> seq<nat>, s: Snap<T>) {
    |s.dead| == |s.epoch| == |s.cells| && LocsOk(locs, |s.cells|)
  }

  // ------------------------------------------------------------ first places

  /** The position of the first occurrence, or the length. */
  function PlaceOf(s: seq<nat>, x: nat): (i: nat)
    ensures i <= |s| && (i < |s| ==> s[i] == x) && forall j :: 0 <= j < i ==> s[j] != x
  {
    if s == [] then 0 else if s[0] == x then 0 else 1 + PlaceOf(s[1..], x)
  }

  /** The first of the slots that is discardable, or their number. */
  function FirstDead(ls: seq<nat>, dead: seq<bool>): (k: nat)
    requires forall j :: 0 <= j < |ls| ==> ls[j] < |dead|
    ensures k <= |ls| && (k < |ls| ==> dead[ls[k]]) && forall j :: 0 <= j < k ==> !dead[ls[j]]
  {
    if ls == [] then 0 else if dead[ls[0]] then 0 else 1 + FirstDead(ls[1..], dead)
  }

  lemma NoneDead(ls: seq<nat>, dead: seq<bool>, k: nat)
    requires (forall j :: 0 <= j < |ls| ==> ls[j] < |dead|) && FirstDead(ls, dead) == |ls| && k < |ls|
    ensures !dead[ls[k]]
  {
  }

  /** The first of the slots that holds the element, or their number. */
  function FirstWith<T(==)>(ls: seq<nat>, cells: seq<T>, e: T): (k: nat)
    requires forall j :: 0 <= j < |ls| ==> ls[j] < |cells|
    ensures k <= |ls| && (k < |ls| ==> cells[ls[k]] == e) && forall j :: 0 <= j < k ==> cells[ls[j]] != e
  {
    if ls == [] then 0 else if cells[ls[0]] == e then 0 else 1 + FirstWith(ls[1..], cells, e)
  }

  // ------------------------------------------------------------ the operations

  /** The element goes to slot `p`, as a recent or an older one. */
  function Put<T>(s: Snap<T>, p: nat, e: T, recent: bool): Snap<T>
    requires p < |s.cells| && |s.dead| == |s.epoch| == |s.cells|
  {
    s.(cells := s.cells[p := e], dead := s.dead[p := false], epoch := s.epoch[p := recent])
  }

  /**
   The element in hand goes to its first discardable slot. If there is none, it takes the
   slot after the one its own came from, and what was there is in hand.
  */
  ghost function Chain<T(!new)>(locs: T -> seq<nat>, depth: nat, s: Snap<T>, hand: T, recent: bool, lastLoc: nat)
      : (r: (Snap<T>, Option<T>))
    requires Fits(locs, s)
    ensures Fits(locs, r.0)
    decreases depth
  {
    if depth == 0 then (s, Some(hand)) else
      var ls := locs(hand);
      var k := FirstDead(ls, s.dead);
      if k < WAYS then (Put(s, ls[k], hand, recent), None)
      else
        var p := ls[(1 + PlaceOf(ls, lastLoc)) % WAYS];
        Chain(locs, depth - 1, Put(s, p, hand, recent), s.cells[p], s.epoch[p], p)
  }

  lemma ChainStep<T(!new)>(locs: T -> seq<nat>, depth: nat, s: Snap<T>, hand: T, recent: bool, lastLoc: nat)
    requires Fits(locs, s) && |locs(hand)| == WAYS && forall k :: 0 <= k < WAYS ==> locs(hand)[k] < |s.cells|
    ensures Chain(locs, 0, s, hand, recent, lastLoc) == (s, Some(hand))
    ensures var ls := locs(hand);
            var k, p := FirstDead(ls, s.dead), ls[(1 + PlaceOf(ls, lastLoc)) % WAYS];
            depth > 0 ==>
              Chain(locs, depth, s, hand, recent, lastLoc)
              == if k < WAYS then (Put(s, ls[k], hand, recent), None)
                 else Chain(locs, depth - 1, Put(s, p, hand, recent), s.cells[p], s.epoch[p], p)
  {
    hide Put, PlaceOf, FirstDead, LocsOk;
  }

  /** The slots that are discardable or belong to the old epoch. */
  function Stale(dead: seq<bool>, epoch: seq<bool>): (r: seq<bool>)
    requires |dead| == |epoch|
    ensures |r| == |dead| && forall p :: 0 <= p < |r| ==> r[p] == (dead[p] || !epoch[p])
  {
    seq(|dead|, p requires 0 <= p < |dead| => dead[p] || !epoch[p])
  }

  /** Whether the next insertion begins a new epoch. */
  predicate Ages<T>(w: Setup<T>, s: Snap<T>)
    requires |s.dead| == |s.epoch|
  {
    s.counter == 0 && Count(s.dead, s.epoch) >= w.epochSize
  }

  /** Before an insertion: count down, and at zero begin a new epoch if this one is full. */
  function Prepared<T>(w: Setup<T>, s: Snap<T>): (r: Snap<T>)
    requires |s.dead| == |s.epoch|
    ensures |r.dead| == |r.epoch| == |s.dead| && r.cells == s.cells
  {
    var n := Count(s.dead, s.epoch);
    if s.counter != 0 then s.(counter := s.counter - 1)
    else if n >= w.epochSize then
      s.(dead := Stale(s.dead, s.epoch), epoch := seq(|s.epoch|, p => false), counter := w.epochSize)
    else s.(counter := Max(1, Max(w.epochSize / 16, w.epochSize - n)))
  }

  ghost function Inserted<T(!new)>(w: Setup<T>, s: Snap<T>, e: T): (r: (Snap<T>, Option<T>))
    requires Fits(w.locs, s)
    ensures Fits(w.locs, r.0)
  {
    var t := Prepared(w, s);
    var k := FirstWith(w.locs(e), t.cells, e);
    if k < WAYS then (Put(t, w.locs(e)[k], e, true), None)
    else Chain(w.locs, w.depthLimit, t, e, true, INVALID)
  }

  ghost function Looked<T(!new)>(w: Setup<T>, s: Snap<T>, e: T, erase: bool): (r: (Snap<T>, bool))
    requires Fits(w.locs, s)
    ensures Fits(w.locs, r.0)
  {
    var k := FirstWith(w.locs(e), s.cells, e);
    (if k < WAYS && erase then s.(dead := s.dead[w.locs(e)[k] := true]) else s, k < WAYS)
  }

  // ------------------------------------------------------------ live and recent elements

  ghost predicate Lives<T>(s: Snap<T>, x: T)
    requires |s.dead| == |s.cells|
  {
    IsLive(s.cells, s.dead, x)
  }

  /** The element is live and of the current epoch. */
  ghost predicate Recent<T>(s: Snap<T>, x: T)
    requires |s.dead| == |s.epoch| == |s.cells|
  {
    IsLive(s.cells, Stale(s.dead, s.epoch), x)
  }

  ghost predicate Sound<T(!new)>(locs: T -> seq<nat>, s: Snap<T>) {
    Fits(locs, s) && Inv(s.cells, s.dead, locs)
  }

  lemma RecentLives<T>(s: Snap<T>, x: T)
    requires |s.dead| == |s.epoch| == |s.cells| && Recent(s, x)
    ensures Lives(s, x)
  {
    var q :| 0 <= q < |s.cells| && !Stale(s.dead, s.epoch)[q] && s.cells[q] == x;
    assert !s.dead[q];
  }

  /** A live element is recent exactly if its slot is of the current epoch. */
  lemma RecentAt<T(!new)>(locs: T -> seq<nat>, s: Snap<T>, p: nat)
    requires Sound(locs, s) && p < |s.cells| && !s.dead[p]
    ensures Recent(s, s.cells[p]) <==> s.epoch[p]
  {
    if Recent(s, s.cells[p]) {
      var q :| 0 <= q < |s.cells| && !Stale(s.dead, s.epoch)[q] && s.cells[q] == s.cells[p];
      Unique(s.cells, s.dead, locs, p, q);
    }
    if s.epoch[p] { assert !Stale(s.dead, s.epoch)[p]; }
  }

  /** Writing a slot touches no other element than the old and the new one there. */
  lemma PutOther<T(!new)>(s: Snap<T>, p: nat, e: T, recent: bool, x: T)
    requires |s.dead| == |s.epoch| == |s.cells| && p < |s.cells| && x != e && (s.dead[p] || x != s.cells[p])
    ensures Recent(Put(s, p, e, recent), x) <==> Recent(s, x)
    ensures Lives(Put(s, p, e, recent), x) <==> Lives(s, x)
  {
    var t := Put(s, p, e, recent);
    var a, b := Stale(s.dead, s.epoch), Stale(t.dead, t.epoch);
    assert a[p] || x != s.cells[p];
    assert b == a[p := !recent];
    WriteOther(s.cells, a, p, e, !recent, x);
    WriteOther(s.cells, s.dead, p, e, false, x);
  }

  lemma WriteOther<T>(cells: seq<T>, dead: seq<bool>, p: nat, e: T, d: bool, x: T)
    requires |dead| == |cells| && p < |cells| && x != e && (dead[p] || x != cells[p])
    ensures IsLive(cells[p := e], dead[p := d], x) <==> IsLive(cells, dead, x)
  {
    if IsLive(cells, dead, x) {
      var q :| 0 <= q < |cells| && !dead[q] && cells[q] == x;
      assert !dead[p := d][q] && cells[p := e][q] == x;
    }
  }

  lemma PutSelf<T(!new)>(locs: T -> seq<nat>, s: Snap<T>, p: nat, e: T, recent: bool)
    requires Fits(locs, s) && p < |s.cells| && Sound(locs, Put(s, p, e, recent))
    ensures Lives(Put(s, p, e, recent), e) && (Recent(Put(s, p, e, recent), e) <==> recent)
  {
    var t := Put(s, p, e, recent);
    assert !t.dead[p] && t.cells[p] == e;
    RecentAt(locs, t, p);
  }

  // ------------------------------------------------------------ what an insertion keeps

  /** The element `x` is there, counting the one in hand. */
  ghost predicate There<T>(s: Snap<T>, hand: T, x: T)
    requires |s.dead| == |s.cells|
  {
    Lives(s, x) || x == hand
  }

  ghost predicate RecentThere<T>(s: Snap<T>, hand: T, recent: bool, x: T)
    requires |s.dead| == |s.epoch| == |s.cells|
  {
    Recent(s, x) || (x == hand && recent)
  }

  lemma FillKeeps<T(!new)>(locs: T -> seq<nat>, s: Snap<T>, e: T, recent: bool, k: nat)
    requires Sound(locs, s) && !Lives(s, e) && k == FirstDead(locs(e), s.dead) < WAYS
    ensures var t := Put(s, locs(e)[k], e, recent);
            && Sound(locs, t)
            && (forall x :: Lives(t, x) <==> There(s, e, x))
            && (forall x :: Recent(t, x) <==> RecentThere(s, e, recent, x))
            && Count(t.dead, t.epoch) == Count(s.dead, s.epoch) + One(recent)
  {
    var p := locs(e)[k];
    var t := Put(s, p, e, recent);
    FillOk(s.cells, s.dead, locs, e, k);
    CountSet(s.dead, s.epoch, p, recent, false);
    PutSelf(locs, s, p, e, recent);
    forall x ensures Lives(t, x) <==> There(s, e, x)
             ensures Recent(t, x) <==> RecentThere(s, e, recent, x)
    {
      if x != e {
        PutOther(s, p, e, recent, x);
      } else if Recent(s, x) {
        RecentLives(s, x);
      }
    }
  }

  lemma PushKeeps<T(!new)>(locs: T -> seq<nat>, s: Snap<T>, e: T, recent: bool, k: nat)
    requires Sound(locs, s) && !Lives(s, e) && k < WAYS && forall j :: 0 <= j < WAYS ==> !s.dead[locs(e)[j]]
    ensures var p := locs(e)[k];
            var t := Put(s, p, e, recent);
            && Sound(locs, t) && !Lives(t, s.cells[p])
            && (forall x :: There(t, s.cells[p], x) <==> There(s, e, x))
            && (forall x :: RecentThere(t, s.cells[p], s.epoch[p], x) <==> RecentThere(s, e, recent, x))
            && Count(t.dead, t.epoch) + One(s.epoch[p]) == Count(s.dead, s.epoch) + One(recent)
  {
    var p := locs(e)[k];
    var t := Put(s, p, e, recent);
    assert s.dead[p := false] == s.dead;
    PushOutOk(s.cells, s.dead, locs, e, k);
    CountSet(s.dead, s.epoch, p, recent, false);
    PutSelf(locs, s, p, e, recent);
    RecentAt(locs, s, p);
    var out := s.cells[p];
    assert Lives(s, out);
    forall x ensures There(t, out, x) <==> There(s, e, x)
             ensures RecentThere(t, out, s.epoch[p], x) <==> RecentThere(s, e, recent, x)
    {
      if x != e && x != out {
        PutOther(s, p, e, recent, x);
      } else {
        if Recent(s, e) { RecentLives(s, e); }
        if Recent(t, out) { RecentLives(t, out); }
      }
    }
  }

  /**
   Displacing loses nothing but what is in hand at the end: every other element is as
   live and as recent as before, and the recent ones are at most one more.
  */
  lemma {:induction false} ChainKeeps<T(!new)>(locs: T -> seq<nat>, depth: nat, s: Snap<T>, hand: T, recent: bool,
                                               lastLoc: nat)
    requires Sound(locs, s) && !Lives(s, hand)
    ensures var (t, lost) := Chain(locs, depth, s, hand, recent, lastLoc);
            && Sound(locs, t) && t.counter == s.counter
            && (forall x :: Lives(t, x) <==> There(s, hand, x) && lost != Some(x))
            && (forall x :: Recent(t, x) <==> RecentThere(s, hand, recent, x) && lost != Some(x))
            && (lost.Some? ==> There(s, hand, lost.value))
            && Count(t.dead, t.epoch) <= Count(s.dead, s.epoch) + One(recent)
    decreases depth
  {
    hide Inv, Put, IsLive, Count, LocsOk;
    if depth == 0 {
      forall x ensures Recent(s, x) ==> Lives(s, x) { if Recent(s, x) { RecentLives(s, x); } }
    } else {
      var ls := locs(hand);
      HasWays(locs, s, hand);
      var k := FirstDead(ls, s.dead);
      if k < WAYS {
        FillKeeps(locs, s, hand, recent, k);
        PutCounter(s, ls[k], hand, recent);
      } else {
        var j := (1 + PlaceOf(ls, lastLoc)) % WAYS;
        var p := ls[j];
        PushKeeps(locs, s, hand, recent, j);
        PutCounter(s, p, hand, recent);
        ChainKeeps(locs, depth - 1, Put(s, p, hand, recent), s.cells[p], s.epoch[p], p);
      }
    }
  }

  lemma HasWays<T(!new)>(locs: T -> seq<nat>, s: Snap<T>, e: T)
    requires Fits(locs, s)
    ensures |locs(e)| == WAYS && forall k :: 0 <= k < WAYS ==> locs(e)[k] < |s.cells|
  {
  }

  /** An element that is in one of its slots becomes a recent one there. */
  lemma RefreshKeeps<T(!new)>(locs: T -> seq<nat>, s: Snap<T>, e: T, k: nat)
    requires Sound(locs, s) && k == FirstWith(locs(e), s.cells, e) < WAYS
    ensures var t := Put(s, locs(e)[k], e, true);
            && Sound(locs, t)
            && (forall x :: Lives(t, x) <==> There(s, e, x))
            && (forall x :: Recent(t, x) <==> RecentThere(s, e, true, x))
            && Count(t.dead, t.epoch) <= Count(s.dead, s.epoch) + 1
  {
    var p := locs(e)[k];
    var t := Put(s, p, e, true);
    assert t.cells == s.cells;
    assert FirstAt(s.cells, locs, e, k);
    ReviveOk(s.cells, s.dead, locs, e, k);
    CountSet(s.dead, s.epoch, p, true, false);
    PutSelf(locs, s, p, e, true);
    forall x ensures Lives(t, x) <==> There(s, e, x)
             ensures Recent(t, x) <==> RecentThere(s, e, true, x)
    {
      if x != e { PutOther(s, p, e, true, x); }
    }
  }

  lemma NotFound<T(!new)>(locs: T -> seq<nat>, s: Snap<T>, e: T)
    requires Sound(locs, s) && FirstWith(locs(e), s.cells, e) == WAYS
    ensures !Lives(s, e)
  {
    if Lives(s, e) { LiveFound(s.cells, s.dead, locs, e); }
  }

  /** A new epoch: what was recent is live, and nothing is recent. */
  lemma PreparedKeeps<T(!new)>(w: Setup<T>, s: Snap<T>)
    requires Sound(w.locs, s) && w.epochSize >= 1
    ensures var t := Prepared(w, s);
            && Sound(w.locs, t)
            && (forall x :: Lives(t, x) <==> if Ages(w, s) then Recent(s, x) else Lives(s, x))
            && (forall x :: Recent(t, x) <==> !Ages(w, s) && Recent(s, x))
            && (Count(s.dead, s.epoch) + s.counter <= w.epochSize + Slack(w.epochSize) ==>
                  Count(t.dead, t.epoch) + t.counter + 1 <= w.epochSize + Slack(w.epochSize))
  {
    var t := Prepared(w, s);
    if Ages(w, s) {
      DiscardOk(s.cells, s.dead, w.locs, t.dead);
      CountNone(t.dead, t.epoch);
      assert forall p :: 0 <= p < |t.dead| ==> Stale(t.dead, t.epoch)[p];
    }
  }

  /** Within bounds, and every live element where it is looked for. */
  ghost predicate Good<T(!new)>(w: Setup<T>, s: Snap<T>) {
    && Sound(w.locs, s) && w.epochSize >= 1
    && Count(s.dead, s.epoch) + s.counter <= w.epochSize + Slack(w.epochSize)
  }

  /**
   An insertion makes its element the most recent and loses at most one; in a new epoch
   the elements of the one before last are given up as well, and what was recent no longer is.
  */
  lemma InsertedKeeps<T(!new)>(w: Setup<T>, s: Snap<T>, e: T)
    requires Good(w, s)
    ensures var (t, lost) := Inserted(w, s, e);
            && Good(w, t)
            && (forall x :: Lives(t, x) <==>
                  (x == e || if Ages(w, s) then Recent(s, x) else Lives(s, x)) && lost != Some(x))
            && (forall x :: Recent(t, x) <==> (x == e || (!Ages(w, s) && Recent(s, x))) && lost != Some(x))
            && (lost.Some? ==> lost.value == e || if Ages(w, s) then Recent(s, lost.value) else Lives(s, lost.value))
  {
    hide Inv, Put, IsLive, Count, LocsOk, Chain, Prepared, Ages, Slack, Stale;
    var t := Prepared(w, s);
    PreparedKeeps(w, s);
    HasWays(w.locs, t, e);
    forall x ensures Recent(s, x) ==> Lives(s, x) { if Recent(s, x) { RecentLives(s, x); } }
    var k := FirstWith(w.locs(e), t.cells, e);
    if k < WAYS {
      RefreshKeeps(w.locs, t, e, k);
      PutCounter(t, w.locs(e)[k], e, true);
    } else {
      NotFound(w.locs, t, e);
      ChainKeeps(w.locs, w.depthLimit, t, e, true, INVALID);
    }
  }

  lemma PutCounter<T>(s: Snap<T>, p: nat, e: T, recent: bool)
    requires p < |s.cells| && |s.dead| == |s.epoch| == |s.cells|
    ensures Put(s, p, e, recent).counter == s.counter
  {
  }

  /** A lookup finds every live element; erasing takes that one away and no other. */
  lemma LookedKeeps<T(!new)>(w: Setup<T>, s: Snap<T>, e: T, erase: bool)
    requires Good(w, s)
    ensures var (t, found) := Looked(w, s, e, erase);
            && Good(w, t) && (Lives(s, e) ==> found)
            && (forall x :: Lives(t, x) <==> Lives(s, x) && !(erase && x == e))
            && (forall x :: Recent(t, x) <==> Recent(s, x) && !(erase && x == e))
  {
    var k := FirstWith(w.locs(e), s.cells, e);
    if k == WAYS {
      NotFound(w.locs, s, e);
      if Recent(s, e) { RecentLives(s, e); }
    } else if erase {
      ErasedKeeps(w, s, e, k);
    }
  }

  lemma ErasedKeeps<T(!new)>(w: Setup<T>, s: Snap<T>, e: T, k: nat)
    requires Good(w, s) && k == FirstWith(w.locs(e), s.cells, e) < WAYS
    ensures var t := s.(dead := s.dead[w.locs(e)[k] := true]);
            && Good(w, t)
            && (forall x :: Lives(t, x) <==> Lives(s, x) && x != e)
            && (forall x :: Recent(t, x) <==> Recent(s, x) && x != e)
  {
    var p := w.locs(e)[k];
    var t := s.(dead := s.dead[p := true]);
    assert FirstAt(s.cells, w.locs, e, k);
    DiscardOk(s.cells, s.dead, w.locs, t.dead);
    CountMore(s.dead, s.epoch, t.dead);
    ErasedOne(s.cells, s.dead, w.locs, e, k);
    var a, b := Stale(s.dead, s.epoch), Stale(t.dead, t.epoch);
    DiscardOk(s.cells, s.dead, w.locs, a);
    ErasedOne(s.cells, a, w.locs, e, k);
    assert b == a[p := true];
  }

  /** Discarding the slot where `e` is found first leaves everything live but `e`. */
  lemma ErasedOne<T(!new)>(cells: seq<T>, dead: seq<bool>, locs: T -> seq<nat>, e: T, k: nat)
    requires Inv(cells, dead, locs) && FirstAt(cells, locs, e, k)
    ensures forall x :: IsLive(cells, dead[locs(e)[k] := true], x) <==> IsLive(cells, dead, x) && x != e
  {
    var p := locs(e)[k];
    var d := dead[p := true];
    forall x ensures IsLive(cells, d, x) <==> IsLive(cells, dead, x) && x != e {
      if IsLive(cells, dead, x) && x != e {
        var q :| 0 <= q < |cells| && !dead[q] && cells[q] == x;
        assert !d[q];
      }
    }
  }

  // ------------------------------------------------------------ whole runs

  ghost function Next<T(!new)>(w: Setup<T>, s: Snap<T>, op: Op<T>): (r: (Snap<T>, Reply<T>))
    requires Fits(w.locs, s)
    ensures Fits(w.locs, r.0)
  {
    match op
    case Insert(e) => var (t, lost) := Inserted(w, s, e); (t, Dropped(lost))
    case Lookup(e, erase) => var (t, found) := Looked(w, s, e, erase); (t, Found(found))
  }

  /** Every slot discardable, a whole epoch to go. */
  ghost predicate IsStart<T(!new)>(w: Setup<T>, s: Snap<T>) {
    && Fits(w.locs, s) && w.epochSize >= 1 && s.counter == w.epochSize
    && forall p :: 0 <= p < |s.dead| ==> s.dead[p] && !s.epoch[p]
  }

  ghost predicate IsRun<T(!new)>(w: Setup<T>, states: seq<Snap<T>>, ops: seq<Op<T>>, replies: seq<Reply<T>>) {
    && |states| == |ops| + 1 && |replies| == |ops| && IsStart(w, states[0])
    && forall k :: 0 <= k < |ops| ==>
         Fits(w.locs, states[k]) && (states[k + 1], replies[k]) == Next(w, states[k], ops[k])
  }

  lemma StartGood<T(!new)>(w: Setup<T>, s: Snap<T>)
    requires IsStart(w, s)
    ensures Good(w, s) && forall x :: !Lives(s, x)
  {
    CountNone(s.dead, s.epoch);
  }

  lemma NextGood<T(!new)>(w: Setup<T>, s: Snap<T>, op: Op<T>)
    requires Good(w, s)
    ensures Good(w, Next(w, s, op).0)
  {
    hide Inserted, Looked;
    match op
    case Insert(e) => InsertedKeeps(w, s, e);
    case Lookup(e, erase) => LookedKeeps(w, s, e, erase);
  }

  /**
   In every state of every run the un-erased elements of the current epoch, with the
   insertions until the next check, are at most the epoch size and its slack.
  */
  lemma {:induction false} RunGood<T(!new)>(w: Setup<T>, states: seq<Snap<T>>, ops: seq<Op<T>>,
                                            replies: seq<Reply<T>>, n: nat)
    requires IsRun(w, states, ops, replies) && n <= |ops|
    ensures Good(w, states[n])
  {
    hide Next, Good, IsStart;
    if n == 0 {
      StartGood(w, states[0]);
    } else {
      RunGood(w, states, ops, replies, n - 1);
      NextGood(w, states[n - 1], ops[n - 1]);
      assert states[n] == Next(w, states[n - 1], ops[n - 1]).0;
    }
  }

  /** The operation neither erases nor loses the element. */
  predicate Spares<T(==)>(op: Op<T>, reply: Reply<T>, x: T) {
    && !(op.Lookup? && op.erase && op.e == x)
    && !(reply.Dropped? && reply.lost == Some(x))
  }

  /** How often a new epoch begins in the steps from `m` to `n`. */
  ghost function Epochs<T(!new)>(w: Setup<T>, states: seq<Snap<T>>, ops: seq<Op<T>>, replies: seq<Reply<T>>, m: nat,
                                 n: nat): nat
    requires IsRun(w, states, ops, replies) && m <= n <= |ops|
    decreases n
  {
    if n == m then 0
    else Epochs(w, states, ops, replies, m, n - 1) + One(ops[n - 1].Insert? && Ages(w, states[n - 1]))
  }

  lemma NextKeeps<T(!new)>(w: Setup<T>, s: Snap<T>, op: Op<T>, x: T)
    requires Good(w, s) && Spares(op, Next(w, s, op).1, x)
    ensures var t, begins := Next(w, s, op).0, op.Insert? && Ages(w, s);
            && (Recent(s, x) && !begins ==> Recent(t, x))
            && (Recent(s, x) || (Lives(s, x) && !begins) ==> Lives(t, x))
            && (op == Insert(x) ==> Recent(t, x))
            && (Recent(t, x) ==> Lives(t, x))
  {
    hide Inserted, Looked, Lives, Recent, Ages;
    match op {
      case Insert(e) => InsertedKeeps(w, s, e);
      case Lookup(e, erase) => LookedKeeps(w, s, e, erase);
    }
    var t := Next(w, s, op).0;
    if Recent(t, x) { RecentLives(t, x); }
    if Recent(s, x) { RecentLives(s, x); }
  }

  /**
   What was inserted stays: unless it is erased or lost, it is recent until a new epoch
   begins, and is found until a second one does.
  */
  lemma {:induction false} Survives<T(!new)>(w: Setup<T>, states: seq<Snap<T>>, ops: seq<Op<T>>,
                                             replies: seq<Reply<T>>, m: nat, n: nat, x: T)
    requires IsRun(w, states, ops, replies) && m < n <= |ops| && ops[m] == Insert(x)
    requires forall k :: m <= k < n ==> Spares(ops[k], replies[k], x)
    requires Epochs(w, states, ops, replies, m + 1, n) <= 1
    ensures Lives(states[n], x)
    ensures Epochs(w, states, ops, replies, m + 1, n) == 0 ==> Recent(states[n], x)
    ensures n < |ops| && ops[n].Lookup? && ops[n].e == x ==> replies[n] == Found(true)
  {
    hide Next, Good, Lives, Recent, Ages;
    RunGood(w, states, ops, replies, n - 1);
    RunGood(w, states, ops, replies, n);
    if n > m + 1 { Survives(w, states, ops, replies, m, n - 1, x); }
    assert Spares(ops[n - 1], replies[n - 1], x);
    NextKeeps(w, states[n - 1], ops[n - 1], x);
    if n < |ops| && ops[n].Lookup? && ops[n].e == x {
      assert (states[n + 1], replies[n]) == Next(w, states[n], ops[n]);
      FoundIfLive(w, states[n], ops[n]);
    }
  }

  lemma FoundIfLive<T(!new)>(w: Setup<T>, s: Snap<T>, op: Op<T>)
    requires Good(w, s) && op.Lookup? && Lives(s, op.e)
    ensures Next(w, s, op).1 == Found(true)
  {
    hide Looked, Lives;
    LookedKeeps(w, s, op.e, op.erase);
  }
}
