/**
 The cuckoo cache of the signature and script caches, with its bit-packed
 collection flags.
*/
module CuckooCache {
  import opened Prelude
  import opened CuckooTable
  import opened CuckooSteps

  // ------------------------------------------------------------ bit-packed flags

  function Mask(i: nat): bv8
    requires i < 8
  {
    if i == 0 then 0x01 else if i == 1 then 0x02 else if i == 2 then 0x04 else if i == 3 then 0x08
    else if i == 4 then 0x10 else if i == 5 then 0x20 else if i == 6 then 0x40 else 0x80
  }

  predicate Bit(b: bv8, i: nat)
    requires i < 8
  {
    b & Mask(i) != 0
  }

  lemma MaskSets(b: bv8, i: nat, j: nat)
    requires i < 8 && j < 8
    ensures Bit(b | Mask(i), j) == (i == j || Bit(b, j))
  {
  }

  lemma MaskClears(b: bv8, i: nat, j: nat)
    requires i < 8 && j < 8
    ensures Bit(b & !Mask(i), j) == (i != j && Bit(b, j))
  {
  }

  class BitFlags {
    const mem: array<bv8>
    /** The flags packed into `mem`. */
    ghost var bits: seq<bool>

    ghost predicate Valid()
      reads this, mem
    {
      && mem.Length * 8 >= |bits|
      && forall s :: 0 <= s < |bits| ==> bits[s] == Bit(mem[s / 8], s % 8)
    }

    /** Enough bytes for `size` flags, all of them set. */
    constructor (size: nat)
      ensures Valid() && fresh(mem) && |bits| == size && forall s :: 0 <= s < size ==> bits[s]
    {
      mem := new bv8[(size + 7) / 8](i => 0xFF);
      bits := seq(size, i => true);
      new;
      forall s | 0 <= s < size ensures Bit(mem[s / 8], s % 8) {
        assert mem[s / 8] == 0xFF;
        AllSet(s % 8);
      }
    }

    method BitSet(s: nat)
      requires Valid() && s < |bits|
      modifies this, mem
      ensures Valid() && bits == old(bits)[s := true]
    {
      var b := mem[s / 8];
      mem[s / 8] := b | Mask(s % 8);
      bits := bits[s := true];
      forall t | 0 <= t < |bits| && t / 8 == s / 8 ensures bits[t] == Bit(mem[t / 8], t % 8) {
        MaskSets(b, s % 8, t % 8);
        SameBit(s, t);
      }
    }

    method BitUnset(s: nat)
      requires Valid() && s < |bits|
      modifies this, mem
      ensures Valid() && bits == old(bits)[s := false]
    {
      var b := mem[s / 8];
      mem[s / 8] := b & !Mask(s % 8);
      bits := bits[s := false];
      forall t | 0 <= t < |bits| && t / 8 == s / 8 ensures bits[t] == Bit(mem[t / 8], t % 8) {
        MaskClears(b, s % 8, t % 8);
        SameBit(s, t);
      }
    }

    method BitIsSet(s: nat) returns (b: bool)
      requires Valid() && s < |bits|
      ensures b == bits[s]
    {
      b := Mask(s % 8) & mem[s / 8] != 0;
      assert Mask(s % 8) & mem[s / 8] == mem[s / 8] & Mask(s % 8);
    }
  }

  lemma AllSet(i: nat)
    requires i < 8
    ensures Bit(0xFF, i)
  {
  }

  lemma SameBit(s: nat, t: nat)
    requires s / 8 == t / 8
    ensures s % 8 == t % 8 <==> s == t
  {
  }

  // ------------------------------------------------------------ the cache

  const TWO32: nat := 0x1_0000_0000

  /** The 32-bit hash `x` mapped onto [0, n). */
  function FastRange(x: nat, n: nat): nat {
    x % TWO32 * n / TWO32
  }

  lemma FastRangeBound(x: nat, n: nat)
    requires n > 0
    ensures FastRange(x, n) < n
  {
    var y := x % TWO32;
    assert y * n < TWO32 * n by { MulLess(y, TWO32, n); }
  }

  lemma MulLess(a: nat, b: nat, n: nat)
    requires a < b && n > 0
    ensures a * n < b * n
  {
  }

  /** The eight slots of an element. */
  function LocsOf<T>(hash: (nat, T) -> nat, size: nat): T -> seq<nat> {
    (e: T) => [FastRange(hash(0, e), size), FastRange(hash(1, e), size), FastRange(hash(2, e), size),
               FastRange(hash(3, e), size), FastRange(hash(4, e), size), FastRange(hash(5, e), size),
               FastRange(hash(6, e), size), FastRange(hash(7, e), size)]
  }

  lemma LocsFit<T(!new)>(hash: (nat, T) -> nat, size: nat)
    requires size > 0
    ensures LocsOk(LocsOf(hash, size), size)
  {
    forall e: T, k | 0 <= k < WAYS ensures LocsOf(hash, size)(e)[k] < size {
      FastRangeBound(hash(k, e), size);
    }
  }

  class Cache<T(==, !new)> {
    const hash: (nat, T) -> nat
    const size: nat
    const depthLimit: nat
    const epochSize: nat
    const table: array<T>
    const flags: BitFlags
    const epoch: array<bool>
    var counter: nat

    ghost const locs: T -> seq<nat>

    /** The arrays are apart and as long as the table. */
    ghost predicate Shape()
      reads this, flags, flags.mem
    {
      && 2 <= size < TWO32 && epochSize >= 1
      && table.Length == size && epoch.Length == size
      && table as object != epoch && table as object != flags.mem && epoch as object != flags.mem
      && flags.Valid() && |flags.bits| == size
      && locs == LocsOf(hash, size) && LocsOk(locs, size)
    }

    ghost function Contents(): Snap<T>
      reads this, table, flags, epoch
    {
      Snap(table[..], flags.bits, epoch[..], counter)
    }

    ghost function Constants(): Setup<T> { Setup(locs, epochSize, depthLimit) }

    ghost predicate Live(e: T)
      requires Shape()
      reads this, table, flags, flags.mem, epoch
    {
      Lives(Contents(), e)
    }

    ghost predicate Valid()
      reads this, table, flags, flags.mem, epoch
    {
      Shape() && Good(Constants(), Contents())
    }

    /** `setup`: every slot discardable, a whole epoch to go. */
    constructor (newSize: nat, hash: (nat, T) -> nat, depthLimit: nat, blank: T)
      requires newSize < TWO32
      ensures Valid() && size == Max(2, newSize) && this.depthLimit == depthLimit
      ensures IsStart(Constants(), Contents()) && forall e :: !Live(e)
      ensures locs == LocsOf(hash, size) && epochSize == Max(1, 45 * size % TWO32 / 100)
      ensures fresh(table) && fresh(flags) && fresh(flags.mem) && fresh(epoch)
    {
      var n := Max(2, newSize);
      this.hash, this.size, this.depthLimit := hash, n, depthLimit;
      table := new T[n](i => blank);
      var f := new BitFlags(n);
      flags := f;
      epoch := new bool[n](i => false);
      epochSize := Max(1, 45 * n % TWO32 / 100);
      counter := Max(1, 45 * n % TWO32 / 100);
      locs := LocsOf(hash, n);
      new;
      LocsFit(hash, n);
      StartGood(Constants(), Contents());
    }

    method ComputeHashes(e: T) returns (ls: seq<nat>)
      requires Shape()
      ensures ls == locs(e) && |ls| == WAYS && forall k :: 0 <= k < WAYS ==> ls[k] < size
    {
      ls := LocsOf(hash, size)(e);
    }

    /**
     A lookup finds every live element. With `erase` the slot found becomes
     discardable, and no other live element is touched.
    */
    method Contains(e: T, erase: bool) returns (found: bool)
      requires Valid()
      modifies flags, flags.mem
      ensures Valid() && (Contents(), found) == Looked(Constants(), old(Contents()), e, erase)
      ensures old(Live(e)) ==> found
      ensures found <==> exists k :: 0 <= k < WAYS && old(table[..])[locs(e)[k]] == e
      ensures forall x :: Live(x) <==> old(Live(x)) && !(erase && x == e)
    {
      hide LocsOk, Good, Lives;
      LookedKeeps(Constants(), Contents(), e, erase);
      var k := Find(e);
      found := k < WAYS;
      if found && erase {
        var ls := ComputeHashes(e);
        flags.BitSet(ls[k]);
      }
    }

    /** The first slot of `e` that holds it. */
    method Find(e: T) returns (k: nat)
      requires Shape()
      ensures |locs(e)| == WAYS && forall j :: 0 <= j < WAYS ==> locs(e)[j] < size
      ensures k == FirstWith(locs(e), table[..], e)
    {
      var ls := ComputeHashes(e);
      k := 0;
      while k < WAYS
        invariant 0 <= k <= WAYS && forall j :: 0 <= j < k ==> table[ls[j]] != e
      {
        if table[ls[k]] == e { return; }
        k := k + 1;
      }
    }

    /**
     Before every insertion: count down, and when the count runs out look whether
     the epoch is full.
    */
    method EpochCheck()
      requires Shape()
      modifies this`counter, flags, flags.mem, epoch
      ensures Shape() && Contents() == Prepared(Constants(), old(Contents()))
    {
      hide LocsOk;
      if counter != 0 {
        counter := counter - 1;
        return;
      }
      var unused := CountUnused();
      if unused >= epochSize {
        AgeEpoch();
        counter := epochSize;
      } else {
        counter := Max(1, Max(epochSize / 16, epochSize - unused));
      }
    }

    method CountUnused() returns (n: nat)
      requires Shape()
      ensures n == Count(flags.bits, epoch[..])
    {
      hide LocsOk;
      n := 0;
      var i := 0;
      while i < size
        invariant 0 <= i <= size && n == |CurrentBelow(flags.bits, epoch[..], i)|
      {
        BelowStep(flags.bits, epoch[..], i);
        var erased := flags.BitIsSet(i);
        if epoch[i] && !erased { n := n + 1; }
        i := i + 1;
      }
      BelowAll(flags.bits, epoch[..]);
    }

    /** The old epoch becomes discardable, the current one becomes the old one. */
    method AgeEpoch()
      requires Shape()
      modifies flags, flags.mem, epoch
      ensures Shape() && table[..] == old(table[..])
      ensures flags.bits == Stale(old(flags.bits), old(epoch[..])) && epoch[..] == seq(size, p => false)
    {
      hide LocsOk;
      var i := 0;
      while i < size
        invariant 0 <= i <= size && Shape() && table[..] == old(table[..])
        invariant forall p :: 0 <= p < i ==> flags.bits[p] == (old(flags.bits)[p] || !old(epoch[..])[p]) && !epoch[p]
        invariant forall p :: i <= p < size ==> flags.bits[p] == old(flags.bits)[p] && epoch[p] == old(epoch[..])[p]
      {
        if epoch[i] {
          epoch[i] := false;
        } else {
          flags.BitSet(i);
        }
        i := i + 1;
      }
    }

    /** Mark slot `p` as holding a recent, or an older, live element. */
    method Keep(p: nat, recent: bool)
      requires Shape() && p < size
      modifies flags, flags.mem, epoch
      ensures Shape() && Contents() == Put(old(Contents()), p, old(table[..])[p], recent)
    {
      hide LocsOk;
      flags.BitUnset(p);
      epoch[p] := recent;
    }

    /** An element that is already somewhere in its slots is kept there. */
    method Refresh(e: T) returns (found: bool)
      requires Shape()
      modifies flags, flags.mem, epoch
      ensures Shape() && |locs(e)| == WAYS && forall k :: 0 <= k < WAYS ==> locs(e)[k] < size
      ensures var k := FirstWith(locs(e), old(table[..]), e);
              && (found <==> k < WAYS)
              && Contents() == if found then Put(old(Contents()), locs(e)[k], e, true) else old(Contents())
    {
      hide LocsOk;
      var k := Find(e);
      found := k < WAYS;
      if found {
        var ls := ComputeHashes(e);
        Keep(ls[k], true);
      }
    }

    /** Put `e` into the first discardable one of its slots, if there is one. */
    method TryFill(e: T, recent: bool) returns (filled: bool)
      requires Shape()
      modifies table, flags, flags.mem, epoch
      ensures Shape() && |locs(e)| == WAYS && forall k :: 0 <= k < WAYS ==> locs(e)[k] < size
      ensures var k := FirstDead(locs(e), old(flags.bits));
              && (filled <==> k < WAYS)
              && Contents() == if filled then Put(old(Contents()), locs(e)[k], e, recent) else old(Contents())
    {
      hide LocsOk;
      var ls := ComputeHashes(e);
      var k := FirstFree(ls);
      filled := k < WAYS;
      if filled {
        table[ls[k]] := e;
        Keep(ls[k], recent);
      }
    }

    method FirstFree(ls: seq<nat>) returns (k: nat)
      requires Shape() && |ls| == WAYS && forall k :: 0 <= k < WAYS ==> ls[k] < size
      ensures k == FirstDead(ls, flags.bits)
    {
      k := 0;
      while k < WAYS
        invariant 0 <= k <= WAYS && forall j :: 0 <= j < k ==> !flags.bits[ls[j]]
      {
        var free := flags.BitIsSet(ls[k]);
        if free { return; }
        k := k + 1;
      }
    }

    method Position(ls: seq<nat>, loc: nat) returns (i: nat)
      ensures i == PlaceOf(ls, loc)
    {
      i := 0;
      while i < |ls| && ls[i] != loc
        invariant 0 <= i <= |ls| && forall j :: 0 <= j < i ==> ls[j] != loc
      {
        i := i + 1;
      }
    }

    /**
     Insert an element, which is recent afterwards. What was live stays, in a new epoch
     what was recent, but for at most one element, which is dropped.
    */
    method Insert(e: T) returns (ghost dropped: Option<T>)
      requires Valid()
      modifies this`counter, table, flags, flags.mem, epoch
      ensures Valid() && (Contents(), dropped) == Inserted(Constants(), old(Contents()), e)
      ensures forall x :: Live(x) || dropped == Some(x) <==>
                x == e || if old(Ages(Constants(), Contents())) then old(Recent(Contents(), x)) else old(Live(x))
      ensures dropped.Some? ==> !Live(dropped.value)
    {
      hide LocsOk, Good, Lives, Recent, Ages, Prepared, Put, Chain;
      InsertedKeeps(Constants(), Contents(), e);
      EpochCheck();
      dropped := None;
      var found := Refresh(e);
      if !found {
        dropped := Displace(e);
      }
    }

    /** The chain of displacements, at most `depthLimit` long; what is in hand at its end is dropped. */
    method Displace(e: T) returns (ghost dropped: Option<T>)
      requires Shape()
      modifies table, flags, flags.mem, epoch
      ensures Shape() && (Contents(), dropped) == Chain(locs, depthLimit, old(Contents()), e, true, INVALID)
    {
      hide LocsOk, LocsOf, Put, Chain, PlaceOf, FirstDead;
      var hand, recent, lastLoc, depth := e, true, INVALID, 0;
      while depth < depthLimit
        invariant Shape() && depth <= depthLimit
        invariant Chain(locs, depthLimit - depth, Contents(), hand, recent, lastLoc)
               == Chain(locs, depthLimit, old(Contents()), e, true, INVALID)
      {
        ghost var s := Contents();
        var filled := TryFill(hand, recent);
        ChainStep(locs, depthLimit - depth, s, hand, recent, lastLoc);
        if filled { return None; }
        hand, recent, lastLoc := Displaced(hand, recent, lastLoc);
        depth := depth + 1;
      }
      dropped := Some(hand);
      HasWays(locs, Contents(), hand);
      ChainStep(locs, 0, Contents(), hand, recent, lastLoc);
    }

    /**
     Put an element into the location after the last one used and take out what is
     there. In the first step none was used, and the location is the second of the eight.
    */
    method Displaced(e: T, recent: bool, lastLoc: nat) returns (out: T, wasRecent: bool, loc: nat)
      requires Shape() && FirstDead(locs(e), flags.bits) == WAYS
      modifies table, epoch
      ensures |locs(e)| == WAYS && loc == locs(e)[(1 + PlaceOf(locs(e), lastLoc)) % WAYS] && loc < size
      ensures lastLoc == INVALID ==> loc == locs(e)[1]
      ensures Shape() && Contents() == Put(old(Contents()), loc, e, recent)
      ensures out == old(table[..])[loc] && wasRecent == old(epoch[..])[loc]
    {
      hide LocsOk, LocsOf, PlaceOf, FirstDead, Put;
      var ls := ComputeHashes(e);
      var i := Position(ls, lastLoc);
      var k := (1 + i) % WAYS;
      loc := ls[k];
      NoneDead(ls, flags.bits, k);
      out, wasRecent := PushOut(loc, e, recent);
    }

    /** The element takes live slot `p`; its occupant and the occupant's age come out. */
    method PushOut(p: nat, e: T, recent: bool) returns (out: T, wasRecent: bool)
      requires Shape() && p < size && !flags.bits[p]
      modifies table, epoch
      ensures Shape() && Contents() == Put(old(Contents()), p, e, recent)
      ensures out == old(table[..])[p] && wasRecent == old(epoch[..])[p]
    {
      hide LocsOk;
      assert flags.bits[p := false] == flags.bits;
      out, wasRecent := table[p], epoch[p];
      table[p], epoch[p] := e, recent;
    }
  }

  // ------------------------------------------------------------ counting recent slots

  function CurrentBelow(dead: seq<bool>, epoch: seq<bool>, n: nat): set<nat>
    requires |dead| == |epoch|
  {
    set p: nat | p < |dead| && p < n && epoch[p] && !dead[p]
  }

  lemma BelowStep(dead: seq<bool>, epoch: seq<bool>, n: nat)
    requires |dead| == |epoch| && n < |dead|
    ensures |CurrentBelow(dead, epoch, n + 1)| == |CurrentBelow(dead, epoch, n)| + One(epoch[n] && !dead[n])
    ensures CurrentBelow(dead, epoch, 0) == {}
  {
    var A, B := CurrentBelow(dead, epoch, n + 1), CurrentBelow(dead, epoch, n);
    assert forall p :: p in A - {n} <==> p in B;
    assert A - {n} == B;
    assert |A| == |A - {n}| + One(n in A);
    var C, D: set<nat> := CurrentBelow(dead, epoch, 0), {};
    assert forall p :: p in C <==> p in D;
  }

  lemma BelowAll(dead: seq<bool>, epoch: seq<bool>)
    requires |dead| == |epoch|
    ensures CurrentBelow(dead, epoch, |dead|) == Current(dead, epoch)
  {
    var A, B := CurrentBelow(dead, epoch, |dead|), Current(dead, epoch);
    assert forall p :: p in A <==> p in B;
  }

  // ------------------------------------------------------------ whole runs

  /**
   The cache does what the operations say, one after the other. In every state of every
   run the un-erased elements of the current epoch are at most the epoch size and its slack.
  */
  method Run<T(==, !new)>(newSize: nat, hash: (nat, T) -> nat, depthLimit: nat, blank: T, ops: seq<Op<T>>)
      returns (c: Cache<T>, ghost states: seq<Snap<T>>, ghost replies: seq<Reply<T>>)
    requires newSize < TWO32
    ensures c.Valid() && c.size == Max(2, newSize) && c.depthLimit == depthLimit
    ensures c.locs == LocsOf(hash, c.size) && c.epochSize == Max(1, 45 * c.size % TWO32 / 100)
    ensures IsRun(c.Constants(), states, ops, replies) && c.Contents() == states[|ops|]
    ensures forall k :: 0 <= k <= |ops| ==>
              && |states[k].dead| == |states[k].epoch|
              && Count(states[k].dead, states[k].epoch) <= c.epochSize + Slack(c.epochSize)
  {
    c := new Cache(newSize, hash, depthLimit, blank);
    ghost var w := c.Constants();
    states, replies := [c.Contents()], [];
    for n := 0 to |ops|
      invariant fresh(c) && fresh(c.table) && fresh(c.flags) && fresh(c.flags.mem) && fresh(c.epoch)
      invariant c.Valid() && c.Constants() == w
      invariant IsRun(w, states, ops[..n], replies) && c.Contents() == states[n]
    {
      ghost var s := c.Contents();
      ghost var reply := Apply(c, ops[n]);
      Extended(w, states, ops, replies, n, s, c.Contents(), reply);
      states, replies := states + [c.Contents()], replies + [reply];
    }
    assert ops[..|ops|] == ops;
    forall k | 0 <= k <= |ops|
      ensures |states[k].dead| == |states[k].epoch|
      ensures Count(states[k].dead, states[k].epoch) <= c.epochSize + Slack(c.epochSize)
    {
      RunGood(w, states, ops, replies, k);
    }
  }

  method Apply<T(==, !new)>(c: Cache<T>, op: Op<T>) returns (ghost reply: Reply<T>)
    requires c.Valid()
    modifies c`counter, c.table, c.flags, c.flags.mem, c.epoch
    ensures c.Valid() && (c.Contents(), reply) == Next(c.Constants(), old(c.Contents()), op)
  {
    hide Good, LocsOk, Inserted, Looked;
    match op
    case Insert(e) =>
      ghost var lost := c.Insert(e);
      reply := Dropped(lost);
    case Lookup(e, erase) =>
      var found := c.Contains(e, erase);
      reply := Found(found);
  }

  lemma Extended<T(!new)>(w: Setup<T>, states: seq<Snap<T>>, ops: seq<Op<T>>, replies: seq<Reply<T>>, n: nat,
                          s: Snap<T>, t: Snap<T>, reply: Reply<T>)
    requires n < |ops| && IsRun(w, states, ops[..n], replies) && states[n] == s
    requires Fits(w.locs, s) && (t, reply) == Next(w, s, ops[n])
    ensures IsRun(w, states + [t], ops[..n + 1], replies + [reply])
  {
    hide Next, IsStart, LocsOk;
  }
}
