/**
 The file an address manager is kept in: versions, key, counts, entries and buckets, one
 item after the other.

 Numbers, entries and hashes are items; how an item is laid out in bytes is left open.
*/
module AddrManFile {
  import opened Prelude
  import opened AddrManState
  import opened AddrManInvariant
  import opened AddrManSave
  import opened AddrManRebucket
  import opened AddrManCheck
  import opened AddrMan
  import opened AddrManStore

  datatype Item = Int(n: int) | Record(e: Entry) | Key(k: nat) | Checksum(a: int)

  const FILE_FORMAT: int := 4
  const LOWEST_COMPATIBLE: int := 4
  const INCOMPATIBILITY_BASE: int := 32
  const V1_DETERMINISTIC: int := 1
  const V2_ASMAP: int := 2
  const BIT30: int := 0x4000_0000

  /** Bit 30 flipped. */
  function Flip(n: int): int { if n / BIT30 % 2 == 0 then n + BIT30 else n - BIT30 }

  lemma FlipTwice(n: int)
    ensures Flip(Flip(n)) == n
  {
    assert (n + BIT30) / BIT30 == n / BIT30 + 1 && (n - BIT30) / BIT30 == n / BIT30 - 1;
  }

  // ------------------------------------------------------------ what is written

  function Records(es: seq<Entry>): seq<Item> { seq(|es|, i requires 0 <= i < |es| => Record(es[i])) }

  function Ints(ns: seq<int>): seq<Item> { seq(|ns|, i requires 0 <= i < |ns| => Int(ns[i])) }

  function Bucket(list: seq<int>): seq<Item> { [Int(|list|)] + Ints(list) }

  function Buckets(bs: seq<seq<int>>): seq<Item> { if bs == [] then [] else Bucket(bs[0]) + Buckets(bs[1..]) }

  function Header(key: nat, saved: Saved): seq<Item> {
    [Int(FILE_FORMAT), Int(INCOMPATIBILITY_BASE + LOWEST_COMPATIBLE), Key(key),
     Int(|saved.newEntries|), Int(|saved.triedEntries|), Int(Flip(|saved.buckets|))]
  }

  function Written(key: nat, saved: Saved): seq<Item> {
    Header(key, saved) + Records(saved.newEntries) + Records(saved.triedEntries)
    + Buckets(saved.buckets) + [Checksum(saved.asmap)]
  }

  // ------------------------------------------------------------ what is read

  function TakeRecords(items: seq<Item>, n: int): (r: Option<(seq<Entry>, seq<Item>)>)
    decreases Max(n, 0)
  {
    if n <= 0 then Some(([], items))
    else if items == [] || !items[0].Record? then None
    else
      match TakeRecords(items[1..], n - 1)
      case None => None
      case Some((es, rest)) => Some(([items[0].e] + es, rest))
  }

  function TakeInts(items: seq<Item>, n: int): (r: Option<(seq<int>, seq<Item>)>)
    decreases Max(n, 0)
  {
    if n <= 0 then Some(([], items))
    else if items == [] || !items[0].Int? then None
    else
      match TakeInts(items[1..], n - 1)
      case None => None
      case Some((ns, rest)) => Some(([items[0].n] + ns, rest))
  }

  function TakeBuckets(items: seq<Item>, n: int): (r: Option<(seq<seq<int>>, seq<Item>)>)
    decreases Max(n, 0)
  {
    if n <= 0 then Some(([], items))
    else if items == [] || !items[0].Int? then None
    else
      match TakeInts(items[1..], items[0].n)
      case None => None
      case Some((list, more)) =>
        match TakeBuckets(more, n - 1)
        case None => None
        case Some((bs, rest)) => Some(([list] + bs, rest))
  }

  /** Whether the versions are readable: not from before there were any, and not from after this one. */
  predicate Compatible(compat: int) {
    compat >= INCOMPATIBILITY_BASE && compat - INCOMPATIBILITY_BASE <= FILE_FORMAT
  }

  predicate HeaderOk(items: seq<Item>) {
    && |items| >= 6
    && items[0].Int? && items[1].Int? && items[2].Key? && items[3].Int? && items[4].Int? && items[5].Int?
    && Compatible(items[1].n)
    && 0 <= items[3].n <= NEW_BUCKET_COUNT * BUCKET_SIZE
    && 0 <= items[4].n <= TRIED_BUCKET_COUNT * BUCKET_SIZE
  }

  /** The key, the contents and what follows them; older files have no checksum and an unflipped count. */
  function Parsed(items: seq<Item>): Option<(nat, Saved, seq<Item>)> {
    if !HeaderOk(items) then None
    else
      match TakeRecords(items[6..], items[3].n)
      case None => None
      case Some((newEntries, more)) =>
        match TakeRecords(more, items[4].n)
        case None => None
        case Some((triedEntries, more)) =>
          match TakeBuckets(more, if items[0].n >= V1_DETERMINISTIC then Flip(items[5].n) else items[5].n)
          case None => None
          case Some((buckets, more)) =>
            if items[0].n < V2_ASMAP then Some((items[2].k, Saved(newEntries, triedEntries, buckets, 0), more))
            else if more == [] || !more[0].Checksum? then None
            else Some((items[2].k, Saved(newEntries, triedEntries, buckets, more[0].a), more[1..]))
  }

  // ------------------------------------------------------------ reading what was written

  lemma {:induction false} RecordsBack(es: seq<Entry>, rest: seq<Item>)
    ensures TakeRecords(Records(es) + rest, |es|) == Some((es, rest))
  {
    var items := Records(es) + rest;
    if es == [] {
      assert items == rest;
    } else {
      assert items[1..] == Records(es[1..]) + rest;
      RecordsBack(es[1..], rest);
      assert [es[0]] + es[1..] == es;
    }
  }

  lemma {:induction false} IntsBack(ns: seq<int>, rest: seq<Item>)
    ensures TakeInts(Ints(ns) + rest, |ns|) == Some((ns, rest))
  {
    var items := Ints(ns) + rest;
    if ns == [] {
      assert items == rest;
    } else {
      assert items[1..] == Ints(ns[1..]) + rest;
      IntsBack(ns[1..], rest);
      assert [ns[0]] + ns[1..] == ns;
    }
  }

  lemma {:induction false} BucketsBack(bs: seq<seq<int>>, rest: seq<Item>)
    ensures TakeBuckets(Buckets(bs) + rest, |bs|) == Some((bs, rest))
  {
    hide TakeInts, Ints;
    var items := Buckets(bs) + rest;
    if bs == [] {
      assert items == rest;
    } else {
      var more := Buckets(bs[1..]) + rest;
      assert items[0] == Int(|bs[0]|);
      assert items[1..] == Ints(bs[0]) + more;
      IntsBack(bs[0], more);
      BucketsBack(bs[1..], rest);
      assert [bs[0]] + bs[1..] == bs;
    }
  }

  /** What was written is read back, with whatever follows it. */
  lemma ParsedWritten(key: nat, saved: Saved, rest: seq<Item>)
    ensures Parsed(Written(key, saved) + rest) == if TooLong(saved) then None else Some((key, saved, rest))
  {
    hide TakeRecords, TakeBuckets, Records, Buckets, Flip;
    var items := Written(key, saved) + rest;
    var third := [Checksum(saved.asmap)] + rest;
    var second := Buckets(saved.buckets) + third;
    var first := Records(saved.triedEntries) + second;
    assert items == Header(key, saved) + (Records(saved.newEntries) + first);
    assert items[..6] == Header(key, saved) && items[6..] == Records(saved.newEntries) + first;
    HeaderRead(items, key, saved);
    FlipTwice(|saved.buckets|);
    RecordsBack(saved.newEntries, first);
    RecordsBack(saved.triedEntries, second);
    BucketsBack(saved.buckets, third);
    assert third[1..] == rest;
  }

  lemma HeaderRead(items: seq<Item>, key: nat, saved: Saved)
    requires |items| >= 6 && items[..6] == Header(key, saved)
    ensures HeaderOk(items) <==> !TooLong(saved)
    ensures items[0] == Int(FILE_FORMAT) && items[2] == Key(key) && items[3] == Int(|saved.newEntries|)
    ensures items[4] == Int(|saved.triedEntries|) && items[5] == Int(Flip(|saved.buckets|))
  {
    hide Flip;
    var h := Header(key, saved);
    assert forall i :: 0 <= i < 6 ==> items[i] == h[i];
  }

  // ------------------------------------------------------------ the streams

  method Write(key: nat, saved: Saved) returns (out: seq<Item>)
    ensures out == Written(key, saved)
  {
    hide Header;
    out := Header(key, saved);
    for i := 0 to |saved.newEntries|
      invariant out == Header(key, saved) + Records(saved.newEntries)[..i]
    {
      out := out + [Record(saved.newEntries[i])];
    }
    for i := 0 to |saved.triedEntries|
      invariant out == Header(key, saved) + Records(saved.newEntries) + Records(saved.triedEntries)[..i]
    {
      out := out + [Record(saved.triedEntries[i])];
    }
    ghost var so := out;
    assert so == Header(key, saved) + Records(saved.newEntries) + Records(saved.triedEntries);
    assert saved.buckets[0..] == saved.buckets;
    for b := 0 to |saved.buckets|
      invariant out + Buckets(saved.buckets[b..]) == so + Buckets(saved.buckets)
    {
      assert saved.buckets[b..][1..] == saved.buckets[b + 1..];
      ghost var was := out;
      out := WriteOne(out, saved.buckets[b]);
      ghost var more := Buckets(saved.buckets[b + 1..]);
      assert out + more == was + (Bucket(saved.buckets[b]) + more);
    }
    assert out == so + Buckets(saved.buckets);
    out := out + [Checksum(saved.asmap)];
  }

  method WriteOne(before: seq<Item>, list: seq<int>) returns (out: seq<Item>)
    ensures out == before + Bucket(list)
  {
    out := before + [Int(|list|)];
    for n := 0 to |list|
      invariant out == before + [Int(|list|)] + Ints(list)[..n]
    {
      out := out + [Int(list[n])];
    }
  }

  /** What was taken before, and what is taken from the rest. */
  function Prepended<T>(s: seq<T>, o: Option<(seq<T>, seq<Item>)>): Option<(seq<T>, seq<Item>)> {
    if o.None? then None else Some((s + o.value.0, o.value.1))
  }

  lemma PrependNone<T>(o: Option<(seq<T>, seq<Item>)>)
    ensures Prepended([], o) == o
  {
    if o.Some? { assert [] + o.value.0 == o.value.0; }
  }

  lemma PrependOne<T>(s: seq<T>, x: T, o: Option<(seq<T>, seq<Item>)>)
    ensures Prepended(s, Prepended([x], o)) == Prepended(s + [x], o)
  {
    if o.Some? { assert s + ([x] + o.value.0) == s + [x] + o.value.0; }
  }

  /** A stream to read from. */
  class Reader {
    var items: seq<Item>

    constructor (items: seq<Item>)
      ensures this.items == items
    {
      this.items := items;
    }

    method NextInt() returns (r: Option<int>)
      modifies this
      ensures r.Some? <==> old(items) != [] && old(items)[0].Int?
      ensures if r.Some? then r.value == old(items)[0].n && items == old(items)[1..] else items == old(items)
    {
      if items == [] || !items[0].Int? { return None; }
      r := Some(items[0].n);
      items := items[1..];
    }

    method NextRecords(n: int) returns (r: Option<seq<Entry>>)
      modifies this
      ensures r.Some? <==> TakeRecords(old(items), n).Some?
      ensures r.Some? ==> TakeRecords(old(items), n).value == (r.value, items)
    {
      var es, k: int := [], 0;
      PrependNone(TakeRecords(items, n));
      while k < n
        invariant 0 <= k && (n >= 0 ==> k <= n)
        invariant TakeRecords(old(items), n) == Prepended(es, TakeRecords(items, n - k))
      {
        if items == [] || !items[0].Record? { return None; }
        PrependOne(es, items[0].e, TakeRecords(items[1..], n - k - 1));
        es := es + [items[0].e];
        items := items[1..];
        k := k + 1;
      }
      assert es + [] == es;
      r := Some(es);
    }

    method NextInts(n: int) returns (r: Option<seq<int>>)
      modifies this
      ensures r.Some? <==> TakeInts(old(items), n).Some?
      ensures r.Some? ==> TakeInts(old(items), n).value == (r.value, items)
    {
      var ns, k: int := [], 0;
      PrependNone(TakeInts(items, n));
      while k < n
        invariant 0 <= k && (n >= 0 ==> k <= n)
        invariant TakeInts(old(items), n) == Prepended(ns, TakeInts(items, n - k))
      {
        var one := NextInt();
        if one.None? { return None; }
        PrependOne(ns, one.value, TakeInts(items, n - k - 1));
        ns := ns + [one.value];
        k := k + 1;
      }
      assert ns + [] == ns;
      r := Some(ns);
    }

    method NextBuckets(n: int) returns (r: Option<seq<seq<int>>>)
      modifies this
      ensures r.Some? <==> TakeBuckets(old(items), n).Some?
      ensures r.Some? ==> TakeBuckets(old(items), n).value == (r.value, items)
    {
      hide TakeInts;
      var bs, k: int := [], 0;
      PrependNone(TakeBuckets(items, n));
      while k < n
        invariant 0 <= k && (n >= 0 ==> k <= n)
        invariant TakeBuckets(old(items), n) == Prepended(bs, TakeBuckets(items, n - k))
      {
        var size := NextInt();
        if size.None? { return None; }
        var list := NextInts(size.value);
        if list.None? { return None; }
        PrependOne(bs, list.value, TakeBuckets(items, n - k - 1));
        bs := bs + [list.value];
        k := k + 1;
      }
      assert bs + [] == bs;
      r := Some(bs);
    }

    /** Read a whole file, or fail. */
    method Read() returns (r: Option<(nat, Saved)>)
      modifies this
      ensures match Parsed(old(items))
              case None => r.None?
              case Some((key, saved, rest)) => r == Some((key, saved)) && items == rest
    {
      hide TakeRecords, TakeBuckets, Flip;
      if |items| < 2 || !items[0].Int? || !items[1].Int? { return None; }
      var format, compat := items[0].n, items[1].n;
      if compat < INCOMPATIBILITY_BASE { return None; }
      if compat - INCOMPATIBILITY_BASE > FILE_FORMAT { return None; }
      if |items| < 6 || !items[2].Key? || !items[3].Int? || !items[4].Int? || !items[5].Int? { return None; }
      var key, nNew, nTried, nUBuckets := items[2].k, items[3].n, items[4].n, items[5].n;
      items := items[6..];
      if format >= V1_DETERMINISTIC { nUBuckets := Flip(nUBuckets); }
      if nNew > NEW_BUCKET_COUNT * BUCKET_SIZE || nNew < 0 { return None; }
      if nTried > TRIED_BUCKET_COUNT * BUCKET_SIZE || nTried < 0 { return None; }
      var newEntries := NextRecords(nNew);
      if newEntries.None? { return None; }
      var triedEntries := NextRecords(nTried);
      if triedEntries.None? { return None; }
      var buckets := NextBuckets(nUBuckets);
      if buckets.None? { return None; }
      var asmap := 0;
      if format >= V2_ASMAP {
        if items == [] || !items[0].Checksum? { return None; }
        asmap := items[0].a;
        items := items[1..];
      }
      r := Some((key, Saved(newEntries.value, triedEntries.value, buckets.value, asmap)));
    }
  }

  // ------------------------------------------------------------ a manager in a file

  /** Write a manager to a file. */
  method Save(m: AddrManager, order: seq<int>, asmap: int) returns (file: seq<Item>)
    requires m.Valid() && Consistent(m.env, m.Abs()) && Order(m.Abs(), order)
    ensures (forall k :: 0 <= k < |order| ==> order[k] in m.info)
    ensures var p, q := Pick(m.Abs(), order, |order|, false), Pick(m.Abs(), order, |order|, true);
            Ids(m.Abs(), p, q) && file == Written(m.key, SavedOf(m.Abs(), p, q, asmap))
  {
    hide Written, SavedOf, Ids, Pick, Consistent, AddrMan.Shows;
    var saved := Serialize(m, order, asmap);
    file := Write(m.key, saved);
  }

  /**
   Read a manager from a file. The key in the file decides where addresses belong. A file
   that is complete is refused exactly if its key is null or what is loaded fails its check;
   sound entries with right times are read without fail.
  */
  method Open(file: seq<Item>, envs: nat -> Env, asmap: int) returns (r: Option<AddrManager>)
    ensures r.Some? ==>
              && Parsed(file).Some?
              && var (key, saved, _) := Parsed(file).value;
                 var m := r.value;
                 && fresh(m) && m.Valid() && m.key == key != 0 && m.env == envs(key)
                 && Checks(m.env, m.Abs()) && Drawn(saved, m.info)
                 && Pruned(m.env, Load(m.env, saved, asmap), {}, m.Abs())
                 && (Consistent(m.env, Load(m.env, saved, asmap)) ==> m.Abs() == Load(m.env, saved, asmap))
    ensures Parsed(file).Some? ==>
              var (key, saved, _) := Parsed(file).value;
              && !TooLong(saved)
              && (r.Some? <==> key != 0 && LoadPasses(envs(key), saved, asmap))
              && (SoundFile(envs(key), saved) && SuccessesOk(saved) && key != 0 ==> r.Some?)
  {
    hide Load, Drawn, Pruned, Checks, Consistent, Sound, Kept, AddrMan.Shows, Parsed, SuccessesOk;
    r := None;
    var reader := new Reader(file);
    var parsed := reader.Read();
    if parsed.None? { return; }
    var (key, saved) := parsed.value;
    ParsedFits(file);
    var m := new AddrManager(envs(key), key);
    var ok := Unserialize(m, saved, asmap);
    if SoundFile(envs(key), saved) && SuccessesOk(saved) {
      DrawnStamped(saved, m.info);
      ConsistentChecks(m.env, m.Abs());
    }
    PassesIff(m, saved, asmap);
    if ok { r := Some(m); }
  }

  /** What is loaded, without the entries that got no slot, passes its check. */
  ghost predicate LoadPasses(env: Env, saved: Saved, asmap: int) {
    forall s :: Pruned(env, Load(env, saved, asmap), {}, s) ==> Checks(env, s)
  }

  /** Since all outcomes of pruning are alike, one of them decides. */
  lemma PassesIff(m: AddrManager, saved: Saved, asmap: int)
    requires Pruned(m.env, Load(m.env, saved, asmap), {}, m.Abs())
    ensures LoadPasses(m.env, saved, asmap) <==> Checks(m.env, m.Abs())
  {
    hide Load, Pruned, Checks;
    if Checks(m.env, m.Abs()) {
      forall s | Pruned(m.env, Load(m.env, saved, asmap), {}, s) ensures Checks(m.env, s) {
        PrunedChecks(m.env, Load(m.env, saved, asmap), m.Abs(), s);
      }
    }
  }

  lemma {:induction false} TakenLength(items: seq<Item>, n: int)
    requires n >= 0 && TakeRecords(items, n).Some?
    ensures |TakeRecords(items, n).value.0| == n
    decreases n
  {
    if n > 0 { TakenLength(items[1..], n - 1); }
  }

  lemma ParsedFits(file: seq<Item>)
    requires Parsed(file).Some?
    ensures !TooLong(Parsed(file).value.1)
  {
    hide TakeRecords, TakeBuckets, Flip;
    TakenLength(file[6..], file[3].n);
    var (newEntries, more) := TakeRecords(file[6..], file[3].n).value;
    TakenLength(more, file[4].n);
  }

  /**
   Kept in a file, a consistent manager comes back the same under other ids, exactly if
   its times and its key are right.
  */
  method Keep(m: AddrManager, order: seq<int>, envs: nat -> Env, asmap: int)
      returns (file: seq<Item>, r: Option<AddrManager>, ghost ids: seq<int>)
    requires m.Valid() && Consistent(m.env, m.Abs()) && Order(m.Abs(), order) && m.env == envs(m.key)
    ensures forall k :: 0 <= k < |order| ==> order[k] in m.info
    ensures var p, q := Pick(m.Abs(), order, |order|, false), Pick(m.Abs(), order, |order|, true);
            Ids(m.Abs(), p, q) && file == Written(m.key, SavedOf(m.Abs(), p, q, asmap))
    ensures r.Some? <==> m.key != 0 && SavedStamped(m.info)
    ensures r.Some? ==>
              && r.value.Valid() && r.value.key == m.key && r.value.env == m.env
              && Consistent(m.env, r.value.Abs()) && Renamed(m.Abs(), r.value.Abs(), ids)
  {
    hide Written, SavedOf, Ids, Pick, Consistent, Load, Drawn, Pruned, Checks, Renamed, SavedStamped, Stamped,
      Parsed, Sound, SuccessesOk, Order, AddrMan.Shows;
    ghost var s := m.Abs();
    file := Save(m, order, asmap);
    ghost var p, q := Pick(s, order, |order|, false), Pick(s, order, |order|, true);
    ghost var saved := SavedOf(s, p, q, asmap);
    ids := p + q;
    SavedFits(m.env, s, p, q, asmap);
    ParsedWritten(m.key, saved, []);
    assert Written(m.key, saved) + [] == Written(m.key, saved);
    RoundTrip(m.env, s, p, q, asmap);
    r := Open(file, envs, asmap);
    if r.Some? {
      ConsistentChecks(m.env, r.value.Abs());
      RenamedStamps(saved, s, r.value.Abs(), ids);
    } else if SavedStamped(s.info) {
      SavedSound(m.env, m.env, s, p, q);
      SavedParts(s, p, q, asmap);
      SavedSuccesses(s, p, q, asmap);
    }
  }
}
