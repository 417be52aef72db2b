/**
 The cuckoo table as values: which element sits where, which slots are
 discardable, and which belong to the current epoch.
*/
module CuckooTable {
  import opened Prelude

  const WAYS: nat := 8

  /** Every element has eight slots of the table. */
  ghost predicate LocsOk<T(!new)>(locs: T -> seq<nat>, size: nat) {
    forall e :: |locs(e)| == WAYS && forall k :: 0 <= k < WAYS ==> locs(e)[k] < size
  }

  /** Slot `k` of `e` is the first of its slots that holds it. */
  ghost predicate FirstAt<T(!new)>(cells: seq<T>, locs: T -> seq<nat>, e: T, k: nat)
    requires LocsOk(locs, |cells|)
  {
    k < WAYS && cells[locs(e)[k]] == e && forall j :: 0 <= j < k ==> cells[locs(e)[j]] != e
  }

  /** The element at `p` would be found there. */
  ghost predicate Placed<T(!new)>(cells: seq<T>, locs: T -> seq<nat>, p: nat)
    requires LocsOk(locs, |cells|) && p < |cells|
  {
    exists k: nat :: FirstAt(cells, locs, cells[p], k) && locs(cells[p])[k] == p
  }

  /** Every live element is at the first of its own slots that holds it. */
  ghost predicate Inv<T(!new)>(cells: seq<T>, dead: seq<bool>, locs: T -> seq<nat>) {
    && |dead| == |cells| && LocsOk(locs, |cells|)
    && forall p :: 0 <= p < |cells| && !dead[p] ==> Placed(cells, locs, p)
  }

  ghost predicate IsLive<T>(cells: seq<T>, dead: seq<bool>, e: T)
    requires |dead| == |cells|
  {
    exists p :: 0 <= p < |cells| && !dead[p] && cells[p] == e
  }

  /** No element is live twice. */
  lemma Unique<T(!new)>(cells: seq<T>, dead: seq<bool>, locs: T -> seq<nat>, p: nat, q: nat)
    requires Inv(cells, dead, locs) && p < |cells| && q < |cells| && !dead[p] && !dead[q] && cells[p] == cells[q]
    ensures p == q
  {
    var k: nat :| FirstAt(cells, locs, cells[p], k) && locs(cells[p])[k] == p;
    var j: nat :| FirstAt(cells, locs, cells[q], j) && locs(cells[q])[j] == q;
    assert k == j;
  }

  /** Lookups find every live element, and find it where it is live. */
  lemma LiveFound<T(!new)>(cells: seq<T>, dead: seq<bool>, locs: T -> seq<nat>, e: T)
    requires Inv(cells, dead, locs) && IsLive(cells, dead, e)
    ensures exists k: nat :: FirstAt(cells, locs, e, k) && !dead[locs(e)[k]]
  {
    var p :| 0 <= p < |cells| && !dead[p] && cells[p] == e;
    assert Placed(cells, locs, p);
  }

  /** Writing an element that is live nowhere else disturbs no other live element. */
  lemma WriteKeeps<T(!new)>(cells: seq<T>, dead: seq<bool>, locs: T -> seq<nat>, p: nat, e: T, q: nat)
    requires Inv(cells, dead, locs) && p < |cells| && q < |cells| && q != p && !dead[q] && cells[q] != e
    ensures Placed(cells[p := e], locs, q)
  {
    var k: nat :| FirstAt(cells, locs, cells[q], k) && locs(cells[q])[k] == q;
    assert FirstAt(cells[p := e], locs, cells[q], k);
  }

  /** Writing `e` to its `k`-th slot, when no earlier slot of it holds it, places it. */
  lemma WritePlaces<T(!new)>(cells: seq<T>, locs: T -> seq<nat>, e: T, k: nat)
    requires LocsOk(locs, |cells|) && k < WAYS
    requires forall j :: 0 <= j < k ==> cells[locs(e)[j]] != e && locs(e)[j] != locs(e)[k]
    ensures Placed(cells[locs(e)[k] := e], locs, locs(e)[k])
  {
    assert FirstAt(cells[locs(e)[k] := e], locs, e, k);
  }

  /** The first slot of `e` equal to its `k`-th one. */
  ghost function FirstIndex(ls: seq<nat>, k: nat): (i: nat)
    requires k < |ls|
    ensures i <= k && ls[i] == ls[k] && forall j :: 0 <= j < i ==> ls[j] != ls[k]
    decreases k
  {
    if exists j :: 0 <= j < k && ls[j] == ls[k] then
      var j :| 0 <= j < k && ls[j] == ls[k]; FirstIndex(ls, j)
    else k
  }

  /** `e` goes to its first discardable slot. */
  lemma FillOk<T(!new)>(cells: seq<T>, dead: seq<bool>, locs: T -> seq<nat>, e: T, k: nat)
    requires Inv(cells, dead, locs) && !IsLive(cells, dead, e)
    requires k < WAYS && dead[locs(e)[k]] && forall j :: 0 <= j < k ==> !dead[locs(e)[j]]
    ensures Inv(cells[locs(e)[k] := e], dead[locs(e)[k] := false], locs)
    ensures forall x :: IsLive(cells[locs(e)[k] := e], dead[locs(e)[k] := false], x) <==>
              IsLive(cells, dead, x) || x == e
  {
    var p := locs(e)[k];
    var c, d := cells[p := e], dead[p := false];
    WritePlaces(cells, locs, e, k);
    forall q | 0 <= q < |c| && !d[q] ensures Placed(c, locs, q) {
      if q != p { WriteKeeps(cells, dead, locs, p, e, q); }
    }
    forall x ensures IsLive(c, d, x) <==> IsLive(cells, dead, x) || x == e {
      if x == e { assert c[p] == e && !d[p]; }
      if IsLive(cells, dead, x) {
        var q :| 0 <= q < |cells| && !dead[q] && cells[q] == x;
        assert c[q] == x && !d[q];
      }
    }
  }

  /** `e` takes a live slot of its own and pushes the occupant out. */
  lemma PushOutOk<T(!new)>(cells: seq<T>, dead: seq<bool>, locs: T -> seq<nat>, e: T, k: nat)
    requires Inv(cells, dead, locs) && !IsLive(cells, dead, e)
    requires k < WAYS && forall j :: 0 <= j < WAYS ==> !dead[locs(e)[j]]
    ensures Inv(cells[locs(e)[k] := e], dead, locs)
    ensures !IsLive(cells[locs(e)[k] := e], dead, cells[locs(e)[k]])
    ensures forall x :: IsLive(cells[locs(e)[k] := e], dead, x) || x == cells[locs(e)[k]] <==>
              IsLive(cells, dead, x) || x == e
  {
    var i := FirstIndex(locs(e), k);
    var p := locs(e)[i];
    var c, y := cells[p := e], cells[p];
    WritePlaces(cells, locs, e, i);
    forall q | 0 <= q < |c| && !dead[q] ensures Placed(c, locs, q) {
      if q != p { WriteKeeps(cells, dead, locs, p, e, q); }
    }
    forall q | 0 <= q < |c| && !dead[q] ensures c[q] != y {
      if q != p && c[q] == y { Unique(cells, dead, locs, p, q); }
    }
    forall x ensures IsLive(c, dead, x) || x == y <==> IsLive(cells, dead, x) || x == e {
      if x == e { assert c[p] == e; }
      if IsLive(cells, dead, x) && x != y {
        var q :| 0 <= q < |cells| && !dead[q] && cells[q] == x;
        assert c[q] == x;
      }
    }
  }

  /** A slot that holds `e` first among its slots comes back to life. */
  lemma ReviveOk<T(!new)>(cells: seq<T>, dead: seq<bool>, locs: T -> seq<nat>, e: T, k: nat)
    requires Inv(cells, dead, locs) && FirstAt(cells, locs, e, k)
    ensures Inv(cells, dead[locs(e)[k] := false], locs)
    ensures forall x :: IsLive(cells, dead[locs(e)[k] := false], x) <==> IsLive(cells, dead, x) || x == e
  {
    var p := locs(e)[k];
    var d := dead[p := false];
    assert Placed(cells, locs, p);
    forall x ensures IsLive(cells, d, x) <==> IsLive(cells, dead, x) || x == e {
      if x == e { assert !d[p] && cells[p] == e; }
      if IsLive(cells, dead, x) {
        var q :| 0 <= q < |cells| && !dead[q] && cells[q] == x;
        assert !d[q];
      }
    }
  }

  /** Marking slots discardable keeps the rest in place. */
  lemma DiscardOk<T(!new)>(cells: seq<T>, dead: seq<bool>, locs: T -> seq<nat>, dead': seq<bool>)
    requires Inv(cells, dead, locs)
    requires |dead'| == |dead| && forall p :: 0 <= p < |dead| && dead[p] ==> dead'[p]
    ensures Inv(cells, dead', locs)
    ensures forall x :: IsLive(cells, dead', x) ==> IsLive(cells, dead, x)
  {
  }

  // ------------------------------------------------------------ epochs

  /** The un-erased slots of the current epoch. */
  function Current(dead: seq<bool>, epoch: seq<bool>): set<nat>
    requires |dead| == |epoch|
  {
    set p: nat | p < |dead| && epoch[p] && !dead[p]
  }

  function Count(dead: seq<bool>, epoch: seq<bool>): nat
    requires |dead| == |epoch|
  {
    |Current(dead, epoch)|
  }

  lemma CountSet(dead: seq<bool>, epoch: seq<bool>, p: nat, b: bool, d: bool)
    requires |dead| == |epoch| && p < |dead|
    ensures Count(dead[p := d], epoch[p := b]) + One(epoch[p] && !dead[p]) == Count(dead, epoch) + One(b && !d)
  {
    var A, B := Current(dead[p := d], epoch[p := b]), Current(dead, epoch);
    assert forall q :: q in A - {p} <==> q in B - {p};
    assert A - {p} == B - {p};
    assert p in A <==> b && !d;
    assert p in B <==> epoch[p] && !dead[p];
    assert |A| == |A - {p}| + One(p in A);
    assert |B| == |B - {p}| + One(p in B);
  }

  lemma CountMore(dead: seq<bool>, epoch: seq<bool>, dead': seq<bool>)
    requires |dead| == |epoch| == |dead'|
    requires forall p :: 0 <= p < |dead| && dead[p] ==> dead'[p]
    ensures Count(dead', epoch) <= Count(dead, epoch)
  {
    var A, B := Current(dead', epoch), Current(dead, epoch);
    assert forall q :: q in A ==> q in B;
    assert B == A + (B - A);
    assert |B| == |A| + |B - A|;
  }

  lemma CountNone(dead: seq<bool>, epoch: seq<bool>)
    requires |dead| == |epoch| && forall p :: 0 <= p < |epoch| ==> dead[p] || !epoch[p]
    ensures Count(dead, epoch) == 0
  {
    var A: set<nat>, B: set<nat> := Current(dead, epoch), {};
    assert forall q :: q in A <==> q in B;
    assert A == B;
  }
}
