/**
 The block index tree with its skip list, and the active chain kept over it.

 `At(b, h)` is the block reached from `b` by following `pprev` down to height
 `h`. The skip-list search and everything built on it are proved against it.
*/
module Chain {
  import opened Prelude

  // ------------------------------------------------------------ skip heights

  /** Bitwise "and". */
  function And(x: nat, y: nat): (r: nat)
    ensures r <= x && r <= y
  {
    if x == 0 || y == 0 then 0
    else 2 * And(x / 2, y / 2) + (if x % 2 == 1 && y % 2 == 1 then 1 else 0)
  }

  /** Turn the lowest one bit into a zero. */
  function InvertLowestOne(n: nat): (r: nat)
    ensures n > 0 ==> r < n
  {
    if n == 0 then 0 else And(n, n - 1)
  }

  /** The height to jump back to from `height`. */
  function SkipHeight(height: nat): (r: nat)
    ensures height > 0 ==> r < height
  {
    if height < 2 then 0
    else if height % 2 == 1 then InvertLowestOne(InvertLowestOne(height - 1)) + 1
    else InvertLowestOne(height)
  }

  // ------------------------------------------------------------ the tree

  class BlockIndex {
    const pprev: BlockIndex?
    const nHeight: nat
    var pskip: BlockIndex?

    /** A block on top of another, or a genesis block. */
    constructor (pprev: BlockIndex?)
      requires pprev != null ==> Linked(pprev)
      ensures this.pprev == pprev && pskip == null && Linked(this)
    {
      this.pprev := pprev;
      nHeight := if pprev == null then 0 else pprev.nHeight + 1;
      pskip := null;
    }

    /**
     The ancestor at a height: the same block as following `pprev` step by step,
     found with the help of the skip pointers. No block has one above itself or
     below zero.
    */
    method GetAncestor(height: int, ghost tree: set<BlockIndex>) returns (r: BlockIndex?)
      requires TreeOk(tree) && this in tree
      ensures height < 0 || height > nHeight ==> r == null
      ensures 0 <= height <= nHeight ==> r == At(this, height) && r in tree
    {
      if height > nHeight || height < 0 { return null; }
      var walk, heightWalk := this, nHeight;
      while heightWalk > height
        invariant height <= heightWalk <= nHeight && walk == At(this, heightWalk) && walk in tree
        decreases heightWalk
      {
        AtIn(tree, walk, SkipHeight(heightWalk));
        var heightSkip := SkipHeight(heightWalk);
        var heightSkipPrev := SkipHeight(heightWalk - 1);
        var better := heightSkipPrev < heightSkip - 2 && heightSkipPrev >= height;
        if walk.pskip != null && (heightSkip == height || (heightSkip > height && !better)) {
          AtTwice(this, heightWalk, heightSkip);
          walk, heightWalk := walk.pskip, heightSkip;
        } else {
          AtTwice(this, heightWalk, heightWalk - 1);
          walk, heightWalk := walk.pprev, heightWalk - 1;
        }
      }
      r := walk;
    }

    /** Set the skip pointer. */
    method BuildSkip(ghost tree: set<BlockIndex>)
      requires TreeOk(tree) && this in tree
      modifies this`pskip
      ensures TreeOk(tree)
      ensures pprev != null ==> pskip == At(this, SkipHeight(nHeight))
      ensures pprev == null ==> pskip == old(pskip)
    {
      if pprev != null {
        pskip := pprev.GetAncestor(SkipHeight(nHeight), tree);
        AtPrev(this, SkipHeight(nHeight));
      }
    }
  }

  /** Heights count the blocks below. */
  ghost predicate Linked(b: BlockIndex)
    decreases b.nHeight
  {
    if b.pprev == null then b.nHeight == 0
    else b.nHeight == b.pprev.nHeight + 1 && Linked(b.pprev)
  }

  /** Following `pprev` down to height `h`. */
  ghost function At(b: BlockIndex, h: nat): (r: BlockIndex)
    requires Linked(b) && h <= b.nHeight
    ensures Linked(r) && r.nHeight == h
    decreases b.nHeight
  {
    if h == b.nHeight then b else At(b.pprev, h)
  }

  ghost predicate SkipOk(a: BlockIndex)
    reads a
  {
    a.pskip != null ==> Linked(a) && a.pskip == At(a, SkipHeight(a.nHeight))
  }

  /** A block's predecessor is in the tree. */
  ghost predicate Closed(tree: set<BlockIndex>) {
    forall a :: a in tree ==> Linked(a) && (a.pprev != null ==> a.pprev in tree)
  }

  /** A set of blocks with their predecessors whose skip pointers, where set, are right. */
  ghost predicate TreeOk(tree: set<BlockIndex>)
    reads tree
  {
    Closed(tree) && forall a :: a in tree ==> SkipOk(a)
  }

  lemma {:induction false} AtIn(tree: set<BlockIndex>, b: BlockIndex, h: nat)
    requires Closed(tree) && b in tree && h <= b.nHeight
    ensures At(b, h) in tree
    decreases b.nHeight
  {
    if h < b.nHeight { AtIn(tree, b.pprev, h); }
  }

  /** The ancestor of an ancestor. */
  lemma {:induction false} AtTwice(b: BlockIndex, h: nat, k: nat)
    requires Linked(b) && k <= h <= b.nHeight
    ensures At(At(b, h), k) == At(b, k)
    ensures k == h - 1 ==> At(b, h).pprev == At(b, k)
    decreases b.nHeight
  {
    if h < b.nHeight { AtTwice(b.pprev, h, k); }
  }

  lemma AtPrev(b: BlockIndex, h: nat)
    requires Linked(b) && b.pprev != null && h < b.nHeight
    ensures At(b, h) == At(b.pprev, h)
  {
  }

  /** A tree grows by a block over one of its own, skip pointer included. */
  method Grow(pprev: BlockIndex?, ghost tree: set<BlockIndex>) returns (b: BlockIndex)
    requires TreeOk(tree) && (pprev != null ==> pprev in tree)
    ensures fresh(b) && b.pprev == pprev && TreeOk(tree + {b})
    ensures pprev != null ==> b.pskip == At(b, SkipHeight(b.nHeight))
  {
    b := new BlockIndex(pprev);
    b.BuildSkip(tree + {b});
  }

  /** `a` is `b` or below it. */
  ghost predicate IsAncestor(a: BlockIndex, b: BlockIndex) {
    Linked(b) && a.nHeight <= b.nHeight && At(b, a.nHeight) == a
  }

  // ------------------------------------------------------------ the active chain

  /** The list is the line of blocks up to its last. */
  ghost predicate IsChain(v: seq<BlockIndex?>) {
    forall i :: 0 <= i < |v| ==> v[i] != null && Linked(v[i]) && v[i].nHeight == i && (i > 0 ==> v[i].pprev == v[i - 1])
  }

  /** The list holds exactly the ancestors of `b`, each at its height. */
  ghost predicate IsLineOf(v: seq<BlockIndex?>, b: BlockIndex)
    requires Linked(b)
  {
    |v| == b.nHeight + 1 && forall i :: 0 <= i < |v| ==> v[i] == At(b, i)
  }

  lemma {:induction false} ChainAt(v: seq<BlockIndex?>, h: nat, i: nat)
    requires IsChain(v) && i <= h < |v|
    ensures v[i] == At(v[h], i)
    decreases h
  {
    if i < h { ChainAt(v, h - 1, i); }
  }

  lemma LineIsChain(v: seq<BlockIndex?>, b: BlockIndex)
    requires Linked(b) && IsLineOf(v, b)
    ensures IsChain(v)
  {
    forall i | 0 < i < |v| ensures v[i].pprev == v[i - 1] {
      AtTwice(b, i, i - 1);
    }
  }

  class ActiveChain {
    var vChain: seq<BlockIndex?>

    constructor ()
      ensures vChain == []
    {
      vChain := [];
    }

    function Height(): int
      reads this
    {
      |vChain| - 1
    }

    /** Out of range, the answer is none. */
    function Get(height: int): (r: BlockIndex?)
      reads this
    {
      if height < 0 || height >= |vChain| then null else vChain[height]
    }

    predicate Contains(b: BlockIndex)
      reads this
    {
      Get(b.nHeight) == b
    }

    /** Being in the chain is being an ancestor of its tip. */
    lemma ContainsIsAncestor(b: BlockIndex)
      requires IsChain(vChain) && Linked(b)
      ensures Contains(b) <==> |vChain| > 0 && IsAncestor(b, vChain[|vChain| - 1])
    {
      if b.nHeight < |vChain| { ChainAt(vChain, |vChain| - 1, b.nHeight); }
    }

    /**
     Make `block` the tip. However much of the old chain is kept, the result is
     the full line of the new tip.
    */
    method SetTip(block: BlockIndex)
      requires IsChain(vChain) && Linked(block)
      modifies this
      ensures IsLineOf(vChain, block) && IsChain(vChain)
    {
      var n := block.nHeight + 1;
      ghost var was := vChain;
      vChain := Resized(vChain, n);
      var pindex: BlockIndex? := block;
      ghost var h := n;
      while pindex != null && vChain[pindex.nHeight] != pindex
        invariant |vChain| == n && 0 <= h <= n
        invariant if h == 0 then pindex == null else pindex == At(block, h - 1)
        invariant forall i :: h <= i < n ==> vChain[i] == At(block, i)
        invariant forall i :: 0 <= i < h ==> vChain[i] == if i < |was| then was[i] else null
        decreases h
      {
        vChain := vChain[pindex.nHeight := pindex];
        if h > 1 { AtTwice(block, h - 1, h - 2); }
        pindex := pindex.pprev;
        h := h - 1;
      }
      forall i | 0 <= i < h ensures vChain[i] == At(block, i) {
        ChainAt(was, h - 1, i);
        AtTwice(block, h - 1, i);
      }
      LineIsChain(vChain, block);
    }

    /** Every block of the chain that is `b` or below it lies below height `h`. */
    ghost predicate Under(b: BlockIndex, tree: set<BlockIndex>, h: nat)
      reads this
    {
      forall a :: a in tree && Contains(a) && IsAncestor(a, b) ==> a.nHeight < h
    }

    lemma UnderStart(b: BlockIndex, tree: set<BlockIndex>)
      requires IsChain(vChain) && Linked(b)
      ensures b.nHeight <= Height() ==> Under(b, tree, b.nHeight + 1)
      ensures Under(b, tree, |vChain|)
    {
    }

    lemma UnderStep(b: BlockIndex, tree: set<BlockIndex>, h: nat)
      requires Linked(b) && h <= b.nHeight && Under(b, tree, h + 1) && !Contains(At(b, h))
      ensures Under(b, tree, h)
    {
    }

    /** The highest block of the chain that is `b` or below it, if there is one. */
    method FindFork(b: BlockIndex?, ghost tree: set<BlockIndex>) returns (r: BlockIndex?)
      requires IsChain(vChain) && TreeOk(tree) && (b != null ==> b in tree)
      ensures b == null ==> r == null
      ensures r != null ==> b != null && Contains(r) && IsAncestor(r, b)
      ensures b != null ==> forall a :: a in tree && Contains(a) && IsAncestor(a, b) ==>
                r != null && a.nHeight <= r.nHeight
    {
      if b == null { return null; }
      var p: BlockIndex? := b;
      if b.nHeight > Height() {
        p := b.GetAncestor(Height(), tree);
      }
      UnderStart(b, tree);
      r := Descend(b, p, tree);
    }

    method Descend(b: BlockIndex, start: BlockIndex?, ghost tree: set<BlockIndex>) returns (r: BlockIndex?)
      requires Linked(b) && (start != null ==> start.nHeight <= b.nHeight && start == At(b, start.nHeight))
      requires Under(b, tree, if start == null then 0 else start.nHeight + 1)
      ensures r != null ==> Contains(r) && IsAncestor(r, b)
      ensures Under(b, tree, if r == null then 0 else r.nHeight + 1)
    {
      hide Under;
      r := start;
      ghost var h: nat := if r == null then 0 else r.nHeight + 1;
      while r != null && !Contains(r)
        invariant h <= b.nHeight + 1 && if h == 0 then r == null else r == At(b, h - 1)
        invariant Under(b, tree, h)
        decreases h
      {
        if h > 1 { AtTwice(b, h - 1, h - 2); }
        UnderStep(b, tree, h - 1);
        r := r.pprev;
        h := h - 1;
      }
    }
  }

  function Resized(v: seq<BlockIndex?>, n: nat): (r: seq<BlockIndex?>)
    ensures |r| == n && forall i :: 0 <= i < n ==> r[i] == if i < |v| then v[i] else null
  {
    if n <= |v| then v[..n] else v + seq(n - |v|, i => null)
  }

  /**
   The highest block that is an ancestor of both, for two blocks over the same
   genesis block.
  */
  method LastCommonAncestor(a: BlockIndex, b: BlockIndex, ghost tree: set<BlockIndex>) returns (r: BlockIndex)
    requires TreeOk(tree) && a in tree && b in tree && At(a, 0) == At(b, 0)
    ensures IsAncestor(r, a) && IsAncestor(r, b) && ApartAbove(a, b, r.nHeight)
  {
    var pa: BlockIndex?, pb: BlockIndex? := a, b;
    if a.nHeight > b.nHeight {
      pa := a.GetAncestor(b.nHeight, tree);
    } else if b.nHeight > a.nHeight {
      pb := b.GetAncestor(a.nHeight, tree);
    }
    r := Meet(pa, pb, a, b, pa.nHeight);
  }

  /** No block above height `h` is an ancestor of both. */
  ghost predicate ApartAbove(a: BlockIndex, b: BlockIndex, h: nat)
    requires Linked(a) && Linked(b)
  {
    forall k :: h < k <= a.nHeight && k <= b.nHeight ==> At(a, k) != At(b, k)
  }

  method Meet(pa0: BlockIndex, pb0: BlockIndex, ghost a: BlockIndex, ghost b: BlockIndex, ghost h0: nat)
      returns (r: BlockIndex)
    requires Linked(a) && Linked(b) && At(a, 0) == At(b, 0)
    requires h0 <= a.nHeight && h0 <= b.nHeight && pa0 == At(a, h0) && pb0 == At(b, h0) && ApartAbove(a, b, h0)
    ensures IsAncestor(r, a) && IsAncestor(r, b) && ApartAbove(a, b, r.nHeight)
  {
    var pa: BlockIndex?, pb: BlockIndex? := pa0, pb0;
    ghost var h: nat := h0;
    while pa != pb && pa != null && pb != null
      invariant h <= a.nHeight && h <= b.nHeight && pa == At(a, h) && pb == At(b, h)
      invariant ApartAbove(a, b, h)
      decreases h
    {
      assert h > 0;
      AtTwice(a, h, h - 1);
      AtTwice(b, h, h - 1);
      pa := pa.pprev;
      pb := pb.pprev;
      h := h - 1;
    }
    assert pa == pb;
    r := pa;
  }

  // ------------------------------------------------------------ locators

  /** The distance from the `k`-th locator entry to the next: one, then doubling. */
  function Gap(k: nat): (g: nat)
    ensures g >= 1
  {
    if k <= 10 then 1 else Pow2(k - 10)
  }

  /** The sum of the first `k` gaps. */
  function GapSum(k: nat): nat {
    if k == 0 then 0 else GapSum(k - 1) + Gap(k - 1)
  }

  lemma {:induction false} GapSumGrows(k: nat)
    requires k >= 11
    ensures GapSum(k) == 9 + Pow2(k - 10)
  {
    if k == 11 {
      assert GapSum(11) == 11 by { GapSumStart(11); }
    } else {
      GapSumGrows(k - 1);
    }
  }

  lemma {:induction false} GapSumStart(k: nat)
    requires k <= 11
    ensures GapSum(k) == k
  {
    if k > 0 { GapSumStart(k - 1); }
  }

  /**
   The blocks a locator lists: the block itself, ancestors at growing distances,
   and the genesis block last. Their number grows only with the logarithm of the
   height.
  */
  method LocatorEntries(index: BlockIndex?, ghost tree: set<BlockIndex>) returns (have: seq<BlockIndex>)
    requires TreeOk(tree) && (index != null ==> index in tree)
    ensures index == null ==> have == []
    ensures index != null ==> IsLocator(have, index) && have[|have| - 1] == At(index, 0)
    ensures |have| >= 13 ==> 9 + Pow2(|have| - 12) < index.nHeight
  {
    hide At, Linked, GapSum, IsAncestor;
    have := [];
    if index == null { return; }
    LocatorStart(index, tree);
    have := [index];
    var step := 1;
    while have[|have| - 1].nHeight != 0
      invariant LocatorState(have, index, step) && have[|have| - 1] in tree
      decreases have[|have| - 1].nHeight
    {
      var next := NextEntry(have, step, index, tree);
      have := have + [next];
      if |have| - 1 > 10 { step := step * 2; }
    }
    LocatorEnd(have, index);
    if |have| >= 13 { GapSumGrows(|have| - 2); }
  }

  lemma LocatorStart(index: BlockIndex, tree: set<BlockIndex>)
    requires TreeOk(tree) && index in tree
    ensures LocatorState([index], index, 1)
  {
  }

  lemma LocatorEnd(have: seq<BlockIndex>, index: BlockIndex)
    requires IsLocator(have, index) && have[|have| - 1].nHeight == 0
    ensures have[|have| - 1] == At(index, 0)
  {
  }

  /** A locator so far, the next gap, and the height gone down. */
  ghost predicate LocatorState(have: seq<BlockIndex>, index: BlockIndex, step: int) {
    && IsLocator(have, index) && step == Gap(|have| - 1)
    && (have[|have| - 1].nHeight > 0 ==> have[|have| - 1].nHeight + GapSum(|have| - 1) == index.nHeight)
    && (|have| > 1 ==> GapSum(|have| - 2) < index.nHeight)
  }

  method NextEntry(have: seq<BlockIndex>, step: int, ghost index: BlockIndex, ghost tree: set<BlockIndex>)
      returns (next: BlockIndex)
    requires LocatorState(have, index, step) && TreeOk(tree) && have[|have| - 1] in tree && have[|have| - 1].nHeight > 0
    ensures next in tree && next.nHeight < have[|have| - 1].nHeight && LocatorState(have + [next], index, Gap(|have|))
  {
    var walk := have[|have| - 1];
    var height := if walk.nHeight > step then walk.nHeight - step else 0;
    LocatorExtends(have, index, height);
    next := walk.GetAncestor(height, tree);
  }

  lemma LocatorExtends(have: seq<BlockIndex>, index: BlockIndex, height: nat)
    requires IsLocator(have, index)
    requires var last := have[|have| - 1].nHeight;
             last > 0 && height == if last > Gap(|have| - 1) then last - Gap(|have| - 1) else 0
    ensures var last := have[|have| - 1];
            Linked(last) && height < last.nHeight && IsLocator(have + [At(last, height)], index)
  {
    var last := have[|have| - 1];
    AtTwice(index, last.nHeight, height);
    var more := have + [At(last, height)];
    forall k | 0 <= k < |more| - 1
      ensures more[k + 1].nHeight == if more[k].nHeight > Gap(k) then more[k].nHeight - Gap(k) else 0
    {
      if k < |have| - 1 { assert more[k] == have[k] && more[k + 1] == have[k + 1]; }
    }
  }

  /** Ancestors of `index`, from itself down, at the distances `Gap`. */
  ghost predicate IsLocator(have: seq<BlockIndex>, index: BlockIndex) {
    && |have| > 0 && have[0] == index
    && (forall k :: 0 <= k < |have| ==> IsAncestor(have[k], index))
    && (forall k :: 0 <= k < |have| - 1 ==>
          have[k + 1].nHeight == if have[k].nHeight > Gap(k) then have[k].nHeight - Gap(k) else 0)
  }
}
