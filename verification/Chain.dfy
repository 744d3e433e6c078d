/** The block tree with its skip pointers, and the active chain as an array of blocks. */
module Chain {
  import opened Powers
  import opened Skip

  // ---- the tree

  class BlockIndex {
    const pprev: BlockIndex?
    const nHeight: nat
    var pskip: BlockIndex?

    constructor (prev: BlockIndex?)
      requires prev != null ==> prev.Linked()
      ensures pprev == prev && pskip == null && Linked()
    {
      pprev := prev;
      nHeight := if prev == null then 0 else prev.nHeight + 1;
      pskip := null;
    }

    /** Heights go down by one along pprev, to zero at the root. */
    ghost predicate Linked()
      decreases nHeight
    {
      if pprev == null then nHeight == 0
      else nHeight == pprev.nHeight + 1 && pprev.Linked()
    }

    /** The ancestor by walking pprev alone. */
    ghost function Ancestor(h: nat): (r: BlockIndex)
      requires Linked() && h <= nHeight
      ensures r.Linked() && r.nHeight == h
      decreases nHeight
    {
      if h == nHeight then this else pprev.Ancestor(h)
    }

    /** The ancestor at a height, by skip pointers where they help. */
    method GetAncestor(ghost tree: set<BlockIndex>, height: int) returns (r: BlockIndex?, ghost steps: nat)
      requires Tree(tree) && this in tree
      ensures height < 0 || height > nHeight ==> r == null
      ensures 0 <= height <= nHeight ==> r == Ancestor(height) && r in tree
      ensures 0 <= height <= nHeight && Skipping(tree) ==> steps == Steps(nHeight, height)
      ensures Skipping(tree) && nHeight < 0x4_0000 ==> steps <= 110
    {
      hide GetSkipHeight, Steps, Skipping, NextHeight;
      if height > nHeight || height < 0 { return null, 0; }
      steps := 0;
      var walk: BlockIndex := this;
      var heightWalk := nHeight;
      while heightWalk > height
        invariant height <= heightWalk == walk.nHeight && walk in tree && walk.Linked()
        invariant walk.Ancestor(height) == Ancestor(height)
        invariant Skipping(tree) ==> steps + Steps(heightWalk, height) == Steps(nHeight, height)
        decreases heightWalk
      {
        if Skipping(tree) { HasSkip(tree, walk); }
        StepsNext(heightWalk, height);
        NextIs(heightWalk, height);
        steps := steps + 1;
        var heightSkip := GetSkipHeight(heightWalk);
        var heightSkipPrev := GetSkipHeight(heightWalk - 1);
        if walk.pskip != null &&
           (heightSkip == height ||
            (heightSkip > height && !(heightSkipPrev < heightSkip - 2 && heightSkipPrev >= height))) {
          AncestorOfAncestor(walk, heightSkip, height);
          AncestorInTree(tree, walk, heightSkip);
          walk := walk.pskip;
          heightWalk := heightSkip;
        } else {
          walk := walk.pprev;
          heightWalk := heightWalk - 1;
        }
      }
      StepsNone(height);
      if nHeight < 0x4_0000 { StepsUpTo18(nHeight, height); }
      r := walk;
    }

    /** Sets the skip pointer of a block whose ancestors have theirs. */
    method BuildSkip(ghost tree: set<BlockIndex>)
      requires Tree(tree) && Linked() && this !in tree && (pprev != null ==> pprev in tree)
      requires pskip == null
      modifies this`pskip
      ensures Tree(tree + {this}) && (Skipping(tree) ==> Skipping(tree + {this}))
      ensures pprev != null ==> pskip == Ancestor(GetSkipHeight(nHeight))
    {
      if pprev != null {
        ghost var n;
        pskip, n := pprev.GetAncestor(tree, GetSkipHeight(nHeight));
      }
    }
  }

  /** A set of blocks closed under pprev whose skip pointers, where set, name the right ancestor. */
  ghost predicate Tree(tree: set<BlockIndex>)
    reads tree
  {
    forall b :: b in tree ==>
      && b.Linked() && (b.pprev != null ==> b.pprev in tree)
      && (b.pskip != null ==> b.pskip == b.Ancestor(GetSkipHeight(b.nHeight)))
  }

  /** Every block but the first has its skip pointer. */
  ghost predicate Skipping(tree: set<BlockIndex>)
    reads tree
  {
    forall b :: b in tree && b.pprev != null ==> b.pskip != null
  }

  lemma HasSkip(tree: set<BlockIndex>, b: BlockIndex)
    requires Skipping(tree) && b in tree && b.Linked() && b.nHeight > 0
    ensures b.pskip != null
  {}

  lemma {:induction false} AncestorOfAncestor(b: BlockIndex, h: nat, g: nat)
    requires b.Linked() && g <= h <= b.nHeight
    ensures b.Ancestor(h).Ancestor(g) == b.Ancestor(g)
    decreases b.nHeight
  {
    if h < b.nHeight { AncestorOfAncestor(b.pprev, h, g); }
  }

  lemma {:induction false} AncestorInTree(tree: set<BlockIndex>, b: BlockIndex, h: nat)
    requires Tree(tree) && b in tree && h <= b.nHeight
    ensures b.Ancestor(h) in tree
    decreases b.nHeight
  {
    if h < b.nHeight { AncestorInTree(tree, b.pprev, h); }
  }

  /** Two blocks at one height with a common ancestor above have the same parents below. */
  lemma AgreeBelow(a: BlockIndex, b: BlockIndex, h: nat, g: nat)
    requires a.Linked() && b.Linked() && g <= h <= a.nHeight && h <= b.nHeight && a.Ancestor(h) == b.Ancestor(h)
    ensures a.Ancestor(g) == b.Ancestor(g)
  {
    AncestorOfAncestor(a, h, g);
    AncestorOfAncestor(b, h, g);
  }

  ghost predicate Under(w: BlockIndex, a: BlockIndex) {
    a.Linked() && w.Linked() && w.nHeight <= a.nHeight && a.Ancestor(w.nHeight) == w
  }

  lemma UnderParent(w: BlockIndex, a: BlockIndex)
    requires Under(w, a)
    ensures w.pprev == null <==> w.nHeight == 0
    ensures w.pprev != null ==> Under(w.pprev, a) && w.pprev.nHeight == w.nHeight - 1
  {
    if w.pprev != null { AncestorOfAncestor(a, w.nHeight, w.nHeight - 1); }
  }

  /** The two branches have no block in common above height h. */
  ghost predicate SplitAbove(a: BlockIndex, b: BlockIndex, h: int)
    requires a.Linked() && b.Linked()
  {
    forall g :: 0 <= g <= a.nHeight && h < g <= b.nHeight ==> a.Ancestor(g) != b.Ancestor(g)
  }

  lemma SplitFurther(a: BlockIndex, b: BlockIndex, h: nat)
    requires a.Linked() && b.Linked() && SplitAbove(a, b, h)
    requires h <= a.nHeight && h <= b.nHeight && a.Ancestor(h) != b.Ancestor(h)
    ensures SplitAbove(a, b, h - 1)
  {
    forall g | 0 <= g <= a.nHeight && h - 1 < g <= b.nHeight ensures a.Ancestor(g) != b.Ancestor(g) {}
  }

  /** c is the highest block that is an ancestor of both, null if there is none. */
  ghost predicate HighestCommon(a: BlockIndex, b: BlockIndex, c: BlockIndex?)
    requires a.Linked() && b.Linked()
  {
    if c == null then SplitAbove(a, b, -1) else Under(c, a) && Under(c, b) && SplitAbove(a, b, c.nHeight)
  }

  method LastCommonAncestor(ghost tree: set<BlockIndex>, a: BlockIndex, b: BlockIndex) returns (r: BlockIndex?)
    requires Tree(tree) && a in tree && b in tree
    ensures HighestCommon(a, b, r)
  {
    var pa: BlockIndex?, pb: BlockIndex? := a, b;
    ghost var n;
    if a.nHeight > b.nHeight {
      pa, n := a.GetAncestor(tree, b.nHeight);
    } else if b.nHeight > a.nHeight {
      pb, n := b.GetAncestor(tree, a.nHeight);
    }
    while pa != pb && pa != null && pb != null
      invariant pa == null <==> pb == null
      invariant pa != null ==> Under(pa, a) && Under(pb, b) && pa.nHeight == pb.nHeight
      invariant SplitAbove(a, b, if pa == null then -1 else pa.nHeight)
      decreases if pa == null then 0 else pa.nHeight + 1
    {
      hide SplitAbove, Tree;
      SplitFurther(a, b, pa.nHeight);
      UnderParent(pa, a);
      UnderParent(pb, b);
      pa := pa.pprev;
      pb := pb.pprev;
    }
    assert pa == pb;
    return pa;
  }

  // ---- the active chain

  /** The heights a locator lists, from h down: one by one at first, then in steps that double. */
  function LocatorHeights(h: nat, nStep: nat, count: nat): seq<nat>
    requires nStep > 0
  {
    if h == 0 then [0]
    else
      [h] + LocatorHeights(if h > nStep then h - nStep else 0, if count + 1 > 10 then 2 * nStep else nStep, count + 1)
  }

  class Chain {
    var vChain: seq<BlockIndex?>

    constructor ()
      ensures vChain == []
    {
      vChain := [];
    }

    function Height(): int
      reads this
    {
      |vChain| - 1
    }

    function At(h: int): BlockIndex?
      reads this
    {
      if 0 <= h < |vChain| then vChain[h] else null
    }

    predicate Contains(b: BlockIndex)
      reads this
    {
      At(b.nHeight) == b
    }

    function Tip(): BlockIndex?
      reads this
    {
      if vChain == [] then null else vChain[|vChain| - 1]
    }

    /** The array holds the tip and all its ancestors, each at its height. */
    ghost predicate Valid()
      reads this
    {
      vChain != [] ==> IsChainOf(vChain, Tip())
    }

    /** Writes down from the new tip until it meets what is already there. */
    method SetTip(pindex: BlockIndex?)
      requires Valid() && (pindex != null ==> pindex.Linked())
      modifies this
      ensures Valid() && Tip() == pindex
    {
      if pindex == null {
        vChain := [];
        return;
      }
      ghost var was := vChain;
      var n := pindex.nHeight + 1;
      vChain := if n <= |vChain| then vChain[..n] else vChain + seq(n - |vChain|, _ => null);
      var walk: BlockIndex? := pindex;
      while walk != null && vChain[walk.nHeight] != walk
        invariant |vChain| == n
        invariant walk != null ==> walk.Linked() && walk.nHeight < n && walk == pindex.Ancestor(walk.nHeight)
        invariant forall i :: 0 <= i < n && (walk == null || i > walk.nHeight) ==> vChain[i] == pindex.Ancestor(i)
        invariant walk != null ==> forall i :: 0 <= i <= walk.nHeight ==>
                    vChain[i] == if i < |was| then was[i] else null
        decreases if walk == null then 0 else walk.nHeight + 1
      {
        vChain := vChain[walk.nHeight := walk];
        if walk.nHeight > 0 { AncestorOfAncestor(pindex, walk.nHeight, walk.nHeight - 1); }
        walk := walk.pprev;
      }
      if walk != null { MetOldChain(was, vChain, pindex, walk); }
    }

    /** An ancestor by the array where it can be used, by skip pointers otherwise. */
    method StepBack(ghost tree: set<BlockIndex>, b: BlockIndex, h: nat) returns (r: BlockIndex)
      requires Valid() && Tree(tree) && b in tree && h <= b.nHeight
      ensures r == b.Ancestor(h) && r in tree
    {
      AncestorInTree(tree, b, h);
      if Contains(b) {
        ContainsBelow(vChain, b, h);
        r := At(h);
      } else {
        var a, _ := b.GetAncestor(tree, h);
        r := a;
      }
    }

    method GetLocator(ghost tree: set<BlockIndex>, pindex: BlockIndex?) returns (have: seq<BlockIndex>)
      requires Valid() && Tree(tree) && (pindex != null ==> pindex in tree) && (vChain != [] ==> Tip() in tree)
      ensures var top := if pindex == null then Tip() else pindex;
              if top == null then have == [] else Lists(have, top, LocatorHeights(top.nHeight, 1, 0))
    {
      var top := if pindex == null then Tip() else pindex;
      if top == null { return []; }
      have := LocatorFrom(tree, top);
    }

    method LocatorFrom(ghost tree: set<BlockIndex>, top: BlockIndex) returns (have: seq<BlockIndex>)
      requires Valid() && Tree(tree) && top in tree
      ensures Lists(have, top, LocatorHeights(top.nHeight, 1, 0))
    {
      have := [];
      var walk: BlockIndex, nStep: nat := top, 1;
      assert Locating(have, top, walk, nStep);
      hide Locating, Valid, Lists, BlockIndex.Linked, BlockIndex.Ancestor;
      while walk.nHeight != 0
        invariant walk in tree && Locating(have, top, walk, nStep)
        decreases walk.nHeight
      {
        hide Tree;
        LocatingNext(have, top, walk, nStep);
        var nHeight := if walk.nHeight > nStep then walk.nHeight - nStep else 0;
        have := have + [walk];
        walk := StepBack(tree, walk, nHeight);
        if |have| > 10 { nStep := nStep * 2; }
      }
      LocatingDone(have, top, walk, nStep);
      have := have + [walk];
    }

    /** The last block the chain shares with the branch of pindex. */
    method FindFork(ghost tree: set<BlockIndex>, pindex: BlockIndex?) returns (r: BlockIndex?)
      requires Valid() && Tree(tree) && (pindex != null ==> pindex in tree)
      ensures pindex == null || vChain == [] ==> r == null
      ensures pindex != null && vChain != [] ==> HighestCommon(pindex, Tip(), r)
    {
      if pindex == null { return null; }
      var walk: BlockIndex? := pindex;
      ghost var n;
      if pindex.nHeight > Height() { walk, n := pindex.GetAncestor(tree, Height()); }
      while walk != null && !Contains(walk)
        invariant vChain == [] ==> walk == null
        invariant walk != null ==> Under(walk, pindex) && walk.nHeight < |vChain|
        invariant vChain != [] ==> SplitAbove(pindex, Tip(), if walk == null then -1 else walk.nHeight)
        decreases if walk == null then 0 else walk.nHeight + 1
      {
        hide SplitAbove, Tree;
        SplitFurther(pindex, Tip(), walk.nHeight);
        UnderParent(walk, pindex);
        walk := walk.pprev;
      }
      return walk;
    }
  }

  /** The blocks are the ancestors of top at the given heights. */
  ghost predicate Lists(have: seq<BlockIndex>, top: BlockIndex, hs: seq<nat>) {
    && top.Linked() && |have| == |hs|
    && forall i :: 0 <= i < |have| ==> hs[i] <= top.nHeight && have[i] == top.Ancestor(hs[i])
  }

  /** The blocks so far and those to come from walk make up the locator of top. */
  ghost predicate Locating(have: seq<BlockIndex>, top: BlockIndex, walk: BlockIndex, nStep: nat) {
    && Under(walk, top) && nStep > 0
    && |LocatorHeights(top.nHeight, 1, 0)| >= |have|
    && Lists(have, top, LocatorHeights(top.nHeight, 1, 0)[..|have|])
    && LocatorHeights(top.nHeight, 1, 0)[|have|..] == LocatorHeights(walk.nHeight, nStep, |have|)
  }

  lemma HeightsNext(hs: seq<nat>, n: nat, h: nat, nStep: nat)
    requires n <= |hs| && nStep > 0 && h > 0 && hs[n..] == LocatorHeights(h, nStep, n)
    ensures n < |hs| && hs[n] == h
    ensures hs[n + 1..] == LocatorHeights(if h > nStep then h - nStep else 0, if n + 1 > 10 then nStep * 2 else nStep,
                                          n + 1)
  {
    hide LocatorHeights;
    LocatorStep(h, nStep, n);
    assert hs[n] == hs[n..][0];
    assert hs[n + 1..] == hs[n..][1..];
  }

  lemma ListsMore(have: seq<BlockIndex>, top: BlockIndex, hs: seq<nat>, walk: BlockIndex)
    requires |have| < |hs| && Lists(have, top, hs[..|have|]) && Under(walk, top) && hs[|have|] == walk.nHeight
    ensures Lists(have + [walk], top, hs[..|have| + 1])
  {}

  lemma LocatingNext(have: seq<BlockIndex>, top: BlockIndex, walk: BlockIndex, nStep: nat)
    requires Locating(have, top, walk, nStep) && walk.nHeight > 0
    ensures nStep > 0 && walk.Linked()
    ensures var h := if walk.nHeight > nStep then walk.nHeight - nStep else 0;
            Locating(have + [walk], top, walk.Ancestor(h), if |have| + 1 > 10 then nStep * 2 else nStep)
  {
    hide LocatorHeights, Lists;
    var hs := LocatorHeights(top.nHeight, 1, 0);
    HeightsNext(hs, |have|, walk.nHeight, nStep);
    AncestorOfAncestor(top, walk.nHeight, if walk.nHeight > nStep then walk.nHeight - nStep else 0);
    ListsMore(have, top, hs, walk);
  }

  lemma LocatingDone(have: seq<BlockIndex>, top: BlockIndex, walk: BlockIndex, nStep: nat)
    requires Locating(have, top, walk, nStep) && walk.nHeight == 0
    ensures Lists(have + [walk], top, LocatorHeights(top.nHeight, 1, 0))
  {
    hide LocatorHeights;
    LocatorStep(walk.nHeight, nStep, |have|);
    var hs := LocatorHeights(top.nHeight, 1, 0);
    assert hs == hs[..|have|] + hs[|have|..];
  }

  lemma LocatorStep(h: nat, nStep: nat, count: nat)
    requires nStep > 0
    ensures h == 0 ==> LocatorHeights(h, nStep, count) == [0]
    ensures h > 0 ==>
              LocatorHeights(h, nStep, count) ==
                [h] + LocatorHeights(if h > nStep then h - nStep else 0, if count + 1 > 10 then 2 * nStep else nStep,
                                     count + 1)
  {}

  ghost predicate IsChainOf(v: seq<BlockIndex?>, tip: BlockIndex?) {
    && tip != null && tip.Linked() && |v| == tip.nHeight + 1
    && forall i :: 0 <= i < |v| ==> v[i] == tip.Ancestor(i)
  }

  lemma MetOldChain(was: seq<BlockIndex?>, now: seq<BlockIndex?>, tip: BlockIndex, met: BlockIndex)
    requires was != [] ==> IsChainOf(was, was[|was| - 1])
    requires tip.Linked() && |now| == tip.nHeight + 1
    requires met.nHeight <= tip.nHeight && met == tip.Ancestor(met.nHeight)
    requires forall i :: 0 <= i <= met.nHeight ==> now[i] == if i < |was| then was[i] else null
    requires now[met.nHeight] == met
    requires forall i :: met.nHeight < i < |now| ==> now[i] == tip.Ancestor(i)
    ensures IsChainOf(now, tip)
  {
    forall i | 0 <= i < |now| ensures now[i] == tip.Ancestor(i) {
      if i <= met.nHeight { AgreeBelow(was[|was| - 1], tip, met.nHeight, i); }
    }
  }

  lemma ContainsBelow(v: seq<BlockIndex?>, b: BlockIndex, h: nat)
    requires v != [] && IsChainOf(v, v[|v| - 1]) && b.Linked() && h <= b.nHeight < |v| && v[b.nHeight] == b
    ensures v[h] == b.Ancestor(h)
  {
    AncestorOfAncestor(v[|v| - 1], b.nHeight, h);
  }

  /** A locator starts at its block, goes strictly down and ends with the genesis block. */
  lemma {:induction false} LocatorDescends(h: nat, nStep: nat, count: nat)
    requires nStep > 0
    ensures var r := LocatorHeights(h, nStep, count);
            |r| > 0 && r[0] == h && r[|r| - 1] == 0 && forall i, j :: 0 <= i < j < |r| ==> r[i] > r[j]
  {
    if h > 0 {
      LocatorDescends(if h > nStep then h - nStep else 0, if count + 1 > 10 then 2 * nStep else nStep, count + 1);
    }
  }

  /** How far below the top the i-th entry of a locator is: one by one to the twelfth, then twice as far each time. */
  function Depth(i: nat): nat { if i <= 11 then i else 9 + Pow2(i - 10) }

  function DepthStep(i: nat): nat { if i <= 10 then 1 else Pow2(i - 10) }

  lemma DepthNext(i: nat)
    ensures Depth(i + 1) == Depth(i) + DepthStep(i) && DepthStep(i) > 0
    ensures DepthStep(i + 1) == if i + 1 > 10 then 2 * DepthStep(i) else DepthStep(i)
  {
    if i >= 10 { assert Pow2(i + 1 - 10) == 2 * Pow2(i - 10); }
  }

  lemma {:induction false} LocatorFromStep(top: nat, h: nat, count: nat, i: nat)
    requires h == (if top > Depth(count) then top - Depth(count) else 0) && DepthStep(count) > 0
    requires i < |LocatorHeights(h, DepthStep(count), count)|
    ensures LocatorHeights(h, DepthStep(count), count)[i] ==
              if top > Depth(count + i) then top - Depth(count + i) else 0
    decreases i
  {
    hide Depth, DepthStep;
    DepthNext(count);
    LocatorStep(h, DepthStep(count), count);
    if i > 0 {
      var n := DepthStep(count);
      LocatorFromStep(top, if h > n then h - n else 0, count + 1, i - 1);
    }
  }

  /** The i-th entry of a locator is that far below the top, and the last one is the first block. */
  lemma LocatorAt(top: nat, i: nat)
    requires i < |LocatorHeights(top, 1, 0)|
    ensures LocatorHeights(top, 1, 0)[i] == if top > Depth(i) then top - Depth(i) else 0
  {
    LocatorFromStep(top, top, 0, i);
  }

  /** Once steps double, the list is at most logarithmic in the height left. */
  lemma {:induction false} LocatorShort(h: nat, nStep: nat, count: nat, k: nat, all: nat)
    requires nStep > 0 && count >= 10 && h + nStep <= all == nStep * Pow2(k)
    ensures |LocatorHeights(h, nStep, count)| <= k + 1
  {
    if h > 0 {
      assert k > 0;
      assert nStep * (2 * Pow2(k - 1)) == (2 * nStep) * Pow2(k - 1);
      LocatorShort(if h > nStep then h - nStep else 0, 2 * nStep, count + 1, k - 1, all);
    }
  }

  lemma {:induction false} LocatorSingles(h: nat, count: nat, k: nat)
    requires count <= 10 && h < Pow2(k)
    ensures |LocatorHeights(h, 1, count)| <= 10 - count + k + 1
    decreases 10 - count
  {
    if count == 10 {
      LocatorShort(h, 1, count, k, Pow2(k));
    } else if h > 0 {
      LocatorSingles(h - 1, count + 1, k);
    }
  }

  /** A locator for any height below 2 to the 21 fits the 32 entries the code reserves. */
  lemma LocatorFitsReserve(h: nat)
    requires h < 0x20_0000
    ensures |LocatorHeights(h, 1, 0)| <= 32
  {
    assert Pow2(7) == 128;
    assert Pow2(14) == 0x4000 by { assert Pow2(10) == 1024; }
    assert Pow2(21) == 0x20_0000 by { assert Pow2(17) == 0x2_0000; }
    LocatorSingles(h, 0, 21);
  }
}
