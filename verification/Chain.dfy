/** The block index: skip pointers, the active chain as a vector, forks and locators. */
module Chain {
  import opened Basics
  import opened Powers

  // ---------------------------------------------------------------- skip heights

  /** Bitwise and. */
  function And(x: nat, y: nat): nat {
    if x == 0 || y == 0 then 0 else (if x % 2 == 1 && y % 2 == 1 then 1 else 0) + 2 * And(x / 2, y / 2)
  }

  function InvertLowestOne(n: nat): nat {
    if n == 0 then 0 else And(n, n - 1)
  }

  /** The weight of the lowest bit set. */
  function LowestOne(n: nat): (r: nat)
    requires n > 0
    ensures 1 <= r <= n
  {
    if n % 2 == 1 then 1 else 2 * LowestOne(n / 2)
  }

  lemma {:induction false} AndSelf(n: nat)
    ensures And(n, n) == n
  {
    if n > 0 { AndSelf(n / 2); }
  }

  lemma {:induction false} InvertsLowestOne(n: nat)
    requires n > 0
    ensures 1 <= LowestOne(n) <= n && InvertLowestOne(n) == n - LowestOne(n)
  {
    if n % 2 == 1 {
      AndSelf(n / 2);
      assert (n - 1) / 2 == n / 2;
    } else {
      InvertsLowestOne(n / 2);
      assert (n - 1) / 2 == n / 2 - 1;
    }
  }

  function GetSkipHeight(height: nat): (r: nat)
    ensures height > 0 ==> r < height
  {
    if height < 2 then 0
    else if height % 2 == 1 then
      InvertsLowestOne(height - 1);
      var once := InvertLowestOne(height - 1);
      assert InvertLowestOne(once) <= once by { if once > 0 { InvertsLowestOne(once); } }
      InvertLowestOne(once) + 1
    else
      InvertsLowestOne(height);
      InvertLowestOne(height)
  }

  /** An even height loses its lowest one bit. An odd one is one more than an even height that loses its two lowest. */
  lemma SkipHeight(height: nat)
    requires height >= 2
    ensures height % 2 == 0 ==> GetSkipHeight(height) == height - LowestOne(height)
    ensures height % 2 == 1 ==>
      var once := height - 1 - LowestOne(height - 1);
      GetSkipHeight(height) == 1 + if once == 0 then 0 else once - LowestOne(once)
  {
    if height % 2 == 0 {
      InvertsLowestOne(height);
    } else {
      InvertsLowestOne(height - 1);
      var once := InvertLowestOne(height - 1);
      if once > 0 { InvertsLowestOne(once); }
    }
  }

  // ---------------------------------------------------------------- block index entries

  class BlockIndex {
    const pprev: BlockIndex?
    const nHeight: nat
    var pskip: BlockIndex?

    /** The blocks below this one, genesis first. */
    ghost const below: seq<BlockIndex>

    /** From genesis to this block. */
    ghost function Path(): seq<BlockIndex> {
      below + [this]
    }

    ghost predicate Valid()
      decreases |below|
    {
      && nHeight == |below|
      && (pprev == null <==> below == [])
      && (pprev != null ==> below == pprev.below + [pprev] && pprev.Valid())
    }

    /** Every skip pointer on the way down, where there is one, leads to the block at the skip height. */
    ghost predicate Skips()
      reads this, below
    {
      forall i | 0 <= i <= |below| ::
        Path()[i].pskip == null || (GetSkipHeight(i) <= i && Path()[i].pskip == Path()[GetSkipHeight(i)])
    }

    constructor (prev: BlockIndex?)
      requires prev != null ==> prev.Valid() && prev.Skips()
      ensures Valid() && Skips() && pprev == prev && pskip == null
    {
      pprev, pskip := prev, null;
      nHeight := if prev == null then 0 else prev.nHeight + 1;
      below := if prev == null then [] else prev.Path();
    }

    lemma PathTop()
      requires Valid()
      ensures |Path()| == nHeight + 1 && Path()[nHeight] == this
      ensures pprev != null ==> pprev.Valid() && pprev.nHeight + 1 == nHeight && pprev.Path() == Path()[..nHeight]
      ensures pprev == null ==> nHeight == 0
    {
    }

    /** A block on the path has the path up to itself. */
    lemma {:induction false} PathAt(i: nat)
      requires Valid() && i <= nHeight
      ensures Path()[i].Valid() && Path()[i].nHeight == i && Path()[i].Path() == Path()[..i + 1]
      decreases nHeight
    {
      if i < nHeight {
        pprev.PathAt(i);
        assert Path()[i] == pprev.Path()[i];
        assert Path()[..i + 1] == pprev.Path()[..i + 1];
      } else {
        assert Path()[..i + 1] == Path();
      }
    }

    lemma SkipsAt(i: nat)
      requires Valid() && Skips() && i <= nHeight
      ensures Path()[i].Skips()
    {
      PathAt(i);
      var b := Path()[i];
      assert forall j | 0 <= j <= i :: b.Path()[j] == Path()[j];
    }

    method GetAncestor(height: int) returns (r: BlockIndex?)
      requires Valid() && Skips()
      ensures if 0 <= height <= nHeight then r == Path()[height] else r == null
    {
      if height > nHeight || height < 0 {
        return null;
      }
      var walk, heightWalk := this, nHeight;
      while heightWalk > height
        invariant height <= heightWalk <= nHeight && walk == Path()[heightWalk]
        decreases heightWalk
      {
        var heightSkip := GetSkipHeight(heightWalk);
        var heightSkipPrev := GetSkipHeight(heightWalk - 1);
        PathAt(heightWalk);
        if walk.pskip != null
           && (heightSkip == height
               || (heightSkip > height && !(heightSkipPrev < heightSkip - 2 && heightSkipPrev >= height)))
        {
          walk, heightWalk := walk.pskip, heightSkip;
        } else {
          assert walk.pprev != null;
          assert Path()[heightWalk - 1] == walk.Path()[heightWalk - 1] == walk.pprev;
          walk, heightWalk := walk.pprev, heightWalk - 1;
        }
      }
      return walk;
    }

    method BuildSkip()
      requires Valid() && Skips()
      modifies this
      ensures Skips()
      ensures pprev != null ==> pskip == Path()[GetSkipHeight(nHeight)]
      ensures pprev == null ==> pskip == old(pskip)
    {
      if pprev != null {
        PrevSkips();
        forall i | 0 <= i < nHeight ensures Path()[i] != this { PathAt(i); }
        pskip := pprev.GetAncestor(GetSkipHeight(nHeight));
      }
    }

    lemma PrevSkips()
      requires Valid() && Skips() && pprev != null
      ensures pprev.Skips()
    {
      assert forall i | 0 <= i <= |pprev.below| :: pprev.Path()[i] == Path()[i];
    }
  }

  /** All known blocks. Each gets its skip pointer when it enters, so the search works from every one of them. */
  class BlockTree {
    var blocks: set<BlockIndex>

    ghost predicate Valid()
      reads this, blocks
    {
      forall b | b in blocks :: b.Valid() && (forall a | a in b.below :: a in blocks) && b.Skips()
    }

    constructor ()
      ensures Valid() && blocks == {}
    {
      blocks := {};
    }

    method Insert(prev: BlockIndex?) returns (b: BlockIndex)
      requires Valid() && (prev != null ==> prev in blocks)
      modifies this
      ensures Valid() && fresh(b) && blocks == old(blocks) + {b}
      ensures b.pprev == prev && b.nHeight == (if prev == null then 0 else prev.nHeight + 1)
      ensures prev != null ==> b.pskip == b.Path()[GetSkipHeight(b.nHeight)]
    {
      hide GetSkipHeight;
      b := new BlockIndex(prev);
      b.BuildSkip();
      blocks := blocks + {b};
      assert forall a | a in old(blocks) :: a.Valid() && a.Skips();
    }
  }

  // ---------------------------------------------------------------- the active chain

  /** How far below the start the k-th entry of a locator lies: one by one at first, then in doubling steps. */
  function Offset(k: nat): nat {
    if k <= 11 then k else 9 + Pow2(k - 10)
  }

  lemma OffsetStep(k: nat)
    ensures Offset(k + 1) == Offset(k) + if k <= 10 then 1 else Pow2(k - 10)
  {
    if k == 11 { assert Pow2(2) == 4 && Pow2(1) == 2; }
  }

  /** A vector that is the path of its last block. */
  ghost predicate IsPath(v: seq<BlockIndex?>) {
    forall i | 0 <= i < |v| :: v[i] != null && v[i].Valid() && v[i].Path() == v[..i + 1]
  }

  lemma PathIsPath(tip: BlockIndex)
    requires tip.Valid()
    ensures IsPath(tip.Path())
  {
    var v := tip.Path();
    forall i | 0 <= i < |v| ensures v[i].Valid() && v[i].Path() == v[..i + 1] { tip.PathAt(i); }
  }

  lemma IsPathPrefix(v: seq<BlockIndex?>, n: nat)
    requires IsPath(v) && n <= |v|
    ensures IsPath(v[..n])
  {
    forall i | 0 <= i < n ensures v[..n][i] != null && v[..n][i].Valid() && v[..n][i].Path() == v[..n][..i + 1] {
      assert v[..n][..i + 1] == v[..i + 1];
    }
  }

  /** While the new path is written from the top: new from `h` on, old or empty below. */
  ghost predicate Mixed(v: seq<BlockIndex?>, was: seq<BlockIndex?>, path: seq<BlockIndex>, h: nat) {
    && |v| == |path| && h <= |path|
    && (forall j | h <= j < |v| :: v[j] == path[j])
    && forall j | 0 <= j < h :: v[j] == if j < |was| then was[j] else null
  }

  lemma MixedStart(was: seq<BlockIndex?>, path: seq<BlockIndex>)
    ensures Mixed(Resized(was, |path|), was, path, |path|)
  {
  }

  lemma MixedNext(v: seq<BlockIndex?>, was: seq<BlockIndex?>, path: seq<BlockIndex>, h: nat)
    requires Mixed(v, was, path, h + 1)
    ensures |v| == |path| && h < |path| && Mixed(v[h := path[h]], was, path, h)
  {
  }

  lemma MixedDone(v: seq<BlockIndex?>, was: seq<BlockIndex?>, path: seq<BlockIndex>)
    requires Mixed(v, was, path, 0)
    ensures v == path
  {
  }

  /** The vector cut off or padded with null. */
  function Resized(v: seq<BlockIndex?>, n: nat): seq<BlockIndex?> {
    if n <= |v| then v[..n] else v + seq(n - |v|, _ => null)
  }

  /** Meeting the old chain: what is below is the same path already. */
  lemma MixedMeets(v: seq<BlockIndex?>, was: seq<BlockIndex?>, path: seq<BlockIndex>, h: nat, p: BlockIndex)
    requires IsPath(was) && Mixed(v, was, path, h + 1) && h < |path| && v[h] == p && p.Path() == path[..h + 1]
    ensures v == path
  {
    assert h < |was| && was[h] == p && was[..h + 1] == path[..h + 1];
    forall j | 0 <= j < |v| ensures v[j] == path[j] {
      if j <= h { assert was[..h + 1][j] == path[..h + 1][j]; }
    }
  }

  class Chain {
    var vChain: seq<BlockIndex?>

    ghost predicate Valid()
      reads this
    {
      IsPath(vChain)
    }

    constructor ()
      ensures Valid() && vChain == []
    {
      vChain := [];
    }

    function Tip(): BlockIndex?
      reads this
    {
      if |vChain| > 0 then vChain[|vChain| - 1] else null
    }

    function At(nHeight: int): BlockIndex?
      reads this
    {
      if nHeight < 0 || nHeight >= |vChain| then null else vChain[nHeight]
    }

    predicate Contains(pindex: BlockIndex)
      reads this
    {
      At(pindex.nHeight) == pindex
    }

    function Next(pindex: BlockIndex): BlockIndex?
      reads this
    {
      if Contains(pindex) then At(pindex.nHeight + 1) else null
    }

    function Height(): int
      reads this
    {
      |vChain| - 1
    }

    /** A block is in the vector exactly when it is found at its height. */
    lemma ContainsIff(pindex: BlockIndex)
      requires Valid()
      ensures Contains(pindex) <==> pindex in vChain
    {
      forall i | 0 <= i < |vChain| && vChain[i] == pindex ensures pindex.nHeight == i {
        assert |pindex.Path()| == i + 1;
      }
    }

    method SetTip(tip: BlockIndex?)
      requires Valid() && (tip != null ==> tip.Valid())
      modifies this
      ensures Valid()
      ensures vChain == if tip == null then [] else tip.Path()
    {
      if tip == null {
        vChain := [];
        return;
      }
      hide BlockIndex.Path, BlockIndex.Valid, IsPath, Mixed;
      ghost var was, path := vChain, tip.Path();
      PathIsPath(tip);
      tip.PathTop();
      vChain := Resized(vChain, tip.nHeight + 1);
      MixedStart(was, path);
      var pindex: BlockIndex? := tip;
      assert path == path[..tip.nHeight + 1];
      while pindex != null && vChain[pindex.nHeight] != pindex
        invariant pindex != null ==> pindex.Valid() && pindex.nHeight < |path| && pindex.Path() == path[..pindex.nHeight + 1]
        invariant |vChain| == |path| && Mixed(vChain, was, path, if pindex == null then 0 else pindex.nHeight + 1)
        decreases if pindex == null then 0 else pindex.nHeight + 1
      {
        pindex.PathTop();
        MixedNext(vChain, was, path, pindex.nHeight);
        vChain := vChain[pindex.nHeight := pindex];
        pindex := pindex.pprev;
      }
      if pindex != null {
        MixedMeets(vChain, was, path, pindex.nHeight, pindex);
      } else {
        MixedDone(vChain, was, path);
      }
    }

    method Crop(pindex: BlockIndex)
      requires Valid()
      modifies this
      ensures Valid()
      ensures vChain == if pindex in old(vChain) then old(vChain)[..pindex.nHeight] else old(vChain)
    {
      ContainsIff(pindex);
      if Contains(pindex) {
        IsPathPrefix(vChain, pindex.nHeight);
        vChain := vChain[..pindex.nHeight];
      }
    }

    /** The highest block of the chain that is an ancestor of the given one, or null if there is none. */
    method FindFork(start: BlockIndex?) returns (r: BlockIndex?)
      requires Valid() && (start != null ==> start.Valid() && start.Skips())
      ensures start == null ==> r == null
      ensures start != null ==> IsHighestCommon(r, start.Path(), vChain)
    {
      hide BlockIndex.Path, BlockIndex.Valid, BlockIndex.Skips, IsPath, IsHighestCommon;
      if start == null {
        return null;
      }
      ghost var path := start.Path();
      start.PathTop();
      r := start;
      assert path[..start.nHeight + 1] == path;
      if start.nHeight > Height() {
        r := start.GetAncestor(Height());
        if r != null { start.PathAt(Height()); }
      }
      PathIsPath(start);
      while r != null && !Contains(r)
        invariant r != null ==> r.Valid() && r.nHeight < |path| && r.nHeight < |vChain| && r.Path() == path[..r.nHeight + 1]
        invariant NoneCommon(path, vChain, if r == null then 0 else r.nHeight + 1)
        decreases if r == null then 0 else r.nHeight + 1
      {
        r.PathTop();
        CommonBelow(path, vChain, r.nHeight);
        r := r.pprev;
      }
      if r != null { r.PathTop(); }
      CommonFound(path, vChain, r);
    }

    /** The ancestor at a height, by index if the block is in the chain. */
    method StepBack(pindex: BlockIndex, nHeight: nat) returns (r: BlockIndex)
      requires Valid() && pindex.Valid() && pindex.Skips() && nHeight <= pindex.nHeight
      ensures r == pindex.Path()[nHeight] && r.nHeight == nHeight
    {
      pindex.PathAt(nHeight);
      if Contains(pindex) {
        r := At(nHeight);
      } else {
        r := pindex.GetAncestor(nHeight);
      }
    }

    /** Blocks from the given one (or the tip) down to genesis, in growing steps. */
    method GetLocator(from: BlockIndex?) returns (have: seq<BlockIndex>)
      requires Valid() && (from != null ==> from.Valid() && from.Skips())
      requires vChain != [] ==> Tip().Skips()
      ensures var start := if from == null then Tip() else from;
        if start == null then have == [] else IsLocator(have, start)
    {
      hide BlockIndex.Path, BlockIndex.Valid, BlockIndex.Skips, IsPath, IsLocator, Climbed;
      have := [];
      var start := from;
      if start == null {
        if vChain == [] {
          return;
        }
        TipValid(vChain);
        start := Tip();
      }
      var nStep := 1;
      var pindex: BlockIndex := start;
      ClimbedStart(start);
      while true
        invariant nStep == if |have| <= 10 then 1 else Pow2(|have| - 10)
        invariant Climbed(have, start, pindex)
        decreases pindex.nHeight
      {
        ClimbedHere(have, start, pindex);
        ghost var before, last := have, pindex;
        have := have + [pindex];
        if pindex.nHeight == 0 {
          return;
        }
        var nHeight := Max(pindex.nHeight - nStep, 0);
        pindex := StepBack(pindex, nHeight);
        ClimbedNext(before, start, last, nStep, pindex);
        if |have| > 10 {
          nStep := nStep * 2;
        }
      }
    }

  }

  // ---------------------------------------------------------------- locators

  lemma TipValid(v: seq<BlockIndex?>)
    requires IsPath(v) && v != []
    ensures v[|v| - 1] != null && v[|v| - 1].Valid()
  {
  }

  /** The entries are the blocks at the prescribed distances; the last one, and no other, is genesis. */
  ghost predicate IsLocator(have: seq<BlockIndex>, start: BlockIndex)
    requires start.Valid()
  {
    && have != []
    && (forall k | 0 <= k < |have| :: have[k] == start.Path()[Max(0, start.nHeight - Offset(k))])
    && (forall k | 0 <= k < |have| :: Offset(k) >= start.nHeight <==> k == |have| - 1)
  }

  /** A block above genesis at the k-th distance. */
  ghost predicate Entry(b: BlockIndex, start: BlockIndex, k: nat)
    requires start.Valid()
  {
    Offset(k) < start.nHeight && b == start.Path()[start.nHeight - Offset(k)]
  }

  /** All entries so far are above genesis, and `next` follows. */
  ghost predicate Climbed(have: seq<BlockIndex>, start: BlockIndex, next: BlockIndex) {
    && start.Valid()
    && (forall k | 0 <= k < |have| :: Entry(have[k], start, k))
    && next == start.Path()[Max(0, start.nHeight - Offset(|have|))]
  }

  lemma ClimbedStart(start: BlockIndex)
    requires start.Valid()
    ensures Climbed([], start, start)
  {
  }

  /** The entry that is added now. */
  lemma ClimbedHere(have: seq<BlockIndex>, start: BlockIndex, next: BlockIndex)
    requires Climbed(have, start, next) && start.Skips()
    ensures next.Valid() && next.Skips() && next.nHeight == Max(0, start.nHeight - Offset(|have|))
    ensures next.nHeight == 0 ==> IsLocator(have + [next], start)
  {
    start.PathAt(Max(0, start.nHeight - Offset(|have|)));
    start.SkipsAt(Max(0, start.nHeight - Offset(|have|)));
  }

  lemma ClimbedNext(have: seq<BlockIndex>, start: BlockIndex, last: BlockIndex, step: nat, next: BlockIndex)
    requires Climbed(have, start, last) && last.Valid() && last.nHeight == start.nHeight - Offset(|have|) > 0
    requires step == if |have| <= 10 then 1 else Pow2(|have| - 10)
    requires next == last.Path()[Max(last.nHeight - step, 0)]
    ensures Climbed(have + [last], start, next)
  {
    hide Entry, BlockIndex.Valid;
    EntryNow(start, last, |have|);
    NextEntry(start, last, |have|, step, next);
    var more := have + [last];
    forall k | 0 <= k < |more| ensures Entry(more[k], start, k) {
      if k < |have| { assert more[k] == have[k]; }
    }
  }

  lemma EntryNow(start: BlockIndex, last: BlockIndex, k: nat)
    requires start.Valid() && Offset(k) < start.nHeight && last == start.Path()[start.nHeight - Offset(k)]
    ensures Entry(last, start, k)
  {
  }

  lemma NextEntry(start: BlockIndex, last: BlockIndex, k: nat, step: nat, next: BlockIndex)
    requires start.Valid() && last.Valid() && last.nHeight == start.nHeight - Offset(k) > 0
    requires last == start.Path()[last.nHeight] && step == if k <= 10 then 1 else Pow2(k - 10)
    requires next == last.Path()[Max(last.nHeight - step, 0)]
    ensures next == start.Path()[Max(0, start.nHeight - Offset(k + 1))]
  {
    hide Offset, Pow2, BlockIndex.Path, BlockIndex.Valid;
    OffsetStep(k);
    start.PathTop();
    start.PathAt(last.nHeight);
  }

  lemma LocatorHeight(have: seq<BlockIndex>, start: BlockIndex, k: nat)
    requires start.Valid() && IsLocator(have, start) && k < |have|
    ensures have[k].nHeight == Max(0, start.nHeight - Offset(k))
    ensures Offset(k) >= start.nHeight <==> k == |have| - 1
  {
    hide Offset, BlockIndex.Path, BlockIndex.Valid;
    start.PathAt(Max(0, start.nHeight - Offset(k)));
  }

  lemma LocatorStart(have: seq<BlockIndex>, start: BlockIndex)
    requires start.Valid() && IsLocator(have, start)
    ensures have[0] == start
  {
    OffsetZero();
    start.PathTop();
  }

  lemma LocatorFalls(have: seq<BlockIndex>, start: BlockIndex, j: nat, k: nat)
    requires start.Valid() && IsLocator(have, start) && j < k < |have|
    ensures have[k].nHeight < have[j].nHeight
  {
    hide Offset, BlockIndex.Path, BlockIndex.Valid, IsLocator;
    LocatorHeight(have, start, j);
    LocatorHeight(have, start, k);
    OffsetGrows(j, k);
    MaxFalls(start.nHeight, Offset(j), Offset(k));
  }

  lemma MaxFalls(h: int, near: int, far: int)
    requires near < far && near < h
    ensures Max(0, h - far) < Max(0, h - near)
  {
  }

  /** Heights fall strictly from the start to genesis, and doubling keeps the list short. */
  lemma LocatorShape(have: seq<BlockIndex>, start: BlockIndex)
    requires start.Valid() && IsLocator(have, start)
    ensures have[0] == start && have[|have| - 1].nHeight == 0
    ensures forall j, k | 0 <= j < k < |have| :: have[k].nHeight < have[j].nHeight
    ensures |have| > 12 ==> Pow2(|have| - 12) < start.nHeight
  {
    hide Offset, BlockIndex.Path, BlockIndex.Valid;
    LocatorStart(have, start);
    LocatorHeight(have, start, |have| - 1);
    forall j, k | 0 <= j < k < |have| ensures have[k].nHeight < have[j].nHeight { LocatorFalls(have, start, j, k); }
    if |have| > 12 { OffsetLong(|have| - 2); }
  }

  lemma OffsetZero()
    ensures Offset(0) == 0
  {
  }

  lemma {:induction false} OffsetGrows(j: nat, k: nat)
    requires j < k
    ensures Offset(j) < Offset(k)
    decreases k - j
  {
    OffsetStep(k - 1);
    if j < k - 1 { OffsetGrows(j, k - 1); }
  }

  lemma OffsetLong(k: nat)
    requires k >= 11
    ensures Offset(k) >= Pow2(k - 10)
  {
    assert Pow2(1) == 2;
  }

  // ---------------------------------------------------------------- common ancestors

  /** No block at height `h` or above is shared. */
  ghost predicate NoneCommon(path: seq<BlockIndex>, v: seq<BlockIndex?>, h: nat) {
    forall j | h <= j < |path| && j < |v| :: path[j] != v[j]
  }

  /** The block is on both paths, and none above it is; null if the paths share nothing. */
  ghost predicate IsHighestCommon(r: BlockIndex?, path: seq<BlockIndex>, v: seq<BlockIndex?>) {
    if r == null then forall b | b in path :: b !in v
    else r in path && r in v && forall b | b in path && b in v :: b.nHeight <= r.nHeight
  }

  /** A block stands at its own height on every path. */
  lemma AtHeight(v: seq<BlockIndex?>, b: BlockIndex)
    requires IsPath(v) && b in v
    ensures b.nHeight < |v| && v[b.nHeight] == b
  {
    var i :| 0 <= i < |v| && v[i] == b;
    assert |b.Path()| == i + 1;
  }

  lemma CommonBelow(path: seq<BlockIndex>, v: seq<BlockIndex?>, h: nat)
    requires NoneCommon(path, v, h + 1) && h < |path| && h < |v| && path[h] != v[h]
    ensures NoneCommon(path, v, h)
  {
  }

  lemma CommonFound(path: seq<BlockIndex>, v: seq<BlockIndex?>, r: BlockIndex?)
    requires IsPath(path) && IsPath(v) && NoneCommon(path, v, if r == null then 0 else r.nHeight + 1)
    requires r != null ==> r.nHeight < |path| && r.nHeight < |v| && path[r.nHeight] == r == v[r.nHeight]
    ensures IsHighestCommon(r, path, v)
  {
    hide IsPath;
    forall b | b in path && b in v ensures r != null && b.nHeight <= r.nHeight {
      AtHeight(path, b);
      AtHeight(v, b);
    }
  }

  /** The last block that two branches share, or null if they share none. */
  method LastCommonAncestor(a: BlockIndex, b: BlockIndex) returns (r: BlockIndex?)
    requires a.Valid() && a.Skips() && b.Valid() && b.Skips()
    ensures IsHighestCommon(r, a.Path(), b.Path())
  {
    hide BlockIndex.Path, BlockIndex.Valid, BlockIndex.Skips, IsPath, IsHighestCommon;
    var pa: BlockIndex?, pb: BlockIndex? := a, b;
    ghost var x, y := a.Path(), b.Path();
    a.PathTop();
    b.PathTop();
    assert x[..a.nHeight + 1] == x && y[..b.nHeight + 1] == y;
    if a.nHeight > b.nHeight {
      pa := a.GetAncestor(b.nHeight);
      a.PathAt(b.nHeight);
    } else if b.nHeight > a.nHeight {
      pb := b.GetAncestor(a.nHeight);
      b.PathAt(a.nHeight);
    }
    PathIsPath(a);
    PathIsPath(b);
    while pa != pb && pa != null && pb != null
      invariant pa == null <==> pb == null
      invariant pa != null ==> pa.Valid() && pb.Valid() && pa.nHeight == pb.nHeight < |x| && pa.nHeight < |y|
      invariant pa != null ==> pa.Path() == x[..pa.nHeight + 1] && pb.Path() == y[..pa.nHeight + 1]
      invariant NoneCommon(x, y, if pa == null then 0 else pa.nHeight + 1)
      decreases if pa == null then 0 else pa.nHeight + 1
    {
      pa.PathTop();
      pb.PathTop();
      CommonBelow(x, y, pa.nHeight);
      pa, pb := pa.pprev, pb.pprev;
    }
    assert pa == pb;
    if pa != null { pa.PathTop(); }
    CommonFound(x, y, pa);
    r := pa;
  }
}
