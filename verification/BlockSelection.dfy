/** The bookkeeping behind package selection: stale ancestor totals, corrected as ancestors enter the block. */
module BlockSelection {
  import opened Mempool

  /** CTxMemPoolModifiedEntry. */
  datatype Modified = Modified(size: nat, modFees: int, sigOps: nat)

  function FromPool(p: Pool, d: Txid): Modified
    requires Complete(p) && d in p.ancestors
  {
    Modified(p.sizeWith[d], p.modFeesWith[d], p.sigOpsWith[d])
  }

  /** The totals that would be used for an entry: the modified ones if there are any. */
  function Current(p: Pool, m: map<Txid, Modified>, d: Txid): Modified
    requires Complete(p) && d in p.ancestors
  {
    if d in m then m[d] else FromPool(p, d)
  }

  /** The part of an entry's package that is not in the block yet. */
  function Left(p: Pool, inBlock: set<Txid>, d: Txid): set<Txid>
    requires d in p.ancestors
  {
    Full(p, d) - inBlock
  }

  ghost predicate Covers(p: Pool, t: Modified, left: set<Txid>)
    requires Complete(p) && left <= p.ancestors.Keys
  {
    Total(p.size, left) <= t.size && Total(p.sigOps, left) <= t.sigOps
  }

  ghost predicate Exact(p: Pool, t: Modified, left: set<Txid>)
    requires Complete(p) && Acyclic(p) && left <= p.ancestors.Keys
  {
    && Total(p.size, left) == t.size && Total(p.sigOps, left) == t.sigOps
    && (Plain(p) ==> Total(FeeOf(p), left) == t.modFees)
  }

  /** Totals never fall short of what is left of a package, and are exact for entries that have not failed. */
  ghost predicate Tracks(p: Pool, inBlock: set<Txid>, m: map<Txid, Modified>, failed: set<Txid>)
    requires Complete(p) && Acyclic(p)
  {
    && m.Keys <= p.ancestors.Keys && m.Keys !! inBlock
    && forall d | d in p.ancestors && d !in inBlock ::
        && Covers(p, Current(p, m, d), Left(p, inBlock, d))
        && (d !in failed ==> Exact(p, Current(p, m, d), Left(p, inBlock, d)))
  }

  lemma TracksAt(p: Pool, inBlock: set<Txid>, m: map<Txid, Modified>, failed: set<Txid>, d: Txid)
    requires Ok(p) && Tracks(p, inBlock, m, failed) && d in p.ancestors && d !in inBlock
    ensures Left(p, inBlock, d) <= p.ancestors.Keys
    ensures Covers(p, Current(p, m, d), Left(p, inBlock, d))
    ensures d !in failed ==> Exact(p, Current(p, m, d), Left(p, inBlock, d))
  {
  }

  lemma TracksKeys(p: Pool, inBlock: set<Txid>, m: map<Txid, Modified>, failed: set<Txid>)
    requires Complete(p) && Acyclic(p) && Tracks(p, inBlock, m, failed)
    ensures m.Keys <= p.ancestors.Keys && m.Keys !! inBlock
  {
  }

  // ---------------------------------------------------------------- ancestors entering the block

  function Descendants(p: Pool, s: set<Txid>): set<Txid> {
    set d | d in p.ancestors && p.ancestors[d] * s != {}
  }

  /** The effect of UpdatePackagesForAdded on one entry outside `added`. */
  ghost predicate Subtracted(p: Pool, added: set<Txid>, before: Modified, after: Modified, d: Txid)
    requires Complete(p) && Acyclic(p) && d in p.ancestors
  {
    && after.size == before.size - Total(p.size, p.ancestors[d] * added)
    && after.sigOps == before.sigOps - Total(p.sigOps, p.ancestors[d] * added)
    && (Plain(p) ==> after.modFees == before.modFees - Total(FeeOf(p), p.ancestors[d] * added))
  }

  ghost predicate Updated(p: Pool, added: set<Txid>, m: map<Txid, Modified>, n: map<Txid, Modified>)
    requires Complete(p) && Acyclic(p)
  {
    && n.Keys == m.Keys + (Descendants(p, added) - added)
    && forall d | d in p.ancestors && d !in added :: Subtracted(p, added, Current(p, m, d), Current(p, n, d), d)
  }

  ghost predicate Closed(p: Pool, inBlock: set<Txid>) {
    inBlock <= p.ancestors.Keys && forall d | d in inBlock :: p.ancestors[d] <= inBlock
  }

  lemma NoneClosed(p: Pool)
    ensures Closed(p, {})
  {
  }

  lemma ClosedInside(p: Pool, inBlock: set<Txid>)
    requires Closed(p, inBlock)
    ensures inBlock <= p.ancestors.Keys
  {
  }

  lemma EntryTracks(p: Pool, inBlock: set<Txid>, added: set<Txid>, before: Modified, after: Modified, d: Txid)
    requires Complete(p) && Acyclic(p) && d in p.ancestors && d !in inBlock && d !in added && added !! inBlock
    requires Left(p, inBlock, d) <= p.ancestors.Keys
    requires Covers(p, before, Left(p, inBlock, d)) && Subtracted(p, added, before, after, d)
    ensures Covers(p, after, Left(p, inBlock + added, d))
    ensures Exact(p, before, Left(p, inBlock, d)) ==> Exact(p, after, Left(p, inBlock + added, d))
  {
    hide Acyclic, Plain;
    var left, gone := Left(p, inBlock, d), p.ancestors[d] * added;
    assert gone <= left && left - gone == Left(p, inBlock + added, d);
    TotalSubset(p.size, gone, left);
    TotalSubset(p.sigOps, gone, left);
    TotalSubset(FeeOf(p), gone, left);
  }

  /** Adding a package to the block and correcting its descendants keeps every total right. */
  lemma UpdateTracks(p: Pool, inBlock: set<Txid>, added: set<Txid>, m: map<Txid, Modified>, n: map<Txid, Modified>, failed: set<Txid>)
    requires Ok(p) && Tracks(p, inBlock, m, failed) && Closed(p, inBlock)
    requires added <= p.ancestors.Keys && added !! inBlock
    requires Updated(p, added, m - added, n)
    ensures Tracks(p, inBlock + added, n, failed)
  {
    hide Acyclic, Complete, Covers, Exact, Subtracted, Statistics;
    UpdateKeys(p, inBlock, added, m, n);
    forall d | d in p.ancestors && d !in inBlock + added
      ensures Left(p, inBlock + added, d) <= p.ancestors.Keys
      ensures Covers(p, Current(p, n, d), Left(p, inBlock + added, d))
      ensures d !in failed ==> Exact(p, Current(p, n, d), Left(p, inBlock + added, d))
    {
      TracksAt(p, inBlock, m, failed, d);
      assert Current(p, m - added, d) == Current(p, m, d);
      EntryTracks(p, inBlock, added, Current(p, m, d), Current(p, n, d), d);
    }
  }

  lemma UpdateKeys(p: Pool, inBlock: set<Txid>, added: set<Txid>, m: map<Txid, Modified>, n: map<Txid, Modified>)
    requires m.Keys <= p.ancestors.Keys && m.Keys !! inBlock && added !! inBlock && Closed(p, inBlock)
    requires n.Keys == (m - added).Keys + (Descendants(p, added) - added)
    ensures n.Keys <= p.ancestors.Keys && n.Keys !! inBlock + added
  {
    assert forall d | d in Descendants(p, added) :: d !in inBlock;
  }

  /** Before anything is chosen the totals of the mempool are exact. */
  lemma NothingChosen(p: Pool)
    requires Ok(p)
    ensures Tracks(p, {}, map[], {})
  {
    hide Acyclic, Complete, Covers, Exact, Statistics;
    forall d | d in p.ancestors
      ensures Left(p, {}, d) <= p.ancestors.Keys
      ensures Covers(p, Current(p, map[], d), Left(p, {}, d)) && Exact(p, Current(p, map[], d), Left(p, {}, d))
    {
      StaleExact(p, d);
      StaleCovers(p, {}, d);
      assert Left(p, {}, d) == Full(p, d);
    }
  }

  lemma StaleExact(p: Pool, d: Txid)
    requires Ok(p) && d in p.ancestors
    ensures Full(p, d) <= p.ancestors.Keys
    ensures Exact(p, FromPool(p, d), Full(p, d))
  {
    hide Total;
  }

  /** Giving up on an entry. Its totals become the stale ones of the mempool, which can only be larger. */
  lemma FailTracks(p: Pool, inBlock: set<Txid>, m: map<Txid, Modified>, failed: set<Txid>, x: Txid)
    requires Ok(p) && Tracks(p, inBlock, m, failed) && x in p.ancestors
    ensures Tracks(p, inBlock, m - {x}, failed + {x})
  {
    hide Acyclic, Complete, Covers, Exact, Statistics;
    forall d | d in p.ancestors && d !in inBlock
      ensures Left(p, inBlock, d) <= p.ancestors.Keys
      ensures Covers(p, Current(p, m - {x}, d), Left(p, inBlock, d))
      ensures d !in failed + {x} ==> Exact(p, Current(p, m - {x}, d), Left(p, inBlock, d))
    {
      TracksAt(p, inBlock, m, failed, d);
      if d == x { StaleCovers(p, inBlock, d); } else { assert Current(p, m - {x}, d) == Current(p, m, d); }
    }
  }

  lemma StaleCovers(p: Pool, inBlock: set<Txid>, d: Txid)
    requires Ok(p) && d in p.ancestors
    ensures Left(p, inBlock, d) <= p.ancestors.Keys
    ensures Covers(p, FromPool(p, d), Left(p, inBlock, d))
  {
    hide Acyclic, Statistics, Total;
    StaleExact(p, d);
    TotalSubset(p.size, Left(p, inBlock, d), Full(p, d));
    TotalSubset(p.sigOps, Left(p, inBlock, d), Full(p, d));
  }

  // ---------------------------------------------------------------- order

  function Elements(s: seq<Txid>): set<Txid> {
    set x | x in s
  }

  lemma NoElements()
    ensures Elements([]) == {}
  {
  }

  lemma ElementsPush(s: seq<Txid>, x: Txid)
    ensures Elements(s + [x]) == Elements(s) + {x}
  {
  }

  /** Each transaction comes after all its ancestors, and only once. */
  ghost predicate Ordered(p: Pool, ids: seq<Txid>) {
    forall i | 0 <= i < |ids| ::
      && ids[i] in p.ancestors
      && p.ancestors[ids[i]] <= Elements(ids[..i])
      && ids[i] !in Elements(ids[..i])
  }

  lemma OrderedPush(p: Pool, ids: seq<Txid>, x: Txid)
    requires Ordered(p, ids) && x in p.ancestors && p.ancestors[x] <= Elements(ids) && x !in Elements(ids)
    ensures Ordered(p, ids + [x])
  {
    var longer := ids + [x];
    forall i | 0 <= i < |longer|
      ensures longer[i] in p.ancestors && p.ancestors[longer[i]] <= Elements(longer[..i]) && longer[i] !in Elements(longer[..i])
    {
      if i < |ids| { assert longer[..i] == ids[..i]; } else { assert longer[..i] == ids; }
    }
  }

  lemma OrderedClosed(p: Pool, ids: seq<Txid>)
    requires Ordered(p, ids)
    ensures Closed(p, Elements(ids))
  {
    hide Elements;
    forall d | d in Elements(ids) ensures d in p.ancestors && p.ancestors[d] <= Elements(ids) {
      var i := Position(ids, d);
      ElementsPrefix(ids, i);
    }
  }

  lemma Position(ids: seq<Txid>, d: Txid) returns (i: nat)
    requires d in Elements(ids)
    ensures i < |ids| && ids[i] == d
  {
    i :| 0 <= i < |ids| && ids[i] == d;
  }

  lemma ElementsPrefix(ids: seq<Txid>, i: nat)
    requires i <= |ids|
    ensures Elements(ids[..i]) <= Elements(ids)
  {
  }

  /** CompareTxIterByAncestorCount: by ancestor count, then by hash. */
  predicate Before(p: Pool, a: Txid, b: Txid)
    requires Complete(p) && a in p.ancestors && b in p.ancestors
  {
    p.countWith[a] < p.countWith[b] || (p.countWith[a] == p.countWith[b] && a < b)
  }

  ghost predicate Sorted(p: Pool, s: seq<Txid>)
    requires Complete(p) && Elements(s) <= p.ancestors.Keys
  {
    forall i, j | 0 <= i < j < |s| :: s[i] in p.ancestors && s[j] in p.ancestors && Before(p, s[i], s[j])
  }

  /** In a sorted package every ancestor of an entry is in the block already or stands before it. */
  lemma PackageOrder(p: Pool, inBlock: set<Txid>, x: Txid, s: seq<Txid>, i: nat)
    requires Ok(p) && x in p.ancestors && Elements(s) == Left(p, inBlock, x) <= p.ancestors.Keys && Sorted(p, s) && i < |s|
    ensures s[i] in p.ancestors && p.ancestors[s[i]] <= inBlock + Elements(s[..i]) && s[i] !in Elements(s[..i])
  {
    hide Statistics;
    var y := s[i];
    assert y in Elements(s);
    assert p.ancestors[y] <= p.ancestors[x] by { if y != x { AncestorsBelow(p, y, x); } }
    forall a | a in p.ancestors[y] && a !in inBlock ensures a in Elements(s[..i]) {
      assert a in Elements(s);
      var j := Position(s, a);
      AncestorCount(p, a, y);
      assert j < i;
      assert s[..i][j] == a;
    }
  }

  // ---------------------------------------------------------------- the template

  const COINBASE_WEIGHT := 4000
  const COINBASE_SIGOPS := 400

  /** The block under construction, without the place kept for the coinbase at the head of each list. */
  datatype Template = Template(
    vtx: seq<Txid>, vTxFees: seq<int>, vTxSigOpsCost: seq<int>,
    weight: nat, nTx: nat, sigOps: nat, fees: int, inBlock: set<Txid>)

  const EMPTY := Template([], [], [], COINBASE_WEIGHT, 0, COINBASE_SIGOPS, 0, {})

  function Sum(s: seq<int>): int {
    if s == [] then 0 else Sum(s[..|s| - 1]) + s[|s| - 1]
  }

  lemma SumPush(s: seq<int>, x: int)
    ensures Sum(s + [x]) == Sum(s) + x
  {
    assert (s + [x])[..|s|] == s;
  }

  /** What each chosen transaction contributes to the lists. */
  ghost predicate Listed(p: Pool, t: Template)
    requires Complete(p)
  {
    && |t.vtx| == |t.vTxFees| == |t.vTxSigOpsCost|
    && forall i | 0 <= i < |t.vtx| ::
        t.vtx[i] in p.ancestors && t.vTxFees[i] == p.fee[t.vtx[i]] && t.vTxSigOpsCost[i] == p.sigOps[t.vtx[i]]
  }

  /** The counters are the sums over the chosen transactions, which stand in a valid order. */
  ghost predicate Assembled(p: Pool, t: Template)
    requires Complete(p)
  {
    && t.inBlock == Elements(t.vtx) && t.inBlock <= p.ancestors.Keys
    && Ordered(p, t.vtx) && Listed(p, t)
    && t.nTx == |t.vtx|
    && t.weight == COINBASE_WEIGHT + Total(p.weight, t.inBlock)
    && t.sigOps == COINBASE_SIGOPS + Total(p.sigOps, t.inBlock)
    && t.fees == Sum(t.vTxFees)
  }

  lemma EmptyAssembled(p: Pool)
    requires Complete(p)
    ensures Assembled(p, EMPTY)
  {
  }

  function AddTo(p: Pool, t: Template, x: Txid): Template
    requires Complete(p) && x in p.ancestors
  {
    Template(t.vtx + [x], t.vTxFees + [p.fee[x]], t.vTxSigOpsCost + [p.sigOps[x]],
             t.weight + p.weight[x], t.nTx + 1, t.sigOps + p.sigOps[x], t.fees + p.fee[x], t.inBlock + {x})
  }

  lemma AddKeeps(p: Pool, t: Template, x: Txid)
    requires Complete(p) && Assembled(p, t)
    requires x in p.ancestors && x !in t.inBlock && p.ancestors[x] <= t.inBlock
    ensures Assembled(p, AddTo(p, t, x))
  {
    hide Ordered, Elements, Total, Sum;
    ElementsPush(t.vtx, x);
    OrderedPush(p, t.vtx, x);
    SumPush(t.vTxFees, p.fee[x]);
    TotalAdd(p.weight, t.inBlock, x);
    TotalAdd(p.sigOps, t.inBlock, x);
  }

  /** A whole package, one transaction after another. */
  function AddAll(p: Pool, t: Template, s: seq<Txid>): Template
    requires Complete(p) && Elements(s) <= p.ancestors.Keys
  {
    if s == [] then t
    else
      ElementsPrefix(s, |s| - 1);
      assert s[|s| - 1] in Elements(s);
      AddTo(p, AddAll(p, t, s[..|s| - 1]), s[|s| - 1])
  }

  lemma {:induction false} AddAllLists(p: Pool, t: Template, s: seq<Txid>)
    requires Complete(p) && Elements(s) <= p.ancestors.Keys
    ensures AddAll(p, t, s).vtx == t.vtx + s
    ensures AddAll(p, t, s).inBlock == t.inBlock + Elements(s)
  {
    if s != [] {
      var n := |s| - 1;
      ElementsPrefix(s, n);
      assert s == s[..n] + [s[n]];
      ElementsPush(s[..n], s[n]);
      AddAllLists(p, t, s[..n]);
    }
  }

  /** A sorted package leaves the template in a valid order, with exact counters. */
  lemma {:induction false} PackageKeeps(p: Pool, t: Template, x: Txid, s: seq<Txid>, n: nat)
    requires Ok(p) && Assembled(p, t) && x in p.ancestors && n <= |s|
    requires Elements(s) == Left(p, t.inBlock, x) <= p.ancestors.Keys && Sorted(p, s)
    ensures Elements(s[..n]) <= p.ancestors.Keys
    ensures Assembled(p, AddAll(p, t, s[..n]))
    decreases n
  {
    hide Assembled, Acyclic, Statistics, Sorted, AddTo, Left, Elements;
    ElementsPrefix(s, n);
    if n == 0 {
      assert s[..0] == [];
    } else {
      PackageKeeps(p, t, x, s, n - 1);
      PackageOrder(p, t.inBlock, x, s, n - 1);
      AddAllLists(p, t, s[..n - 1]);
      assert s[..n][..n - 1] == s[..n - 1];
      Fresh(p, t, x, s, n - 1);
      AddKeeps(p, AddAll(p, t, s[..n - 1]), s[n - 1]);
    }
  }

  lemma Fresh(p: Pool, t: Template, x: Txid, s: seq<Txid>, i: nat)
    requires x in p.ancestors && i < |s| && Elements(s) == Left(p, t.inBlock, x)
    ensures s[i] !in t.inBlock
  {
    assert s[i] in Elements(s);
  }

  /** The size test on the tracked totals is enough for the true weight and signature cost of the package. */
  lemma PackageFits(p: Pool, t: Template, m: map<Txid, Modified>, failed: set<Txid>, x: Txid, s: seq<Txid>, maxWeight: nat, maxSigOps: nat)
    requires Ok(p) && Assembled(p, t) && x in p.ancestors && x !in t.inBlock && Tracks(p, t.inBlock, m, failed)
    requires Elements(s) == Left(p, t.inBlock, x) <= p.ancestors.Keys && Sorted(p, s)
    requires t.weight + 4 * Current(p, m, x).size < maxWeight && t.sigOps + Current(p, m, x).sigOps < maxSigOps
    ensures Assembled(p, AddAll(p, t, s))
    ensures AddAll(p, t, s).weight < maxWeight && AddAll(p, t, s).sigOps < maxSigOps
  {
    hide Acyclic, Statistics, Sorted, AddTo, Elements, Ordered, AddAll, Total, Tracks, Listed;
    var left := Left(p, t.inBlock, x);
    assert s[..|s|] == s;
    PackageKeeps(p, t, x, s, |s|);
    AddAllLists(p, t, s);
    TracksAt(p, t.inBlock, m, failed, x);
    WeightsBounded(p, left);
    TotalJoin(p.weight, t.inBlock, left);
    TotalJoin(p.sigOps, t.inBlock, left);
  }
}
