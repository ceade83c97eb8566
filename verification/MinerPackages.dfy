/** The steps of package selection: correcting descendants, sorting, and what the rest of the node decides. */
module MinerPackages {
  import opened Basics
  import opened Mempool
  import opened BlockSelection

  const MAX_BLOCK_SIGOPS_COST := 80000
  const WITNESS_SCALE_FACTOR := 4
  const MAX_CONSECUTIVE_FAILURES := 1000

  /** What selection asks of the rest of the node: lock times, witnesses, fees and the social consensus. */
  datatype Rules = Rules(
    isFinal: Txid -> bool,
    hasWitness: Txid -> bool,
    minFee: (Txid, nat) -> int,
    payload: Txid -> Option<Payload>,
    check: Txid -> bool,
    validate: (Txid, seq<Payload>) -> bool)

  /** The payloads of a list of transactions, in order. */
  ghost predicate Carries(r: Rules, ids: seq<Txid>, pocket: seq<Payload>) {
    |pocket| == |ids| && forall i | 0 <= i < |ids| :: r.payload(ids[i]) == Some(pocket[i])
  }

  lemma CarriesJoin(r: Rules, a: seq<Txid>, b: seq<Txid>, x: seq<Payload>, y: seq<Payload>)
    requires Carries(r, a, x) && Carries(r, b, y)
    ensures Carries(r, a + b, x + y)
  {
  }

  /** A transaction that may enter a block whose payloads so far are `before`. */
  predicate Passes(r: Rules, includeWitness: bool, x: Txid, before: seq<Payload>) {
    r.isFinal(x) && (includeWitness || !r.hasWitness(x)) && r.check(x) && r.validate(x, before)
  }

  /** Every transaction passed on top of exactly those that precede it. */
  ghost predicate Vetted(r: Rules, includeWitness: bool, ids: seq<Txid>, pocket: seq<Payload>) {
    |pocket| == |ids| && forall i | 0 <= i < |ids| :: Passes(r, includeWitness, ids[i], pocket[..i])
  }

  lemma VettedJoin(r: Rules, w: bool, ids: seq<Txid>, pocket: seq<Payload>, s: seq<Txid>, pblock: seq<Payload>)
    requires Vetted(r, w, ids, pocket) && |pblock| == |s|
    requires forall i | 0 <= i < |s| :: Passes(r, w, s[i], pocket + pblock[..i])
    ensures Vetted(r, w, ids + s, pocket + pblock)
  {
    hide Passes;
    var all, payloads := ids + s, pocket + pblock;
    forall i | 0 <= i < |all| ensures Passes(r, w, all[i], payloads[..i]) {
      if i < |ids| {
        assert payloads[..i] == pocket[..i];
      } else {
        assert payloads[..i] == pocket + pblock[..i - |ids|];
        assert Passes(r, w, s[i - |ids|], pocket + pblock[..i - |ids|]);
      }
    }
  }

  /** The social consensus accepts a list of transactions one after another. */
  predicate PocketOk(r: Rules, s: seq<Txid>, template: seq<Payload>) {
    s != [] ==>
      && r.payload(s[0]).Some? && r.check(s[0]) && r.validate(s[0], template)
      && PocketOk(r, s[1..], template + [r.payload(s[0]).value])
  }

  // ---------------------------------------------------------------- correcting the descendants

  /** While the ancestors in `done` have been subtracted. */
  ghost predicate Partly(p: Pool, done: set<Txid>, m: map<Txid, Modified>, n: map<Txid, Modified>, d: Txid)
    requires Complete(p) && Acyclic(p) && d in p.ancestors
  {
    && (d in n <==> d in m || p.ancestors[d] * done != {})
    && Subtracted(p, done, Current(p, m, d), Current(p, n, d), d)
  }

  /** The totals are large enough for everything that will be subtracted. */
  ghost predicate Ample(p: Pool, added: set<Txid>, m: map<Txid, Modified>)
    requires Complete(p) && Acyclic(p)
  {
    forall d | d in p.ancestors && d !in added ::
      && Total(p.size, p.ancestors[d] * added) <= Current(p, m, d).size
      && Total(p.sigOps, p.ancestors[d] * added) <= Current(p, m, d).sigOps
  }

  lemma OneMore(p: Pool, f: map<Txid, nat>, done: set<Txid>, it: Txid, d: Txid)
    requires Acyclic(p) && f.Keys == p.ancestors.Keys && d in p.ancestors && it !in done
    ensures p.ancestors[d] * done <= f.Keys && p.ancestors[d] * (done + {it}) <= f.Keys
    ensures it in p.ancestors[d] ==>
      Total(f, p.ancestors[d] * (done + {it})) == Total(f, p.ancestors[d] * done) + f[it]
    ensures it !in p.ancestors[d] ==> p.ancestors[d] * (done + {it}) == p.ancestors[d] * done
  {
    hide Total;
    if it in p.ancestors[d] {
      assert p.ancestors[d] * (done + {it}) == p.ancestors[d] * done + {it};
      TotalAdd(f, p.ancestors[d] * done, it);
    }
  }

  lemma PartOf(p: Pool, f: map<Txid, nat>, done: set<Txid>, added: set<Txid>, d: Txid)
    requires Acyclic(p) && f.Keys == p.ancestors.Keys && d in p.ancestors && done <= added
    ensures p.ancestors[d] * done <= f.Keys && p.ancestors[d] * added <= f.Keys
    ensures Total(f, p.ancestors[d] * done) <= Total(f, p.ancestors[d] * added)
  {
    hide Total;
    TotalSubset(f, p.ancestors[d] * done, p.ancestors[d] * added);
  }

  /** An entry that does not descend from `it` is not affected by it. */
  lemma PartlyOther(p: Pool, done: set<Txid>, it: Txid, m: map<Txid, Modified>, n: map<Txid, Modified>, d: Txid)
    requires Complete(p) && Acyclic(p) && d in p.ancestors && it !in p.ancestors[d]
    requires Partly(p, done, m, n, d)
    ensures Partly(p, done + {it}, m, n, d)
  {
    assert p.ancestors[d] * (done + {it}) == p.ancestors[d] * done;
  }

  lemma PartlyStart(p: Pool, m: map<Txid, Modified>, d: Txid)
    requires Complete(p) && Acyclic(p) && d in p.ancestors
    ensures Partly(p, {}, m, m, d)
  {
    assert p.ancestors[d] * {} == {};
  }

  lemma PartlyAll(p: Pool, added: set<Txid>, m: map<Txid, Modified>, n: map<Txid, Modified>)
    requires Complete(p) && Acyclic(p) && m.Keys <= p.ancestors.Keys && n.Keys <= p.ancestors.Keys
    requires m.Keys !! added && n.Keys !! added
    requires forall d | d in p.ancestors && d !in added :: Partly(p, added, m, n, d)
    ensures Updated(p, added, m, n)
  {
    hide Acyclic, Complete, Subtracted;
    forall d ensures d in n.Keys <==> d in m.Keys + (Descendants(p, added) - added) {
      if d in p.ancestors && d !in added { assert Partly(p, added, m, n, d); }
    }
  }

  /** Totals that cover what is left of every package cover the part that is being added. */
  lemma TracksAmple(p: Pool, inBlock: set<Txid>, added: set<Txid>, m: map<Txid, Modified>, failed: set<Txid>)
    requires Ok(p) && Tracks(p, inBlock, m, failed) && added <= p.ancestors.Keys && added !! inBlock && Closed(p, inBlock)
    ensures Ample(p, added, m - added)
  {
    hide Statistics, Total, Covers, Exact;
    forall d | d in p.ancestors && d !in added
      ensures p.ancestors[d] * added <= p.ancestors.Keys
      ensures Total(p.size, p.ancestors[d] * added) <= Current(p, m - added, d).size
      ensures Total(p.sigOps, p.ancestors[d] * added) <= Current(p, m - added, d).sigOps
    {
      assert Current(p, m - added, d) == Current(p, m, d);
      if d in inBlock { NoneInside(p, inBlock, added, d); } else { AmpleAt(p, inBlock, added, m, failed, d); }
    }
  }

  lemma NoneInside(p: Pool, inBlock: set<Txid>, added: set<Txid>, d: Txid)
    requires Complete(p) && Closed(p, inBlock) && added !! inBlock && d in inBlock
    ensures Total(p.size, p.ancestors[d] * added) == 0 && Total(p.sigOps, p.ancestors[d] * added) == 0
  {
    assert p.ancestors[d] * added == {};
  }

  lemma AmpleAt(p: Pool, inBlock: set<Txid>, added: set<Txid>, m: map<Txid, Modified>, failed: set<Txid>, d: Txid)
    requires Ok(p) && Tracks(p, inBlock, m, failed) && added !! inBlock
    requires d in p.ancestors && d !in added && d !in inBlock
    ensures p.ancestors[d] * added <= p.ancestors.Keys
    ensures Total(p.size, p.ancestors[d] * added) <= Current(p, m, d).size
    ensures Total(p.sigOps, p.ancestors[d] * added) <= Current(p, m, d).sigOps
  {
    hide Statistics, Total, Acyclic;
    TracksAt(p, inBlock, m, failed, d);
    var left := Left(p, inBlock, d);
    assert p.ancestors[d] * added <= left;
    TotalSubset(p.size, p.ancestors[d] * added, left);
    TotalSubset(p.sigOps, p.ancestors[d] * added, left);
  }

  /** One parent less. A first correction subtracts the modified fee, later ones the base fee. */
  function LessParent(p: Pool, n: map<Txid, Modified>, it: Txid, d: Txid): Modified
    requires Complete(p) && it in p.ancestors && d in p.ancestors
    requires Current(p, n, d).size >= p.size[it] && Current(p, n, d).sigOps >= p.sigOps[it]
  {
    var e := Current(p, n, d);
    Modified(e.size - p.size[it], e.modFees - (if d in n then p.fee[it] else p.modifiedFee[it]), e.sigOps - p.sigOps[it])
  }

  /** Subtracting `it` from one of its descendants. */
  lemma PartlyNext(p: Pool, done: set<Txid>, it: Txid, added: set<Txid>, m: map<Txid, Modified>,
                   n: map<Txid, Modified>, d: Txid)
    requires Complete(p) && Acyclic(p) && d in p.ancestors && it in p.ancestors[d]
    requires done + {it} <= added && it !in done && d !in added && Ample(p, added, m)
    requires Partly(p, done, m, n, d)
    ensures it in p.ancestors && Current(p, n, d).size >= p.size[it] && Current(p, n, d).sigOps >= p.sigOps[it]
    ensures Partly(p, done + {it}, m, n[d := LessParent(p, n, it, d)], d)
  {
    hide Total, Plain, Subtracted, Acyclic, Ample, Complete;
    NextAmple(p, done, it, added, m, d);
    PlainFee(p, it);
    SubtractMore(p, done, it, Current(p, m, d), Current(p, n, d), d, if d in n then p.fee[it] else p.modifiedFee[it]);
    NextCurrent(p, n, it, d);
  }

  lemma NextCurrent(p: Pool, n: map<Txid, Modified>, it: Txid, d: Txid)
    requires Complete(p) && it in p.ancestors && d in p.ancestors
    requires Current(p, n, d).size >= p.size[it] && Current(p, n, d).sigOps >= p.sigOps[it]
    ensures
      var e := Current(p, n, d);
      Current(p, n[d := LessParent(p, n, it, d)], d)
        == Modified(e.size - p.size[it], e.modFees - (if d in n then p.fee[it] else p.modifiedFee[it]), e.sigOps - p.sigOps[it])
  {
  }

  lemma NextAmple(p: Pool, done: set<Txid>, it: Txid, added: set<Txid>, m: map<Txid, Modified>, d: Txid)
    requires Complete(p) && Acyclic(p) && d in p.ancestors && it in p.ancestors[d]
    requires done + {it} <= added && d !in added && Ample(p, added, m)
    ensures it in p.ancestors && it in p.ancestors[d] * (done + {it}) && p.ancestors[d] * (done + {it}) <= p.ancestors.Keys
    ensures p.size.Keys == p.sigOps.Keys == p.fee.Keys == p.modifiedFee.Keys == p.ancestors.Keys
    ensures Total(p.size, p.ancestors[d] * (done + {it})) <= Current(p, m, d).size
    ensures Total(p.sigOps, p.ancestors[d] * (done + {it})) <= Current(p, m, d).sigOps
  {
    hide Total;
    PartOf(p, p.size, done + {it}, added, d);
    PartOf(p, p.sigOps, done + {it}, added, d);
  }

  lemma PlainFee(p: Pool, x: Txid)
    requires Complete(p) && Acyclic(p) && x in p.ancestors
    ensures Plain(p) ==> p.modifiedFee[x] == p.fee[x] == FeeOf(p)[x]
  {
  }

  lemma SubtractMore(p: Pool, done: set<Txid>, it: Txid, before: Modified, after: Modified, d: Txid, fee: int)
    requires Complete(p) && Acyclic(p) && d in p.ancestors && it in p.ancestors && it in p.ancestors[d] && it !in done
    requires Subtracted(p, done, before, after, d) && (Plain(p) ==> fee == FeeOf(p)[it])
    requires p.ancestors[d] * (done + {it}) <= p.ancestors.Keys
    requires Total(p.size, p.ancestors[d] * (done + {it})) <= before.size
    requires Total(p.sigOps, p.ancestors[d] * (done + {it})) <= before.sigOps
    ensures after.size >= p.size[it] && after.sigOps >= p.sigOps[it]
    ensures Subtracted(p, done + {it}, before, Modified(after.size - p.size[it], after.modFees - fee, after.sigOps - p.sigOps[it]), d)
  {
    hide Total, Plain, Acyclic;
    OneMore(p, p.size, done, it, d);
    OneMore(p, p.sigOps, done, it, d);
    OneMore(p, FeeOf(p), done, it, d);
  }

  lemma PartlyFrame(p: Pool, done: set<Txid>, m: map<Txid, Modified>, n: map<Txid, Modified>, x: Txid, v: Modified, d: Txid)
    requires Complete(p) && Acyclic(p) && d in p.ancestors && d != x && Partly(p, done, m, n, d)
    ensures Partly(p, done, m, n[x := v], d)
  {
  }

  /** How far the loop over the descendants of `it` has come. */
  ghost predicate Halfway(p: Pool, added: set<Txid>, done: set<Txid>, it: Txid, todo: set<Txid>, m: map<Txid, Modified>, n: map<Txid, Modified>)
    requires Complete(p) && Acyclic(p)
  {
    && n.Keys <= p.ancestors.Keys && n.Keys !! added
    && forall d | d in p.ancestors && d !in added :: Partly(p, if d in todo then done else done + {it}, m, n, d)
  }

  lemma HalfwayStart(p: Pool, added: set<Txid>, done: set<Txid>, it: Txid, todo: set<Txid>, m: map<Txid, Modified>, n: map<Txid, Modified>)
    requires Complete(p) && Acyclic(p) && n.Keys <= p.ancestors.Keys && n.Keys !! added
    requires forall d | d in p.ancestors && d !in added :: Partly(p, done, m, n, d)
    requires forall d | d in p.ancestors && it in p.ancestors[d] :: d in todo
    ensures Halfway(p, added, done, it, todo, m, n)
  {
    hide Partly, Acyclic, Complete;
    forall d | d in p.ancestors && d !in added ensures Partly(p, if d in todo then done else done + {it}, m, n, d) {
      if d !in todo { PartlyOther(p, done, it, m, n, d); }
    }
  }

  lemma HalfwaySkip(p: Pool, added: set<Txid>, done: set<Txid>, it: Txid, todo: set<Txid>, m: map<Txid, Modified>, n: map<Txid, Modified>, x: Txid)
    requires Complete(p) && Acyclic(p) && Halfway(p, added, done, it, todo, m, n) && x in added
    ensures Halfway(p, added, done, it, todo - {x}, m, n)
  {
    hide Partly, Acyclic, Complete;
    forall d | d in p.ancestors && d !in added ensures Partly(p, if d in todo - {x} then done else done + {it}, m, n, d) {
      assert d in todo - {x} <==> d in todo;
    }
  }

  lemma HalfwayNext(p: Pool, added: set<Txid>, done: set<Txid>, it: Txid, todo: set<Txid>, m: map<Txid, Modified>, n: map<Txid, Modified>, x: Txid)
    requires Complete(p) && Acyclic(p) && Halfway(p, added, done, it, todo, m, n) && Ample(p, added, m)
    requires x in p.ancestors && x in todo && x !in added && it in p.ancestors[x]
    requires done + {it} <= added && it !in done
    ensures it in p.ancestors && Current(p, n, x).size >= p.size[it] && Current(p, n, x).sigOps >= p.sigOps[it]
    ensures Halfway(p, added, done, it, todo - {x}, m, n[x := LessParent(p, n, it, x)])
  {
    hide Partly, Ample, Acyclic, Current, LessParent;
    assert Partly(p, done, m, n, x);
    PartlyNext(p, done, it, added, m, n, x);
    var v := LessParent(p, n, it, x);
    assert n[x := v].Keys == n.Keys + {x};
    forall d | d in p.ancestors && d !in added
      ensures Partly(p, if d in todo - {x} then done else done + {it}, m, n[x := v], d)
    {
      if d != x { PartlyFrame(p, if d in todo then done else done + {it}, m, n, x, v, d); }
    }
  }

  lemma HalfwayEnd(p: Pool, added: set<Txid>, done: set<Txid>, it: Txid, m: map<Txid, Modified>, n: map<Txid, Modified>)
    requires Complete(p) && Acyclic(p) && Halfway(p, added, done, it, {}, m, n)
    ensures n.Keys <= p.ancestors.Keys && n.Keys !! added
    ensures forall d | d in p.ancestors && d !in added :: Partly(p, done + {it}, m, n, d)
  {
    hide Partly, Acyclic, Complete;
  }

  // ---------------------------------------------------------------- sorting a package

  lemma {:induction false} HasFirst(p: Pool, s: set<Txid>)
    requires Complete(p) && s <= p.ancestors.Keys && s != {}
    ensures exists x | x in s :: forall y | y in s && y != x :: Before(p, x, y)
    decreases |s|
  {
    var x := Sets.Pick(s);
    var rest := s - {x};
    assert forall y | y in s :: y == x || y in rest;
    if rest == {} {
      assert forall y | y in s && y != x :: Before(p, x, y);
    } else {
      HasFirst(p, rest);
      var y :| y in rest && forall z | z in rest && z != y :: Before(p, y, z);
      var first := if Before(p, x, y) then x else y;
      assert first in s && forall z | z in s && z != first :: Before(p, first, z);
    }
  }

  /** Everything placed so far comes before everything that remains. */
  ghost predicate Ahead(p: Pool, sorted: seq<Txid>, rest: set<Txid>)
    requires Complete(p) && Elements(sorted) <= p.ancestors.Keys && rest <= p.ancestors.Keys
  {
    Sorted(p, sorted) && forall x, y | x in Elements(sorted) && y in rest :: Before(p, x, y)
  }

  lemma AheadPush(p: Pool, sorted: seq<Txid>, rest: set<Txid>, x: Txid)
    requires Complete(p) && Elements(sorted) <= p.ancestors.Keys && rest <= p.ancestors.Keys
    requires Ahead(p, sorted, rest) && x in rest && forall y | y in rest && y != x :: Before(p, x, y)
    ensures Elements(sorted + [x]) == Elements(sorted) + {x}
    ensures Ahead(p, sorted + [x], rest - {x})
  {
    hide Complete, Before;
    ElementsPush(sorted, x);
    assert forall i | 0 <= i < |sorted| :: sorted[i] in Elements(sorted);
  }

  method SortForBlock(p: Pool, package: set<Txid>) returns (sorted: seq<Txid>)
    requires Complete(p) && package <= p.ancestors.Keys
    ensures Elements(sorted) == package && Sorted(p, sorted) && |sorted| == |package|
  {
    hide Complete, Before;
    sorted := [];
    var rest := package;
    while rest != {}
      invariant rest <= package && Elements(sorted) == package - rest
      invariant Ahead(p, sorted, rest) && |sorted| == |package| - |rest|
      decreases |rest|
    {
      hide Ahead;
      HasFirst(p, rest);
      var x :| x in rest && forall y | y in rest && y != x :: Before(p, x, y);
      AheadPush(p, sorted, rest, x);
      sorted := sorted + [x];
      rest := rest - {x};
    }
  }

  // ---------------------------------------------------------------- the template and its limits

  /** What holds of the template at all times. */
  ghost predicate Sound(p: Pool, r: Rules, w: bool, t: Template, pocket: seq<Payload>, maxWeight: nat)
    requires Complete(p)
  {
    && Assembled(p, t) && Carries(r, t.vtx, pocket) && Vetted(r, w, t.vtx, pocket)
    && t.weight <= maxWeight && t.sigOps < MAX_BLOCK_SIGOPS_COST
  }

  lemma EmptySound(p: Pool, r: Rules, w: bool, maxWeight: nat)
    requires Complete(p) && COINBASE_WEIGHT <= maxWeight
    ensures Sound(p, r, w, EMPTY, [], maxWeight)
  {
    hide Complete, Assembled;
    EmptyAssembled(p);
  }

  /** A package that passed all tests. */
  ghost predicate Accepted(p: Pool, r: Rules, w: bool, t: Template, pocket: seq<Payload>, x: Txid, s: seq<Txid>, pblock: seq<Payload>)
    requires Complete(p) && x in p.ancestors
  {
    && Elements(s) == Left(p, t.inBlock, x) <= p.ancestors.Keys && Sorted(p, s)
    && Carries(r, s, pblock)
    && forall i | 0 <= i < |s| :: Passes(r, w, s[i], pocket + pblock[..i])
  }

  lemma SoundAfter(p: Pool, r: Rules, w: bool, t: Template, pocket: seq<Payload>, maxWeight: nat,
                   m: map<Txid, Modified>, failed: set<Txid>, x: Txid, s: seq<Txid>, pblock: seq<Payload>)
    requires Ok(p) && Sound(p, r, w, t, pocket, maxWeight) && Tracks(p, t.inBlock, m, failed)
    requires x in p.ancestors && x !in t.inBlock && Accepted(p, r, w, t, pocket, x, s, pblock)
    requires t.weight + WITNESS_SCALE_FACTOR * Current(p, m, x).size < maxWeight
    requires t.sigOps + Current(p, m, x).sigOps < MAX_BLOCK_SIGOPS_COST
    ensures Sound(p, r, w, AddAll(p, t, s), pocket + pblock, maxWeight)
    ensures t.vtx <= AddAll(p, t, s).vtx
    ensures AddAll(p, t, s).inBlock == t.inBlock + Elements(s) && x in Elements(s)
  {
    hide Complete, Acyclic, Statistics, Assembled, Tracks, Sorted, AddAll, Current, Passes;
    PackageFits(p, t, m, failed, x, s, maxWeight, MAX_BLOCK_SIGOPS_COST);
    AddAllLists(p, t, s);
    CarriesJoin(r, t.vtx, s, pocket, pblock);
    VettedJoin(r, w, t.vtx, pocket, s, pblock);
  }

  lemma SoundClosed(p: Pool, r: Rules, w: bool, t: Template, pocket: seq<Payload>, maxWeight: nat)
    requires Complete(p) && Sound(p, r, w, t, pocket, maxWeight)
    ensures Closed(p, t.inBlock)
  {
    hide Complete, Closed, Ordered;
    OrderedClosed(p, t.vtx);
  }

  lemma AcceptedApart(p: Pool, r: Rules, w: bool, t: Template, pocket: seq<Payload>, x: Txid, s: seq<Txid>, pblock: seq<Payload>)
    requires Complete(p) && x in p.ancestors && Accepted(p, r, w, t, pocket, x, s, pblock)
    ensures Elements(s) <= p.ancestors.Keys && Elements(s) !! t.inBlock
  {
  }

  lemma FewerLeft(all: set<Txid>, before: set<Txid>, after: set<Txid>, x: Txid)
    requires x in all && x !in before && x in after && before <= after
    ensures |all - after| < |all - before|
  {
    SubsetSize(all - after, all - before - {x});
  }

  // ---------------------------------------------------------------- transactions passed over

  ghost predicate TooBig(p: Pool, maxWeight: nat, chosen: set<Txid>, x: Txid)
    requires Complete(p) && x in p.ancestors && chosen <= p.ancestors.Keys && Left(p, chosen, x) <= p.ancestors.Keys
  {
    || COINBASE_WEIGHT + Total(p.weight, chosen) + WITNESS_SCALE_FACTOR * Total(p.size, Left(p, chosen, x)) >= maxWeight
    || COINBASE_SIGOPS + Total(p.sigOps, chosen) + Total(p.sigOps, Left(p, chosen, x)) >= MAX_BLOCK_SIGOPS_COST
  }

  /** The contents of a package do not pass. */
  ghost predicate Unfit(p: Pool, r: Rules, w: bool, pocket: seq<Payload>, left: set<Txid>)
    requires Complete(p) && left <= p.ancestors.Keys
  {
    || (exists y | y in left :: !r.isFinal(y) || (!w && r.hasWitness(y)))
    || (exists s | Elements(s) == left :: Sorted(p, s) && !PocketOk(r, s, pocket))
  }

  /** On top of these transactions, the rest of the package of `x` is too big or not fit. */
  ghost predicate Refused(p: Pool, r: Rules, w: bool, maxWeight: nat, ids: seq<Txid>, pocket: seq<Payload>, x: Txid)
    requires Complete(p) && Acyclic(p)
  {
    && x in p.ancestors && Elements(ids) <= p.ancestors.Keys && x !in Elements(ids)
    && (TooBig(p, maxWeight, Elements(ids), x) || Unfit(p, r, w, pocket, Left(p, Elements(ids), x)))
  }

  /** The package of `x` was refused at some point on the way to this block. */
  ghost predicate PassedOver(p: Pool, r: Rules, w: bool, maxWeight: nat, vtx: seq<Txid>, pocket: seq<Payload>, x: Txid)
    requires Complete(p) && Acyclic(p)
  {
    |pocket| == |vtx| && exists k | 0 <= k <= |vtx| :: Refused(p, r, w, maxWeight, vtx[..k], pocket[..k], x)
  }

  lemma PassedOverNow(p: Pool, r: Rules, w: bool, maxWeight: nat, vtx: seq<Txid>, pocket: seq<Payload>, x: Txid)
    requires Complete(p) && Acyclic(p) && |pocket| == |vtx| && Refused(p, r, w, maxWeight, vtx, pocket, x)
    ensures PassedOver(p, r, w, maxWeight, vtx, pocket, x)
  {
    assert vtx[..|vtx|] == vtx && pocket[..|vtx|] == pocket;
  }

  lemma PassedOverStays(p: Pool, r: Rules, w: bool, maxWeight: nat, vtx: seq<Txid>, pocket: seq<Payload>,
                        more: seq<Txid>, payloads: seq<Payload>, x: Txid)
    requires Complete(p) && Acyclic(p) && |payloads| == |more|
    requires PassedOver(p, r, w, maxWeight, vtx, pocket, x)
    ensures PassedOver(p, r, w, maxWeight, vtx + more, pocket + payloads, x)
  {
    hide Refused;
    var k :| 0 <= k <= |vtx| && Refused(p, r, w, maxWeight, vtx[..k], pocket[..k], x);
    assert (vtx + more)[..k] == vtx[..k] && (pocket + payloads)[..k] == pocket[..k];
  }

  /** An entry that has not failed before is judged on exact totals. */
  lemma SizeRefused(p: Pool, r: Rules, w: bool, maxWeight: nat, t: Template, pocket: seq<Payload>,
                    m: map<Txid, Modified>, failed: set<Txid>, x: Txid)
    requires Ok(p) && Sound(p, r, w, t, pocket, maxWeight) && Tracks(p, t.inBlock, m, failed)
    requires x in p.ancestors && x !in t.inBlock && x !in failed
    requires || t.weight + WITNESS_SCALE_FACTOR * Current(p, m, x).size >= maxWeight
             || t.sigOps + Current(p, m, x).sigOps >= MAX_BLOCK_SIGOPS_COST
    ensures Refused(p, r, w, maxWeight, t.vtx, pocket, x) && TooBig(p, maxWeight, Elements(t.vtx), x)
  {
    hide Acyclic, Statistics, Tracks, Carries, Vetted, Ordered, Listed, Total, Unfit;
    TracksAt(p, t.inBlock, m, failed, x);
  }

  lemma ContentsRefused(p: Pool, r: Rules, w: bool, maxWeight: nat, t: Template, pocket: seq<Payload>, x: Txid)
    requires Ok(p) && Sound(p, r, w, t, pocket, maxWeight)
    requires x in p.ancestors && x !in t.inBlock && Left(p, t.inBlock, x) <= p.ancestors.Keys
    requires Unfit(p, r, w, pocket, Left(p, t.inBlock, x))
    ensures Refused(p, r, w, maxWeight, t.vtx, pocket, x)
  {
    hide Statistics, Carries, Vetted, Ordered, Listed, Total, Unfit;
  }

  lemma SoundLengths(p: Pool, r: Rules, w: bool, t: Template, pocket: seq<Payload>, maxWeight: nat)
    requires Complete(p) && Sound(p, r, w, t, pocket, maxWeight)
    ensures |pocket| == |t.vtx|
  {
  }

  ghost predicate AllPassed(p: Pool, r: Rules, w: bool, maxWeight: nat, vtx: seq<Txid>, pocket: seq<Payload>, passed: set<Txid>)
    requires Complete(p) && Acyclic(p)
  {
    forall x | x in passed :: PassedOver(p, r, w, maxWeight, vtx, pocket, x)
  }

  lemma AllPassedStays(p: Pool, r: Rules, w: bool, maxWeight: nat, vtx: seq<Txid>, pocket: seq<Payload>,
                       more: seq<Txid>, payloads: seq<Payload>, passed: set<Txid>)
    requires Complete(p) && Acyclic(p) && |payloads| == |more|
    requires AllPassed(p, r, w, maxWeight, vtx, pocket, passed)
    ensures AllPassed(p, r, w, maxWeight, vtx + more, pocket + payloads, passed)
  {
    hide PassedOver, Complete, Acyclic;
    forall x | x in passed ensures PassedOver(p, r, w, maxWeight, vtx + more, pocket + payloads, x) {
      PassedOverStays(p, r, w, maxWeight, vtx, pocket, more, payloads, x);
    }
  }

  lemma AllPassedNow(p: Pool, r: Rules, w: bool, maxWeight: nat, vtx: seq<Txid>, pocket: seq<Payload>, passed: set<Txid>, x: Txid)
    requires Complete(p) && Acyclic(p) && |pocket| == |vtx|
    requires AllPassed(p, r, w, maxWeight, vtx, pocket, passed)
    requires x in passed || Refused(p, r, w, maxWeight, vtx, pocket, x)
    ensures AllPassed(p, r, w, maxWeight, vtx, pocket, passed + {x})
  {
    hide PassedOver, Complete, Acyclic, Refused;
    if x !in passed { PassedOverNow(p, r, w, maxWeight, vtx, pocket, x); }
  }

  /** Every entry the iterator has left behind is in the block, waits among the modified, or was passed over. */
  ghost predicate Seen(order: seq<Txid>, mi: nat, inBlock: set<Txid>, waiting: set<Txid>, passed: set<Txid>) {
    mi <= |order| && forall j | 0 <= j < mi :: order[j] in inBlock || order[j] in waiting || order[j] in passed
  }

  lemma NonePassed(p: Pool, r: Rules, w: bool, maxWeight: nat, vtx: seq<Txid>, pocket: seq<Payload>)
    requires Complete(p) && Acyclic(p)
    ensures AllPassed(p, r, w, maxWeight, vtx, pocket, {})
  {
  }

  lemma AllPassedAt(p: Pool, r: Rules, w: bool, maxWeight: nat, vtx: seq<Txid>, pocket: seq<Payload>, passed: set<Txid>)
    requires Complete(p) && Acyclic(p) && AllPassed(p, r, w, maxWeight, vtx, pocket, passed)
    ensures forall x | x in passed :: PassedOver(p, r, w, maxWeight, vtx, pocket, x)
  {
    hide PassedOver;
  }

  lemma AcceptedLengths(p: Pool, r: Rules, w: bool, t: Template, pocket: seq<Payload>, x: Txid, s: seq<Txid>, pblock: seq<Payload>)
    requires Complete(p) && x in p.ancestors && Accepted(p, r, w, t, pocket, x, s, pblock)
    ensures |s| == |pblock|
  {
  }

  lemma UpdatedKeeps(p: Pool, added: set<Txid>, m: map<Txid, Modified>, n: map<Txid, Modified>)
    requires Complete(p) && Acyclic(p) && Updated(p, added, m, n)
    ensures m.Keys <= n.Keys
  {
    hide Subtracted;
  }

  lemma SeenMore(order: seq<Txid>, mi: nat, inBlock: set<Txid>, waiting: set<Txid>, passed: set<Txid>,
                 mi': nat, inBlock': set<Txid>, waiting': set<Txid>, passed': set<Txid>)
    requires Seen(order, mi, inBlock, waiting, passed)
    requires inBlock <= inBlock' && waiting <= waiting' + inBlock' + passed' && passed <= passed'
    requires mi' == mi || (mi' == mi + 1 <= |order| && order[mi] in inBlock' + waiting' + passed')
    ensures Seen(order, mi', inBlock', waiting', passed')
  {
  }

  lemma NoneSeen(order: seq<Txid>, inBlock: set<Txid>, waiting: set<Txid>, passed: set<Txid>)
    ensures Seen(order, 0, inBlock, waiting, passed)
  {
  }

  lemma SeenBound(order: seq<Txid>, mi: nat, inBlock: set<Txid>, waiting: set<Txid>, passed: set<Txid>)
    requires Seen(order, mi, inBlock, waiting, passed)
    ensures mi <= |order|
  {
  }

  lemma SeenAll(order: seq<Txid>, mi: nat, inBlock: set<Txid>, waiting: set<Txid>, passed: set<Txid>)
    requires Seen(order, mi, inBlock, waiting, passed) && mi >= |order|
    ensures forall x | x in order :: x in inBlock + waiting + passed
  {
  }

  // ---------------------------------------------------------------- why selection stops early

  /** A candidate that was too large, or had failed before. */
  ghost predicate NoRoom(p: Pool, r: Rules, w: bool, maxWeight: nat, ids: seq<Txid>, pocket: seq<Payload>, x: Txid)
    requires Complete(p) && Acyclic(p)
  {
    && x in p.ancestors && Elements(ids) <= p.ancestors.Keys && x !in Elements(ids)
    && (TooBig(p, maxWeight, Elements(ids), x) || PassedOver(p, r, w, maxWeight, ids, pocket, x))
  }

  lemma NoRoomNow(p: Pool, r: Rules, w: bool, maxWeight: nat, t: Template, pocket: seq<Payload>, passed: set<Txid>, x: Txid)
    requires Ok(p) && Sound(p, r, w, t, pocket, maxWeight) && x in p.ancestors && x !in t.inBlock
    requires AllPassed(p, r, w, maxWeight, t.vtx, pocket, passed)
    requires x in passed || (Refused(p, r, w, maxWeight, t.vtx, pocket, x) && TooBig(p, maxWeight, Elements(t.vtx), x))
    ensures NoRoom(p, r, w, maxWeight, t.vtx, pocket, x)
  {
    hide Acyclic, Statistics, Carries, Vetted, Ordered, Listed, Total, PassedOver, TooBig, Refused;
  }

  /** The reason: a candidate with these totals pays too little, or so many in a row were too large. */
  datatype Stop = Never | BelowFee(x: Txid, package: Modified) | Full(failures: seq<Txid>)

  /** The totals of a candidate are those of what is left of its package, unless it was passed over before. */
  ghost predicate Justified(p: Pool, r: Rules, w: bool, maxWeight: nat, t: Template, pocket: seq<Payload>, stop: Stop)
    requires Complete(p) && Acyclic(p)
  {
    match stop
    case Never => true
    case BelowFee(x, package) =>
      && x in p.ancestors && x !in t.inBlock && Left(p, t.inBlock, x) <= p.ancestors.Keys
      && package.modFees < r.minFee(x, package.size)
      && (Exact(p, package, Left(p, t.inBlock, x)) || PassedOver(p, r, w, maxWeight, t.vtx, pocket, x))
    case Full(failures) =>
      && |failures| > 1000 && t.weight > maxWeight - 4000
      && forall i | 0 <= i < |failures| :: NoRoom(p, r, w, maxWeight, t.vtx, pocket, failures[i])
  }

  /** Everything fits into one block, passes every test on top of anything, and pays for itself whatever is in already. */
  ghost predicate Unhindered(p: Pool, r: Rules, w: bool, maxWeight: nat)
    requires Complete(p) && Acyclic(p)
  {
    && Plain(p)
    && 4000 + 4 * Total(p.size, p.ancestors.Keys) < maxWeight && 400 + Total(p.sigOps, p.ancestors.Keys) < 80000
    && (forall x | x in p.ancestors ::
          && r.isFinal(x) && (w || !r.hasWitness(x)) && r.payload(x).Some? && r.check(x)
          && forall before :: r.validate(x, before))
    && (forall chosen, x | Closed(p, chosen) && x in p.ancestors && x !in chosen && Left(p, chosen, x) <= p.ancestors.Keys ::
          r.minFee(x, Total(p.size, Left(p, chosen, x))) <= Total(FeeOf(p), Left(p, chosen, x)))
  }

  lemma AllFits(p: Pool, r: Rules, w: bool, maxWeight: nat, chosen: set<Txid>, x: Txid)
    requires Ok(p) && Unhindered(p, r, w, maxWeight) && chosen <= p.ancestors.Keys && x in p.ancestors
    requires Left(p, chosen, x) <= p.ancestors.Keys
    ensures !TooBig(p, maxWeight, chosen, x)
  {
    hide Plain, Acyclic, Statistics, Total, Closed;
    var left, all := Left(p, chosen, x), p.ancestors.Keys;
    WeightsBounded(p, chosen);
    TotalJoin(p.size, chosen, left);
    TotalJoin(p.sigOps, chosen, left);
    TotalSubset(p.size, chosen + left, all);
    TotalSubset(p.sigOps, chosen + left, all);
  }

  lemma {:induction false} AllAgreed(p: Pool, r: Rules, w: bool, maxWeight: nat, s: seq<Txid>, pocket: seq<Payload>)
    requires Complete(p) && Acyclic(p) && Unhindered(p, r, w, maxWeight) && Elements(s) <= p.ancestors.Keys
    ensures PocketOk(r, s, pocket)
  {
    hide Plain, Acyclic, Total, Closed, Complete;
    if s != [] {
      assert s[0] in Elements(s);
      assert forall x | x in Elements(s[1..]) :: x in Elements(s);
      AllAgreed(p, r, w, maxWeight, s[1..], pocket + [r.payload(s[0]).value]);
    }
  }

  lemma NeverUnfit(p: Pool, r: Rules, w: bool, maxWeight: nat, pocket: seq<Payload>, left: set<Txid>)
    requires Complete(p) && Acyclic(p) && Unhindered(p, r, w, maxWeight) && left <= p.ancestors.Keys
    ensures !Unfit(p, r, w, pocket, left)
  {
    hide Plain, Acyclic, Total, Closed, Complete, PocketOk;
    forall s | Elements(s) == left ensures PocketOk(r, s, pocket) { AllAgreed(p, r, w, maxWeight, s, pocket); }
  }

  lemma LeftInside(p: Pool, chosen: set<Txid>, x: Txid)
    requires Acyclic(p) && x in p.ancestors
    ensures Left(p, chosen, x) <= p.ancestors.Keys
  {
  }

  lemma NeverPassedOver(p: Pool, r: Rules, w: bool, maxWeight: nat, vtx: seq<Txid>, pocket: seq<Payload>, x: Txid)
    requires Ok(p) && Unhindered(p, r, w, maxWeight)
    ensures !PassedOver(p, r, w, maxWeight, vtx, pocket, x)
  {
    hide Unhindered, Acyclic, Statistics, Complete, Unfit, TooBig;
    if PassedOver(p, r, w, maxWeight, vtx, pocket, x) {
      var k :| 0 <= k <= |vtx| && Refused(p, r, w, maxWeight, vtx[..k], pocket[..k], x);
      LeftInside(p, Elements(vtx[..k]), x);
      AllFits(p, r, w, maxWeight, Elements(vtx[..k]), x);
      NeverUnfit(p, r, w, maxWeight, pocket[..k], Left(p, Elements(vtx[..k]), x));
    }
  }

  /** Then there is no reason to stop. */
  lemma NeverStops(p: Pool, r: Rules, w: bool, maxWeight: nat, t: Template, pocket: seq<Payload>, stop: Stop)
    requires Ok(p) && Unhindered(p, r, w, maxWeight) && Closed(p, t.inBlock) && t.inBlock == Elements(t.vtx)
    requires Justified(p, r, w, maxWeight, t, pocket, stop)
    ensures stop == Never
  {
    hide Acyclic, Statistics, Complete, PassedOver, TooBig, Plain, Total;
    match stop
    case Never =>
    case BelowFee(x, package) => NeverPassedOver(p, r, w, maxWeight, t.vtx, pocket, x);
    case Full(failures) =>
      var x := failures[0];
      assert NoRoom(p, r, w, maxWeight, t.vtx, pocket, x);
      NeverPassedOver(p, r, w, maxWeight, t.vtx, pocket, x);
      LeftInside(p, t.inBlock, x);
      AllFits(p, r, w, maxWeight, t.inBlock, x);
  }

  lemma NotRepeated(p: Pool, ids: seq<Txid>, i: nat, j: nat)
    requires Ordered(p, ids) && i < j < |ids|
    ensures ids[i] != ids[j]
  {
    assert ids[..j][i] in Elements(ids[..j]);
  }

  /** If the mempool is one transaction and the block has it, the block is that transaction. */
  lemma OneTransaction(p: Pool, t: Template, x: Txid)
    requires Complete(p) && Assembled(p, t) && p.ancestors.Keys == {x} && x in t.inBlock
    ensures t.vtx == [x]
  {
    hide Total, Listed, Complete;
    assert forall k | 0 <= k < |t.vtx| :: t.vtx[k] in t.inBlock;
    if |t.vtx| > 1 { NotRepeated(p, t.vtx, 0, 1); }
  }
}
