/** Block assembly: greedy selection of ancestor packages from the mempool. */
module Miner {
  import opened Basics
  import opened Mempool
  import opened BlockSelection
  import opened MinerPackages

  /** What became of a candidate. */
  datatype Outcome = Included(sorted: seq<Txid>, payloads: seq<Payload>) | TooLarge | NotAccepted

  class BlockAssembler {
    const pool: Pool
    const rules: Rules
    const nBlockMaxWeight: nat
    var fIncludeWitness: bool

    // The template, without the place kept for the coinbase at the head of each list.
    var vtx: seq<Txid>
    var vTxFees: seq<int>
    var vTxSigOpsCost: seq<int>
    var pocketBlock: seq<Payload>

    var nBlockWeight: nat
    var nBlockTx: nat
    var nBlockSigOpsCost: nat
    var nFees: int
    var inBlock: set<Txid>

    ghost function View(): Template
      reads this
    {
      Template(vtx, vTxFees, vTxSigOpsCost, nBlockWeight, nBlockTx, nBlockSigOpsCost, nFees, inBlock)
    }

    ghost predicate Valid()
      reads this
    {
      && Ok(pool) && COINBASE_WEIGHT <= nBlockMaxWeight <= MAX_BLOCK_WEIGHT - COINBASE_WEIGHT
      && Sound(pool, rules, fIncludeWitness, View(), pocketBlock, nBlockMaxWeight)
    }

    constructor (pool: Pool, rules: Rules, maxWeight: nat)
      ensures this.pool == pool && this.rules == rules
      ensures COINBASE_WEIGHT <= nBlockMaxWeight <= MAX_BLOCK_WEIGHT - COINBASE_WEIGHT
      ensures maxWeight < COINBASE_WEIGHT ==> nBlockMaxWeight == COINBASE_WEIGHT
      ensures COINBASE_WEIGHT <= maxWeight <= MAX_BLOCK_WEIGHT - COINBASE_WEIGHT ==> nBlockMaxWeight == maxWeight
      ensures maxWeight > MAX_BLOCK_WEIGHT - COINBASE_WEIGHT ==> nBlockMaxWeight == MAX_BLOCK_WEIGHT - COINBASE_WEIGHT
    {
      this.pool, this.rules := pool, rules;
      nBlockMaxWeight := Max(COINBASE_WEIGHT, Min(MAX_BLOCK_WEIGHT - COINBASE_WEIGHT, maxWeight));
    }

    method ResetBlock()
      requires Ok(pool) && COINBASE_WEIGHT <= nBlockMaxWeight <= MAX_BLOCK_WEIGHT - COINBASE_WEIGHT
      modifies this
      ensures Valid() && View() == EMPTY && pocketBlock == [] && !fIncludeWitness
    {
      hide Ok, Sound;
      inBlock := {};
      nBlockWeight, nBlockSigOpsCost := COINBASE_WEIGHT, COINBASE_SIGOPS;
      fIncludeWitness := false;
      nBlockTx, nFees := 0, 0;
      vtx, vTxFees, vTxSigOpsCost, pocketBlock := [], [], [], [];
      PoolComplete(pool);
      EmptySound(pool, rules, fIncludeWitness, nBlockMaxWeight);
    }

    predicate TestPackage(packageSize: nat, packageSigOpsCost: nat)
      reads this
    {
      && nBlockWeight + WITNESS_SCALE_FACTOR * packageSize < nBlockMaxWeight
      && nBlockSigOpsCost + packageSigOpsCost < MAX_BLOCK_SIGOPS_COST
    }

    method TestPackageTransactions(package: set<Txid>) returns (ok: bool)
      ensures ok <==> forall x | x in package :: rules.isFinal(x) && (fIncludeWitness || !rules.hasWitness(x))
    {
      var rest := package;
      while rest != {}
        invariant rest <= package
        invariant forall x | x in package && x !in rest :: rules.isFinal(x) && (fIncludeWitness || !rules.hasWitness(x))
        decreases |rest|
      {
        var x :| x in rest;
        rest := rest - {x};
        if !rules.isFinal(x) {
          return false;
        }
        if !fIncludeWitness && rules.hasWitness(x) {
          return false;
        }
      }
      return true;
    }

    method OnlyUnconfirmed(testSet: set<Txid>) returns (r: set<Txid>)
      ensures r == testSet - inBlock
    {
      r := testSet;
      var rest := testSet;
      while rest != {}
        invariant rest <= testSet
        invariant r == testSet - (inBlock - rest)
        decreases |rest|
      {
        var x :| x in rest;
        rest := rest - {x};
        if x in inBlock {
          r := r - {x};
        }
      }
    }

    /** One transaction against the social consensus; an accepted payload is kept for the ones after it. */
    method TestTransaction(x: Txid, template: seq<Payload>, pblock: seq<Payload>)
      returns (ok: bool, template': seq<Payload>, pblock': seq<Payload>)
      ensures ok <==> rules.payload(x).Some? && rules.check(x) && rules.validate(x, template)
      ensures ok ==> template' == template + [rules.payload(x).value] && pblock' == pblock + [rules.payload(x).value]
      ensures !ok ==> template' == template && pblock' == pblock
    {
      template', pblock' := template, pblock;
      var ptx := rules.payload(x);
      if ptx.None? {
        return false, template', pblock';
      }
      if !rules.check(x) {
        return false, template', pblock';
      }
      if !rules.validate(x, template) {
        return false, template', pblock';
      }
      template', pblock' := template' + [ptx.value], pblock' + [ptx.value];
      return true, template', pblock';
    }

    /** The package against the social consensus, each transaction on top of the block and the ones before it. */
    method TestPocketnet(sorted: seq<Txid>) returns (ok: bool, pblock: seq<Payload>)
      ensures ok <==> PocketOk(rules, sorted, pocketBlock)
      ensures ok ==> Carries(rules, sorted, pblock)
      ensures ok ==> forall i | 0 <= i < |sorted| :: rules.check(sorted[i]) && rules.validate(sorted[i], pocketBlock + pblock[..i])
    {
      pblock := [];
      var template := pocketBlock;
      for i := 0 to |sorted|
        invariant Carries(rules, sorted[..i], pblock) && template == pocketBlock + pblock
        invariant PocketOk(rules, sorted[i..], template) <==> PocketOk(rules, sorted, pocketBlock)
        invariant forall j | 0 <= j < i :: rules.check(sorted[j]) && rules.validate(sorted[j], pocketBlock + pblock[..j])
      {
        ghost var before := pblock;
        assert sorted[i..][0] == sorted[i] && sorted[i..][1..] == sorted[i + 1..];
        ok, template, pblock := TestTransaction(sorted[i], template, pblock);
        if !ok {
          return;
        }
        assert before[..i] == before && pblock[..i] == before;
        assert forall j | 0 <= j < i :: pblock[..j] == before[..j];
      }
      assert sorted[..|sorted|] == sorted;
      ok := true;
    }

    method AddToBlock(x: Txid)
      requires Complete(pool) && x in pool.ancestors
      modifies this
      ensures View() == AddTo(pool, old(View()), x)
      ensures fIncludeWitness == old(fIncludeWitness) && pocketBlock == old(pocketBlock)
    {
      vtx := vtx + [x];
      vTxFees := vTxFees + [pool.fee[x]];
      vTxSigOpsCost := vTxSigOpsCost + [pool.sigOps[x]];
      nBlockWeight := nBlockWeight + pool.weight[x];
      nBlockTx := nBlockTx + 1;
      nBlockSigOpsCost := nBlockSigOpsCost + pool.sigOps[x];
      nFees := nFees + pool.fee[x];
      inBlock := inBlock + {x};
    }

    /** The loop over the descendants of one added transaction. */
    method UpdateDescendants(it: Txid, added: set<Txid>, m: map<Txid, Modified>, ghost first: map<Txid, Modified>, ghost done: set<Txid>)
      returns (n: map<Txid, Modified>, nDescendantsUpdated: nat)
      requires Complete(pool) && Acyclic(pool) && Ample(pool, added, first)
      requires m.Keys <= pool.ancestors.Keys && m.Keys !! added && it in pool.ancestors
      requires done + {it} <= added && it !in done
      requires forall d | d in pool.ancestors && d !in added :: Partly(pool, done, first, m, d)
      ensures n.Keys <= pool.ancestors.Keys && n.Keys !! added
      ensures forall d | d in pool.ancestors && d !in added :: Partly(pool, done + {it}, first, n, d)
    {
      hide Partly, Halfway, Acyclic, Ample, Current, LessParent;
      n, nDescendantsUpdated := m, 0;
      var todo := {it} + set d | d in pool.ancestors && it in pool.ancestors[d];
      HalfwayStart(pool, added, done, it, todo, first, m);
      while todo != {}
        invariant Halfway(pool, added, done, it, todo, first, n)
        invariant forall d | d in todo :: d == it || (d in pool.ancestors && it in pool.ancestors[d])
        decreases |todo|
      {
        var desc :| desc in todo;
        if desc in added {
          HalfwaySkip(pool, added, done, it, todo, first, n, desc);
        } else {
          nDescendantsUpdated := nDescendantsUpdated + 1;
          HalfwayNext(pool, added, done, it, todo, first, n, desc);
          n := n[desc := LessParent(pool, n, it, desc)];
        }
        todo := todo - {desc};
      }
      HalfwayEnd(pool, added, done, it, first, n);
    }

    method UpdatePackagesForAdded(added: set<Txid>, m: map<Txid, Modified>) returns (n: map<Txid, Modified>, nDescendantsUpdated: nat)
      requires Complete(pool) && Acyclic(pool) && Ample(pool, added, m)
      requires m.Keys <= pool.ancestors.Keys && m.Keys !! added && added <= pool.ancestors.Keys
      ensures Updated(pool, added, m, n)
    {
      hide Partly, Acyclic, Complete, Ample, Updated;
      n, nDescendantsUpdated := m, 0;
      var rest := added;
      forall d | d in pool.ancestors && d !in added ensures Partly(pool, {}, m, n, d) { PartlyStart(pool, m, d); }
      assert added - rest == {};
      while rest != {}
        invariant rest <= added && n.Keys <= pool.ancestors.Keys && n.Keys !! added
        invariant forall d | d in pool.ancestors && d !in added :: Partly(pool, added - rest, m, n, d)
        decreases |rest|
      {
        var it :| it in rest;
        var count;
        n, count := UpdateDescendants(it, added, n, m, added - rest);
        nDescendantsUpdated := nDescendantsUpdated + count;
        assert added - rest + {it} == added - (rest - {it});
        rest := rest - {it};
      }
      assert added - rest == added;
      PartlyAll(pool, added, m, n);
    }

    predicate SkipMapTxEntry(x: Txid, m: map<Txid, Modified>, failedTx: set<Txid>)
      reads this
    {
      x in m || x in inBlock || x in failedTx
    }

    /** All transactions of a sorted package enter the block. */
    method AddPackage(sorted: seq<Txid>, m: map<Txid, Modified>) returns (n: map<Txid, Modified>)
      requires Complete(pool) && Elements(sorted) <= pool.ancestors.Keys
      modifies this
      ensures View() == AddAll(pool, old(View()), sorted)
      ensures fIncludeWitness == old(fIncludeWitness) && pocketBlock == old(pocketBlock)
      ensures n == m - Elements(sorted)
    {
      hide AddTo, Complete, Elements;
      n := m;
      assert sorted[..0] == [];
      NoElements();
      for i := 0 to |sorted|
        invariant fIncludeWitness == old(fIncludeWitness) && pocketBlock == old(pocketBlock)
        invariant Elements(sorted[..i]) <= pool.ancestors.Keys
        invariant View() == AddAll(pool, old(View()), sorted[..i])
        invariant n == m - Elements(sorted[..i])
      {
        ElementsPrefix(sorted, i + 1);
        assert sorted[..i + 1] == sorted[..i] + [sorted[i]];
        assert sorted[..i + 1][..i] == sorted[..i];
        ElementsPush(sorted[..i], sorted[i]);
        AddToBlock(sorted[i]);
        n := n - {sorted[i]};
      }
      assert sorted[..|sorted|] == sorted;
    }

    /** A package whose totals passed TestPackage: the remaining tests. */
    method TestPackageContents(iter: Txid) returns (accepted: bool, ancestors: set<Txid>, sorted: seq<Txid>, pblock: seq<Payload>)
      requires Complete(pool) && Acyclic(pool) && iter in pool.ancestors && iter !in inBlock
      ensures accepted ==> ancestors == Elements(sorted)
      ensures accepted ==> Accepted(pool, rules, fIncludeWitness, View(), pocketBlock, iter, sorted, pblock)
      ensures Left(pool, inBlock, iter) <= pool.ancestors.Keys
      ensures !accepted ==> Unfit(pool, rules, fIncludeWitness, pocketBlock, Left(pool, inBlock, iter))
    {
      hide Complete, Sorted, Carries, PocketOk;
      sorted, pblock := [], [];
      ancestors := OnlyUnconfirmed(pool.ancestors[iter]);
      ancestors := ancestors + {iter};
      assert ancestors == Left(pool, inBlock, iter);
      accepted := TestPackageTransactions(ancestors);
      if !accepted {
        return;
      }
      sorted := SortForBlock(pool, ancestors);
      accepted, pblock := TestPocketnet(sorted);
      assert forall i | 0 <= i < |sorted| :: sorted[i] in Elements(sorted);
    }

    /** The inclusion of an accepted package. */
    method IncludePackage(iter: Txid, ancestors: set<Txid>, sorted: seq<Txid>, pblock: seq<Payload>, m: map<Txid, Modified>, ghost failedTx: set<Txid>)
      returns (n: map<Txid, Modified>, nDescendantsUpdated: nat)
      requires Valid() && iter in pool.ancestors && iter !in inBlock && Tracks(pool, inBlock, m, failedTx)
      requires TestPackage(Current(pool, m, iter).size, Current(pool, m, iter).sigOps)
      requires ancestors == Elements(sorted)
      requires Accepted(pool, rules, fIncludeWitness, View(), pocketBlock, iter, sorted, pblock)
      modifies this
      ensures Valid() && fIncludeWitness == old(fIncludeWitness)
      ensures Tracks(pool, inBlock, n, failedTx)
      ensures vtx == old(vtx) + sorted && pocketBlock == old(pocketBlock) + pblock
      ensures inBlock == old(inBlock) + ancestors && iter in inBlock
      ensures m.Keys - ancestors <= n.Keys
    {
      hide Complete, Acyclic, Statistics, Sound, Tracks, Accepted, AddAll, Current, Updated, Ample, Closed, Elements;
      ghost var t, pocket := View(), pocketBlock;
      AcceptedApart(pool, rules, fIncludeWitness, t, pocket, iter, sorted, pblock);
      SoundAfter(pool, rules, fIncludeWitness, t, pocket, nBlockMaxWeight, m, failedTx, iter, sorted, pblock);
      SoundClosed(pool, rules, fIncludeWitness, t, pocket, nBlockMaxWeight);
      TracksAmple(pool, t.inBlock, ancestors, m, failedTx);
      AddAllLists(pool, t, sorted);
      TracksKeys(pool, t.inBlock, m, failedTx);
      pocketBlock := pocketBlock + pblock;
      n := AddPackage(sorted, m);
      n, nDescendantsUpdated := UpdatePackagesForAdded(ancestors, n);
      UpdateTracks(pool, t.inBlock, ancestors, m, n, failedTx);
      UpdatedKeeps(pool, ancestors, m - ancestors, n);
    }

    /** Totals of the transactions that are in the block when selection starts. */
    method StartTracking() returns (m: map<Txid, Modified>, nDescendantsUpdated: nat)
      requires Valid()
      ensures Tracks(pool, inBlock, m, {})
    {
      hide Complete, Acyclic, Statistics, Sound, Tracks, Updated, Ample, Closed;
      NothingChosen(pool);
      SoundClosed(pool, rules, fIncludeWitness, View(), pocketBlock, nBlockMaxWeight);
      NoneClosed(pool);
      assert {} + inBlock == inBlock;
      var none: map<Txid, Modified> := map[];
      assert none - inBlock == none;
      assert inBlock <= pool.ancestors.Keys by { ClosedInside(pool, inBlock); }
      TracksAmple(pool, {}, inBlock, none, {});
      m, nDescendantsUpdated := UpdatePackagesForAdded(inBlock, none);
      UpdateTracks(pool, {}, inBlock, none, m, {});
    }

    /** One candidate: its package enters the block or is refused. */
    method Consider(iter: Txid, fUsingModified: bool, m: map<Txid, Modified>, failedTx: set<Txid>)
      returns (outcome: Outcome, n: map<Txid, Modified>, failedTx': set<Txid>, nDescendantsUpdated: nat)
      requires Valid() && iter in pool.ancestors && iter !in inBlock && Tracks(pool, inBlock, m, failedTx)
      modifies this
      ensures Valid() && Tracks(pool, inBlock, n, failedTx') && fIncludeWitness == old(fIncludeWitness)
      ensures outcome.Included? ==>
        && vtx == old(vtx) + outcome.sorted && pocketBlock == old(pocketBlock) + outcome.payloads
        && |outcome.sorted| == |outcome.payloads|
        && old(inBlock) + {iter} <= inBlock && m.Keys - inBlock <= n.Keys && failedTx' == failedTx
      ensures !outcome.Included? ==>
        && unchanged(this)
        && n == (if fUsingModified then m - {iter} else m)
        && failedTx' == (if fUsingModified then failedTx + {iter} else failedTx)
        && (iter in failedTx || Refused(pool, rules, fIncludeWitness, nBlockMaxWeight, vtx, pocketBlock, iter))
      ensures outcome.TooLarge? && iter !in failedTx ==>
        && Refused(pool, rules, fIncludeWitness, nBlockMaxWeight, vtx, pocketBlock, iter)
        && TooBig(pool, nBlockMaxWeight, Elements(vtx), iter)
    {
      hide Complete, Acyclic, Statistics, Sound, Tracks, Accepted, Unfit, Current, TooBig;
      n, failedTx', nDescendantsUpdated := m, failedTx, 0;
      var package := Current(pool, m, iter);
      FailTracks(pool, inBlock, m, failedTx, iter);
      if !TestPackage(package.size, package.sigOps) {
        if iter !in failedTx {
          SizeRefused(pool, rules, fIncludeWitness, nBlockMaxWeight, View(), pocketBlock, m, failedTx, iter);
        }
        if fUsingModified {
          n, failedTx' := m - {iter}, failedTx + {iter};
        }
        return TooLarge, n, failedTx', nDescendantsUpdated;
      }
      var accepted, ancestors, sorted, pblock := TestPackageContents(iter);
      if !accepted {
        ContentsRefused(pool, rules, fIncludeWitness, nBlockMaxWeight, View(), pocketBlock, iter);
        if fUsingModified {
          n, failedTx' := m - {iter}, failedTx + {iter};
        }
        return NotAccepted, n, failedTx', nDescendantsUpdated;
      }
      assert |sorted| == |pblock| by { AcceptedLengths(pool, rules, fIncludeWitness, View(), pocketBlock, iter, sorted, pblock); }
      n, nDescendantsUpdated := IncludePackage(iter, ancestors, sorted, pblock, m, failedTx);
      outcome := Included(sorted, pblock);
    }

    /** The state of the selection between two candidates. */
    ghost predicate Progress(order: seq<Txid>, mi: nat, m: map<Txid, Modified>, failedTx: set<Txid>, passed: set<Txid>)
      requires Valid()
      reads this
    {
      && Tracks(pool, inBlock, m, failedTx) && failedTx <= passed
      && Seen(order, mi, inBlock, m.Keys, passed)
      && AllPassed(pool, rules, fIncludeWitness, nBlockMaxWeight, vtx, pocketBlock, passed)
    }

    /** The candidate, and what it means for the entries seen so far. */
    method Process(order: seq<Txid>, mi: nat, fUsingModified: bool, iter: Txid, m: map<Txid, Modified>, failedTx: set<Txid>,
                   ghost passed: set<Txid>)
      returns (outcome: Outcome, n: map<Txid, Modified>, failedTx': set<Txid>, nDescendantsUpdated: nat, ghost passed': set<Txid>)
      requires Valid() && Progress(order, mi, m, failedTx, passed)
      requires iter in pool.ancestors && iter !in inBlock
      requires if fUsingModified then iter in m else mi < |order| && iter == order[mi]
      modifies this
      ensures Valid() && fIncludeWitness == old(fIncludeWitness) && old(vtx) <= vtx
      ensures Progress(order, if fUsingModified then mi else mi + 1, n, failedTx', passed')
      ensures outcome.Included? ==> old(inBlock) + {iter} <= inBlock
      ensures !outcome.Included? ==> unchanged(this) && n == (if fUsingModified then m - {iter} else m)
      ensures outcome.TooLarge? ==> NoRoom(pool, rules, fIncludeWitness, nBlockMaxWeight, vtx, pocketBlock, iter)
    {
      hide Complete, Acyclic, Statistics, Sound, Tracks, Refused, TooBig, NoRoom, AllPassed, Seen;
      ghost var ids, pocket := vtx, pocketBlock;
      SoundLengths(pool, rules, fIncludeWitness, View(), pocketBlock, nBlockMaxWeight);
      outcome, n, failedTx', nDescendantsUpdated := Consider(iter, fUsingModified, m, failedTx);
      if outcome.Included? {
        passed' := passed;
        AllPassedStays(pool, rules, fIncludeWitness, nBlockMaxWeight, ids, pocket, outcome.sorted, outcome.payloads, passed);
      } else {
        passed' := passed + {iter};
        if outcome.TooLarge? {
          NoRoomNow(pool, rules, fIncludeWitness, nBlockMaxWeight, View(), pocketBlock, passed, iter);
        }
        AllPassedNow(pool, rules, fIncludeWitness, nBlockMaxWeight, vtx, pocketBlock, passed, iter);
      }
      SeenMore(order, mi, old(inBlock), m.Keys, passed, if fUsingModified then mi else mi + 1, inBlock, n.Keys, passed');
    }

    /** `order` is the mempool by ancestor score. Which of two candidates scores better is left open.
        When nothing cuts the selection short, every transaction of the mempool is in the block or was refused at some
        point, judged on the exact totals of what was then left of its package. */
    method AddPackageTxs(order: seq<Txid>)
      returns (completed: bool, nPackagesSelected: nat, nDescendantsUpdated: nat, ghost stop: Stop)
      requires Valid() && forall x | x in order :: x in pool.ancestors
      modifies this
      ensures Valid() && fIncludeWitness == old(fIncludeWitness) && old(vtx) <= vtx
      ensures completed ==> forall x | x in order ::
        x in inBlock || PassedOver(pool, rules, fIncludeWitness, nBlockMaxWeight, vtx, pocketBlock, x)
      ensures Justified(pool, rules, fIncludeWitness, nBlockMaxWeight, View(), pocketBlock, stop) && (completed <==> stop == Never)
      ensures Unhindered(pool, rules, fIncludeWitness, nBlockMaxWeight) ==> completed && forall x | x in order :: x in inBlock
    {
      completed, nPackagesSelected, nDescendantsUpdated, stop := SelectPackages(order);
      NothingHinders(order, completed, stop);
    }

    /** What follows from the reasons for stopping and for passing over. */
    lemma NothingHinders(order: seq<Txid>, completed: bool, stop: Stop)
      requires Valid() && Justified(pool, rules, fIncludeWitness, nBlockMaxWeight, View(), pocketBlock, stop)
      requires completed <==> stop == Never
      requires completed ==> forall x | x in order ::
        x in inBlock || PassedOver(pool, rules, fIncludeWitness, nBlockMaxWeight, vtx, pocketBlock, x)
      ensures Unhindered(pool, rules, fIncludeWitness, nBlockMaxWeight) ==> completed && forall x | x in order :: x in inBlock
    {
      hide Complete, Acyclic, Statistics, Carries, Vetted, Ordered, Listed, Total, PassedOver, Justified, Unhindered;
      if Unhindered(pool, rules, fIncludeWitness, nBlockMaxWeight) {
        SoundClosed(pool, rules, fIncludeWitness, View(), pocketBlock, nBlockMaxWeight);
        NeverStops(pool, rules, fIncludeWitness, nBlockMaxWeight, View(), pocketBlock, stop);
        forall x | x in order ensures x in inBlock {
          NeverPassedOver(pool, rules, fIncludeWitness, nBlockMaxWeight, vtx, pocketBlock, x);
        }
      }
    }

    method SelectPackages(order: seq<Txid>)
      returns (completed: bool, nPackagesSelected: nat, nDescendantsUpdated: nat, ghost stop: Stop)
      requires Valid() && forall x | x in order :: x in pool.ancestors
      modifies this
      ensures Valid() && fIncludeWitness == old(fIncludeWitness) && old(vtx) <= vtx
      ensures completed ==> forall x | x in order ::
        x in inBlock || PassedOver(pool, rules, fIncludeWitness, nBlockMaxWeight, vtx, pocketBlock, x)
      ensures Justified(pool, rules, fIncludeWitness, nBlockMaxWeight, View(), pocketBlock, stop) && (completed <==> stop == Never)
    {
      hide Complete, Acyclic, Statistics, Sound, Tracks, Refused, AllPassed, PassedOver, Seen, NoRoom, Justified, Stuck;
      var m, updated := StartTracking();
      nPackagesSelected, nDescendantsUpdated := 0, 0;
      var failedTx: set<Txid> := {};
      ghost var passed: set<Txid> := {};
      ghost var failures: seq<Txid> := [];
      var mi, nConsecutiveFailed := 0, 0;
      NonePassed(pool, rules, fIncludeWitness, nBlockMaxWeight, vtx, pocketBlock);
      NoneSeen(order, inBlock, m.Keys, passed);
      NotStuck();
      while mi < |order| || m != map[]
        invariant Valid() && fIncludeWitness == old(fIncludeWitness) && old(vtx) <= vtx
        invariant Progress(order, mi, m, failedTx, passed) && Stuck(failures) && nConsecutiveFailed == |failures|
        decreases |pool.ancestors.Keys - inBlock|, |order| - mi + |m.Keys|
      {
        SeenBound(order, mi, inBlock, m.Keys, passed);
        if mi < |order| && SkipMapTxEntry(order[mi], m, failedTx) {
          SeenMore(order, mi, inBlock, m.Keys, passed, mi + 1, inBlock, m.Keys, passed);
          mi := mi + 1;
          continue;
        }
        TracksKeys(pool, inBlock, m, failedTx);
        var fUsingModified, iter := ChooseNext(order, mi, m);
        assert iter !in inBlock;
        var package := if fUsingModified then m[iter] else FromPool(pool, iter);
        if package.modFees < rules.minFee(iter, package.size) {
          stop := BelowFee(iter, package);
          FeeJustified(m, failedTx, passed, iter);
          return false, nPackagesSelected, nDescendantsUpdated, stop;
        }
        var outcome;
        ghost var before := inBlock;
        outcome, m, failedTx, updated, passed := Process(order, mi, fUsingModified, iter, m, failedTx, passed);
        if !fUsingModified {
          mi := mi + 1;
        }
        if outcome.Included? {
          FewerLeft(pool.ancestors.Keys, before, inBlock, iter);
          nConsecutiveFailed, failures := 0, [];
          NotStuck();
          nPackagesSelected := nPackagesSelected + 1;
          nDescendantsUpdated := nDescendantsUpdated + updated;
        } else if outcome.TooLarge? {
          StuckMore(failures, iter);
          nConsecutiveFailed, failures := nConsecutiveFailed + 1, failures + [iter];
          if nConsecutiveFailed > MAX_CONSECUTIVE_FAILURES && nBlockWeight > nBlockMaxWeight - 4000 {
            stop := Full(failures);
            FullJustified(failures);
            return false, nPackagesSelected, nDescendantsUpdated, stop;
          }
        }
      }
      completed, stop := true, Never;
      NothingToJustify();
      SeenAll(order, mi, inBlock, m.Keys, passed);
      AllPassedAt(pool, rules, fIncludeWitness, nBlockMaxWeight, vtx, pocketBlock, passed);
    }

    lemma FeeJustified(m: map<Txid, Modified>, failedTx: set<Txid>, passed: set<Txid>, x: Txid)
      requires Valid() && Tracks(pool, inBlock, m, failedTx) && failedTx <= passed && x in pool.ancestors && x !in inBlock
      requires AllPassed(pool, rules, fIncludeWitness, nBlockMaxWeight, vtx, pocketBlock, passed)
      requires Current(pool, m, x).modFees < rules.minFee(x, Current(pool, m, x).size)
      ensures Justified(pool, rules, fIncludeWitness, nBlockMaxWeight, View(), pocketBlock, BelowFee(x, Current(pool, m, x)))
    {
      hide Complete, Acyclic, Statistics, Sound, Tracks, PassedOver, Exact, Covers, Current;
      TracksAt(pool, inBlock, m, failedTx, x);
    }

    lemma FullJustified(failures: seq<Txid>)
      requires Valid() && |failures| > 1000 && nBlockWeight > nBlockMaxWeight - 4000 && Stuck(failures)
      ensures Justified(pool, rules, fIncludeWitness, nBlockMaxWeight, View(), pocketBlock, Full(failures))
    {
      hide Complete, Acyclic, Statistics, Sound, NoRoom;
    }

    /** There is no room for any of these candidates. */
    ghost predicate Stuck(failures: seq<Txid>)
      requires Valid()
      reads this
    {
      forall i | 0 <= i < |failures| :: NoRoom(pool, rules, fIncludeWitness, nBlockMaxWeight, vtx, pocketBlock, failures[i])
    }

    lemma NotStuck()
      requires Valid()
      ensures Stuck([])
    {
    }

    lemma StuckMore(failures: seq<Txid>, x: Txid)
      requires Valid() && Stuck(failures) && NoRoom(pool, rules, fIncludeWitness, nBlockMaxWeight, vtx, pocketBlock, x)
      ensures Stuck(failures + [x])
    {
      hide NoRoom, Sound, Ok;
    }

    lemma NothingToJustify()
      requires Valid()
      ensures Justified(pool, rules, fIncludeWitness, nBlockMaxWeight, View(), pocketBlock, Never)
    {
      hide Complete, Acyclic, Statistics, Sound;
    }

    /** The next entry of the mempool, or a modified entry. */
    method ChooseNext(order: seq<Txid>, mi: nat, m: map<Txid, Modified>) returns (fUsingModified: bool, iter: Txid)
      requires mi < |order| || (mi == |order| && m != map[])
      ensures if fUsingModified then iter in m else mi < |order| && iter == order[mi]
    {
      if mi == |order| {
        iter :| iter in m;
        fUsingModified := true;
      } else {
        iter := order[mi];
        var better: bool := *;
        fUsingModified := m != map[] && better;
        if fUsingModified {
          iter :| iter in m;
        }
      }
    }

    /** A block from scratch, up to the coinbase and the header. */
    method CreateNewBlock(order: seq<Txid>, includeWitness: bool)
      returns (completed: bool, nPackagesSelected: nat, nDescendantsUpdated: nat, ghost stop: Stop)
      requires Ok(pool) && COINBASE_WEIGHT <= nBlockMaxWeight <= MAX_BLOCK_WEIGHT - COINBASE_WEIGHT
      requires forall x | x in order :: x in pool.ancestors
      modifies this
      ensures Valid() && fIncludeWitness == includeWitness
      ensures completed ==> forall x | x in order ::
        x in inBlock || PassedOver(pool, rules, fIncludeWitness, nBlockMaxWeight, vtx, pocketBlock, x)
      ensures Justified(pool, rules, fIncludeWitness, nBlockMaxWeight, View(), pocketBlock, stop) && (completed <==> stop == Never)
      ensures Unhindered(pool, rules, includeWitness, nBlockMaxWeight) ==> completed && forall x | x in order :: x in inBlock
    {
      hide Ok, Sound, PassedOver, Justified, Unhindered;
      ResetBlock();
      fIncludeWitness := includeWitness;
      PoolComplete(pool);
      EmptySound(pool, rules, includeWitness, nBlockMaxWeight);
      completed, nPackagesSelected, nDescendantsUpdated, stop := AddPackageTxs(order);
    }
  }
}
