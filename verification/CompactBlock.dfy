/** The receiving side of compact blocks. */
module CompactBlock {
  import opened Basics
  import opened CompactBlocks
  import opened CompactFill

  datatype ReadStatus = Ok | ReadInvalid | Failed | CheckBlockFailed

  /** What the block check says. */
  datatype Verdict = Good | Mutated | Bad

  /** Refused as malformed. */
  ghost predicate Malformed(m: Message) {
    || m.header.None?
    || BlockTxCount(m) == 0
    || BlockTxCount(m) > MAX_BLOCK_WEIGHT / MIN_SERIALIZABLE_TRANSACTION_WEIGHT
    || !Placeable(m, |m.prefilled|)
  }

  /** The first `n` short IDs. */
  function Ids(s: seq<ShortId>, n: nat): set<ShortId>
    requires n <= |s|
  {
    if n == 0 then {} else Ids(s, n - 1) + {s[n - 1]}
  }

  lemma {:induction false} IdsAre(s: seq<ShortId>, n: nat, id: ShortId)
    requires n <= |s|
    ensures id in Ids(s, n) <==> exists j | 0 <= j < n :: s[j] == id
  {
    if n > 0 { IdsAre(s, n - 1, id); }
  }

  /** There are as many different ids as ids exactly when no two are equal. */
  lemma {:induction false} IdCount(s: seq<ShortId>, n: nat)
    requires n <= |s|
    ensures |Ids(s, n)| <= n && (|Ids(s, n)| == n <==> Distinct(s[..n]))
  {
    if n > 0 {
      IdCount(s, n - 1);
      IdsAre(s, n - 1, s[n - 1]);
      if s[n - 1] in Ids(s, n - 1) { assert Ids(s, n) == Ids(s, n - 1); }
    }
  }

  /** The ids seen so far with their slots; the last occurrence of an id counts. */
  ghost predicate Assigning(m: Message, prefilled: seq<Option<Tx>>, slots: map<ShortId, nat>, i: nat) {
    && i <= |m.shortIds| && slots.Keys == Ids(m.shortIds, i)
    && (forall id | id in slots :: slots[id] < |prefilled| && prefilled[slots[id]] == None)
    && (Distinct(m.shortIds[..i]) ==> forall j | 0 <= j < i :: m.shortIds[j] in slots && IsSlot(prefilled, j, slots[m.shortIds[j]]))
  }

  lemma AssigningStart(m: Message, prefilled: seq<Option<Tx>>)
    ensures Assigning(m, prefilled, map[], 0)
  {
  }

  lemma AssigningNext(m: Message, prefilled: seq<Option<Tx>>, slots: map<ShortId, nat>, i: nat, p: nat)
    requires Assigning(m, prefilled, slots, i) && i < |m.shortIds| && IsSlot(prefilled, i, p)
    ensures Assigning(m, prefilled, slots[m.shortIds[i] := p], i + 1)
  {
    hide IsSlot;
    SlotIsOpen(prefilled, i, p);
    assert slots[m.shortIds[i] := p].Keys == slots.Keys + {m.shortIds[i]};
  }

  lemma SlotIsOpen(prefilled: seq<Option<Tx>>, i: nat, p: nat)
    requires IsSlot(prefilled, i, p)
    ensures p < |prefilled| && prefilled[p] == None
  {
  }

  lemma AssignedAtEnd(m: Message, prefilled: seq<Option<Tx>>, slots: map<ShortId, nat>)
    requires Assigning(m, prefilled, slots, |m.shortIds|)
    ensures |slots| == |m.shortIds| <==> Distinct(m.shortIds)
    ensures Distinct(m.shortIds) ==> Assigned(m, prefilled, slots)
    ensures forall id | id in slots :: slots[id] < |prefilled| && prefilled[slots[id]] == None
  {
    hide IsSlot, Ids;
    var n := |m.shortIds|;
    IdCount(m.shortIds, n);
    assert |slots| == |slots.Keys|;
    forall id | id in slots ensures id in m.shortIds { IdsAre(m.shortIds, n, id); }
  }

  class PartiallyDownloadedBlock {
    var txnAvailable: seq<Option<Tx>>
    var prefilledCount: nat
    var mempoolCount: int
    var extraCount: int
    const pool: seq<Entry>
    var header: Option<Header>

    constructor (pool: seq<Entry>)
      ensures this.pool == pool && header == None && txnAvailable == [] && mempoolCount == 0 && extraCount == 0
    {
      this.pool := pool;
      txnAvailable, header := [], None;
      prefilledCount, mempoolCount, extraCount := 0, 0, 0;
    }

    method PlacePrefilled(m: Message) returns (ok: bool)
      requires txnAvailable == seq(BlockTxCount(m), _ => None) && Received(m)
      modifies this`txnAvailable
      ensures ok <==> Placeable(m, |m.prefilled|)
      ensures ok ==> PrefilledUpTo(m, |m.prefilled|, txnAvailable)
    {
      hide PositionAfter, Open, PrefilledUpTo;
      EmptySlots(m);
      var last: int := -1;
      StartPosition(m.prefilled);
      for i := 0 to |m.prefilled|
        invariant last == PositionAfter(m.prefilled, i) && Placeable(m, i)
        invariant PrefilledUpTo(m, i, txnAvailable)
      {
        if m.prefilled[i].tx.isNull {
          return false;
        }
        PositionStep(m.prefilled, i);
        last := last + m.prefilled[i].index + 1;
        if last > U16_MAX {
          return false;
        }
        if last > |m.shortIds| + i {
          return false;
        }
        PrefillNext(m, i, txnAvailable);
        txnAvailable := txnAvailable[last := Some(m.prefilled[i].tx)];
      }
      ok := true;
    }

    /** `crowded` is the hash table's verdict on the bucket of the i-th short ID. */
    method AssignSlots(m: Message, crowded: nat -> bool) returns (ok: bool, slots: map<ShortId, nat>)
      requires Received(m) && PrefilledUpTo(m, |m.prefilled|, txnAvailable)
      ensures ok <==> Distinct(m.shortIds) && forall i | 0 <= i < |m.shortIds| :: !crowded(i)
      ensures ok ==> Assigned(m, txnAvailable, slots) && |slots| == |m.shortIds|
      ensures ok ==> forall id | id in slots :: slots[id] < |txnAvailable| && txnAvailable[slots[id]] == None
    {
      hide Assigning, Assigned, Distinct, PositionAfter, Open;
      slots := map[];
      var indexOffset := 0;
      AssigningStart(m, txnAvailable);
      OpenEmpty(txnAvailable);
      for i := 0 to |m.shortIds|
        invariant i + indexOffset <= |txnAvailable| && Open(txnAvailable[..i + indexOffset]) == i
        invariant Assigning(m, txnAvailable, slots, i)
        invariant forall j | 0 <= j < i :: !crowded(j)
      {
        SlotAhead(txnAvailable, i, i + indexOffset);
        while txnAvailable[i + indexOffset] != None
          invariant i + indexOffset < |txnAvailable| && Open(txnAvailable[..i + indexOffset]) == i
          decreases |txnAvailable| - indexOffset
        {
          OpenStep(txnAvailable, i + indexOffset);
          SlotAhead(txnAvailable, i, i + indexOffset + 1);
          indexOffset := indexOffset + 1;
        }
        // 16-bit positions suffice
        assert i + indexOffset <= U16_MAX;
        AssigningNext(m, txnAvailable, slots, i, i + indexOffset);
        slots := slots[m.shortIds[i] := i + indexOffset];
        OpenStep(txnAvailable, i + indexOffset);
        if crowded(i) {
          return false, slots;
        }
      }
      AssignedAtEnd(m, txnAvailable, slots);
      ok := |slots| == |m.shortIds|;
    }

    method ScanPool(short: Hash -> ShortId, slots: map<ShortId, nat>, have0: seq<bool>) returns (have: seq<bool>)
      requires Fits(slots, Fill(txnAvailable, have0, mempoolCount))
      modifies this`txnAvailable, this`mempoolCount
      ensures Fill(txnAvailable, have, mempoolCount)
           == Scan(short, slots, pool, |pool|, false, old(Fill(txnAvailable, have0, mempoolCount)))
    {
      ghost var f := Fill(txnAvailable, have0, mempoolCount);
      have := have0;
      for i := 0 to |pool|
        invariant Fits(slots, Fill(txnAvailable, have, mempoolCount))
        invariant i > 0 ==> mempoolCount != |slots|
        invariant Fill(txnAvailable, have, mempoolCount) == Scan(short, slots, pool, i, false, f)
      {
        var shortId := short(pool[i].hash);
        if shortId in slots {
          var p := slots[shortId];
          if !have[p] {
            txnAvailable := txnAvailable[p := Some(pool[i].tx)];
            have := have[p := true];
            mempoolCount := mempoolCount + 1;
          } else if txnAvailable[p].Some? {
            txnAvailable := txnAvailable[p := None];
            mempoolCount := mempoolCount - 1;
          }
        }
        if mempoolCount == |slots| {
          ScanStops(short, slots, pool, i + 1, |pool|, false, f);
          return;
        }
      }
    }

    method ScanExtra(short: Hash -> ShortId, slots: map<ShortId, nat>, extra: seq<Entry>, have0: seq<bool>)
      returns (have: seq<bool>)
      requires Fits(slots, Fill(txnAvailable, have0, mempoolCount))
      modifies this`txnAvailable, this`mempoolCount, this`extraCount
      ensures Fill(txnAvailable, have, mempoolCount)
           == Scan(short, slots, extra, |extra|, true, old(Fill(txnAvailable, have0, mempoolCount)))
      ensures extraCount - old(extraCount) == mempoolCount - old(mempoolCount)
    {
      ghost var f := Fill(txnAvailable, have0, mempoolCount);
      have := have0;
      for i := 0 to |extra|
        invariant Fits(slots, Fill(txnAvailable, have, mempoolCount))
        invariant i > 0 ==> mempoolCount != |slots|
        invariant Fill(txnAvailable, have, mempoolCount) == Scan(short, slots, extra, i, true, f)
        invariant extraCount - old(extraCount) == mempoolCount - f.count
      {
        var shortId := short(extra[i].hash);
        if shortId in slots {
          var p := slots[shortId];
          if !have[p] {
            txnAvailable := txnAvailable[p := Some(extra[i].tx)];
            have := have[p := true];
            mempoolCount := mempoolCount + 1;
            extraCount := extraCount + 1;
          } else if txnAvailable[p].Some? && txnAvailable[p].value.witnessHash != extra[i].tx.witnessHash {
            txnAvailable := txnAvailable[p := None];
            mempoolCount := mempoolCount - 1;
            extraCount := extraCount - 1;
          }
        }
        if mempoolCount == |slots| {
          ScanStops(short, slots, extra, i + 1, |extra|, true, f);
          return;
        }
      }
    }

    /** Also tells the slots as the prefilled transactions leave them, and the slot of each short ID. */
    method InitData(m: Message, short: Hash -> ShortId, extra: seq<Entry>, crowded: nat -> bool)
      returns (status: ReadStatus, ghost prefilled: seq<Option<Tx>>, ghost slots: map<ShortId, nat>)
      requires header == None && txnAvailable == [] && mempoolCount == 0 && extraCount == 0 && Received(m)
      modifies this
      ensures status == ReadInvalid <==> Malformed(m)
      ensures status == Failed <==> !Malformed(m) && !(Distinct(m.shortIds) && forall i | 0 <= i < |m.shortIds| :: !crowded(i))
      ensures status == Ok || status == ReadInvalid || status == Failed
      ensures status == Ok ==>
        && header == m.header && prefilledCount == |m.prefilled|
        && PrefilledUpTo(m, |m.prefilled|, prefilled) && Assigned(m, prefilled, slots)
        && Fits(slots, Unmatched(prefilled)) && txnAvailable == ExtraFill(short, slots, pool, extra, prefilled).avail
        && Filled(short, slots, pool + extra, prefilled, txnAvailable)
        && 0 <= mempoolCount == |m.shortIds| - Open(txnAvailable)
        && extraCount == mempoolCount - PoolFill(short, slots, pool, prefilled).count
    {
      hide PrefilledUpTo, Placeable, Filled, Open, Assigned, Distinct, Scan;
      prefilled, slots := [], map[];
      if m.header.None? || (m.shortIds == [] && m.prefilled == []) {
        return ReadInvalid, prefilled, slots;
      }
      if |m.shortIds| + |m.prefilled| > MAX_BLOCK_WEIGHT / MIN_SERIALIZABLE_TRANSACTION_WEIGHT {
        return ReadInvalid, prefilled, slots;
      }
      header := m.header;
      txnAvailable := seq(BlockTxCount(m), _ => None);
      var ok := PlacePrefilled(m);
      if !ok {
        return ReadInvalid, prefilled, slots;
      }
      prefilledCount := |m.prefilled|;
      prefilled := txnAvailable;
      PrefilledOpen(m, prefilled);
      var shortTxids;
      ok, shortTxids := AssignSlots(m, crowded);
      slots := shortTxids;
      if !ok {
        return Failed, prefilled, slots;
      }
      BothFilled(short, slots, pool, extra, prefilled);
      var haveTxn := seq(|txnAvailable|, _ => false);
      haveTxn := ScanPool(short, shortTxids, haveTxn);
      haveTxn := ScanExtra(short, shortTxids, extra, haveTxn);
      status := Ok;
    }

    /** Transactions leave their slots as the block is put together. With too few missing transactions the call stops
        there and the object keeps its header. */
    method FillBlock(missing: seq<Tx>, verdict: Verdict) returns (status: ReadStatus, vtx: seq<Tx>)
      requires header.Some?
      modifies this
      ensures Open(old(txnAvailable)) > |missing| ==> status == ReadInvalid && header == old(header)
      ensures Open(old(txnAvailable)) <= |missing| ==>
        && header == None && txnAvailable == [] && vtx == Rebuilt(old(txnAvailable), missing)
        && status == if Open(old(txnAvailable)) < |missing| then ReadInvalid
                     else match verdict case Good => Ok case Mutated => Failed case Bad => CheckBlockFailed
    {
      hide Open, Rebuilt;
      ghost var avail := txnAvailable;
      vtx := [];
      var offset := 0;
      OpenEmpty(avail);
      RebuiltNone(missing);
      assert avail[..0] == [];
      for i := 0 to |txnAvailable|
        invariant |txnAvailable| == |avail| && txnAvailable[i..] == avail[i..] && header == old(header)
        invariant offset == Open(avail[..i]) <= |missing| && vtx == Rebuilt(avail[..i], missing)
      {
        assert txnAvailable[i] == avail[i..][0] == avail[i];
        OpenStep(avail, i);
        if txnAvailable[i] == None {
          if |missing| <= offset {
            OpenBound(avail, i + 1);
            return ReadInvalid, vtx;
          }
          vtx := vtx + [missing[offset]];
          offset := offset + 1;
        } else {
          vtx := vtx + [txnAvailable[i].value];
          txnAvailable := txnAvailable[i := None];
        }
        RebuiltStep(avail, i, missing);
        assert txnAvailable[i + 1..] == avail[i + 1..] by { assert avail[i..][1..] == avail[i + 1..]; }
      }
      assert avail[..|avail|] == avail;
      header := None;
      txnAvailable := [];
      if |missing| != offset {
        return ReadInvalid, vtx;
      }
      match verdict
      case Good => status := Ok;
      case Mutated => status := Failed;
      case Bad => status := CheckBlockFailed;
    }
  }

  lemma PrefilledOpen(m: Message, prefilled: seq<Option<Tx>>)
    requires PrefilledUpTo(m, |m.prefilled|, prefilled)
    ensures |prefilled| == BlockTxCount(m) && Open(prefilled) == |m.shortIds|
  {
  }

  lemma RebuiltNone(missing: seq<Tx>)
    ensures Rebuilt([], missing) == []
  {
  }

  lemma RebuiltStep(avail: seq<Option<Tx>>, i: nat, missing: seq<Tx>)
    requires i < |avail| && Open(avail[..i + 1]) <= |missing|
    ensures Open(avail[..i]) <= |missing| && (avail[i] == None ==> Open(avail[..i]) < |missing|)
    ensures Rebuilt(avail[..i + 1], missing)
         == Rebuilt(avail[..i], missing) + [if avail[i].Some? then avail[i].value else missing[Open(avail[..i])]]
  {
    OpenStep(avail, i);
    assert avail[..i + 1][..i] == avail[..i];
  }
}
