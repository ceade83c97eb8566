/** Compact blocks (BIP 152) on values: where short IDs go, what fills them, and rebuilding the block. */
module CompactBlocks {
  import opened Basics

  type Hash = nat
  type ShortId = nat
  type Header = nat

  datatype Tx = Tx(hash: Hash, witnessHash: Hash, isNull: bool)

  /** A transaction sent along, with its distance from the one sent before it. */
  datatype Prefilled = Prefilled(index: nat, tx: Tx)

  datatype Message = Message(header: Option<Header>, shortIds: seq<ShortId>, prefilled: seq<Prefilled>)

  const MIN_SERIALIZABLE_TRANSACTION_WEIGHT := 40
  const U16_MAX := 65535

  function BlockTxCount(m: Message): nat {
    |m.shortIds| + |m.prefilled|
  }

  /** What deserialization lets through: 16-bit indexes and no more transactions than they can number. */
  ghost predicate Received(m: Message) {
    BlockTxCount(m) <= U16_MAX && forall i | 0 <= i < |m.prefilled| :: m.prefilled[i].index <= U16_MAX
  }

  // ---------------------------------------------------------------- prefilled transactions

  /** The position after the first `n` prefilled transactions; -1 before any. */
  function PositionAfter(p: seq<Prefilled>, n: nat): int
    requires n <= |p|
  {
    if n == 0 then -1 else PositionAfter(p, n - 1) + p[n - 1].index + 1
  }

  lemma {:induction false} PositionsAscend(p: seq<Prefilled>, i: nat, j: nat)
    requires i < j <= |p|
    ensures PositionAfter(p, i) < PositionAfter(p, j)
    decreases j - i
  {
    if i < j - 1 { PositionsAscend(p, i, j - 1); }
  }

  /** The first `n` prefilled transactions are real and lie where something precedes or fills every place before them. */
  ghost predicate Placeable(m: Message, n: nat)
    requires n <= |m.prefilled|
  {
    forall i | 0 <= i < n ::
      && !m.prefilled[i].tx.isNull
      && PositionAfter(m.prefilled, i + 1) <= U16_MAX
      && PositionAfter(m.prefilled, i + 1) <= |m.shortIds| + i
  }

  /** The i-th prefilled transaction is in its place. */
  ghost predicate Put(m: Message, i: nat, avail: seq<Option<Tx>>)
    requires i < |m.prefilled|
  {
    var p := PositionAfter(m.prefilled, i + 1);
    0 <= p < |avail| && avail[p] == Some(m.prefilled[i].tx)
  }

  /** The slots after the first `n` prefilled transactions have been put in their places. */
  ghost predicate PrefilledUpTo(m: Message, n: nat, avail: seq<Option<Tx>>)
    requires n <= |m.prefilled|
  {
    && |avail| == BlockTxCount(m) && PositionAfter(m.prefilled, n) < |avail|
    && (forall i | 0 <= i < n :: Put(m, i, avail))
    && (forall q | 0 <= q < |avail| && PositionAfter(m.prefilled, n) < q :: avail[q] == None)
    && Open(avail) == |avail| - n
  }

  // ---------------------------------------------------------------- open slots

  /** How many slots are empty. */
  function Open(avail: seq<Option<Tx>>): nat {
    if avail == [] then 0 else Open(avail[..|avail| - 1]) + if avail[|avail| - 1] == None then 1 else 0
  }

  lemma {:induction false} OpenUpdate(avail: seq<Option<Tx>>, p: nat, x: Option<Tx>)
    requires p < |avail|
    ensures Open(avail[p := x]) == Open(avail) - (if avail[p] == None then 1 else 0) + (if x == None then 1 else 0)
  {
    var n := |avail| - 1;
    if p == n {
      assert avail[p := x][..n] == avail[..n];
    } else {
      OpenUpdate(avail[..n], p, x);
      assert avail[p := x][..n] == avail[..n][p := x];
    }
  }

  lemma {:induction false} OpenNone(n: nat, avail: seq<Option<Tx>>)
    requires |avail| == n && forall i | 0 <= i < n :: avail[i] == None
    ensures Open(avail) == n
  {
    if n > 0 { OpenNone(n - 1, avail[..n - 1]); }
  }

  lemma {:induction false} OpenBound(avail: seq<Option<Tx>>, k: nat)
    requires k <= |avail|
    ensures Open(avail[..k]) <= Open(avail)
    ensures (forall q | k <= q < |avail| :: avail[q] != None) ==> Open(avail[..k]) == Open(avail)
    decreases |avail|
  {
    if k == |avail| {
      assert avail[..k] == avail;
    } else {
      var n := |avail| - 1;
      OpenBound(avail[..n], k);
      assert avail[..n][..k] == avail[..k];
      if forall q | k <= q < |avail| :: avail[q] != None {
        assert forall q | k <= q < n :: avail[..n][q] != None;
      }
    }
  }

  lemma OpenStep(avail: seq<Option<Tx>>, k: nat)
    requires k < |avail|
    ensures Open(avail[..k + 1]) == Open(avail[..k]) + if avail[k] == None then 1 else 0
  {
    assert avail[..k + 1][..k] == avail[..k];
  }

  /** The slot for the i-th short ID: the i-th that no prefilled transaction takes. */
  ghost predicate IsSlot(avail: seq<Option<Tx>>, i: nat, p: nat) {
    p < |avail| && avail[p] == None && Open(avail[..p]) == i
  }

  lemma OpenGrows(avail: seq<Option<Tx>>, p: nat, q: nat)
    requires p < q <= |avail| && avail[p] == None
    ensures Open(avail[..p]) < Open(avail[..q])
  {
    hide Open;
    OpenStep(avail, p);
    OpenBound(avail[..q], p + 1);
    assert avail[..q][..p + 1] == avail[..p + 1];
  }

  lemma SlotUnique(avail: seq<Option<Tx>>, i: nat, p: nat, q: nat)
    requires IsSlot(avail, i, p) && IsSlot(avail, i, q)
    ensures p == q
  {
    hide Open;
    if p < q { OpenGrows(avail, p, q); }
    if q < p { OpenGrows(avail, q, p); }
  }

  lemma EmptySlots(m: Message)
    ensures PrefilledUpTo(m, 0, seq(BlockTxCount(m), _ => None))
  {
    OpenNone(BlockTxCount(m), seq(BlockTxCount(m), _ => None));
  }

  lemma PrefillNext(m: Message, n: nat, avail: seq<Option<Tx>>)
    requires n < |m.prefilled| && PrefilledUpTo(m, n, avail)
    requires PositionAfter(m.prefilled, n + 1) <= |m.shortIds| + n
    ensures 0 <= PositionAfter(m.prefilled, n + 1) < |avail|
    ensures PrefilledUpTo(m, n + 1, avail[PositionAfter(m.prefilled, n + 1) := Some(m.prefilled[n].tx)])
  {
    hide PositionAfter, Open;
    PositionStep(m.prefilled, n);
    var p := PositionAfter(m.prefilled, n + 1);
    OpenUpdate(avail, p, Some(m.prefilled[n].tx));
    var next := avail[p := Some(m.prefilled[n].tx)];
    forall i | 0 <= i < n + 1 ensures Put(m, i, next) {
      if i < n {
        PositionsAscend(m.prefilled, i + 1, n + 1);
        assert Put(m, i, avail);
      }
    }
  }

  lemma {:induction false} PositionStep(p: seq<Prefilled>, n: nat)
    requires n < |p|
    ensures -1 <= PositionAfter(p, n) < PositionAfter(p, n + 1)
    ensures PositionAfter(p, n + 1) == PositionAfter(p, n) + p[n].index + 1
  {
    if n > 0 { PositionStep(p, n - 1); }
  }

  // ---------------------------------------------------------------- filling the slots

  datatype Entry = Entry(hash: Hash, tx: Tx)

  /** A known transaction matches a slot. */
  predicate Matches(short: Hash -> ShortId, slots: map<ShortId, nat>, e: Entry, p: nat) {
    short(e.hash) in slots && slots[short(e.hash)] == p
  }

  ghost predicate Twice(short: Hash -> ShortId, slots: map<ShortId, nat>, known: seq<Entry>, p: nat) {
    exists a, b | 0 <= a < b < |known| :: Matches(short, slots, known[a], p) && Matches(short, slots, known[b], p)
  }

  /** What is in a slot is a known transaction that matches it. */
  ghost predicate Known(short: Hash -> ShortId, slots: map<ShortId, nat>, known: seq<Entry>, n: nat, p: nat, tx: Tx)
    requires n <= |known|
  {
    exists a | 0 <= a < n :: Matches(short, slots, known[a], p) && known[a].tx == tx
  }

  /** The state of one slot while the first `n` known transactions have been considered. */
  ghost predicate SlotOk(short: Hash -> ShortId, slots: map<ShortId, nat>, known: seq<Entry>, n: nat, p: nat, tx: Option<Tx>, have: bool)
    requires n <= |known|
  {
    && (tx.Some? ==> have && Known(short, slots, known, n, p, tx.value))
    && (tx.None? && have ==> Twice(short, slots, known, p))
  }

  /** Every slot is accounted for. `prefilled` are the slots as they were before. */
  ghost predicate Filling(short: Hash -> ShortId, slots: map<ShortId, nat>, known: seq<Entry>, n: nat,
                          prefilled: seq<Option<Tx>>, avail: seq<Option<Tx>>, have: seq<bool>) {
    && n <= |known| && |avail| == |have| == |prefilled|
    && (forall id | id in slots :: slots[id] < |avail| && prefilled[slots[id]] == None)
    && (forall p | 0 <= p < |avail| && prefilled[p] != None :: avail[p] == prefilled[p])
    && (forall p | 0 <= p < |avail| && prefilled[p] == None :: SlotOk(short, slots, known, n, p, avail[p], have[p]))
  }

  /** All that were considered have left their mark. */
  ghost predicate Marked(short: Hash -> ShortId, slots: map<ShortId, nat>, known: seq<Entry>, from: nat, to: nat, have: seq<bool>) {
    && from <= to <= |known|
    && forall k, p | from <= k < to && 0 <= p < |have| && Matches(short, slots, known[k], p) :: have[p]
  }

  lemma NoneOpen(avail: seq<Option<Tx>>, p: nat)
    requires Open(avail) == 0 && p < |avail|
    ensures avail[p] != None
  {
    hide Open;
    assert avail[..|avail|] == avail;
    if avail[p] == None { OpenGrows(avail, p, |avail|); }
  }

  lemma FillingStart(short: Hash -> ShortId, slots: map<ShortId, nat>, known: seq<Entry>, avail: seq<Option<Tx>>, have: seq<bool>)
    requires |have| == |avail| && (forall p | 0 <= p < |have| :: !have[p])
    requires forall id | id in slots :: slots[id] < |avail| && avail[slots[id]] == None
    ensures Filling(short, slots, known, 0, avail, avail, have)
    ensures Marked(short, slots, known, 0, 0, have)
  {
  }

  /** Nothing changes: the transaction matches no slot, or one that stays as it is. */
  lemma FillingSame(short: Hash -> ShortId, slots: map<ShortId, nat>, known: seq<Entry>, n: nat, to: nat,
                    prefilled: seq<Option<Tx>>, avail: seq<Option<Tx>>, have: seq<bool>)
    requires Filling(short, slots, known, n, prefilled, avail, have) && n <= to <= |known|
    ensures Filling(short, slots, known, to, prefilled, avail, have)
  {
    hide Matches, Twice;
    forall p | 0 <= p < |avail| && prefilled[p] == None ensures SlotOk(short, slots, known, to, p, avail[p], have[p]) {
      assert SlotOk(short, slots, known, n, p, avail[p], have[p]);
    }
  }

  /** The first match fills the slot. */
  lemma FillingFirst(short: Hash -> ShortId, slots: map<ShortId, nat>, known: seq<Entry>, n: nat,
                     prefilled: seq<Option<Tx>>, avail: seq<Option<Tx>>, have: seq<bool>)
    requires Filling(short, slots, known, n, prefilled, avail, have) && n < |known|
    requires short(known[n].hash) in slots
    ensures
      var p := slots[short(known[n].hash)];
      && p < |avail|
      && (!have[p] ==> avail[p] == None)
      && (!have[p] ==> Filling(short, slots, known, n + 1, prefilled, avail[p := Some(known[n].tx)], have[p := true]))
  {
    hide Twice;
    var p := slots[short(known[n].hash)];
    if !have[p] {
      assert SlotOk(short, slots, known, n, p, avail[p], have[p]);
      assert Matches(short, slots, known[n], p);
      FillingSame(short, slots, known, n, n + 1, prefilled, avail, have);
      assert Known(short, slots, known, n + 1, p, known[n].tx);
    }
  }

  /** A second match empties it again. */
  lemma FillingSecond(short: Hash -> ShortId, slots: map<ShortId, nat>, known: seq<Entry>, n: nat,
                      prefilled: seq<Option<Tx>>, avail: seq<Option<Tx>>, have: seq<bool>)
    requires Filling(short, slots, known, n, prefilled, avail, have) && n < |known|
    requires short(known[n].hash) in slots
    ensures
      var p := slots[short(known[n].hash)];
      p < |avail| && (avail[p] != None ==> have[p] && Filling(short, slots, known, n + 1, prefilled, avail[p := None], have))
  {
    var p := slots[short(known[n].hash)];
    if avail[p] != None {
      assert SlotOk(short, slots, known, n, p, avail[p], have[p]);
      assert Matches(short, slots, known[n], p);
      var a :| 0 <= a < n && Matches(short, slots, known[a], p) && known[a].tx == avail[p].value;
      assert Twice(short, slots, known, p);
      hide Twice, Matches;
      FillingSame(short, slots, known, n, n + 1, prefilled, avail, have);
    }
  }

  lemma MarkedNext(short: Hash -> ShortId, slots: map<ShortId, nat>, known: seq<Entry>, n: nat, have: seq<bool>)
    requires Marked(short, slots, known, 0, n, have) && n < |known|
    requires short(known[n].hash) in slots ==> slots[short(known[n].hash)] < |have| && have[slots[short(known[n].hash)]]
    ensures Marked(short, slots, known, 0, n + 1, have)
  {
  }

  lemma MarkedMore(short: Hash -> ShortId, slots: map<ShortId, nat>, known: seq<Entry>, n: nat, have: seq<bool>, p: nat)
    requires Marked(short, slots, known, 0, n, have) && p < |have|
    ensures Marked(short, slots, known, 0, n, have[p := true])
  {
    hide Matches;
  }

  /** When no slot is open, all are marked and the rest need not be looked at. */
  lemma AllFilled(short: Hash -> ShortId, slots: map<ShortId, nat>, known: seq<Entry>, n: nat, to: nat,
                  prefilled: seq<Option<Tx>>, avail: seq<Option<Tx>>, have: seq<bool>)
    requires Filling(short, slots, known, n, prefilled, avail, have) && Open(avail) == 0 && to <= |known|
    ensures Marked(short, slots, known, 0, to, have)
  {
    hide Open, Known, Twice;
    forall k, p | 0 <= k < to && 0 <= p < |have| && Matches(short, slots, known[k], p) ensures have[p] {
      NoneOpen(avail, p);
      assert SlotOk(short, slots, known, n, p, avail[p], have[p]);
    }
  }

  /** The outcome: a slot holds a transaction that matches it, and is open only if nothing matches or more than one thing does. */
  ghost predicate Filled(short: Hash -> ShortId, slots: map<ShortId, nat>, known: seq<Entry>,
                         prefilled: seq<Option<Tx>>, avail: seq<Option<Tx>>) {
    && |avail| == |prefilled|
    && (forall p | 0 <= p < |avail| && prefilled[p] != None :: avail[p] == prefilled[p])
    && (forall p | 0 <= p < |avail| && prefilled[p] == None && avail[p] != None ::
          Known(short, slots, known, |known|, p, avail[p].value))
    && (forall p | 0 <= p < |avail| && avail[p] == None ::
          Twice(short, slots, known, p) || forall k | 0 <= k < |known| :: !Matches(short, slots, known[k], p))
  }

  lemma FilledAtEnd(short: Hash -> ShortId, slots: map<ShortId, nat>, known: seq<Entry>,
                    prefilled: seq<Option<Tx>>, avail: seq<Option<Tx>>, have: seq<bool>)
    requires Filling(short, slots, known, |known|, prefilled, avail, have) && Marked(short, slots, known, 0, |known|, have)
    ensures Filled(short, slots, known, prefilled, avail)
  {
    hide Known, Twice, Matches;
    forall p | 0 <= p < |avail| && prefilled[p] == None
      ensures avail[p] != None ==> Known(short, slots, known, |known|, p, avail[p].value)
      ensures avail[p] == None ==> Twice(short, slots, known, p) || forall k | 0 <= k < |known| :: !Matches(short, slots, known[k], p)
    {
      assert SlotOk(short, slots, known, |known|, p, avail[p], have[p]);
    }
  }

  // ---------------------------------------------------------------- rebuilding the block

  /** Open slots take the missing transactions in order. */
  function Rebuilt(avail: seq<Option<Tx>>, missing: seq<Tx>): (r: seq<Tx>)
    requires Open(avail) <= |missing|
    ensures |r| == |avail|
  {
    if avail == [] then []
    else
      var n := |avail| - 1;
      var tx := if avail[n].Some? then avail[n].value else missing[Open(avail[..n])];
      Rebuilt(avail[..n], missing) + [tx]
  }

  /** The transactions of a block that stand at open slots. */
  function MissingFrom(avail: seq<Option<Tx>>, vtx: seq<Tx>): (r: seq<Tx>)
    requires |vtx| == |avail|
    ensures |r| == Open(avail)
  {
    if avail == [] then []
    else
      var n := |avail| - 1;
      MissingFrom(avail[..n], vtx[..n]) + if avail[n] == None then [vtx[n]] else []
  }

  ghost predicate Agrees(avail: seq<Option<Tx>>, vtx: seq<Tx>) {
    |avail| == |vtx| && forall p | 0 <= p < |avail| && avail[p] != None :: avail[p] == Some(vtx[p])
  }

  lemma {:induction false} RebuiltMore(avail: seq<Option<Tx>>, missing: seq<Tx>, more: seq<Tx>)
    requires Open(avail) <= |missing|
    ensures Rebuilt(avail, missing + more) == Rebuilt(avail, missing)
  {
    if avail != [] { RebuiltMore(avail[..|avail| - 1], missing, more); }
  }

  /** If what is there belongs there, the missing transactions complete the block. */
  lemma {:induction false} Rebuilds(avail: seq<Option<Tx>>, vtx: seq<Tx>)
    requires Agrees(avail, vtx)
    ensures Rebuilt(avail, MissingFrom(avail, vtx)) == vtx
  {
    if avail != [] {
      var n := |avail| - 1;
      Rebuilds(avail[..n], vtx[..n]);
      var front := MissingFrom(avail[..n], vtx[..n]);
      var last := if avail[n] == None then [vtx[n]] else [];
      RebuiltMore(avail[..n], front, last);
      assert vtx == vtx[..n] + [vtx[n]];
    }
  }

  /** The compact form of a block: the coinbase, and short IDs for the rest. */
  function Compact(header: Header, vtx: seq<Tx>, hashOf: Tx -> Hash, short: Hash -> ShortId): Message
    requires vtx != []
  {
    Message(Some(header), seq(|vtx| - 1, i requires 0 <= i < |vtx| - 1 => short(hashOf(vtx[i + 1]))), [Prefilled(0, vtx[0])])
  }

  /** The i-th short ID goes to the i-th slot without a prefilled transaction. */
  ghost predicate Assigned(m: Message, prefilled: seq<Option<Tx>>, slots: map<ShortId, nat>) {
    && (forall i | 0 <= i < |m.shortIds| :: m.shortIds[i] in slots && IsSlot(prefilled, i, slots[m.shortIds[i]]))
    && (forall id | id in slots :: id in m.shortIds)
  }

  /** Whatever has the short ID of one of the block's transactions is that transaction. */
  ghost predicate NoClash(vtx: seq<Tx>, hashOf: Tx -> Hash, short: Hash -> ShortId, known: seq<Entry>) {
    forall k, j | 0 <= k < |known| && 0 < j < |vtx| && short(known[k].hash) == short(hashOf(vtx[j])) :: known[k].tx == vtx[j]
  }

  lemma {:induction false} OpenAfterFirst(avail: seq<Option<Tx>>, n: nat)
    requires 0 < n <= |avail| && avail[0] != None && forall q | 0 < q < |avail| :: avail[q] == None
    ensures Open(avail[..n]) == n - 1
    decreases n
  {
    OpenStep(avail, n - 1);
    if n > 1 { OpenAfterFirst(avail, n - 1); }
  }

  /** In the compact form of a block the i-th short ID stands for transaction i + 1. */
  lemma CompactSlots(header: Header, vtx: seq<Tx>, hashOf: Tx -> Hash, short: Hash -> ShortId,
                     prefilled: seq<Option<Tx>>, slots: map<ShortId, nat>, i: nat)
    requires vtx != [] && PrefilledUpTo(Compact(header, vtx, hashOf, short), 1, prefilled)
    requires Assigned(Compact(header, vtx, hashOf, short), prefilled, slots) && i < |vtx| - 1
    ensures short(hashOf(vtx[i + 1])) in slots && slots[short(hashOf(vtx[i + 1]))] == i + 1
    ensures prefilled[0] == Some(vtx[0]) && prefilled[i + 1] == None
  {
    var m := Compact(header, vtx, hashOf, short);
    assert PositionAfter(m.prefilled, 1) == 0;
    assert Put(m, 0, prefilled);
    OpenAfterFirst(prefilled, i + 1);
    var id := m.shortIds[i];
    SlotUnique(prefilled, i, slots[id], i + 1);
  }

  /** Without clashes, every filled slot holds the block's own transaction. */
  lemma FilledAgrees(header: Header, vtx: seq<Tx>, hashOf: Tx -> Hash, short: Hash -> ShortId, known: seq<Entry>,
                     prefilled: seq<Option<Tx>>, slots: map<ShortId, nat>, avail: seq<Option<Tx>>)
    requires vtx != [] && PrefilledUpTo(Compact(header, vtx, hashOf, short), 1, prefilled)
    requires Assigned(Compact(header, vtx, hashOf, short), prefilled, slots)
    requires Filled(short, slots, known, prefilled, avail) && NoClash(vtx, hashOf, short, known)
    ensures Agrees(avail, vtx)
  {
    hide Open, Twice, IsSlot;
    var m := Compact(header, vtx, hashOf, short);
    assert PositionAfter(m.prefilled, 1) == 0 && Put(m, 0, prefilled);
    forall p | 0 <= p < |avail| && avail[p] != None ensures avail[p] == Some(vtx[p]) {
      if p > 0 {
        assert Known(short, slots, known, |known|, p, avail[p].value);
        var a :| 0 <= a < |known| && Matches(short, slots, known[a], p) && known[a].tx == avail[p].value;
        var id := short(known[a].hash);
        assert id in m.shortIds;
        var i :| 0 <= i < |m.shortIds| && m.shortIds[i] == id;
        CompactSlots(header, vtx, hashOf, short, prefilled, slots, i);
      }
    }
  }

  /** From end to end: with no clash, the transactions that are still missing complete exactly the sender's block. */
  lemma BlockRebuilt(header: Header, vtx: seq<Tx>, hashOf: Tx -> Hash, short: Hash -> ShortId, known: seq<Entry>,
                     prefilled: seq<Option<Tx>>, slots: map<ShortId, nat>, avail: seq<Option<Tx>>)
    requires vtx != [] && PrefilledUpTo(Compact(header, vtx, hashOf, short), 1, prefilled)
    requires Assigned(Compact(header, vtx, hashOf, short), prefilled, slots)
    requires Filled(short, slots, known, prefilled, avail) && NoClash(vtx, hashOf, short, known)
    ensures |avail| == |vtx| && Rebuilt(avail, MissingFrom(avail, vtx)) == vtx
  {
    hide Filled, Assigned, PrefilledUpTo, NoClash, Open;
    FilledAgrees(header, vtx, hashOf, short, known, prefilled, slots, avail);
    Rebuilds(avail, vtx);
  }

  lemma StartPosition(p: seq<Prefilled>)
    ensures PositionAfter(p, 0) == -1
  {
  }

  lemma OpenEmpty(avail: seq<Option<Tx>>)
    ensures Open(avail[..0]) == 0
  {
  }

  /** As long as short IDs are left there is an open slot ahead. */
  lemma SlotAhead(avail: seq<Option<Tx>>, i: nat, p: nat)
    requires p <= |avail| && Open(avail[..p]) == i < Open(avail)
    ensures p < |avail|
  {
    assert avail[..|avail|] == avail;
  }

  lemma FillingShape(short: Hash -> ShortId, slots: map<ShortId, nat>, known: seq<Entry>, n: nat,
                     prefilled: seq<Option<Tx>>, avail: seq<Option<Tx>>, have: seq<bool>)
    requires Filling(short, slots, known, n, prefilled, avail, have)
    ensures |avail| == |have| == |prefilled| && forall id | id in slots :: slots[id] < |avail|
  {
    hide SlotOk;
  }

  lemma {:induction false} OpenFewer(prefilled: seq<Option<Tx>>, avail: seq<Option<Tx>>)
    requires |avail| == |prefilled| && forall p | 0 <= p < |avail| && prefilled[p] != None :: avail[p] != None
    ensures Open(avail) <= Open(prefilled)
  {
    if avail != [] { OpenFewer(prefilled[..|avail| - 1], avail[..|avail| - 1]); }
  }

  lemma FillingOpen(short: Hash -> ShortId, slots: map<ShortId, nat>, known: seq<Entry>, n: nat,
                    prefilled: seq<Option<Tx>>, avail: seq<Option<Tx>>, have: seq<bool>)
    requires Filling(short, slots, known, n, prefilled, avail, have)
    ensures Open(avail) <= Open(prefilled)
  {
    hide SlotOk;
    OpenFewer(prefilled, avail);
  }
}
