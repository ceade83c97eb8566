/** What the receiver of a compact block knows is matched against its slots: the pool first, then extra transactions. */
module CompactFill {
  import opened Basics
  import opened CompactBlocks

  /** The slots, those that anything has matched, and how many of the short IDs' slots are filled. */
  datatype Fill = Fill(avail: seq<Option<Tx>>, have: seq<bool>, count: int)

  predicate Fits(slots: map<ShortId, nat>, f: Fill) {
    |f.have| == |f.avail| && forall id | id in slots :: slots[id] < |f.avail|
  }

  /** The first match fills a slot and the second empties it for good. Among extra transactions, a second copy of what is
      already there is no conflict. */
  function Consider(short: Hash -> ShortId, slots: map<ShortId, nat>, e: Entry, extra: bool, f: Fill): (g: Fill)
    requires Fits(slots, f)
    ensures Fits(slots, g) && |g.avail| == |f.avail|
  {
    if short(e.hash) !in slots then f
    else
      var p := slots[short(e.hash)];
      if !f.have[p] then Fill(f.avail[p := Some(e.tx)], f.have[p := true], f.count + 1)
      else if f.avail[p].Some? && (extra ==> f.avail[p].value.witnessHash != e.tx.witnessHash)
      then Fill(f.avail[p := None], f.have, f.count - 1)
      else f
  }

  /** The first `n` entries; the scan stops after an entry that leaves no short ID without a transaction. */
  function Scan(short: Hash -> ShortId, slots: map<ShortId, nat>, entries: seq<Entry>, n: nat, extra: bool, f: Fill): (g: Fill)
    requires Fits(slots, f) && n <= |entries|
    ensures Fits(slots, g) && |g.avail| == |f.avail|
  {
    if n == 0 then f
    else
      var g := Scan(short, slots, entries, n - 1, extra, f);
      if n > 1 && g.count == |slots| then g else Consider(short, slots, entries[n - 1], extra, g)
  }

  function Unmatched(prefilled: seq<Option<Tx>>): Fill {
    Fill(prefilled, seq(|prefilled|, _ => false), 0)
  }

  /** Once every short ID has its transaction, nothing more is looked at. */
  lemma {:induction false} ScanStops(short: Hash -> ShortId, slots: map<ShortId, nat>, entries: seq<Entry>, n: nat, m: nat,
                                     extra: bool, f: Fill)
    requires Fits(slots, f) && 0 < n <= m <= |entries| && Scan(short, slots, entries, n, extra, f).count == |slots|
    ensures Scan(short, slots, entries, m, extra, f) == Scan(short, slots, entries, n, extra, f)
  {
    if n < m { ScanStops(short, slots, entries, n, m - 1, extra, f); }
  }

  // ---------------------------------------------------------------- every slot is accounted for

  ghost predicate Sound(short: Hash -> ShortId, slots: map<ShortId, nat>, known: seq<Entry>, n: nat,
                        prefilled: seq<Option<Tx>>, f: Fill) {
    && Filling(short, slots, known, n, prefilled, f.avail, f.have) && Marked(short, slots, known, 0, n, f.have)
    && f.count == |slots| - Open(f.avail) && Open(prefilled) == |slots|
  }

  lemma SoundStart(short: Hash -> ShortId, slots: map<ShortId, nat>, known: seq<Entry>, prefilled: seq<Option<Tx>>)
    requires Open(prefilled) == |slots| && forall id | id in slots :: slots[id] < |prefilled| && prefilled[slots[id]] == None
    ensures Sound(short, slots, known, 0, prefilled, Unmatched(prefilled)) && Fits(slots, Unmatched(prefilled))
  {
    FillingStart(short, slots, known, prefilled, seq(|prefilled|, _ => false));
  }

  lemma ConsiderSound(short: Hash -> ShortId, slots: map<ShortId, nat>, known: seq<Entry>, n: nat, extra: bool,
                      prefilled: seq<Option<Tx>>, f: Fill)
    requires Sound(short, slots, known, n, prefilled, f) && n < |known| && Fits(slots, f)
    ensures Sound(short, slots, known, n + 1, prefilled, Consider(short, slots, known[n], extra, f))
  {
    hide Filling, Marked, Open;
    var e, g := known[n], Consider(short, slots, known[n], extra, f);
    if short(e.hash) in slots {
      var p := slots[short(e.hash)];
      FillingFirst(short, slots, known, n, prefilled, f.avail, f.have);
      FillingSecond(short, slots, known, n, prefilled, f.avail, f.have);
      OpenUpdate(f.avail, p, g.avail[p]);
      if !f.have[p] { MarkedMore(short, slots, known, n, f.have, p); }
    }
    if g == f { FillingSame(short, slots, known, n, n + 1, prefilled, f.avail, f.have); }
    MarkedNext(short, slots, known, n, g.have);
  }

  lemma AllFilledSound(short: Hash -> ShortId, slots: map<ShortId, nat>, known: seq<Entry>, n: nat, to: nat,
                       prefilled: seq<Option<Tx>>, f: Fill)
    requires Sound(short, slots, known, n, prefilled, f) && f.count == |slots| && n <= to <= |known|
    ensures Sound(short, slots, known, to, prefilled, f)
  {
    hide Filling, Marked, Open;
    FillingSame(short, slots, known, n, to, prefilled, f.avail, f.have);
    AllFilled(short, slots, known, n, to, prefilled, f.avail, f.have);
  }

  /** `entries` are the known transactions from `base` on. */
  lemma {:induction false} ScanSound(short: Hash -> ShortId, slots: map<ShortId, nat>, known: seq<Entry>, base: nat,
                                     entries: seq<Entry>, n: nat, extra: bool, prefilled: seq<Option<Tx>>, f: Fill)
    requires Sound(short, slots, known, base, prefilled, f) && Fits(slots, f)
    requires n <= |entries| && base <= |known| && entries <= known[base..]
    ensures Sound(short, slots, known, base + n, prefilled, Scan(short, slots, entries, n, extra, f))
  {
    hide Sound, Consider;
    if n > 0 {
      ScanSound(short, slots, known, base, entries, n - 1, extra, prefilled, f);
      var g := Scan(short, slots, entries, n - 1, extra, f);
      assert known[base + n - 1] == known[base..][n - 1] == entries[n - 1];
      if n > 1 && g.count == |slots| {
        AllFilledSound(short, slots, known, base + n - 1, base + n, prefilled, g);
      } else {
        ConsiderSound(short, slots, known, base + n - 1, extra, prefilled, g);
      }
    }
  }

  // ---------------------------------------------------------------- both scans

  function PoolFill(short: Hash -> ShortId, slots: map<ShortId, nat>, pool: seq<Entry>, prefilled: seq<Option<Tx>>): Fill
    requires Fits(slots, Unmatched(prefilled))
  {
    Scan(short, slots, pool, |pool|, false, Unmatched(prefilled))
  }

  function ExtraFill(short: Hash -> ShortId, slots: map<ShortId, nat>, pool: seq<Entry>, extra: seq<Entry>,
                     prefilled: seq<Option<Tx>>): Fill
    requires Fits(slots, Unmatched(prefilled))
  {
    Scan(short, slots, extra, |extra|, true, PoolFill(short, slots, pool, prefilled))
  }

  lemma PoolSound(short: Hash -> ShortId, slots: map<ShortId, nat>, pool: seq<Entry>, known: seq<Entry>, prefilled: seq<Option<Tx>>)
    requires Open(prefilled) == |slots| && forall id | id in slots :: slots[id] < |prefilled| && prefilled[slots[id]] == None
    requires pool <= known
    ensures Fits(slots, Unmatched(prefilled))
    ensures Sound(short, slots, known, |pool|, prefilled, PoolFill(short, slots, pool, prefilled))
  {
    hide Sound, Open, Scan;
    SoundStart(short, slots, known, prefilled);
    ScanSound(short, slots, known, 0, pool, |pool|, false, prefilled, Unmatched(prefilled));
  }

  lemma ExtraSound(short: Hash -> ShortId, slots: map<ShortId, nat>, pool: seq<Entry>, extra: seq<Entry>, known: seq<Entry>,
                   prefilled: seq<Option<Tx>>)
    requires Fits(slots, Unmatched(prefilled)) && |known| == |pool| + |extra| && known[|pool|..] == extra
    requires Sound(short, slots, known, |pool|, prefilled, PoolFill(short, slots, pool, prefilled))
    ensures Sound(short, slots, known, |known|, prefilled, ExtraFill(short, slots, pool, extra, prefilled))
  {
    hide Sound, Scan, Unmatched, PoolFill;
    var f := PoolFill(short, slots, pool, prefilled);
    FitsSound(short, slots, known, |pool|, prefilled, f);
    ScanSound(short, slots, known, |pool|, extra, |extra|, true, prefilled, f);
  }

  lemma BothScansSound(short: Hash -> ShortId, slots: map<ShortId, nat>, pool: seq<Entry>, extra: seq<Entry>,
                       prefilled: seq<Option<Tx>>)
    requires Open(prefilled) == |slots| && forall id | id in slots :: slots[id] < |prefilled| && prefilled[slots[id]] == None
    ensures Fits(slots, Unmatched(prefilled))
    ensures Sound(short, slots, pool + extra, |pool|, prefilled, PoolFill(short, slots, pool, prefilled))
    ensures Sound(short, slots, pool + extra, |pool + extra|, prefilled, ExtraFill(short, slots, pool, extra, prefilled))
  {
    hide Sound, Open, Scan, Fits, Unmatched, PoolFill, ExtraFill;
    var known := pool + extra;
    PoolSound(short, slots, pool, known, prefilled);
    ExtraSound(short, slots, pool, extra, known, prefilled);
  }

  lemma FitsSound(short: Hash -> ShortId, slots: map<ShortId, nat>, known: seq<Entry>, n: nat, prefilled: seq<Option<Tx>>, f: Fill)
    requires Sound(short, slots, known, n, prefilled, f)
    ensures Fits(slots, f)
  {
    hide Marked, Open, SlotOk;
    FillingShape(short, slots, known, n, prefilled, f.avail, f.have);
  }

  lemma SoundCount(short: Hash -> ShortId, slots: map<ShortId, nat>, known: seq<Entry>, n: nat, prefilled: seq<Option<Tx>>, f: Fill)
    requires Sound(short, slots, known, n, prefilled, f)
    ensures 0 <= f.count == |slots| - Open(f.avail)
    ensures n == |known| ==> Filled(short, slots, known, prefilled, f.avail)
  {
    hide Filling, Marked, Open, Filled;
    FillingOpen(short, slots, known, n, prefilled, f.avail, f.have);
    if n == |known| { FilledAtEnd(short, slots, known, prefilled, f.avail, f.have); }
  }

  /** A slot holds a transaction that matches it, and is open only if nothing matches or more than one thing does. */
  lemma BothFilled(short: Hash -> ShortId, slots: map<ShortId, nat>, pool: seq<Entry>, extra: seq<Entry>, prefilled: seq<Option<Tx>>)
    requires Open(prefilled) == |slots| && forall id | id in slots :: slots[id] < |prefilled| && prefilled[slots[id]] == None
    ensures
      var f, g := PoolFill(short, slots, pool, prefilled), ExtraFill(short, slots, pool, extra, prefilled);
      && 0 <= f.count == |slots| - Open(f.avail) && 0 <= g.count == |slots| - Open(g.avail)
      && Filled(short, slots, pool + extra, prefilled, g.avail)
  {
    hide Sound, Open, PoolFill, ExtraFill, Filled;
    BothScansSound(short, slots, pool, extra, prefilled);
    SoundCount(short, slots, pool + extra, |pool|, prefilled, PoolFill(short, slots, pool, prefilled));
    SoundCount(short, slots, pool + extra, |pool + extra|, prefilled, ExtraFill(short, slots, pool, extra, prefilled));
  }

  // ---------------------------------------------------------------- extra_count

  /** The slots that the second scan emptied, and those that it filled. */
  function Lost(a: seq<Option<Tx>>, b: seq<Option<Tx>>): set<nat>
    requires |a| == |b|
  {
    set p: nat | p < |a| && a[p].Some? && b[p].None?
  }

  lemma {:induction false} OpenDifference(a: seq<Option<Tx>>, b: seq<Option<Tx>>)
    requires |a| == |b|
    ensures Open(a) - Open(b) == |Lost(b, a)| - |Lost(a, b)|
  {
    if a == [] {
      assert Lost(b, a) == {} && Lost(a, b) == {};
    } else {
      var n := |a| - 1;
      OpenDifference(a[..n], b[..n]);
      LostStep(a, b);
      LostStep(b, a);
    }
  }

  lemma LostStep(a: seq<Option<Tx>>, b: seq<Option<Tx>>)
    requires |a| == |b| > 0
    ensures
      var n := |a| - 1;
      |Lost(a, b)| == |Lost(a[..n], b[..n])| + if a[n].Some? && b[n].None? then 1 else 0
  {
    var n := |a| - 1;
    var all, rest, last := Lost(a, b), Lost(a[..n], b[..n]), if a[n].Some? && b[n].None? then {n as nat} else {};
    assert forall p: nat :: p in all <==> p in rest || p in last;
    assert all == rest + last;
  }

  /** An extra transaction is in conflict with what is in its slot. */
  ghost predicate Conflicts(short: Hash -> ShortId, slots: map<ShortId, nat>, extra: seq<Entry>, p: nat, tx: Tx) {
    exists i | 0 <= i < |extra| :: Matches(short, slots, extra[i], p) && extra[i].tx.witnessHash != tx.witnessHash
  }

  /** A slot that the pool filled loses its transaction only to an extra one in conflict with it. */
  lemma {:induction false} LostToConflict(short: Hash -> ShortId, slots: map<ShortId, nat>, extra: seq<Entry>, n: nat, f: Fill, p: nat)
    requires Fits(slots, f) && n <= |extra| && p < |f.avail| && f.avail[p].Some? && f.have[p]
    ensures
      var g := Scan(short, slots, extra, n, true, f);
      g.have[p] && (g.avail[p] == f.avail[p] || (g.avail[p] == None && Conflicts(short, slots, extra, p, f.avail[p].value)))
  {
    if n > 0 { LostToConflict(short, slots, extra, n - 1, f, p); }
  }

  lemma SoundHas(short: Hash -> ShortId, slots: map<ShortId, nat>, known: seq<Entry>, n: nat, prefilled: seq<Option<Tx>>, f: Fill, p: nat)
    requires Sound(short, slots, known, n, prefilled, f) && p < |f.avail|
    ensures |f.have| == |f.avail| == |prefilled|
    ensures prefilled[p] != None ==> f.avail[p] == prefilled[p]
    ensures prefilled[p] == None && f.avail[p].Some? ==> f.have[p]
  {
    if prefilled[p] == None { assert SlotOk(short, slots, known, n, p, f.avail[p], f.have[p]); }
  }

  /** extra_count is the number of slots that extra transactions fill, less the number that they empty, and it is these
      that were filled from the pool with a transaction in conflict with an extra one. So it is negative exactly when more
      slots are emptied than filled. */
  lemma ExtraCount(short: Hash -> ShortId, slots: map<ShortId, nat>, pool: seq<Entry>, extra: seq<Entry>, prefilled: seq<Option<Tx>>)
    requires Open(prefilled) == |slots| && forall id | id in slots :: slots[id] < |prefilled| && prefilled[slots[id]] == None
    ensures
      var f, g := PoolFill(short, slots, pool, prefilled), ExtraFill(short, slots, pool, extra, prefilled);
      var lost, gained := Lost(f.avail, g.avail), Lost(g.avail, f.avail);
      && g.count - f.count == |gained| - |lost| && (g.count >= f.count <==> |lost| <= |gained|)
      && forall p | p in lost :: Conflicts(short, slots, extra, p, f.avail[p].value)
  {
    hide Sound, Open, Scan, Conflicts;
    BothScansSound(short, slots, pool, extra, prefilled);
    var f, g := PoolFill(short, slots, pool, prefilled), ExtraFill(short, slots, pool, extra, prefilled);
    SoundCount(short, slots, pool + extra, |pool|, prefilled, f);
    SoundCount(short, slots, pool + extra, |pool + extra|, prefilled, g);
    OpenDifference(f.avail, g.avail);
    forall p | p in Lost(f.avail, g.avail) ensures Conflicts(short, slots, extra, p, f.avail[p].value) {
      SoundHas(short, slots, pool + extra, |pool|, prefilled, f, p);
      SoundHas(short, slots, pool + extra, |pool + extra|, prefilled, g, p);
      LostToConflict(short, slots, extra, |extra|, f, p);
    }
  }

  /** One transaction in the pool and one extra, in conflict over a slot: extra_count goes to -1 and the slot is open. */
  lemma CountBelowZero(short: Hash -> ShortId, slots: map<ShortId, nat>, a: Entry, b: Entry, prefilled: seq<Option<Tx>>)
    requires forall id | id in slots :: slots[id] < |prefilled| && prefilled[slots[id]] == None
    requires short(a.hash) == short(b.hash) && short(a.hash) in slots && a.tx.witnessHash != b.tx.witnessHash
    ensures
      var f, g := PoolFill(short, slots, [a], prefilled), ExtraFill(short, slots, [a], [b], prefilled);
      f.count == 1 && g.count - f.count == -1 && g.avail == prefilled
  {
    var start, p := Unmatched(prefilled), slots[short(a.hash)];
    assert Scan(short, slots, [a], 0, false, start) == start;
    var f := PoolFill(short, slots, [a], prefilled);
    assert f == Fill(prefilled[p := Some(a.tx)], start.have[p := true], 1);
    assert Scan(short, slots, [b], 0, true, f) == f;
    assert prefilled[p := Some(a.tx)][p := None] == prefilled;
  }
}
