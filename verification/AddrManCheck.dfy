/** What CAddrMan::Check_ tests, and how it relates to the invariant. */
module AddrManCheck {
  import opened AddrManState
  import opened AddrManSteps
  import Sets

  /** mapAddr's index operator: an address that is missing reads as 0. */
  function AddressId(addr: map<NetAddr, int>, a: NetAddr): int {
    if a in addr then addr[a] else 0
  }

  /** The tests on one entry of mapInfo. */
  predicate EntryChecked(s: State, id: int)
    requires id in s.info
  {
    var i := s.info[id];
    && (if i.inTried then i.lastSuccess != 0 && i.refCount == 0 else 1 <= i.refCount <= NEW_BUCKETS_PER_ADDRESS)
    && AddressId(s.addr, i.key.addr) == id
    && 0 <= i.randomPos < |s.random| && s.random[i.randomPos] == id
    && i.lastTry >= 0 && i.lastSuccess >= 0
  }

  /** The pass over the tried table: each tried entry is met once, in its own cell, and nothing else is. */
  ghost predicate TriedChecked(h: Bucketing, info: map<int, Info>, tried: map<Slot, int>) {
    && (forall p | p in tried :: tried[p] in info && info[tried[p]].inTried && p == TriedSlot(h, info[tried[p]].key))
    && (forall id | id in info && info[id].inTried :: |SlotsOf(tried, id)| == 1)
  }

  /** The pass over the new table: each other entry is met as often as its reference count says, in cells it hashes to. */
  ghost predicate NewChecked(h: Bucketing, info: map<int, Info>, untried: map<Slot, int>) {
    && (forall p | p in untried ::
          untried[p] in info && !info[untried[p]].inTried && p == SlotIn(h, info[untried[p]].key, p.0))
    && (forall id | id in info && !info[id].inTried :: |SlotsOf(untried, id)| == info[id].refCount)
  }

  /** Check_ returns 0. */
  ghost predicate Checked(h: Bucketing, s: State) {
    && |s.random| == s.nTried + s.nNew
    && (forall id | id in s.info :: EntryChecked(s, id))
    && Counted(s, 0) && TriedChecked(h, s.info, s.tried) && NewChecked(h, s.info, s.untried)
  }

  // ---------------------------------------------------------------- vRandom

  function FirstIds(random: seq<int>, n: nat): set<int>
    requires n <= |random|
  {
    if n == 0 then {} else FirstIds(random, n - 1) + {random[n - 1]}
  }

  lemma {:induction false} FirstIdsAre(info: map<int, Info>, random: seq<int>, n: nat)
    requires Shuffled(info, random) && n <= |random|
    ensures |FirstIds(random, n)| == n
    ensures forall id :: id in FirstIds(random, n) <==> id in info && 0 <= info[id].randomPos < n
  {
    if n > 0 {
      FirstIdsAre(info, random, n - 1);
      var last := random[n - 1];
      assert info[last].randomPos == n - 1;
      forall id | id in info && info[id].randomPos == n - 1 ensures id == last { }
      forall id | id in FirstIds(random, n) ensures id in info && info[id].randomPos < n { }
    }
  }

  /** The first test: vRandom lists every entry of both tables once. */
  lemma AllListed(s: State)
    requires Shuffled(s.info, s.random) && Counted(s, 0)
    ensures |s.random| == s.nTried + s.nNew
  {
    FirstIdsAre(s.info, s.random, |s.random|);
    var ids, both := FirstIds(s.random, |s.random|), TriedIds(s) + NewIds(s);
    hide FirstIds;
    forall id | id in s.info ensures id in ids { assert 0 <= s.info[id].randomPos < |s.random|; }
    assert forall id :: id in ids <==> id in both;
    assert ids == both;
    assert TriedIds(s) !! NewIds(s);
  }

  function Positions(info: map<int, Info>, ids: set<int>): set<int>
    requires ids <= info.Keys
  {
    set id | id in ids :: info[id].randomPos
  }

  /** Entries that find themselves in vRandom have different positions. */
  lemma {:induction false} PositionsDiffer(info: map<int, Info>, random: seq<int>, ids: set<int>)
    requires ids <= info.Keys
    requires forall id | id in ids :: 0 <= info[id].randomPos < |random| && random[info[id].randomPos] == id
    ensures |Positions(info, ids)| == |ids|
    decreases |ids|
  {
    if ids != {} {
      var x := Sets.Pick(ids);
      PositionsDiffer(info, random, ids - {x});
      var all, rest := Positions(info, ids), Positions(info, ids - {x});
      assert forall n :: n in all <==> n in rest + {info[x].randomPos};
      assert all == rest + {info[x].randomPos};
    }
  }

  /** As many different numbers below `n` as there are: all of them. */
  lemma {:induction false} AllBelow(s: set<int>, n: nat)
    requires forall i | i in s :: 0 <= i < n
    ensures |s| <= n && (|s| == n ==> forall i | 0 <= i < n :: i in s)
  {
    if n == 0 {
      if s != {} { var x := Sets.Pick(s); }
    } else {
      AllBelow(s - {n - 1}, n - 1);
    }
  }

  lemma EntriesCounted(s: State)
    requires Counted(s, 0)
    ensures |s.info.Keys| == s.nTried + s.nNew
  {
    var ids, both := s.info.Keys, TriedIds(s) + NewIds(s);
    assert forall id :: id in ids <==> id in both;
    assert ids == both;
    assert TriedIds(s) !! NewIds(s);
  }

  lemma EveryPosition(info: map<int, Info>, random: seq<int>)
    requires forall id | id in info :: 0 <= info[id].randomPos < |random| && random[info[id].randomPos] == id
    requires |info.Keys| == |random|
    ensures Shuffled(info, random)
  {
    var all := Positions(info, info.Keys);
    PositionsDiffer(info, random, info.Keys);
    AllBelow(all, |random|);
    forall i | 0 <= i < |random| ensures random[i] in info && info[random[i]].randomPos == i {
      assert i in all;
    }
  }

  /** The tests on single entries and the first test together make vRandom and nRandomPos inverse. */
  lemma ListedOnce(s: State)
    requires (forall id | id in s.info :: EntryChecked(s, id)) && |s.random| == s.nTried + s.nNew && Counted(s, 0)
    ensures Shuffled(s.info, s.random)
  {
    hide Counted, Shuffled;
    EntriesCounted(s);
    forall id | id in s.info ensures 0 <= s.info[id].randomPos < |s.random| && s.random[s.info[id].randomPos] == id {
      assert EntryChecked(s, id);
    }
    EveryPosition(s.info, s.random);
  }

  // ---------------------------------------------------------------- the tables

  lemma PlacedChecked(h: Bucketing, s: State)
    requires Placed(h, s)
    ensures TriedChecked(h, s.info, s.tried) && NewChecked(h, s.info, s.untried)
  {
    forall id | id in s.info && s.info[id].inTried ensures |SlotsOf(s.tried, id)| == 1 {
      var own := TriedSlot(h, s.info[id].key);
      assert forall p :: p in SlotsOf(s.tried, id) <==> p == own;
      assert SlotsOf(s.tried, id) == {own};
    }
  }

  lemma CheckedPlaced(h: Bucketing, s: State)
    requires TriedChecked(h, s.info, s.tried) && NewChecked(h, s.info, s.untried)
    requires (forall id | id in s.info :: EntryChecked(s, id)) && (forall p | p in s.untried :: 0 <= p.0 < NEW_BUCKETS)
    ensures Placed(h, s)
  {
    hide TriedSlot, SlotIn;
    forall id | id in s.info && s.info[id].inTried
      ensures TriedSlot(h, s.info[id].key) in s.tried && s.tried[TriedSlot(h, s.info[id].key)] == id
    {
      assert SlotsOf(s.tried, id) != {};
      var p := Sets.Pick(SlotsOf(s.tried, id));
    }
    forall id | id in s.info ensures s.info[id].refCount == |SlotsOf(s.untried, id)| <= NEW_BUCKETS_PER_ADDRESS {
      assert EntryChecked(s, id);
      if s.info[id].inTried {
        forall p | p in s.untried ensures s.untried[p] != id { var x := s.untried[p]; }
        assert SlotsOf(s.untried, id) == {};
      }
    }
  }

  // ---------------------------------------------------------------- the check and the invariant

  ghost predicate ReadsBack(s: State) {
    forall id | id in s.info :: AddressId(s.addr, s.info[id].key.addr) == id
  }

  /** With tables and counters in order, the check comes down to addresses and times. */
  lemma CheckedTables(h: Bucketing, s: State)
    requires Shuffled(s.info, s.random) && Placed(h, s) && Counted(s, 0) && Held(s, {})
    ensures Checked(h, s) <==> ReadsBack(s) && Timed(s)
  {
    hide Counted, SlotIn, TriedSlot, NewPlaced, TriedPlaced;
    AllListed(s);
    PlacedChecked(h, s);
    forall id | id in s.info && s.info[id].inTried ensures s.info[id].refCount == 0 { NoSlots(h, s, id); }
    assert forall id | id in s.info && !s.info[id].inTried :: 1 <= s.info[id].refCount <= NEW_BUCKETS_PER_ADDRESS;
    if Checked(h, s) {
      assert forall id | id in s.info :: EntryChecked(s, id);
    }
  }

  /** Every consistent manager passes. */
  lemma InvChecked(h: Bucketing, s: State)
    requires Inv(h, s)
    ensures Checked(h, s)
  {
    hide Shuffled, Placed, Counted, Checked, Contested;
    CheckedTables(h, s);
  }

  /** The invariant is what Check_ tests, and four things that it does not: that no address is missing or left over,
      that ids are below the next one, that pending collisions are real, and that buckets are in range. */
  lemma InvIff(h: Bucketing, s: State)
    ensures Inv(h, s) <==>
      && Checked(h, s) && Indexed(s.info, s.addr) && Numbered(s) && Contested(h, s)
      && forall p | p in s.untried :: 0 <= p.0 < NEW_BUCKETS
  {
    if Inv(h, s) {
      InvChecked(h, s);
      forall p | p in s.untried ensures 0 <= p.0 < NEW_BUCKETS { var x := s.untried[p]; }
    }
    if Checked(h, s) && Indexed(s.info, s.addr) && Numbered(s) && Contested(h, s)
       && (forall p | p in s.untried :: 0 <= p.0 < NEW_BUCKETS) {
      CheckedInv(h, s);
    }
  }

  lemma CheckedInv(h: Bucketing, s: State)
    requires Checked(h, s) && Indexed(s.info, s.addr) && Numbered(s) && Contested(h, s)
    requires forall p | p in s.untried :: 0 <= p.0 < NEW_BUCKETS
    ensures Inv(h, s)
  {
    hide Shuffled, Indexed, Placed, Counted, Numbered, Contested, TriedChecked, NewChecked;
    ListedOnce(s);
    CheckedPlaced(h, s);
    forall id | id in s.info ensures EntryChecked(s, id) { }
  }

  // ---------------------------------------------------------------- a pass over a table

  /** The cells that a pass has seen when it comes to cell `i` of bucket `n`. */
  ghost function Upto(cells: map<Slot, int>, n: int, i: int): map<Slot, int> {
    map p | p in cells && (p.0 < n || (p.0 == n && p.1 < i)) :: cells[p]
  }

  /** No entry has been seen more often than it should be. */
  ghost predicate Within(want: map<int, int>, cells: map<Slot, int>) {
    forall id | id in want :: |SlotsOf(cells, id)| <= want[id]
  }

  /** How often entries are still to be seen. */
  ghost function Rest(want: map<int, int>, cells: map<Slot, int>): (rest: map<int, int>)
    ensures forall id | id in rest :: id in want && 0 < rest[id] <= want[id]
  {
    map id | id in want && |SlotsOf(cells, id)| < want[id] :: want[id] - |SlotsOf(cells, id)|
  }

  /** Every entry is seen as often as it should be. */
  ghost predicate Met(want: map<int, int>, cells: map<Slot, int>) {
    forall id | id in want :: |SlotsOf(cells, id)| == want[id]
  }

  lemma UptoNext(cells: map<Slot, int>, n: int, i: int)
    ensures Upto(cells, n, i + 1) == if (n, i) in cells then Upto(cells, n, i)[(n, i) := cells[(n, i)]] else Upto(cells, n, i)
    ensures (n, i) !in Upto(cells, n, i)
  {
    var p := (n, i);
    assert forall q: Slot | q.0 == n && q.1 == i :: q == p;
  }

  lemma UptoRow(cells: map<Slot, int>, n: int, size: int)
    requires forall p | p in cells :: 0 <= p.1 < size
    ensures Upto(cells, n + 1, 0) == Upto(cells, n, size)
  {
  }

  lemma UptoAll(cells: map<Slot, int>, n: int)
    requires forall p | p in cells :: 0 <= p.0 < n && 0 <= p.1
    ensures Upto(cells, n, 0) == cells && Upto(cells, 0, 0) == map[]
  {
  }

  lemma SeenMore(cells: map<Slot, int>, p: Slot, x: int, id: int)
    requires p !in cells
    ensures |SlotsOf(cells[p := x], id)| == |SlotsOf(cells, id)| + if id == x then 1 else 0
  {
    var more, was := SlotsOf(cells[p := x], id), SlotsOf(cells, id);
    assert forall q :: q in more <==> q in was || (q == p && id == x);
    assert more == if id == x then was + {p} else was;
  }

  /** Seeing an entry that is still to be seen. */
  lemma SeeNext(want: map<int, int>, cells: map<Slot, int>, p: Slot, x: int)
    requires p !in cells && x in Rest(want, cells) && Within(want, cells)
    ensures
      var rest := Rest(want, cells);
      && Within(want, cells[p := x])
      && Rest(want, cells[p := x]) == if rest[x] == 1 then rest - {x} else rest[x := rest[x] - 1]
  {
    hide SlotsOf;
    forall id | id in want
      ensures |SlotsOf(cells[p := x], id)| == |SlotsOf(cells, id)| + if id == x then 1 else 0
    {
      SeenMore(cells, p, x, id);
    }
    var rest, next := Rest(want, cells), Rest(want, cells[p := x]);
    assert next == if rest[x] == 1 then rest - {x} else rest[x := rest[x] - 1];
  }

  /** Seeing any other is a failure, whatever follows. */
  lemma SeenTooOften(want: map<int, int>, cells: map<Slot, int>, n: int, i: int)
    requires (n, i) in cells && cells[(n, i)] in want && Within(want, Upto(cells, n, i))
    requires cells[(n, i)] !in Rest(want, Upto(cells, n, i))
    ensures !Met(want, cells)
  {
    var x, was := cells[(n, i)], Upto(cells, n, i);
    SeenMore(was, (n, i), x, x);
    var part, whole := SlotsOf(was[(n, i) := x], x), SlotsOf(cells, x);
    assert whole == part + (whole - part);
  }

  lemma AllMet(want: map<int, int>, cells: map<Slot, int>)
    requires Within(want, cells)
    ensures Met(want, cells) <==> Rest(want, cells) == map[]
  {
    hide SlotsOf;
    if Rest(want, cells) == map[] {
      forall id | id in want ensures |SlotsOf(cells, id)| == want[id] { assert id !in Rest(want, cells); }
    }
  }

  lemma NothingSeen(want: map<int, int>)
    requires forall id | id in want :: want[id] > 0
    ensures Within(want, map[]) && Rest(want, map[]) == want
  {
    assert forall id :: SlotsOf(map[], id) == {};
  }

  /** What the passes start from. */
  ghost function TriedOnce(info: map<int, Info>): map<int, int> {
    map id | id in info && info[id].inTried :: 1
  }

  ghost function References(info: map<int, Info>): map<int, int> {
    map id | id in info && !info[id].inTried :: info[id].refCount
  }

  /** The tried pass is at cell `i` of bucket `n`, with `left` still to be met. */
  ghost predicate TriedPass(h: Bucketing, info: map<int, Info>, tried: map<Slot, int>, n: int, i: int, left: set<int>) {
    var seen, want := Upto(tried, n, i), TriedOnce(info);
    && (forall p | p in seen :: seen[p] in want && p == TriedSlot(h, info[seen[p]].key))
    && Within(want, seen) && left == Rest(want, seen).Keys
  }

  lemma TriedPassStep(h: Bucketing, info: map<int, Info>, tried: map<Slot, int>, n: int, i: int, left: set<int>)
    requires TriedPass(h, info, tried, n, i, left)
    ensures
      if (n, i) !in tried then TriedPass(h, info, tried, n, i + 1, left)
      else
        var x := tried[(n, i)];
        if x in left && (n, i) == TriedSlot(h, info[x].key) then TriedPass(h, info, tried, n, i + 1, left - {x})
        else !TriedChecked(h, info, tried)
  {
    hide SlotsOf, TriedSlot, Within, Rest, Upto;
    var seen, want := Upto(tried, n, i), TriedOnce(info);
    UptoNext(tried, n, i);
    if (n, i) in tried {
      var x := tried[(n, i)];
      if x in left && (n, i) == TriedSlot(h, info[x].key) {
        SeeNext(want, seen, (n, i), x);
      } else if x in want && x !in left {
        SeenTooOften(want, tried, n, i);
      }
    }
  }

  /** The new pass likewise. */
  ghost predicate NewPass(h: Bucketing, info: map<int, Info>, untried: map<Slot, int>, n: int, i: int, left: map<int, int>) {
    var seen, want := Upto(untried, n, i), References(info);
    && (forall p | p in seen :: seen[p] in want && p == SlotIn(h, info[seen[p]].key, p.0))
    && Within(want, seen) && left == Rest(want, seen)
  }

  lemma NewPassStep(h: Bucketing, info: map<int, Info>, untried: map<Slot, int>, n: int, i: int, left: map<int, int>)
    requires NewPass(h, info, untried, n, i, left)
    ensures
      if (n, i) !in untried then NewPass(h, info, untried, n, i + 1, left)
      else
        var x := untried[(n, i)];
        if x in left && (n, i) == SlotIn(h, info[x].key, n) then
          NewPass(h, info, untried, n, i + 1, if left[x] == 1 then left - {x} else left[x := left[x] - 1])
        else !NewChecked(h, info, untried)
  {
    hide SlotsOf, SlotIn, Within, Rest, Upto;
    var seen, want := Upto(untried, n, i), References(info);
    UptoNext(untried, n, i);
    if (n, i) in untried {
      var x := untried[(n, i)];
      if x in left && (n, i) == SlotIn(h, info[x].key, n) {
        SeeNext(want, seen, (n, i), x);
      } else if x in want && x !in left {
        SeenTooOften(want, untried, n, i);
      }
    }
  }

  lemma TriedLeftKnown(h: Bucketing, info: map<int, Info>, tried: map<Slot, int>, n: int, i: int, left: set<int>)
    requires TriedPass(h, info, tried, n, i, left)
    ensures left <= info.Keys
  {
  }

  lemma NewLeftKnown(h: Bucketing, info: map<int, Info>, untried: map<Slot, int>, n: int, i: int, left: map<int, int>)
    requires NewPass(h, info, untried, n, i, left)
    ensures left.Keys <= info.Keys
  {
  }

  lemma TriedRow(h: Bucketing, info: map<int, Info>, tried: map<Slot, int>, n: int, left: set<int>)
    requires TriedPass(h, info, tried, n, BUCKET_SIZE, left) && forall p | p in tried :: 0 <= p.1 < BUCKET_SIZE
    ensures TriedPass(h, info, tried, n + 1, 0, left)
  {
    UptoRow(tried, n, BUCKET_SIZE);
  }

  lemma NewRow(h: Bucketing, info: map<int, Info>, untried: map<Slot, int>, n: int, left: map<int, int>)
    requires NewPass(h, info, untried, n, BUCKET_SIZE, left) && forall p | p in untried :: 0 <= p.1 < BUCKET_SIZE
    ensures NewPass(h, info, untried, n + 1, 0, left)
  {
    UptoRow(untried, n, BUCKET_SIZE);
  }

  lemma PassStarts(h: Bucketing, s: State)
    requires forall p | p in s.tried :: 0 <= p.0 < TRIED_BUCKETS && 0 <= p.1
    requires forall p | p in s.untried :: 0 <= p.0 < NEW_BUCKETS && 0 <= p.1
    requires forall id | id in s.info :: EntryChecked(s, id)
    ensures TriedPass(h, s.info, s.tried, 0, 0, TriedOnce(s.info).Keys) && NewPass(h, s.info, s.untried, 0, 0, References(s.info))
  {
    UptoAll(s.tried, TRIED_BUCKETS);
    UptoAll(s.untried, NEW_BUCKETS);
    NothingSeen(TriedOnce(s.info));
    forall id | id in References(s.info) ensures References(s.info)[id] > 0 { assert EntryChecked(s, id); }
    NothingSeen(References(s.info));
  }

  lemma TriedEnds(h: Bucketing, info: map<int, Info>, tried: map<Slot, int>, left: set<int>)
    requires forall p | p in tried :: 0 <= p.0 < TRIED_BUCKETS && 0 <= p.1
    requires TriedPass(h, info, tried, TRIED_BUCKETS, 0, left)
    ensures TriedChecked(h, info, tried) <==> left == {}
  {
    hide SlotsOf, TriedSlot, Rest, Within, Upto;
    UptoAll(tried, TRIED_BUCKETS);
    var want := TriedOnce(info);
    AllMet(want, tried);
    assert Rest(want, tried) == map[] <==> Rest(want, tried).Keys == {};
    assert Met(want, tried) <==> forall id | id in info && info[id].inTried :: |SlotsOf(tried, id)| == 1;
  }

  lemma NewEnds(h: Bucketing, info: map<int, Info>, untried: map<Slot, int>, left: map<int, int>)
    requires forall p | p in untried :: 0 <= p.0 < NEW_BUCKETS && 0 <= p.1
    requires NewPass(h, info, untried, NEW_BUCKETS, 0, left)
    ensures NewChecked(h, info, untried) <==> left == map[]
  {
    hide SlotsOf, SlotIn, Rest, Within, Upto;
    UptoAll(untried, NEW_BUCKETS);
    var want := References(info);
    AllMet(want, untried);
    assert Met(want, untried) <==> forall id | id in info && !info[id].inTried :: |SlotsOf(untried, id)| == info[id].refCount;
  }

  /** In the order of the tests. */
  lemma CheckedParts(h: Bucketing, s: State)
    ensures Checked(h, s) <==>
      && |s.random| == s.nTried + s.nNew && (forall id | id in s.info :: EntryChecked(s, id))
      && |TriedOnce(s.info).Keys| == s.nTried && |References(s.info)| == s.nNew
      && TriedChecked(h, s.info, s.tried) && NewChecked(h, s.info, s.untried)
  {
    hide EntryChecked, TriedChecked, NewChecked;
    var news := References(s.info);
    assert TriedOnce(s.info).Keys == TriedIds(s) && news.Keys == NewIds(s);
    assert |news| == |news.Keys|;
  }

  lemma InvIndexed(h: Bucketing, s: State)
    requires Inv(h, s)
    ensures Indexed(s.info, s.addr)
  {
  }
}
