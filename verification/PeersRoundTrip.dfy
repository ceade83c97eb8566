/** Saving and loading an address manager: no address is lost. */
module PeersRoundTrip {
  import opened AddrManState
  import opened AddrManSteps
  import opened PeersFile
  import Sets

  // ---------------------------------------------------------------- the order of the file

  predicate IsNew(s: State, id: int) {
    id in s.info && s.info[id].refCount != 0
  }

  predicate IsTried(s: State, id: int) {
    id in s.info && s.info[id].inTried
  }

  function TriedRank(s: State, id: nat): nat {
    |TriedBelow(s, id)|
  }

  /** A new entry is found in the file under its number. */
  lemma {:induction false} NewListed(s: State, id: nat, n: nat)
    requires IsNew(s, id) && id < n
    ensures Rank(s, id) < |NewBelow(s, n)| && NewBelow(s, n)[Rank(s, id)] == RecordOf(s.info[id])
    decreases n
  {
    if id < n - 1 { NewListed(s, id, n - 1); }
  }

  lemma {:induction false} TriedListed(s: State, id: nat, n: nat)
    requires IsTried(s, id) && id < n
    ensures TriedRank(s, id) < |TriedBelow(s, n)| && TriedBelow(s, n)[TriedRank(s, id)] == RecordOf(s.info[id])
    decreases n
  {
    if id < n - 1 { TriedListed(s, id, n - 1); }
  }

  /** Every number in the file belongs to an entry. */
  lemma {:induction false} NewNumber(s: State, k: nat, n: nat) returns (id: nat)
    requires k < |NewBelow(s, n)|
    ensures id < n && IsNew(s, id) && Rank(s, id) == k
    decreases n
  {
    if k < |NewBelow(s, n - 1)| { id := NewNumber(s, k, n - 1); } else { id := n - 1; }
  }

  lemma {:induction false} TriedNumber(s: State, k: nat, n: nat) returns (id: nat)
    requires k < |TriedBelow(s, n)|
    ensures id < n && IsTried(s, id) && TriedRank(s, id) == k
    decreases n
  {
    if k < |TriedBelow(s, n - 1)| { id := TriedNumber(s, k, n - 1); } else { id := n - 1; }
  }

  /** Different entries have different numbers. */
  lemma {:induction false} RankGrows(s: State, a: nat, b: nat)
    requires IsNew(s, a) && a < b
    ensures Rank(s, a) < Rank(s, b)
    decreases b
  {
    if a < b - 1 { RankGrows(s, a, b - 1); }
  }

  lemma RankUnique(s: State, a: nat, b: nat)
    requires IsNew(s, a) && IsNew(s, b) && Rank(s, a) == Rank(s, b)
    ensures a == b
  {
    hide Rank;
    if a < b { RankGrows(s, a, b); }
    if b < a { RankGrows(s, b, a); }
  }

  /** Under the invariant an entry is in exactly one of the lists. */
  lemma NewIff(h: Bucketing, s: State, id: int)
    requires Inv(h, s) && id in s.info
    ensures IsNew(s, id) <==> !s.info[id].inTried
    ensures 0 <= id < s.idCount
  {
    hide Linked, Counted, Timed, Contested;
    if s.info[id].inTried { NoSlots(h, s, id); }
  }

  // ---------------------------------------------------------------- what is written can be read

  /** The entry behind a place in the file: first the new ones, then the tried ones. */
  lemma EntryBehind(h: Bucketing, s: State, k: nat) returns (id: nat)
    requires Inv(h, s) && k < |Save(s).news + Save(s).trieds|
    ensures id in s.info && (Save(s).news + Save(s).trieds)[k] == RecordOf(s.info[id])
    ensures k == if s.info[id].inTried then |Save(s).news| + TriedRank(s, id) else Rank(s, id)
  {
    hide Inv;
    InvNumbered(h, s);
    if k < |Save(s).news| {
      id := NewNumber(s, k, s.idCount);
      NewListed(s, id, s.idCount);
      NewIff(h, s, id);
    } else {
      id := TriedNumber(s, k - |Save(s).news|, s.idCount);
      TriedListed(s, id, s.idCount);
    }
  }

  lemma InvNumbered(h: Bucketing, s: State)
    requires Inv(h, s)
    ensures s.idCount >= 0 && Indexed(s.info, s.addr)
  {
  }

  lemma SameAddressSameEntry(s: State, a: int, b: int)
    requires Indexed(s.info, s.addr) && a in s.info && b in s.info && s.info[a].key.addr == s.info[b].key.addr
    ensures a == b
  {
  }

  lemma SavedDistinct(h: Bucketing, s: State, i: nat, j: nat)
    requires Inv(h, s) && s.idCount >= 0 && i < j < |Save(s).news + Save(s).trieds|
    ensures (Save(s).news + Save(s).trieds)[i].key.addr != (Save(s).news + Save(s).trieds)[j].key.addr
  {
    hide Inv, Indexed, Save, Rank, TriedRank;
    InvNumbered(h, s);
    var all := Save(s).news + Save(s).trieds;
    var a := EntryBehind(h, s, i);
    var b := EntryBehind(h, s, j);
    if all[i].key.addr == all[j].key.addr { SameAddressSameEntry(s, a, b); }
  }

  lemma SavedTimed(h: Bucketing, s: State, i: nat)
    requires Inv(h, s) && s.idCount >= 0 && i < |Save(s).news + Save(s).trieds|
    ensures
      var r := (Save(s).news + Save(s).trieds)[i];
      r.lastSuccess >= 0 && (i >= |Save(s).news| ==> r.lastSuccess > 0)
  {
    hide Linked, Placed, Counted, Contested, Held, Save, NewBelow, TriedBelow;
    var id := EntryBehind(h, s, i);
    if !s.info[id].inTried { NewIff(h, s, id); NewListed(s, id, s.idCount); SaveIs(s); }
  }

  lemma SaveIs(s: State)
    requires s.idCount >= 0
    ensures Save(s).news == NewBelow(s, s.idCount) && Save(s).trieds == TriedBelow(s, s.idCount) && |Save(s).buckets| == NEW_BUCKETS
  {
    hide NewBelow, TriedBelow, BucketBelow;
  }

  // ---------------------------------------------------------------- tried cells

  ghost predicate ApartTried(h: Bucketing, rs: seq<Record>) {
    forall i, j | 0 <= i < j < |rs| :: TriedSlot(h, rs[i].key) != TriedSlot(h, rs[j].key)
  }

  lemma {:induction false} AllKept(h: Bucketing, rs: seq<Record>)
    requires ApartTried(h, rs)
    ensures KeptTrieds(h, rs) == rs
  {
    hide TriedSlot;
    if rs != [] { AllKept(h, rs[..|rs| - 1]); }
  }

  // ---------------------------------------------------------------- new cells

  function CellOf(h: Bucketing, f: File, i: nat): Slot
    requires i < |f.news|
  {
    SlotIn(h, f.news[i].key, LastBucket(f.buckets, i, |f.buckets|))
  }

  ghost predicate ApartNew(h: Bucketing, f: File) {
    forall i, j | 0 <= i < j < |f.news| :: CellOf(h, f, i) != CellOf(h, f, j)
  }

  /** The i-th new record stands in the one cell that the file gives it. */
  ghost predicate NewLoaded(h: Bucketing, f: File, t: State, i: nat)
    requires i < |f.news|
  {
    && i in t.info && t.info[i] == Fresh(f.news[i], i).(refCount := 1)
    && CellOf(h, f, i) in t.untried && t.untried[CellOf(h, f, i)] == i
  }

  ghost predicate CellListed(h: Bucketing, f: File, n: nat, p: Slot)
    requires n <= |f.news|
  {
    exists i | 0 <= i < n :: p == CellOf(h, f, i)
  }

  ghost predicate NewLoadedUpTo(h: Bucketing, f: File, s: State, t: State, n: nat) {
    && n <= |f.news|
    && (forall i | 0 <= i < n :: NewLoaded(h, f, t, i))
    && (forall i | n <= i < |f.news| :: i in t.info && t.info[i] == Fresh(f.news[i], i))
    && (forall p | p in t.untried :: CellListed(h, f, n, p))
    && t.info.Keys == s.info.Keys && (forall id | id in s.info && id >= |f.news| :: t.info[id] == s.info[id])
    && t.tried == s.tried && t.nNew == s.nNew && t.nTried == s.nTried && t.idCount == s.idCount
  }

  /** A free cell is taken; the fallback is not needed. */
  lemma ReplaceTakes(h: Bucketing, f: File, t: State, n: nat)
    requires n < |f.news| && n in t.info && t.info[n] == Fresh(f.news[n], n) && CellOf(h, f, n) !in t.untried
    ensures Replace(h, t, n, LastBucket(f.buckets, n, |f.buckets|), true) == Acquire(t, n, CellOf(h, f, n))
  {
  }

  lemma CellNotListed(h: Bucketing, f: File, n: nat)
    requires n < |f.news| && ApartNew(h, f)
    ensures !CellListed(h, f, n, CellOf(h, f, n))
  {
    hide CellOf;
  }

  lemma CellListedMore(h: Bucketing, f: File, n: nat, p: Slot)
    requires n < |f.news|
    ensures CellListed(h, f, n + 1, p) <==> CellListed(h, f, n, p) || p == CellOf(h, f, n)
  {
    hide CellOf;
    if CellListed(h, f, n, p) { var i :| 0 <= i < n && p == CellOf(h, f, i); }
  }

  lemma NewKept(h: Bucketing, f: File, t: State, n: nat, i: nat)
    requires i < n < |f.news| && NewLoaded(h, f, t, i) && n in t.info && CellOf(h, f, n) !in t.untried
    ensures NewLoaded(h, f, Acquire(t, n, CellOf(h, f, n)), i)
  {
    hide CellOf;
  }

  lemma NewStep(h: Bucketing, f: File, s: State, t: State, n: nat)
    requires NewLoadedUpTo(h, f, s, t, n) && n < |f.news| && ApartNew(h, f)
    ensures n in t.info
    ensures NewLoadedUpTo(h, f, s, Replace(h, t, n, LastBucket(f.buckets, n, |f.buckets|), true), n + 1)
  {
    hide CellListed, CellOf, ApartNew, Replace, NewLoaded;
    assert t.info[n] == Fresh(f.news[n], n);
    var p := CellOf(h, f, n);
    CellNotListed(h, f, n);
    ReplaceTakes(h, f, t, n);
    var u := Acquire(t, n, p);
    forall i | 0 <= i < n ensures NewLoaded(h, f, u, i) { NewKept(h, f, t, n, i); }
    NewAdded(h, f, t, n);
    forall q | q in u.untried ensures CellListed(h, f, n + 1, q) { CellListedMore(h, f, n, q); }
  }

  lemma NewAdded(h: Bucketing, f: File, t: State, n: nat)
    requires n < |f.news| && n in t.info && t.info[n] == Fresh(f.news[n], n)
    ensures NewLoaded(h, f, Acquire(t, n, CellOf(h, f, n)), n)
  {
    hide CellOf;
  }

  lemma {:induction false} NewsReplaced(h: Bucketing, f: File, s: State, n: nat)
    requires n <= |f.news| && ApartNew(h, f) && Listed(s, f.news) && s.untried == map[]
    ensures NewLoadedUpTo(h, f, s, ReplaceAll(h, s, f.buckets, n, true), n)
  {
    hide Replace, CellOf;
    if n > 0 {
      NewsReplaced(h, f, s, n - 1);
      NewStep(h, f, s, ReplaceAll(h, s, f.buckets, n - 1, true), n - 1);
    }
  }

  lemma {:induction false} NothingPruned(s: State, n: nat)
    requires Shuffled(s.info, s.random) && forall id | id in s.info && !s.info[id].inTried :: s.info[id].refCount >= 1
    ensures Prune(s, n) == s
  {
    hide Shuffled;
    if n > 0 { NothingPruned(s, n - 1); }
  }

  // ---------------------------------------------------------------- the cells of the saved manager

  lemma {:induction false} BucketHas(s: State, b: int, n: nat, i: nat)
    requires i < n && (b, i) in s.untried && s.untried[(b, i)] >= 0
    ensures Rank(s, s.untried[(b, i)]) in BucketBelow(s, b, n)
    decreases n
  {
    hide Rank;
    if i < n - 1 { BucketHas(s, b, n - 1, i); }
  }

  lemma {:induction false} InBucket(s: State, b: int, n: nat, k: int) returns (i: nat)
    requires k in BucketBelow(s, b, n)
    ensures i < n && (b, i) in s.untried && s.untried[(b, i)] >= 0 && Rank(s, s.untried[(b, i)]) == k
    decreases n
  {
    hide Rank;
    if k in BucketBelow(s, b, n - 1) { i := InBucket(s, b, n - 1, k); } else { i := n - 1; }
  }

  lemma {:induction false} LastBucketLists(buckets: seq<seq<int>>, entry: int, n: nat, b: nat)
    requires b < n <= |buckets| && entry in buckets[b]
    ensures LastBucket(buckets, entry, n) < n && entry in buckets[LastBucket(buckets, entry, n)]
  {
    if entry !in buckets[n - 1] { LastBucketLists(buckets, entry, n - 1, b); }
  }

  lemma SomeCell(h: Bucketing, s: State, id: int) returns (p: Slot)
    requires Inv(h, s) && IsNew(s, id)
    ensures p in s.untried && s.untried[p] == id && 0 <= p.0 < NEW_BUCKETS && 0 <= p.1 < BUCKET_SIZE
  {
    hide Linked, Counted, Timed, Contested, Held;
    NewIff(h, s, id);
    assert s.info[id].refCount == |SlotsOf(s.untried, id)|;
    assert SlotsOf(s.untried, id) != {};
    p := Sets.Pick(SlotsOf(s.untried, id));
  }

  lemma CellEntry(h: Bucketing, s: State, p: Slot)
    requires Inv(h, s) && p in s.untried
    ensures IsNew(s, s.untried[p]) && 0 <= s.untried[p] && p == SlotIn(h, s.info[s.untried[p]].key, p.0)
  {
    hide Linked, Counted, Timed, Contested;
    var id := s.untried[p];
    assert id in s.info && !s.info[id].inTried;
    NewIff(h, s, id);
  }

  /** The cell that the file gives a new entry is one that it held. */
  lemma CellHeld(h: Bucketing, s: State, id: nat)
    requires Inv(h, s) && IsNew(s, id)
    ensures s.idCount >= 0 && id < s.idCount && Rank(s, id) < |Save(s).news|
    ensures
      var p := CellOf(h, Save(s), Rank(s, id));
      p in s.untried && s.untried[p] == id
  {
    hide Inv, Rank, NewBelow, BucketBelow, LastBucket;
    InvNumbered(h, s);
    NewIff(h, s, id);
    NewListed(s, id, s.idCount);
    var f, k := Save(s), Rank(s, id);
    var p := SomeCell(h, s, id);
    BucketHas(s, p.0, BUCKET_SIZE, p.1);
    assert f.buckets[p.0] == BucketBelow(s, p.0, BUCKET_SIZE);
    LastBucketLists(f.buckets, k, |f.buckets|, p.0);
    var b := LastBucket(f.buckets, k, |f.buckets|);
    assert f.buckets[b] == BucketBelow(s, b, BUCKET_SIZE);
    var i := InBucket(s, b, BUCKET_SIZE, k);
    CellEntry(h, s, (b, i));
    RankUnique(s, s.untried[(b, i)], id);
  }

  lemma SavedApart(h: Bucketing, s: State)
    requires Inv(h, s)
    ensures s.idCount >= 0 && ApartNew(h, Save(s)) && ApartTried(h, Save(s).trieds)
  {
    hide Inv, Rank, NewBelow, TriedBelow, TriedRank, CellOf, TriedSlot;
    InvNumbered(h, s);
    var f := Save(s);
    forall i, j | 0 <= i < j < |f.news| ensures CellOf(h, f, i) != CellOf(h, f, j) {
      var a := NewNumber(s, i, s.idCount);
      var b := NewNumber(s, j, s.idCount);
      CellHeld(h, s, a);
      CellHeld(h, s, b);
    }
    forall i, j | 0 <= i < j < |f.trieds| ensures TriedSlot(h, f.trieds[i].key) != TriedSlot(h, f.trieds[j].key) {
      var a := TriedNumber(s, i, s.idCount);
      var b := TriedNumber(s, j, s.idCount);
      TriedListed(s, a, s.idCount);
      TriedListed(s, b, s.idCount);
      TriedCell(h, s, a);
      TriedCell(h, s, b);
    }
  }

  lemma TriedCell(h: Bucketing, s: State, id: int)
    requires Inv(h, s) && IsTried(s, id)
    ensures TriedSlot(h, s.info[id].key) in s.tried && s.tried[TriedSlot(h, s.info[id].key)] == id
  {
    hide Linked, Counted, Timed, Contested, Held;
  }

  // ---------------------------------------------------------------- counting

  function NewUpTo(s: State, n: nat): set<int> {
    set id | id in s.info && 0 <= id < n && s.info[id].refCount != 0
  }

  function TriedUpTo(s: State, n: nat): set<int> {
    set id | id in s.info && 0 <= id < n && s.info[id].inTried
  }

  lemma {:induction false} NewCount(s: State, n: nat)
    ensures |NewBelow(s, n)| == |NewUpTo(s, n)|
  {
    hide RecordOf;
    NewUpToStep(s, n);
    if n > 0 { NewCount(s, n - 1); }
  }

  lemma NewUpToStep(s: State, n: nat)
    ensures n == 0 ==> NewUpTo(s, n) == {}
    ensures n > 0 ==> |NewUpTo(s, n)| == |NewUpTo(s, n - 1)| + if IsNew(s, n - 1) then 1 else 0
  {
    if n > 0 {
      var more: set<int> := if IsNew(s, n - 1) then {n - 1} else {};
      assert forall id :: id in NewUpTo(s, n) <==> id in NewUpTo(s, n - 1) + more;
      assert NewUpTo(s, n) == NewUpTo(s, n - 1) + more;
    }
  }

  lemma {:induction false} TriedCount(s: State, n: nat)
    ensures |TriedBelow(s, n)| == |TriedUpTo(s, n)|
  {
    hide RecordOf;
    TriedUpToStep(s, n);
    if n > 0 { TriedCount(s, n - 1); }
  }

  lemma TriedUpToStep(s: State, n: nat)
    ensures n == 0 ==> TriedUpTo(s, n) == {}
    ensures n > 0 ==> |TriedUpTo(s, n)| == |TriedUpTo(s, n - 1)| + if IsTried(s, n - 1) then 1 else 0
  {
    if n > 0 {
      var more: set<int> := if IsTried(s, n - 1) then {n - 1} else {};
      assert forall id :: id in TriedUpTo(s, n) <==> id in TriedUpTo(s, n - 1) + more;
      assert TriedUpTo(s, n) == TriedUpTo(s, n - 1) + more;
    }
  }

  lemma SavedCounts(h: Bucketing, s: State)
    requires Inv(h, s)
    ensures s.idCount >= 0 && |Save(s).news| == s.nNew && |Save(s).trieds| == s.nTried
  {
    hide Linked, Placed, Timed, Contested, Held, NewBelow, TriedBelow, BucketBelow;
    NewCount(s, s.idCount);
    TriedCount(s, s.idCount);
    forall id | id in s.info ensures 0 <= id < s.idCount && (IsNew(s, id) <==> !s.info[id].inTried) { NewIff(h, s, id); }
    assert forall id :: id in NewUpTo(s, s.idCount) <==> id in NewIds(s);
    assert NewUpTo(s, s.idCount) == NewIds(s);
    assert forall id :: id in TriedUpTo(s, s.idCount) <==> id in TriedIds(s);
    assert TriedUpTo(s, s.idCount) == TriedIds(s);
  }

  // ---------------------------------------------------------------- the round trip

  /** The tables, as the records describe them. */
  lemma TablesLoaded(h: Bucketing, pending: set<int>, f: File)
    requires |f.buckets| == NEW_BUCKETS && ApartNew(h, f) && ApartTried(h, f.trieds)
    ensures
      var s := LoadNews(Start(pending), f.news);
      && s.nNew == |s.random| == |f.news| && AllTriedLoaded(h, s, Read(h, pending, f), f.trieds)
      && NewLoadedUpTo(h, f, Read(h, pending, f), LoadTables(h, pending, f, true), |f.news|)
  {
    hide LoadNews, LoadTrieds, ReplaceAll, CellOf, TriedSlot, Tables, Latest;
    NewsLoaded(h, pending, f.news);
    var s := LoadNews(Start(pending), f.news);
    TriedsLoaded(h, s, f.trieds);
    AllKept(h, f.trieds);
    NewsReplaced(h, f, Read(h, pending, f), |f.news|);
  }

  lemma NothingLost(h: Bucketing, pending: set<int>, f: File)
    requires |f.buckets| == NEW_BUCKETS && ApartNew(h, f) && ApartTried(h, f.trieds)
    ensures Load(h, pending, f, true) == LoadTables(h, pending, f, true)
  {
    hide LoadNews, LoadTrieds, LoadTables, Read, ApartNew, ApartTried, CellOf, TriedSlot, Shuffled, Placed, Counted, Latest;
    TablesLoaded(h, pending, f);
    LoadTablesIs(h, pending, f, true);
    var u, t := LoadTables(h, pending, f, true), Read(h, pending, f);
    forall id | id in u.info && id >= |f.news| ensures u.info[id].inTried {
      assert TriedLoaded(h, t, |f.news|, id - |f.news|, f.trieds[id - |f.news|]);
    }
    forall id | id in u.info && id < |f.news| ensures u.info[id].refCount == 1 { assert NewLoaded(h, f, u, id); }
    NothingPruned(u, u.idCount);
  }

  /** Tried entries are in the cells where they were. */
  ghost predicate TriedRestored(s: State, t: State) {
    && t.tried.Keys == s.tried.Keys && t.nTried == s.nTried
    && forall p | p in s.tried :: s.tried[p] in s.info && t.tried[p] in t.info
        && t.info[t.tried[p]].inTried && RecordOf(t.info[t.tried[p]]) == RecordOf(s.info[s.tried[p]])
  }

  /** Each new entry is there under its number, in exactly one cell, which it held before. */
  ghost predicate NewRestored(s: State, t: State) {
    && t.nNew == s.nNew
    && forall id: nat | IsNew(s, id) ::
        && Rank(s, id) in t.info && !t.info[Rank(s, id)].inTried && RecordOf(t.info[Rank(s, id)]) == RecordOf(s.info[id])
        && exists p | p in s.untried && s.untried[p] == id :: SlotsOf(t.untried, Rank(s, id)) == {p}
  }

  lemma TriedBack(h: Bucketing, s: State, pending: set<int>)
    requires Inv(h, s)
    ensures s.idCount >= 0 && TriedRestored(s, Load(h, pending, Save(s), true))
  {
    hide Inv, Rank, TriedRank, LoadNews, LoadTrieds, LoadTables, Read, Load, NewBelow, TriedBelow, BucketBelow,
      ApartNew, ApartTried, CellOf, TriedSlot, NewLoaded, Save;
    SavedApart(h, s);
    SavedCounts(h, s);
    SaveIs(s);
    var f := Save(s);
    TablesLoaded(h, pending, f);
    NothingLost(h, pending, f);
    var two, t := Read(h, pending, f), Load(h, pending, f, true);
    forall p | p in s.tried
      ensures s.tried[p] in s.info && p in t.tried && t.tried[p] in t.info && t.info[t.tried[p]].inTried
      ensures RecordOf(t.info[t.tried[p]]) == RecordOf(s.info[s.tried[p]])
    {
      TriedCellEntry(h, s, p);
      var id := s.tried[p];
      TriedListed(s, id, s.idCount);
      assert TriedLoaded(h, two, |f.news|, TriedRank(s, id), f.trieds[TriedRank(s, id)]);
    }
    forall p | p in t.tried ensures p in s.tried { TriedFrom(h, s, p); }
    assert t.tried.Keys == s.tried.Keys;
  }

  lemma TriedFrom(h: Bucketing, s: State, p: Slot)
    requires Inv(h, s) && s.idCount >= 0 && TriedSlotOf(h, TriedBelow(s, s.idCount), p)
    ensures p in s.tried
  {
    hide Inv, TriedBelow, TriedRank, TriedSlot;
    var rs := TriedBelow(s, s.idCount);
    var i :| 0 <= i < |rs| && p == TriedSlot(h, rs[i].key);
    var id := TriedNumber(s, i, s.idCount);
    TriedListed(s, id, s.idCount);
    TriedCell(h, s, id);
  }

  lemma TriedCellEntry(h: Bucketing, s: State, p: Slot)
    requires Inv(h, s) && p in s.tried
    ensures IsTried(s, s.tried[p]) && 0 <= s.tried[p] < s.idCount && p == TriedSlot(h, s.info[s.tried[p]].key)
  {
    hide Linked, Counted, Timed, Contested, Held;
    var id := s.tried[p];
  }

  lemma NewBack(h: Bucketing, s: State, pending: set<int>)
    requires Inv(h, s)
    ensures s.idCount >= 0 && NewRestored(s, Load(h, pending, Save(s), true))
  {
    hide Inv, Rank, TriedRank, LoadNews, LoadTrieds, LoadTables, Read, Load, NewBelow, TriedBelow, BucketBelow,
      ApartNew, ApartTried, CellOf, CellListed, TriedSlot, TriedLoaded, Save;
    SavedApart(h, s);
    SavedCounts(h, s);
    SaveIs(s);
    var f := Save(s);
    TablesLoaded(h, pending, f);
    NothingLost(h, pending, f);
    var t := Load(h, pending, f, true);
    forall id: nat | IsNew(s, id)
      ensures Rank(s, id) in t.info && !t.info[Rank(s, id)].inTried && RecordOf(t.info[Rank(s, id)]) == RecordOf(s.info[id])
      ensures exists p | p in s.untried && s.untried[p] == id :: SlotsOf(t.untried, Rank(s, id)) == {p}
    {
      CellHeld(h, s, id);
      NewListed(s, id, s.idCount);
      var k := Rank(s, id);
      assert NewLoaded(h, f, t, k);
      OneCell(h, f, t, k);
      assert SlotsOf(t.untried, k) == {CellOf(h, f, k)};
    }
  }

  lemma OneCell(h: Bucketing, f: File, t: State, k: nat)
    requires k < |f.news| && (forall i | 0 <= i < |f.news| :: NewLoaded(h, f, t, i))
    requires forall p | p in t.untried :: CellListed(h, f, |f.news|, p)
    ensures SlotsOf(t.untried, k) == {CellOf(h, f, k)}
  {
    hide CellOf;
    assert NewLoaded(h, f, t, k);
    forall p | p in SlotsOf(t.untried, k) ensures p == CellOf(h, f, k) {
      assert CellListed(h, f, |f.news|, p);
      var i :| 0 <= i < |f.news| && p == CellOf(h, f, i);
      assert NewLoaded(h, f, t, i);
    }
  }

  /** A saved file is consistent. */
  lemma SavedConsistent(h: Bucketing, s: State, pending: set<int>)
    requires Inv(h, s)
    ensures s.idCount >= 0 && Consistent(h, pending, Save(s), true)
  {
    hide Inv, Save, LoadTables, ApartTried, NoCell, KeptTrieds;
    InvNumbered(h, s);
    SavedApart(h, s);
    var f := Save(s);
    AllKept(h, f.trieds);
    forall i, j | 0 <= i < j < |f.news + f.trieds| ensures (f.news + f.trieds)[i].key.addr != (f.news + f.trieds)[j].key.addr {
      SavedDistinct(h, s, i, j);
    }
    forall i | 0 <= i < |f.news + f.trieds|
      ensures (f.news + f.trieds)[i].lastSuccess >= 0 && (i >= |f.news| ==> (f.news + f.trieds)[i].lastSuccess > 0)
    {
      SavedTimed(h, s, i);
    }
  }

  lemma AddressBack(s: State, h: Bucketing, t: State, id: int)
    requires Inv(h, s) && Indexed(t.info, t.addr) && id in s.info && TriedRestored(s, t) && NewRestored(s, t)
    ensures s.info[id].key.addr in t.addr
  {
    hide Counted, Numbered, Referenced, NewPlaced, Shuffled, TriedSlot, SlotsOf;
    NewIff(h, s, id);
    if s.info[id].inTried {
      var p := TriedSlot(h, s.info[id].key);
      assert p in s.tried && s.tried[p] == id;
      var x := t.tried[p];
      assert RecordOf(t.info[x]) == RecordOf(s.info[id]);
    } else {
      assert RecordOf(t.info[Rank(s, id)]) == RecordOf(s.info[id]);
    }
  }

  /** Saving any consistent manager and loading it under the same bucketing loses nothing. The result is consistent
      unless collisions that were pending before the load happen to name entries that contest nothing. */
  lemma RoundTrip(h: Bucketing, s: State, pending: set<int>)
    requires Inv(h, s)
    ensures s.idCount >= 0
    ensures
      var t := Load(h, pending, Save(s), true);
      && TriedRestored(s, t) && NewRestored(s, t) && (forall a | a in s.addr :: a in t.addr)
      && (Inv(h, t) <==> PendingFits(h, pending, Save(s), true)) && (pending == {} ==> Inv(h, t))
  {
    hide Inv, Load, Save, Consistent, TriedRestored, NewRestored, Indexed;
    TriedBack(h, s, pending);
    NewBack(h, s, pending);
    SavedConsistent(h, s, pending);
    LoadInvIff(h, pending, Save(s), true);
    LoadIndexed(h, pending, Save(s), true);
    var t := Load(h, pending, Save(s), true);
    forall a | a in s.addr ensures a in t.addr {
      InvAddress(h, s, a);
      AddressBack(s, h, t, s.addr[a]);
    }
  }

  lemma InvAddress(h: Bucketing, s: State, a: NetAddr)
    requires Inv(h, s) && a in s.addr
    ensures s.addr[a] in s.info && s.info[s.addr[a]].key.addr == a
  {
  }
}
