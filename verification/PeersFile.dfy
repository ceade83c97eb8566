/** The address manager's file: what is saved, and how it is loaded into a cleared manager. */
module PeersFile {
  import opened AddrManState
  import opened AddrManSteps
  import opened AddrManCheck
  import Sets

  /** What is kept of an entry. */
  datatype Record = Record(key: Service, source: NetAddr, services: set<nat>, time: nat, lastSuccess: int, attempts: int)

  /** The entries of both tables, and for each new bucket the numbers of the entries in it. */
  datatype File = File(news: seq<Record>, trieds: seq<Record>, buckets: seq<seq<int>>)

  function RecordOf(i: Info): Record {
    Record(i.key, i.source, i.services, i.time, i.lastSuccess, i.attempts)
  }

  // ---------------------------------------------------------------- saving

  /** Entries with references, in the order of their ids, among ids below `n`. */
  function NewBelow(s: State, n: nat): seq<Record> {
    if n == 0 then []
    else NewBelow(s, n - 1) + if n - 1 in s.info && s.info[n - 1].refCount != 0 then [RecordOf(s.info[n - 1])] else []
  }

  function TriedBelow(s: State, n: nat): seq<Record> {
    if n == 0 then []
    else TriedBelow(s, n - 1) + if n - 1 in s.info && s.info[n - 1].inTried then [RecordOf(s.info[n - 1])] else []
  }

  /** The number that an entry of the new table gets in the file. */
  function Rank(s: State, id: nat): nat {
    |NewBelow(s, id)|
  }

  /** The numbers of the entries in the first `n` cells of a new bucket. */
  function BucketBelow(s: State, b: int, n: nat): seq<int> {
    if n == 0 then []
    else
      BucketBelow(s, b, n - 1)
      + if (b, n - 1) in s.untried && s.untried[(b, n - 1)] >= 0 then [Rank(s, s.untried[(b, n - 1)])] else []
  }

  function Save(s: State): File
    requires s.idCount >= 0
  {
    File(NewBelow(s, s.idCount), TriedBelow(s, s.idCount), seq(NEW_BUCKETS, b => BucketBelow(s, b, BUCKET_SIZE)))
  }

  // ---------------------------------------------------------------- loading

  /** A cleared manager still has its pending collisions. */
  function Start(pending: set<int>): State {
    Empty().(collisions := pending)
  }

  /** An entry as it is read, in no table yet. */
  function Fresh(r: Record, pos: nat): Info {
    Info(r.key, r.source, r.services, r.time, 0, 0, r.lastSuccess, r.attempts, 0, false, pos)
  }

  function LoadNew(s: State, r: Record): State {
    s.(idCount := s.idCount + 1, info := s.info[s.idCount := Fresh(r, |s.random|)],
       addr := s.addr[r.key.addr := s.idCount], random := s.random + [s.idCount], nNew := s.nNew + 1)
  }

  function LoadNews(s: State, rs: seq<Record>): State {
    if rs == [] then s else LoadNew(LoadNews(s, rs[..|rs| - 1]), rs[|rs| - 1])
  }

  /** A tried entry whose cell is taken is lost. */
  function LoadTried(h: Bucketing, s: State, r: Record): State {
    var p := TriedSlot(h, r.key);
    if p in s.tried then s
    else EnterTried(LoadNew(s, r).(nNew := s.nNew), s.idCount, p)
  }

  function LoadTrieds(h: Bucketing, s: State, rs: seq<Record>): State {
    if rs == [] then s else LoadTried(h, LoadTrieds(h, s, rs[..|rs| - 1]), rs[|rs| - 1])
  }

  /** The last of the first `n` buckets that lists an entry, or bucket 0. */
  function LastBucket(buckets: seq<seq<int>>, entry: int, n: nat): (b: nat)
    requires n <= |buckets|
    ensures b < n || b == 0
  {
    if n == 0 then 0 else if entry in buckets[n - 1] then n - 1 else LastBucket(buckets, entry, n - 1)
  }

  /** Back into its bucket if the bucketing is unchanged, and else by its source address, if that cell is free. */
  function Replace(h: Bucketing, s: State, id: int, bucket: int, same: bool): State
    requires id in s.info
  {
    var p := SlotIn(h, s.info[id].key, bucket);
    if same && p !in s.untried && s.info[id].refCount < NEW_BUCKETS_PER_ADDRESS then Acquire(s, id, p)
    else
      var q := NewSlot(h, s.info[id].key, s.info[id].source);
      if q !in s.untried then Acquire(s, id, q) else s
  }

  function ReplaceAll(h: Bucketing, s: State, buckets: seq<seq<int>>, n: nat, same: bool): (t: State)
    requires forall i | 0 <= i < n :: i in s.info
    ensures t.info.Keys == s.info.Keys
  {
    if n == 0 then s
    else Replace(h, ReplaceAll(h, s, buckets, n - 1, same), n - 1, LastBucket(buckets, n - 1, |buckets|), same)
  }

  /** Entries that got no cell are dropped, in the order of their ids. */
  function Prune(s: State, n: nat): (t: State)
    requires Shuffled(s.info, s.random)
    ensures Shuffled(t.info, t.random)
  {
    if n == 0 then s
    else
      var t := Prune(s, n - 1);
      if NoCell(t, n - 1) then
        DeleteShuffled(t, n - 1);
        Delete(t, n - 1)
      else t
  }

  predicate NoCell(s: State, id: int) {
    id in s.info && !s.info[id].inTried && s.info[id].refCount == 0
  }

  // ---------------------------------------------------------------- the tables, whatever the records say

  ghost predicate Ids(s: State) {
    0 <= s.idCount && forall id | id in s.info :: 0 <= id < s.idCount
  }

  /** What holds at every stage of a load, also if addresses repeat. */
  ghost predicate Tables(h: Bucketing, s: State) {
    Shuffled(s.info, s.random) && Placed(h, s) && Counted(s, 0) && Ids(s)
  }

  lemma LoadNewPlaced(h: Bucketing, s: State, r: Record)
    requires Placed(h, s) && Ids(s)
    ensures Placed(h, LoadNew(s, r)) && SlotsOf(s.untried, s.idCount) == {}
  {
    var t := LoadNew(s, r);
    forall p | p in t.tried
      ensures t.tried[p] in t.info && t.info[t.tried[p]].inTried && p == TriedSlot(h, t.info[t.tried[p]].key)
    { var x := s.tried[p]; }
    forall q | q in t.untried
      ensures t.untried[q] in t.info && !t.info[t.untried[q]].inTried && q == SlotIn(h, t.info[t.untried[q]].key, q.0)
    { var x := s.untried[q]; }
    forall q | q in s.untried ensures s.untried[q] != s.idCount { var x := s.untried[q]; }
    assert SlotsOf(s.untried, s.idCount) == {};
  }

  lemma LoadNewCounted(s: State, r: Record)
    requires Ids(s) && Counted(s, 0)
    ensures Counted(LoadNew(s, r), 0)
  {
    var t := LoadNew(s, r);
    assert forall x :: x in TriedIds(t) <==> x in TriedIds(s);
    assert TriedIds(t) == TriedIds(s);
    assert forall x :: x in NewIds(t) <==> x in NewIds(s) + {s.idCount};
    assert NewIds(t) == NewIds(s) + {s.idCount};
  }

  lemma LoadNewTables(h: Bucketing, s: State, r: Record)
    requires Tables(h, s)
    ensures Tables(h, LoadNew(s, r)) && SlotsOf(s.untried, s.idCount) == {}
  {
    hide Placed, Counted;
    LoadNewPlaced(h, s, r);
    LoadNewCounted(s, r);
  }

  lemma LoadTriedTables(h: Bucketing, s: State, r: Record)
    requires Tables(h, s)
    ensures Tables(h, LoadTried(h, s, r))
  {
    hide Shuffled, Counted, TriedPlaced, NewPlaced, Referenced;
    var p := TriedSlot(h, r.key);
    if p !in s.tried {
      LoadNewTables(h, s, r);
      var id, t := s.idCount, LoadNew(s, r);
      Uncounted(t);
      EnterPlaced(h, t.info, t.tried, id, p);
      FlipNew(h, t.info, t.untried, id, t.info[id].(inTried := true));
      MoveCounted(t.(nNew := s.nNew), LoadTried(h, s, r), id, t.info[id].(inTried := true), 1);
      SamePosition(t.info, t.random, id, t.info[id].(inTried := true));
    }
  }

  lemma Uncounted(t: State)
    requires Counted(t, 0)
    ensures Counted(t.(nNew := t.nNew - 1), 1)
  {
    var u := t.(nNew := t.nNew - 1);
    assert TriedIds(u) == TriedIds(t) && NewIds(u) == NewIds(t);
  }

  lemma SamePosition(info: map<int, Info>, random: seq<int>, id: int, e: Info)
    requires Shuffled(info, random) && id in info && e.randomPos == info[id].randomPos
    ensures Shuffled(info[id := e], random)
  {
  }

  lemma AcquireTables(h: Bucketing, s: State, id: int, p: Slot)
    requires Tables(h, s) && NoCell(s, id) && p !in s.untried && 0 <= p.0 < NEW_BUCKETS && p == SlotIn(h, s.info[id].key, p.0)
    ensures Tables(h, Acquire(s, id, p))
  {
    hide Shuffled, Counted, TriedPlaced, NewPlaced, Referenced;
    var e := s.info[id].(refCount := s.info[id].refCount + 1);
    SamePosition(s.info, s.random, id, e);
    RewriteTried(h, s.info, s.tried, id, e);
    AcquirePlaced(h, s.info, s.untried, id, p);
    RewriteCounted(s, Acquire(s, id, p), id, e, 0);
  }

  lemma ReplaceTables(h: Bucketing, s: State, id: int, bucket: int, same: bool)
    requires Tables(h, s) && NoCell(s, id) && (same ==> 0 <= bucket < NEW_BUCKETS)
    ensures Tables(h, Replace(h, s, id, bucket, same))
  {
    hide Tables;
    var p := SlotIn(h, s.info[id].key, bucket);
    var q := NewSlot(h, s.info[id].key, s.info[id].source);
    if same && p !in s.untried { AcquireTables(h, s, id, p); } else if q !in s.untried { AcquireTables(h, s, id, q); }
  }

  /** Putting entries back touches nothing but reference counts and new cells. */
  ghost predicate Recounted(s: State, t: State) {
    && t == s.(info := t.info, untried := t.untried) && t.info.Keys == s.info.Keys
    && forall id | id in s.info :: t.info[id] == s.info[id].(refCount := t.info[id].refCount)
  }

  /** The entries that are waiting for a cell. */
  ghost predicate Waiting(s: State, from: nat, to: nat) {
    forall i | from <= i < to :: i in s.info && !s.info[i].inTried && s.info[i].refCount == 0
  }

  lemma ReplaceRecounts(h: Bucketing, s: State, n: nat, total: nat, bucket: int, same: bool)
    requires Waiting(s, n, total) && n in s.info
    ensures
      var t := Replace(h, s, n, bucket, same);
      Recounted(s, t) && Waiting(t, n + 1, total)
  {
    hide NewSlot, SlotIn;
  }

  lemma {:induction false} ReplaceAllTables(h: Bucketing, s: State, buckets: seq<seq<int>>, n: nat, total: nat, same: bool)
    requires Tables(h, s) && Waiting(s, 0, total) && n <= total && (same ==> |buckets| == NEW_BUCKETS)
    ensures
      var t := ReplaceAll(h, s, buckets, n, same);
      Tables(h, t) && Recounted(s, t) && Waiting(t, n, total)
  {
    hide Tables, Replace;
    if n > 0 {
      ReplaceAllTables(h, s, buckets, n - 1, total, same);
      var t, b := ReplaceAll(h, s, buckets, n - 1, same), LastBucket(buckets, n - 1, |buckets|);
      ReplaceTables(h, t, n - 1, b, same);
      ReplaceRecounts(h, t, n - 1, total, b, same);
    }
  }

  /** The first entry always gets a cell. */
  lemma {:induction false} FirstPlaced(h: Bucketing, s: State, buckets: seq<seq<int>>, n: nat, total: nat, same: bool)
    requires Waiting(s, 0, total) && s.untried == map[] && 0 < n <= total
    ensures ReplaceAll(h, s, buckets, n, same).info[0].refCount > 0
  {
    hide NewSlot, SlotIn;
    if n == 1 {
      assert ReplaceAll(h, s, buckets, 0, same) == s;
    } else {
      FirstPlaced(h, s, buckets, n - 1, total, same);
    }
  }

  // ---------------------------------------------------------------- what is read

  /** The first entries of the loaded manager, as they are before they get a cell. */
  ghost predicate Listed(t: State, rs: seq<Record>) {
    forall i | 0 <= i < |rs| :: i in t.info && t.info[i] == Fresh(rs[i], i)
  }

  /** mapAddr leads to the last of the entries with an address. */
  ghost predicate Latest(info: map<int, Info>, addr: map<NetAddr, int>) {
    && (forall id | id in info :: info[id].key.addr in addr && addr[info[id].key.addr] >= id)
    && (forall a | a in addr :: addr[a] in info && info[addr[a]].key.addr == a)
  }

  lemma LatestMore(s: State, e: Info)
    requires Latest(s.info, s.addr) && Ids(s)
    ensures Latest(s.info[s.idCount := e], s.addr[e.key.addr := s.idCount])
  {
    var info, addr := s.info[s.idCount := e], s.addr[e.key.addr := s.idCount];
    forall a | a in addr ensures addr[a] in info && info[addr[a]].key.addr == a {
      if a in s.addr { var x := s.addr[a]; }
    }
  }

  lemma {:induction false} NewsLoaded(h: Bucketing, pending: set<int>, rs: seq<Record>)
    ensures
      var t := LoadNews(Start(pending), rs);
      && t.idCount == |rs| == t.nNew == |t.random| && Listed(t, rs) && t.nTried == 0
      && t.tried == map[] && t.untried == map[] && t.collisions == pending && (forall id | id in t.info :: 0 <= id < |rs|)
      && Tables(h, t) && Latest(t.info, t.addr)
  {
    hide Tables, Latest;
    if rs == [] {
      NothingLoaded(h, pending);
    } else {
      var s := LoadNews(Start(pending), rs[..|rs| - 1]);
      NewsLoaded(h, pending, rs[..|rs| - 1]);
      LoadNewTables(h, s, rs[|rs| - 1]);
      LatestMore(s, Fresh(rs[|rs| - 1], |s.random|));
    }
  }

  lemma NothingLoaded(h: Bucketing, pending: set<int>)
    ensures Tables(h, Start(pending)) && Latest(Start(pending).info, Start(pending).addr)
  {
    assert TriedIds(Start(pending)) == {} && NewIds(Start(pending)) == {};
  }

  ghost predicate TriedSlotOf(h: Bucketing, rs: seq<Record>, p: Slot) {
    exists i | 0 <= i < |rs| :: p == TriedSlot(h, rs[i].key)
  }

  /** The tried records that find their cell free. */
  ghost function KeptTrieds(h: Bucketing, rs: seq<Record>): (kept: seq<Record>)
    ensures |kept| <= |rs|
  {
    if rs == [] then []
    else
      var kept := KeptTrieds(h, rs[..|rs| - 1]);
      if TriedSlotOf(h, kept, TriedSlot(h, rs[|rs| - 1].key)) then kept else kept + [rs[|rs| - 1]]
  }

  /** The i-th tried record stands in its own cell. */
  ghost predicate TriedLoaded(h: Bucketing, t: State, n: nat, i: nat, r: Record) {
    && n + i in t.info && t.info[n + i] == Fresh(r, n + i).(inTried := true)
    && TriedSlot(h, r.key) in t.tried && t.tried[TriedSlot(h, r.key)] == n + i
  }

  /** Tried records and nothing else are in the tried table. */
  ghost predicate AllTriedLoaded(h: Bucketing, s: State, t: State, rs: seq<Record>) {
    var n := |s.random|;
    && (forall i | 0 <= i < |rs| :: TriedLoaded(h, t, n, i, rs[i]))
    && (forall p | p in t.tried :: TriedSlotOf(h, rs, p))
    && (forall id | id in s.info && id < n :: id in t.info && t.info[id] == s.info[id])
    && (forall id | id in t.info :: 0 <= id < n + |rs|)
    && t.idCount == |t.random| == n + |rs| && t.nTried == |rs| && t.nNew == s.nNew && t.untried == s.untried
    && t.collisions == s.collisions
  }

  lemma TriedSlotMore(h: Bucketing, rs: seq<Record>, r: Record, p: Slot)
    ensures TriedSlotOf(h, rs + [r], p) <==> TriedSlotOf(h, rs, p) || p == TriedSlot(h, r.key)
  {
    hide TriedSlot;
    var all := rs + [r];
    if TriedSlotOf(h, rs, p) {
      var i :| 0 <= i < |rs| && p == TriedSlot(h, rs[i].key);
      assert all[i] == rs[i];
    }
    if p == TriedSlot(h, r.key) { assert all[|rs|] == r; }
  }

  lemma TriedKept(h: Bucketing, t: State, n: nat, i: nat, was: Record, r: Record)
    requires TriedLoaded(h, t, n, i, was) && n + i < t.idCount
    ensures TriedLoaded(h, LoadTried(h, t, r), n, i, was)
  {
  }

  lemma TriedAdded(h: Bucketing, t: State, n: nat, i: nat, r: Record)
    requires TriedSlot(h, r.key) !in t.tried && t.idCount == |t.random| == n + i
    ensures TriedLoaded(h, LoadTried(h, t, r), n, i, r)
  {
  }

  lemma TriedStep(h: Bucketing, s: State, t: State, rs: seq<Record>, r: Record)
    requires AllTriedLoaded(h, s, t, rs) && !TriedSlotOf(h, rs, TriedSlot(h, r.key))
    ensures AllTriedLoaded(h, s, LoadTried(h, t, r), rs + [r])
  {
    hide TriedLoaded, TriedSlotOf, TriedSlot;
    var u, all := LoadTried(h, t, r), rs + [r];
    var n := |s.random|;
    forall i | 0 <= i < |all| ensures TriedLoaded(h, u, n, i, all[i]) {
      if i < |rs| { TriedKept(h, t, n, i, rs[i], r); } else { TriedAdded(h, t, n, i, r); }
    }
    forall p | p in u.tried ensures TriedSlotOf(h, all, p) { TriedSlotMore(h, rs, r, p); }
  }

  /** A record whose cell is taken changes nothing. */
  lemma TriedLost(h: Bucketing, s: State, t: State, rs: seq<Record>, r: Record)
    requires AllTriedLoaded(h, s, t, rs) && TriedSlotOf(h, rs, TriedSlot(h, r.key))
    ensures LoadTried(h, t, r) == t
  {
    hide TriedSlot;
    var i :| 0 <= i < |rs| && TriedSlot(h, r.key) == TriedSlot(h, rs[i].key);
    assert TriedLoaded(h, t, |s.random|, i, rs[i]);
  }

  lemma LatestTried(h: Bucketing, t: State, r: Record)
    requires Latest(t.info, t.addr) && Ids(t)
    ensures Latest(LoadTried(h, t, r).info, LoadTried(h, t, r).addr)
  {
    hide Latest, TriedSlot;
    var e := Fresh(r, |t.random|).(inTried := true);
    LatestMore(t, e);
    if TriedSlot(h, r.key) !in t.tried { assert LoadTried(h, t, r).info == t.info[t.idCount := e]; }
  }

  lemma {:induction false} TriedsLoaded(h: Bucketing, s: State, rs: seq<Record>)
    requires s.idCount == |s.random| && s.nTried == 0 && s.tried == map[] && Tables(h, s) && Latest(s.info, s.addr)
    ensures
      var t := LoadTrieds(h, s, rs);
      AllTriedLoaded(h, s, t, KeptTrieds(h, rs)) && Tables(h, t) && Latest(t.info, t.addr)
  {
    hide LoadTried, Latest, Shuffled, Placed, Counted;
    if rs != [] {
      var n := |rs| - 1;
      TriedsLoaded(h, s, rs[..n]);
      var t, kept := LoadTrieds(h, s, rs[..n]), KeptTrieds(h, rs[..n]);
      LoadTriedTables(h, t, rs[n]);
      LatestTried(h, t, rs[n]);
      if TriedSlotOf(h, kept, TriedSlot(h, rs[n].key)) { TriedLost(h, s, t, kept, rs[n]); } else { TriedStep(h, s, t, kept, rs[n]); }
    }
  }

  /** The records that become entries, in the order of their ids. */
  ghost function Kept(h: Bucketing, f: File): seq<Record> {
    f.news + KeptTrieds(h, f.trieds)
  }

  /** The entries are those of the records, but for reference counts. */
  ghost predicate Entered(h: Bucketing, f: File, u: State) {
    var rs := Kept(h, f);
    && u.idCount == |rs| && (forall id | id in u.info :: 0 <= id < |rs|)
    && (forall p :: p in u.tried <==> TriedSlotOf(h, KeptTrieds(h, f.trieds), p))
    && forall i | 0 <= i < |rs| ::
        i in u.info && u.info[i] == Fresh(rs[i], i).(refCount := u.info[i].refCount, inTried := i >= |f.news|)
  }

  /** The state after the tables are read. */
  function Read(h: Bucketing, pending: set<int>, f: File): State {
    LoadTrieds(h, LoadNews(Start(pending), f.news), f.trieds)
  }

  lemma ReadIs(h: Bucketing, pending: set<int>, f: File)
    ensures
      var t := Read(h, pending, f);
      && Tables(h, t) && Latest(t.info, t.addr) && Entered(h, f, t) && t.collisions == pending
      && Waiting(t, 0, |f.news|) && t.untried == map[]
  {
    hide Tables, Latest, LoadTried, LoadNew, TriedSlot;
    NewsLoaded(h, pending, f.news);
    var s := LoadNews(Start(pending), f.news);
    TriedsLoaded(h, s, f.trieds);
    var t, rs := Read(h, pending, f), Kept(h, f);
    forall i | 0 <= i < |rs|
      ensures i in t.info && t.info[i] == Fresh(rs[i], i).(refCount := t.info[i].refCount, inTried := i >= |f.news|)
    {
      if i >= |f.news| { assert TriedLoaded(h, t, |f.news|, i - |f.news|, rs[i]); }
    }
    forall p | TriedSlotOf(h, KeptTrieds(h, f.trieds), p) ensures p in t.tried { TriedTaken(h, s, t, KeptTrieds(h, f.trieds), p); }
  }

  lemma TriedTaken(h: Bucketing, s: State, t: State, rs: seq<Record>, p: Slot)
    requires AllTriedLoaded(h, s, t, rs) && TriedSlotOf(h, rs, p)
    ensures p in t.tried
  {
    hide TriedSlot;
    var i :| 0 <= i < |rs| && p == TriedSlot(h, rs[i].key);
    assert TriedLoaded(h, t, |s.random|, i, rs[i]);
  }

  /** The state before the entries without a cell are dropped. `same`: the new buckets mean what they did when saved. */
  function LoadTables(h: Bucketing, pending: set<int>, f: File, same: bool): State {
    ReadIs(h, pending, f);
    ReplaceAll(h, Read(h, pending, f), f.buckets, |f.news|, same && |f.buckets| == NEW_BUCKETS)
  }

  lemma LoadTablesIs(h: Bucketing, pending: set<int>, f: File, same: bool)
    ensures
      var u := LoadTables(h, pending, f, same);
      Tables(h, u) && Latest(u.info, u.addr) && Entered(h, f, u) && u.collisions == pending
  {
    hide Tables, Read, ReplaceAll;
    ReadIs(h, pending, f);
    var t, u := Read(h, pending, f), LoadTables(h, pending, f, same);
    ReplaceAllTables(h, t, f.buckets, |f.news|, |f.news|, same && |f.buckets| == NEW_BUCKETS);
    forall a | a in u.addr ensures u.addr[a] in u.info && u.info[u.addr[a]].key.addr == a { var x := t.addr[a]; }
  }

  /** Everything that Unserialize does after the header, for any file and any pending collisions. */
  function Load(h: Bucketing, pending: set<int>, f: File, same: bool): State {
    LoadTablesIs(h, pending, f, same);
    var u := LoadTables(h, pending, f, same);
    Prune(u, u.idCount)
  }

  // ---------------------------------------------------------------- dropping what got no cell

  /** The addresses of entries below `n` that are dropped. */
  ghost predicate Forgotten(u: State, n: nat, a: NetAddr) {
    exists id | 0 <= id < n :: NoCell(u, id) && u.info[id].key.addr == a
  }

  ghost predicate Pruned(u: State, v: State, n: nat) {
    && (forall id :: id in v.info <==> id in u.info && !(0 <= id < n && NoCell(u, id)))
    && (forall id | id in v.info :: SameEntry(v.info[id], u.info[id]))
    && (forall a :: a in v.addr <==> a in u.addr && !Forgotten(u, n, a))
    && (forall a | a in v.addr :: v.addr[a] == u.addr[a])
    && v.tried == u.tried && v.untried == u.untried && v.idCount == u.idCount && v.collisions == u.collisions
  }

  lemma ForgottenMore(u: State, n: nat, a: NetAddr)
    ensures Forgotten(u, n + 1, a) <==> Forgotten(u, n, a) || (NoCell(u, n) && u.info[n].key.addr == a)
  {
    if Forgotten(u, n, a) { var id :| 0 <= id < n && NoCell(u, id) && u.info[id].key.addr == a; }
  }

  lemma PrunedNext(u: State, t: State, n: nat)
    requires Pruned(u, t, n) && Shuffled(t.info, t.random)
    ensures Pruned(u, if NoCell(t, n) then Delete(t, n) else t, n + 1)
  {
    hide Shuffled, Forgotten;
    var v := if NoCell(t, n) then Delete(t, n) else t;
    assert n in u.info ==> n in t.info && SameEntry(t.info[n], u.info[n]);
    assert NoCell(t, n) == NoCell(u, n);
    forall a ensures a in v.addr <==> a in u.addr && !Forgotten(u, n + 1, a) { ForgottenMore(u, n, a); }
  }

  lemma {:induction false} PruneTables(h: Bucketing, u: State, n: nat)
    requires Tables(h, u)
    ensures Tables(h, Prune(u, n)) && Pruned(u, Prune(u, n), n)
  {
    hide Shuffled, Placed, Counted, Delete;
    if n > 0 {
      PruneTables(h, u, n - 1);
      var t := Prune(u, n - 1);
      PrunedNext(u, t, n - 1);
      if NoCell(t, n - 1) { DeleteTables(h, t, n - 1); }
    }
  }

  lemma DeleteTables(h: Bucketing, s: State, id: int)
    requires Tables(h, s) && NoCell(s, id)
    ensures Tables(h, Delete(s, id))
  {
    hide Placed, Counted, Shuffled;
    DeleteShuffled(s, id);
    DeletePlaced(h, s, id);
    DeleteCounted(s, id, 0);
  }

  /** No two entries share an address, unless both are dropped. */
  ghost predicate Apart(u: State) {
    forall i, j | i in u.info && j in u.info && i != j && u.info[i].key.addr == u.info[j].key.addr :: NoCell(u, i) && NoCell(u, j)
  }

  /** Entries and addresses agree in the end exactly when no kept entry ever shared its address. */
  lemma IndexedIff(u: State, v: State)
    requires Latest(u.info, u.addr) && Ids(u) && Pruned(u, v, u.idCount)
    ensures Indexed(v.info, v.addr) <==> Apart(u)
  {
    if Apart(u) {
      forall id | id in v.info ensures v.info[id].key.addr in v.addr && v.addr[v.info[id].key.addr] == id {
        assert SameEntry(v.info[id], u.info[id]) && !NoCell(u, id);
        var a := u.info[id].key.addr;
        var last := u.addr[a];
        assert u.info[last].key.addr == a;
        assert !Forgotten(u, u.idCount, a);
      }
      forall a | a in v.addr ensures v.addr[a] in v.info && v.info[v.addr[a]].key.addr == a {
        var id := u.addr[a];
        assert u.info[id].key.addr == a;
        assert !NoCell(u, id);
        assert SameEntry(v.info[id], u.info[id]);
      }
    }
    if Indexed(v.info, v.addr) {
      forall i, j | i in u.info && j in u.info && i != j && u.info[i].key.addr == u.info[j].key.addr
        ensures NoCell(u, i) && NoCell(u, j)
      {
        if !NoCell(u, i) { SharedLost(u, v, i, j); }
        if !NoCell(u, j) { SharedLost(u, v, j, i); }
      }
    }
  }

  /** An entry that shares its address and is kept is lost to mapAddr, or the other one is. */
  lemma SharedLost(u: State, v: State, i: int, j: int)
    requires Ids(u) && Pruned(u, v, u.idCount) && i in u.info && j in u.info && i != j
    requires u.info[i].key.addr == u.info[j].key.addr && !NoCell(u, i)
    ensures !Indexed(v.info, v.addr)
  {
    hide NoCell;
    assert SameEntry(v.info[i], u.info[i]);
    if NoCell(u, j) {
      assert Forgotten(u, u.idCount, u.info[i].key.addr);
    } else {
      assert SameEntry(v.info[j], u.info[j]);
    }
  }

  /** The same for what Check_ reads, to which a forgotten address is that of entry 0: entries may share an address
      with entry 0 if they are dropped. */
  ghost predicate ApartFromFirst(u: State) {
    forall i, j | i in u.info && j in u.info && i < j && u.info[i].key.addr == u.info[j].key.addr ::
      NoCell(u, j) && (NoCell(u, i) || i == 0)
  }

  lemma ReadsBackIff(u: State, v: State)
    requires Latest(u.info, u.addr) && Ids(u) && Pruned(u, v, u.idCount)
    ensures ReadsBack(v) <==> ApartFromFirst(u)
  {
    if ApartFromFirst(u) {
      forall id | id in v.info ensures AddressId(v.addr, v.info[id].key.addr) == id { ReadsOwn(u, v, id); }
    }
    if ReadsBack(v) {
      forall i, j | i in u.info && j in u.info && i < j && u.info[i].key.addr == u.info[j].key.addr
        ensures NoCell(u, j) && (NoCell(u, i) || i == 0)
      {
        KeptReads(u, v, i, j);
      }
    }
  }

  lemma ReadsOwn(u: State, v: State, id: int)
    requires Latest(u.info, u.addr) && Ids(u) && Pruned(u, v, u.idCount) && ApartFromFirst(u) && id in v.info
    ensures AddressId(v.addr, v.info[id].key.addr) == id
  {
    assert SameEntry(v.info[id], u.info[id]) && !NoCell(u, id);
    var a := u.info[id].key.addr;
    var last := u.addr[a];
    assert u.info[last].key.addr == a;
    if id != 0 { assert !Forgotten(u, u.idCount, a); }
    if last != id { assert Forgotten(u, u.idCount, a); }
  }

  lemma KeptReads(u: State, v: State, i: int, j: int)
    requires Latest(u.info, u.addr) && Ids(u) && Pruned(u, v, u.idCount) && ReadsBack(v)
    requires i in u.info && j in u.info && i < j && u.info[i].key.addr == u.info[j].key.addr
    ensures NoCell(u, j) && (NoCell(u, i) || i == 0)
  {
    hide NoCell;
    var a := u.info[i].key.addr;
    if !NoCell(u, i) { assert SameEntry(v.info[i], u.info[i]); }
    if !NoCell(u, j) { assert SameEntry(v.info[j], u.info[j]); }
    if NoCell(u, j) { assert Forgotten(u, u.idCount, a); }
    if NoCell(u, i) { assert Forgotten(u, u.idCount, a); }
  }

  // ---------------------------------------------------------------- when a load is consistent

  /** Kept records have plausible times. */
  ghost predicate PlausibleTimes(h: Bucketing, f: File, u: State) {
    var rs := Kept(h, f);
    forall i | 0 <= i < |rs| && !NoCell(u, i) :: rs[i].lastSuccess >= 0 && (i >= |f.news| ==> rs[i].lastSuccess > 0)
  }

  /** Of the records that become entries, those that share an address get no cell, and the others have plausible times. */
  ghost predicate Consistent(h: Bucketing, pending: set<int>, f: File, same: bool) {
    var u, rs := LoadTables(h, pending, f, same), Kept(h, f);
    && (forall i, j | 0 <= i < j < |rs| && rs[i].key.addr == rs[j].key.addr :: NoCell(u, i) && NoCell(u, j))
    && PlausibleTimes(h, f, u)
  }

  /** The same, except that the very first record may share its address with later ones that get no cell. */
  ghost predicate Passing(h: Bucketing, pending: set<int>, f: File, same: bool) {
    var u, rs := LoadTables(h, pending, f, same), Kept(h, f);
    && (forall i, j | 0 <= i < j < |rs| && rs[i].key.addr == rs[j].key.addr :: NoCell(u, j) && (NoCell(u, i) || i == 0))
    && PlausibleTimes(h, f, u)
  }

  /** The pending collisions are few enough, are numbers of records that become entries, and each of these gets no
      cell or hashes to the tried cell of a record that gets it. */
  ghost predicate PendingFits(h: Bucketing, pending: set<int>, f: File, same: bool) {
    var u, rs := LoadTables(h, pending, f, same), Kept(h, f);
    && |pending| <= COLLISION_LIMIT && (forall id | id in pending :: 0 <= id < |rs|)
    && (forall id | id in pending :: NoCell(u, id) || TriedSlotOf(h, KeptTrieds(h, f.trieds), TriedSlot(h, rs[id].key)))
  }

  /** In terms of the loaded manager. */
  lemma PendingIff(h: Bucketing, pending: set<int>, f: File, same: bool, t: State)
    requires Entered(h, f, LoadTables(h, pending, f, same)) && t.collisions == pending
    requires Pruned(LoadTables(h, pending, f, same), t, LoadTables(h, pending, f, same).idCount)
    ensures PendingFits(h, pending, f, same) <==> Contested(h, t) && forall id | id in t.collisions :: 0 <= id < t.idCount
  {
    hide LoadTables, NoCell, Forgotten, KeptTrieds, TriedSlot, TriedSlotOf;
    var u, rs := LoadTables(h, pending, f, same), Kept(h, f);
    forall id | id in pending && 0 <= id < |rs|
      ensures id in t.info <==> !NoCell(u, id)
      ensures id in t.info ==> t.info[id].key == rs[id].key
    {
      if id in t.info { assert SameEntry(t.info[id], u.info[id]); }
    }
  }

  lemma ApartIff(h: Bucketing, f: File, u: State)
    requires Entered(h, f, u)
    ensures Apart(u) <==> forall i, j | 0 <= i < j < |Kept(h, f)| && Kept(h, f)[i].key.addr == Kept(h, f)[j].key.addr ::
      NoCell(u, i) && NoCell(u, j)
    ensures ApartFromFirst(u) <==> forall i, j | 0 <= i < j < |Kept(h, f)| && Kept(h, f)[i].key.addr == Kept(h, f)[j].key.addr ::
      NoCell(u, j) && (NoCell(u, i) || i == 0)
  {
    hide NoCell, Kept;
    var rs := Kept(h, f);
    assert forall i | 0 <= i < |rs| :: u.info[i].key == rs[i].key;
  }

  lemma TimedIff(h: Bucketing, f: File, u: State, v: State)
    requires Entered(h, f, u) && Pruned(u, v, u.idCount)
    ensures Timed(v) <==> PlausibleTimes(h, f, u)
  {
    hide NoCell, Kept, Forgotten;
    var rs := Kept(h, f);
    forall i | 0 <= i < |rs| && !NoCell(u, i)
      ensures i in v.info && SameEntry(v.info[i], Fresh(rs[i], i).(refCount := u.info[i].refCount, inTried := i >= |f.news|))
    {
      assert SameEntry(v.info[i], u.info[i]);
    }
    assert forall id | id in v.info :: 0 <= id < |rs| && !NoCell(u, id);
  }

  /** What every load gives. */
  lemma LoadIs(h: Bucketing, pending: set<int>, f: File, same: bool)
    ensures
      var u, t := LoadTables(h, pending, f, same), Load(h, pending, f, same);
      && Latest(u.info, u.addr) && Ids(u) && Entered(h, f, u) && Pruned(u, t, u.idCount)
      && Tables(h, t) && Held(t, {}) && t.collisions == pending
  {
    hide LoadTables, Shuffled, Placed, Counted, Latest, Entered;
    LoadTablesIs(h, pending, f, same);
    var u := LoadTables(h, pending, f, same);
    PruneTables(h, u, u.idCount);
    PrunedHeld(h, u, Load(h, pending, f, same));
  }

  /** Exactly which files load into a manager that is consistent. */
  lemma LoadInvIff(h: Bucketing, pending: set<int>, f: File, same: bool)
    ensures Inv(h, Load(h, pending, f, same)) <==> Consistent(h, pending, f, same) && PendingFits(h, pending, f, same)
  {
    hide LoadTables, Load, Indexed, Timed, Shuffled, Placed, Counted, Latest, Apart, ApartFromFirst, Entered, Contested,
      PendingFits, PlausibleTimes;
    LoadIs(h, pending, f, same);
    var u, t := LoadTables(h, pending, f, same), Load(h, pending, f, same);
    IndexedIff(u, t);
    ApartIff(h, f, u);
    TimedIff(h, f, u, t);
    PendingIff(h, pending, f, same, t);
  }

  /** Exactly which files load into a manager that passes Check_. */
  lemma LoadCheckedIff(h: Bucketing, pending: set<int>, f: File, same: bool)
    ensures Checked(h, Load(h, pending, f, same)) <==> Passing(h, pending, f, same)
  {
    hide LoadTables, Load, Checked, Timed, Shuffled, Placed, Counted, Latest, Apart, ApartFromFirst, Entered, PlausibleTimes;
    LoadIs(h, pending, f, same);
    var u, t := LoadTables(h, pending, f, same), Load(h, pending, f, same);
    CheckedTables(h, t);
    ReadsBackIff(u, t);
    ApartIff(h, f, u);
    TimedIff(h, f, u, t);
  }

  lemma LoadIndexed(h: Bucketing, pending: set<int>, f: File, same: bool)
    requires Consistent(h, pending, f, same)
    ensures Indexed(Load(h, pending, f, same).info, Load(h, pending, f, same).addr)
  {
    hide LoadTables, Load, Indexed, Shuffled, Placed, Counted, Latest, Apart, ApartFromFirst, Entered;
    LoadIs(h, pending, f, same);
    IndexedIff(LoadTables(h, pending, f, same), Load(h, pending, f, same));
    ApartIff(h, f, LoadTables(h, pending, f, same));
  }

  lemma PrunedHeld(h: Bucketing, u: State, v: State)
    requires Ids(u) && Pruned(u, v, u.idCount) && Placed(h, v)
    ensures Held(v, {})
  {
    forall id | id in v.info && !v.info[id].inTried ensures v.info[id].refCount >= 1 {
      assert SameEntry(v.info[id], u.info[id]) && !NoCell(u, id);
    }
  }

  // ---------------------------------------------------------------- files that list an address twice

  /** One record twice in the new table: an address is lost, or found only from one of its two entries. */
  lemma RepeatedAddress(h: Bucketing, pending: set<int>, r: Record, buckets: seq<seq<int>>, same: bool)
    ensures !Linked(Load(h, pending, File([r, r], [], buckets), same))
  {
    hide Read, ReplaceAll, Shuffled, Placed, Counted, Latest, Pruned;
    var f := File([r, r], [], buckets);
    LoadTablesIs(h, pending, f, same);
    var u := LoadTables(h, pending, f, same);
    PruneTables(h, u, u.idCount);
    IndexedIff(u, Load(h, pending, f, same));
    assert Kept(h, f)[0] == Kept(h, f)[1] == r;
    ReadIs(h, pending, f);
    FirstPlaced(h, Read(h, pending, f), buckets, 2, 2, same && |buckets| == NEW_BUCKETS);
  }

  /** If the bucketing has changed, the second record finds the only cell taken and takes the address with it. The entry
      that is left is not found by its address, yet Check_ passes: it reads the missing address as 0. */
  lemma LossUnnoticed(h: Bucketing, pending: set<int>, r: Record, buckets: seq<seq<int>>)
    requires r.lastSuccess >= 0
    ensures
      var t := Load(h, pending, File([r, r], [], buckets), false);
      0 in t.info && t.info[0].key == r.key && r.key.addr !in t.addr && Checked(h, t)
  {
    hide Read, ReplaceAll, Checked, Shuffled, Placed, Counted, Latest;
    var f := File([r, r], [], buckets);
    LoadIs(h, pending, f, false);
    var u, t := LoadTables(h, pending, f, false), Load(h, pending, f, false);
    assert Kept(h, f) == [r, r];
    ReadIs(h, pending, f);
    FirstPlaced(h, Read(h, pending, f), buckets, 2, 2, false);
    SecondRefused(h, Read(h, pending, f), buckets);
    assert NoCell(u, 1) && !NoCell(u, 0);
    assert Forgotten(u, 2, r.key.addr);
    assert SameEntry(t.info[0], u.info[0]);
    LoadCheckedIff(h, pending, f, false);
  }

  /** Two entries with the same key and source compete for one cell. */
  lemma SecondRefused(h: Bucketing, s: State, buckets: seq<seq<int>>)
    requires Waiting(s, 0, 2) && s.untried == map[] && s.info[0].key == s.info[1].key && s.info[0].source == s.info[1].source
    ensures ReplaceAll(h, s, buckets, 2, false).info[1].refCount == 0
  {
    hide NewSlot;
    assert ReplaceAll(h, s, buckets, 0, false) == s;
    var t := ReplaceAll(h, s, buckets, 1, false);
    assert t == Acquire(s, 0, NewSlot(h, s.info[0].key, s.info[0].source));
  }

  /** One record in both tables: both entries are kept, and Check_ fails. */
  lemma BothTables(h: Bucketing, pending: set<int>, r: Record, buckets: seq<seq<int>>, same: bool)
    ensures !Checked(h, Load(h, pending, File([r], [r], buckets), same))
  {
    hide Read, ReplaceAll, Checked, Shuffled, Placed, Counted, Latest, Pruned;
    var f := File([r], [r], buckets);
    LoadIs(h, pending, f, same);
    assert KeptTrieds(h, [r]) == [r] by { assert KeptTrieds(h, [r][..0]) == []; }
    var u, rs := LoadTables(h, pending, f, same), Kept(h, f);
    assert rs == [r, r] && !NoCell(u, 1);
    assert rs[0].key.addr == rs[1].key.addr;
    LoadCheckedIff(h, pending, f, same);
  }

  /** Check_ does not look at the pending collisions: after an empty file none of them names an entry. */
  lemma PendingUnnoticed(h: Bucketing, pending: set<int>, same: bool)
    ensures
      var t := Load(h, pending, File([], [], []), same);
      Checked(h, t) && (Inv(h, t) <==> pending == {})
  {
    hide LoadTables, Load, Checked, Inv;
    assert Kept(h, File([], [], [])) == [];
    LoadCheckedIff(h, pending, File([], [], []), same);
    LoadInvIff(h, pending, File([], [], []), same);
    if pending != {} { var id := Sets.Pick(pending); }
  }
}
