/** Which records of a file survive a load, said on the file alone. */
module PeersLaws {
  import opened AddrManState
  import opened AddrManSteps
  import opened PeersFile
  import opened AddrManLaws

  // ---------------------------------------------------------------- the tried table

  /** The first record that names its tried cell. */
  ghost predicate FirstTried(h: Bucketing, rs: seq<Record>, k: nat)
    requires k < |rs|
  {
    forall j | 0 <= j < k :: TriedCell(h, rs[j].key) != TriedCell(h, rs[k].key)
  }

  lemma {:induction false} KeptFrom(h: Bucketing, rs: seq<Record>, i: nat)
    requires i < |KeptTrieds(h, rs)|
    ensures KeptTrieds(h, rs)[i] in rs
  {
    hide TriedSlot;
    var n := |rs| - 1;
    if i < |KeptTrieds(h, rs[..n])| { KeptFrom(h, rs[..n], i); }
  }

  lemma {:induction false} FirstKept(h: Bucketing, rs: seq<Record>, k: nat)
    requires k < |rs| && FirstTried(h, rs, k)
    ensures exists i | 0 <= i < |KeptTrieds(h, rs)| :: KeptTrieds(h, rs)[i] == rs[k]
  {
    hide TriedSlot, TriedCell;
    var n := |rs| - 1;
    var kept, before := KeptTrieds(h, rs), KeptTrieds(h, rs[..n]);
    if k < n {
      FirstKept(h, rs[..n], k);
      var i :| 0 <= i < |before| && before[i] == rs[k];
      assert kept[i] == rs[k];
    } else {
      forall i | 0 <= i < |before| ensures TriedSlot(h, before[i].key) != TriedSlot(h, rs[n].key) {
        KeptFrom(h, rs[..n], i);
        var j :| 0 <= j < n && rs[..n][j] == before[i];
        Cells(h, rs[j].key, 0);
        Cells(h, rs[n].key, 0);
      }
      assert kept[|before|] == rs[n];
    }
  }

  /** Each tried cell that the file names is held, after any load, by the first record that names it. */
  lemma TriedReloaded(h: Bucketing, pending: set<int>, f: File, same: bool, k: nat)
    requires k < |f.trieds| && FirstTried(h, f.trieds, k)
    ensures
      var t, p := Load(h, pending, f, same), TriedCell(h, f.trieds[k].key);
      p in t.tried && t.tried[p] in t.info && RecordOf(t.info[t.tried[p]]) == f.trieds[k]
  {
    hide LoadTables, Load, Shuffled, Counted, Latest, TriedSlot, TriedCell, Forgotten;
    LoadIs(h, pending, f, same);
    FirstKept(h, f.trieds, k);
    var u, t, rs := LoadTables(h, pending, f, same), Load(h, pending, f, same), KeptTrieds(h, f.trieds);
    var i :| 0 <= i < |rs| && rs[i] == f.trieds[k];
    Cells(h, rs[i].key, 0);
    var id := |f.news| + i;
    assert Kept(h, f)[id] == rs[i];
    assert id in t.info by { assert !NoCell(u, id); }
    assert SameEntry(t.info[id], u.info[id]);
  }

  // ---------------------------------------------------------------- the new table under another bucketing

  ghost predicate FirstNew(h: Bucketing, rs: seq<Record>, k: nat)
    requires k < |rs|
  {
    forall j | 0 <= j < k :: NewCell(h, rs[j].key, rs[j].source) != NewCell(h, rs[k].key, rs[k].source)
  }

  /** First come, first served. */
  ghost predicate Serves(h: Bucketing, rs: seq<Record>, t: State, i: nat)
    requires i < |rs|
  {
    var p := NewCell(h, rs[i].key, rs[i].source);
    && i in t.info && t.info[i].refCount == (if FirstNew(h, rs, i) then 1 else 0)
    && p in t.untried && (FirstNew(h, rs, i) ==> t.untried[p] == i)
  }

  ghost predicate CellOfOne(h: Bucketing, rs: seq<Record>, n: nat, p: Slot)
    requires n <= |rs|
  {
    exists j | 0 <= j < n :: p == NewCell(h, rs[j].key, rs[j].source)
  }

  /** After the first `n` entries have been put back. */
  ghost predicate Served(h: Bucketing, rs: seq<Record>, t: State, n: nat)
    requires n <= |rs|
  {
    && (forall p | p in t.untried :: CellOfOne(h, rs, n, p))
    && (forall i | 0 <= i < n :: Serves(h, rs, t, i))
  }

  lemma {:induction false} ReplaceAllServes(h: Bucketing, s: State, rs: seq<Record>, buckets: seq<seq<int>>, n: nat)
    requires Waiting(s, 0, |rs|) && s.untried == map[] && n <= |rs|
    requires forall i | 0 <= i < |rs| :: i in s.info && s.info[i].key == rs[i].key && s.info[i].source == rs[i].source
    ensures
      var t := ReplaceAll(h, s, buckets, n, false);
      Served(h, rs, t, n) && Waiting(t, n, |rs|) && Recounted(s, t)
  {
    hide NewSlot, NewCell, FirstNew, Replace, Served;
    if n == 0 {
      NoneServed(h, rs, s);
    } else {
      ReplaceAllServes(h, s, rs, buckets, n - 1);
      var t := ReplaceAll(h, s, buckets, n - 1, false);
      ReplaceRecounts(h, t, n - 1, |rs|, LastBucket(buckets, n - 1, |buckets|), false);
      assert t.info[n - 1].key == s.info[n - 1].key && t.info[n - 1].source == s.info[n - 1].source;
      ServeNext(h, rs, t, n - 1, LastBucket(buckets, n - 1, |buckets|));
    }
  }

  lemma NoneServed(h: Bucketing, rs: seq<Record>, s: State)
    requires s.untried == map[]
    ensures Served(h, rs, s, 0)
  {
  }

  lemma ServeNext(h: Bucketing, rs: seq<Record>, t: State, n: nat, bucket: int)
    requires n < |rs| && Served(h, rs, t, n) && Waiting(t, n, |rs|)
    requires t.info[n].key == rs[n].key && t.info[n].source == rs[n].source
    ensures Served(h, rs, Replace(h, t, n, bucket, false), n + 1)
  {
    Cells(h, rs[n].key, rs[n].source);
    hide NewSlot, NewCell, SlotIn, Serves, FirstNew;
    var q := NewCell(h, rs[n].key, rs[n].source);
    forall p | CellOfOne(h, rs, n, p) || p == q ensures CellOfOne(h, rs, n + 1, p) {
      if p != q { var j :| 0 <= j < n && p == NewCell(h, rs[j].key, rs[j].source); }
    }
    if q in t.untried {
      ServesTaken(h, rs, t, n);
    } else {
      forall i | 0 <= i < n ensures Serves(h, rs, Acquire(t, n, q), i) { ServesStill(h, rs, t, n, i); }
      ServesFree(h, rs, t, n);
    }
  }

  lemma ServesTaken(h: Bucketing, rs: seq<Record>, t: State, n: nat)
    requires n < |rs| && CellOfOne(h, rs, n, NewCell(h, rs[n].key, rs[n].source)) && n in t.info && t.info[n].refCount == 0
    requires NewCell(h, rs[n].key, rs[n].source) in t.untried
    ensures Serves(h, rs, t, n)
  {
    hide NewCell;
    var j :| 0 <= j < n && NewCell(h, rs[n].key, rs[n].source) == NewCell(h, rs[j].key, rs[j].source);
    assert !FirstNew(h, rs, n);
  }

  lemma ServesFree(h: Bucketing, rs: seq<Record>, t: State, n: nat)
    requires n < |rs| && n in t.info && t.info[n].refCount == 0 && NewCell(h, rs[n].key, rs[n].source) !in t.untried
    requires forall i | 0 <= i < n :: Serves(h, rs, t, i)
    ensures Serves(h, rs, Acquire(t, n, NewCell(h, rs[n].key, rs[n].source)), n)
  {
    hide NewCell;
    assert FirstNew(h, rs, n) by {
      forall j | 0 <= j < n ensures NewCell(h, rs[j].key, rs[j].source) != NewCell(h, rs[n].key, rs[n].source) {
        assert Serves(h, rs, t, j);
      }
    }
  }

  lemma ServesStill(h: Bucketing, rs: seq<Record>, t: State, n: nat, i: nat)
    requires i < n < |rs| && Serves(h, rs, t, i) && n in t.info && NewCell(h, rs[n].key, rs[n].source) !in t.untried
    ensures Serves(h, rs, Acquire(t, n, NewCell(h, rs[n].key, rs[n].source)), i)
  {
    hide NewCell, FirstNew;
  }

  /** Under another bucketing a new record is kept exactly if no record before it has the same new cell, and then it is in
      that cell and no other. */
  lemma NewReloaded(h: Bucketing, pending: set<int>, f: File, k: nat)
    requires k < |f.news|
    ensures
      var t, p := Load(h, pending, f, false), NewCell(h, f.news[k].key, f.news[k].source);
      && (k in t.info <==> FirstNew(h, f.news, k))
      && (k in t.info ==> RecordOf(t.info[k]) == f.news[k] && t.info[k].refCount == 1 && p in t.untried && t.untried[p] == k)
  {
    hide Load, Read, ReplaceAll, Shuffled, Placed, Counted, Latest, NewCell, FirstNew, Forgotten, KeptTrieds;
    LoadIs(h, pending, f, false);
    ReadIs(h, pending, f);
    var s, u, t := Read(h, pending, f), LoadTables(h, pending, f, false), Load(h, pending, f, false);
    assert forall i | 0 <= i < |f.news| :: Kept(h, f)[i] == f.news[i];
    ReplaceAllServes(h, s, f.news, f.buckets, |f.news|);
    assert Serves(h, f.news, u, k);
    assert u.info[k].refCount == if FirstNew(h, f.news, k) then 1 else 0;
    if k in t.info { assert SameEntry(t.info[k], u.info[k]); }
  }
}
