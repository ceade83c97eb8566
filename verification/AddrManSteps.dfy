/** Each step of the address manager's operations keeps the invariant between steps. */
module AddrManSteps {
  import opened AddrManState

  // ---------------------------------------------------------------- vRandom

  /** Equal but for the position in vRandom. */
  ghost predicate SameEntry(a: Info, b: Info) {
    && a.key == b.key && a.source == b.source && a.services == b.services && a.time == b.time
    && a.lastTry == b.lastTry && a.lastCountAttempt == b.lastCountAttempt && a.lastSuccess == b.lastSuccess
    && a.attempts == b.attempts && a.refCount == b.refCount && a.inTried == b.inTried
  }

  /** `t` is `s` with vRandom permuted. */
  ghost predicate Reordered(s: State, t: State) {
    && t.info.Keys == s.info.Keys
    && (forall id | id in s.info :: SameEntry(t.info[id], s.info[id]))
    && t == s.(info := t.info, random := t.random)
  }

  /** The id sets depend only on which entries exist and which of them are tried. */
  lemma SameIds(s: State, t: State)
    requires s.info.Keys == t.info.Keys
    requires forall id | id in s.info :: s.info[id].inTried == t.info[id].inTried
    ensures TriedIds(s) == TriedIds(t) && NewIds(s) == NewIds(t)
  {
    assert forall id :: id in TriedIds(s) <==> id in TriedIds(t);
    assert forall id :: id in NewIds(s) <==> id in NewIds(t);
  }

  lemma SamePlaces(h: Bucketing, s: map<int, Info>, t: map<int, Info>, tried: map<Slot, int>, untried: map<Slot, int>)
    requires s.Keys == t.Keys
    requires forall id | id in s :: SameEntry(t[id], s[id])
    requires TriedPlaced(h, s, tried) && NewPlaced(h, s, untried)
    ensures TriedPlaced(h, t, tried) && NewPlaced(h, t, untried)
    ensures Referenced(s, untried) ==> Referenced(t, untried)
  {
    forall p | p in tried ensures tried[p] in t && t[tried[p]].inTried && p == TriedSlot(h, t[tried[p]].key) {
      var id := tried[p];
      assert SameEntry(t[id], s[id]);
    }
    forall p | p in untried
      ensures 0 <= p.0 < NEW_BUCKETS && untried[p] in t && !t[untried[p]].inTried && p == SlotIn(h, t[untried[p]].key, p.0)
    {
      var id := untried[p];
      assert SameEntry(t[id], s[id]);
    }
  }

  lemma ReorderedKeeps(h: Bucketing, s: State, t: State, k: int)
    requires Core(h, s, k) && Reordered(s, t) && Linked(t)
    ensures Core(h, t, k)
  {
    SameIds(s, t);
    SamePlaces(h, s.info, t.info, s.tried, s.untried);
  }

  lemma SwapShuffled(info: map<int, Info>, random: seq<int>, i: int, j: int)
    requires Shuffled(info, random) && 0 <= i < |random| && 0 <= j < |random| && i != j
    ensures
      var info1 := info[random[i] := info[random[i]].(randomPos := j)];
      Shuffled(info1[random[j] := info1[random[j]].(randomPos := i)], random[i := random[j]][j := random[i]])
  {
  }

  lemma SwapRandomLinked(s: State, i: int, j: int)
    requires Linked(s) && 0 <= i < |s.random| && 0 <= j < |s.random|
    ensures Linked(SwapRandom(s, i, j)) && Reordered(s, SwapRandom(s, i, j))
    ensures SwapRandom(s, i, j).info[s.random[i]].randomPos == j
  {
    if i != j { SwapShuffled(s.info, s.random, i, j); }
  }

  lemma SwapRandomKeeps(h: Bucketing, s: State, i: int, j: int, k: int)
    requires Core(h, s, k) && 0 <= i < |s.random| && 0 <= j < |s.random|
    ensures Core(h, SwapRandom(s, i, j), k)
  {
    SwapRandomLinked(s, i, j);
    ReorderedKeeps(h, s, SwapRandom(s, i, j), k);
  }

  // ---------------------------------------------------------------- deletion

  lemma DeleteShuffled(s: State, id: int)
    requires Shuffled(s.info, s.random) && id in s.info
    ensures Shuffled(Delete(s, id).info, Delete(s, id).random)
  {
  }

  lemma DeleteLinked(s: State, id: int)
    requires Linked(s) && id in s.info
    ensures Linked(Delete(s, id))
  {
    DeleteShuffled(s, id);
    hide Shuffled;
    var t := Delete(s, id);
    forall a | a in t.addr ensures t.addr[a] in t.info && t.info[t.addr[a]].key.addr == a { var x := s.addr[a]; }
  }

  lemma DeletePlaced(h: Bucketing, s: State, id: int)
    requires Shuffled(s.info, s.random) && Placed(h, s) && id in s.info && !s.info[id].inTried && s.info[id].refCount == 0
    ensures Placed(h, Delete(s, id))
  {
    var t := Delete(s, id);
    forall p | p in t.tried
      ensures t.tried[p] in t.info && t.info[t.tried[p]].inTried && p == TriedSlot(h, t.info[t.tried[p]].key)
    { var x := s.tried[p]; }
    forall p | p in t.untried
      ensures t.untried[p] in t.info && !t.info[t.untried[p]].inTried && p == SlotIn(h, t.info[t.untried[p]].key, p.0)
    {
      var x := s.untried[p];
      assert p in SlotsOf(s.untried, x);
    }
  }

  lemma DeleteCounted(s: State, id: int, k: int)
    requires Shuffled(s.info, s.random) && Counted(s, k) && id in s.info && !s.info[id].inTried
    ensures Counted(Delete(s, id), k)
  {
    var t := Delete(s, id);
    assert forall x :: x in TriedIds(t) <==> x in TriedIds(s);
    assert TriedIds(t) == TriedIds(s);
    assert forall x :: x in NewIds(t) <==> x in NewIds(s) - {id};
    assert NewIds(t) == NewIds(s) - {id};
  }

  /** An entry that is in no cell may be deleted. */
  lemma DeleteKeeps(h: Bucketing, s: State, id: int, k: int)
    requires Core(h, s, k) && id in s.info && !s.info[id].inTried && s.info[id].refCount == 0
    ensures Core(h, Delete(s, id), k)
  {
    DeleteLinked(s, id);
    DeletePlaced(h, s, id);
    DeleteCounted(s, id, k);
  }

  // ---------------------------------------------------------------- new cells

  /** Rewriting an entry in place, address and vRandom position kept. */
  lemma RewriteLinked(s: State, id: int, e: Info)
    requires Linked(s) && id in s.info && e.key == s.info[id].key && e.randomPos == s.info[id].randomPos
    ensures Shuffled(s.info[id := e], s.random) && Indexed(s.info[id := e], s.addr)
  {
    forall a | a in s.addr ensures s.addr[a] in s.info[id := e] && s.info[id := e][s.addr[a]].key.addr == a {
      var x := s.addr[a];
    }
  }

  lemma RewriteTried(h: Bucketing, info: map<int, Info>, tried: map<Slot, int>, id: int, e: Info)
    requires TriedPlaced(h, info, tried) && id in info && e.key == info[id].key && e.inTried == info[id].inTried
    ensures TriedPlaced(h, info[id := e], tried)
  {
    var info' := info[id := e];
    forall p | p in tried
      ensures tried[p] in info' && info'[tried[p]].inTried && p == TriedSlot(h, info'[tried[p]].key)
    { var x := tried[p]; }
  }

  lemma RewriteRest(s: State, t: State, id: int, e: Info)
    requires Numbered(s) && Timed(s) && id in s.info && t.info == s.info[id := e]
    requires e.lastTry >= 0 && e.lastSuccess >= 0 && (e.inTried ==> e.lastSuccess > 0)
    requires t.idCount == s.idCount && t.collisions == s.collisions
    ensures Numbered(t) && Timed(t)
  {
  }

  lemma RewriteCounted(s: State, t: State, id: int, e: Info, k: int)
    requires Counted(s, k) && id in s.info && t.info == s.info[id := e] && e.inTried == s.info[id].inTried
    requires t.nTried == s.nTried && t.nNew == s.nNew
    ensures Counted(t, k)
  {
    assert t.info.Keys == s.info.Keys;
    SameIds(s, t);
  }

  /** Emptying one new cell takes one reference from its entry. */
  lemma ReleasePlaced(h: Bucketing, info: map<int, Info>, untried: map<Slot, int>, p: Slot)
    requires NewPlaced(h, info, untried) && Referenced(info, untried) && p in untried
    ensures
      var id := untried[p];
      var info' := info[id := info[id].(refCount := info[id].refCount - 1)];
      NewPlaced(h, info', untried - {p}) && Referenced(info', untried - {p})
  {
    var id := untried[p];
    var info' := info[id := info[id].(refCount := info[id].refCount - 1)];
    forall q | q in untried - {p}
      ensures untried[q] in info' && !info'[untried[q]].inTried && q == SlotIn(h, info'[untried[q]].key, q.0)
    { var x := untried[q]; }
    forall x | x in info' ensures info'[x].refCount == |SlotsOf(untried - {p}, x)| <= NEW_BUCKETS_PER_ADDRESS {
      SlotsOfRemoved(untried, p, x);
    }
  }

  lemma SlotsOfRemoved(untried: map<Slot, int>, p: Slot, x: int)
    requires p in untried
    ensures SlotsOf(untried - {p}, x) == SlotsOf(untried, x) - {p}
    ensures |SlotsOf(untried - {p}, x)| == |SlotsOf(untried, x)| - if untried[p] == x then 1 else 0
  {
    assert forall q :: q in SlotsOf(untried - {p}, x) <==> q in SlotsOf(untried, x) - {p};
    if untried[p] == x { assert p in SlotsOf(untried, x); } else { assert p !in SlotsOf(untried, x); }
  }

  lemma SlotsOfAdded(untried: map<Slot, int>, p: Slot, id: int, x: int)
    requires p !in untried
    ensures SlotsOf(untried[p := id], x) == if x == id then SlotsOf(untried, x) + {p} else SlotsOf(untried, x)
    ensures |SlotsOf(untried[p := id], x)| == |SlotsOf(untried, x)| + if x == id then 1 else 0
  {
    var r := if x == id then SlotsOf(untried, x) + {p} else SlotsOf(untried, x);
    assert forall q :: q in SlotsOf(untried[p := id], x) <==> q in r;
    assert p !in SlotsOf(untried, x);
  }

  lemma ReleaseKeeps(h: Bucketing, s: State, p: Slot, k: int)
    requires Core(h, s, k) && p in s.untried
    ensures Core(h, Release(s, p), k)
  {
    var id := s.untried[p];
    var e := s.info[id].(refCount := s.info[id].refCount - 1);
    RewriteLinked(s, id, e);
    RewriteTried(h, s.info, s.tried, id, e);
    ReleasePlaced(h, s.info, s.untried, p);
    RewriteCounted(s, Release(s, p), id, e, k);
    RewriteRest(s, Release(s, p), id, e);
  }

  lemma ClearNewKeeps(h: Bucketing, s: State, p: Slot, k: int)
    requires Core(h, s, k)
    ensures Core(h, ClearNew(s, p), k)
  {
    if p in s.untried {
      var id := s.untried[p];
      ReleaseKeeps(h, s, p, k);
      var t := Release(s, p);
      if t.info[id].refCount == 0 { DeleteKeeps(h, t, id, k); }
    }
  }

  /** ClearNew touches nothing but the entry in the cell it clears. */
  lemma ClearNewEntries(h: Bucketing, s: State, p: Slot)
    requires Linked(s) && NewPlaced(h, s.info, s.untried)
    ensures ClearNew(s, p).untried == s.untried - {p} && ClearNew(s, p).tried == s.tried
    ensures SameFrame(s, ClearNew(s, p))
    ensures forall x | x in s.info && (p in s.untried ==> x != s.untried[p]) ::
      x in ClearNew(s, p).info && SameEntry(ClearNew(s, p).info[x], s.info[x])
    ensures forall x | x in ClearNew(s, p).info :: x in s.info && ClearNew(s, p).info[x].key == s.info[x].key
  {
    if p in s.untried {
      var id := s.untried[p];
      var t := Release(s, p);
      RewriteLinked(s, id, s.info[id].(refCount := s.info[id].refCount - 1));
    }
  }

  lemma AcquirePlaced(h: Bucketing, info: map<int, Info>, untried: map<Slot, int>, id: int, p: Slot)
    requires NewPlaced(h, info, untried) && Referenced(info, untried) && p !in untried
    requires id in info && !info[id].inTried && info[id].refCount < NEW_BUCKETS_PER_ADDRESS
    requires 0 <= p.0 < NEW_BUCKETS && p == SlotIn(h, info[id].key, p.0)
    ensures
      var info' := info[id := info[id].(refCount := info[id].refCount + 1)];
      NewPlaced(h, info', untried[p := id]) && Referenced(info', untried[p := id])
  {
    var info' := info[id := info[id].(refCount := info[id].refCount + 1)];
    var untried' := untried[p := id];
    forall q | q in untried'
      ensures untried'[q] in info' && !info'[untried'[q]].inTried && q == SlotIn(h, info'[untried'[q]].key, q.0)
    { var x := untried'[q]; }
    forall x | x in info' ensures info'[x].refCount == |SlotsOf(untried', x)| <= NEW_BUCKETS_PER_ADDRESS {
      SlotsOfAdded(untried, p, id, x);
    }
  }

  lemma AcquireKeeps(h: Bucketing, s: State, id: int, p: Slot, k: int)
    requires Core(h, s, k) && p !in s.untried
    requires id in s.info && !s.info[id].inTried && s.info[id].refCount < NEW_BUCKETS_PER_ADDRESS
    requires 0 <= p.0 < NEW_BUCKETS && p == SlotIn(h, s.info[id].key, p.0)
    ensures Core(h, Acquire(s, id, p), k)
  {
    var e := s.info[id].(refCount := s.info[id].refCount + 1);
    RewriteLinked(s, id, e);
    RewriteTried(h, s.info, s.tried, id, e);
    AcquirePlaced(h, s.info, s.untried, id, p);
    RewriteCounted(s, Acquire(s, id, p), id, e, k);
    RewriteRest(s, Acquire(s, id, p), id, e);
  }

  // ---------------------------------------------------------------- between the tables

  /** Leaving every new cell at once. */
  lemma LeaveNewPlaced(h: Bucketing, s: State, id: int)
    requires Placed(h, s) && id in s.info
    ensures NewPlaced(h, LeaveNew(s, id).info, LeaveNew(s, id).untried)
    ensures Referenced(LeaveNew(s, id).info, LeaveNew(s, id).untried)
    ensures LeaveNew(s, id).info[id].refCount == 0 && SlotsOf(LeaveNew(s, id).untried, id) == {}
  {
    var t := LeaveNew(s, id);
    forall q | q in t.untried
      ensures t.untried[q] in t.info && !t.info[t.untried[q]].inTried && q == SlotIn(h, t.info[t.untried[q]].key, q.0)
    { var x := t.untried[q]; }
    assert forall q | q in t.untried :: t.untried[q] != id;
    assert SlotsOf(t.untried, id) == {};
    forall x | x in t.info ensures t.info[x].refCount == |SlotsOf(t.untried, x)| <= NEW_BUCKETS_PER_ADDRESS {
      if x != id {
        assert forall q :: q in SlotsOf(t.untried, x) <==> q in SlotsOf(s.untried, x);
        assert SlotsOf(t.untried, x) == SlotsOf(s.untried, x);
      }
    }
  }

  lemma LeaveNewKeeps(h: Bucketing, s: State, id: int, k: int)
    requires Core(h, s, k) && id in s.info
    ensures Core(h, LeaveNew(s, id), k + 1)
  {
    var t := LeaveNew(s, id);
    var e := t.info[id];
    RewriteLinked(s, id, e);
    RewriteTried(h, s.info, s.tried, id, e);
    LeaveNewPlaced(h, s, id);
    RewriteCounted(s, t.(nNew := s.nNew), id, e, k);
    assert NewIds(t) == NewIds(t.(nNew := s.nNew)) && TriedIds(t) == TriedIds(t.(nNew := s.nNew));
    RewriteRest(s, t, id, e);
  }

  /** Moving one entry between the id sets. */
  lemma MoveCounted(s: State, t: State, id: int, e: Info, k: int)
    requires Counted(s, k) && id in s.info && t.info == s.info[id := e] && e.inTried != s.info[id].inTried
    requires t.nNew == s.nNew && t.nTried == s.nTried + if e.inTried then 1 else -1
    ensures Counted(t, if e.inTried then k - 1 else k + 1)
  {
    if e.inTried {
      assert forall x :: x in TriedIds(t) <==> x in TriedIds(s) + {id};
      assert forall x :: x in NewIds(t) <==> x in NewIds(s) - {id};
      assert TriedIds(t) == TriedIds(s) + {id} && NewIds(t) == NewIds(s) - {id};
    } else {
      assert forall x :: x in TriedIds(t) <==> x in TriedIds(s) - {id};
      assert forall x :: x in NewIds(t) <==> x in NewIds(s) + {id};
      assert TriedIds(t) == TriedIds(s) - {id} && NewIds(t) == NewIds(s) + {id};
    }
  }

  /** Flipping `inTried` of an entry without new cells does not disturb the new table. */
  lemma FlipNew(h: Bucketing, info: map<int, Info>, untried: map<Slot, int>, id: int, e: Info)
    requires NewPlaced(h, info, untried) && Referenced(info, untried) && id in info && SlotsOf(untried, id) == {}
    requires e.refCount == info[id].refCount
    ensures NewPlaced(h, info[id := e], untried) && Referenced(info[id := e], untried)
  {
    var info' := info[id := e];
    forall q | q in untried
      ensures untried[q] in info' && !info'[untried[q]].inTried && q == SlotIn(h, info'[untried[q]].key, q.0)
    {
      var x := untried[q];
      assert q in SlotsOf(untried, x);
    }
  }

  lemma UntryPlaced(h: Bucketing, info: map<int, Info>, tried: map<Slot, int>, p: Slot)
    requires TriedPlaced(h, info, tried) && p in tried
    ensures var id := tried[p]; TriedPlaced(h, info[id := info[id].(inTried := false)], tried - {p})
  {
    var id := tried[p];
    var info' := info[id := info[id].(inTried := false)];
    forall q | q in tried - {p}
      ensures tried[q] in info' && info'[tried[q]].inTried && q == TriedSlot(h, info'[tried[q]].key)
    { var x := tried[q]; }
  }

  lemma EnterPlaced(h: Bucketing, info: map<int, Info>, tried: map<Slot, int>, id: int, p: Slot)
    requires TriedPlaced(h, info, tried) && p !in tried && id in info && p == TriedSlot(h, info[id].key)
    ensures TriedPlaced(h, info[id := info[id].(inTried := true)], tried[p := id])
  {
    var info', tried' := info[id := info[id].(inTried := true)], tried[p := id];
    forall q | q in tried'
      ensures tried'[q] in info' && info'[tried'[q]].inTried && q == TriedSlot(h, info'[tried'[q]].key)
    { var x := tried'[q]; }
  }

  lemma UntryKeeps(h: Bucketing, s: State, p: Slot, k: int)
    requires Core(h, s, k) && p in s.tried
    ensures Core(h, Untry(s, p), k + 1)
    ensures Untry(s, p).info[s.tried[p]].refCount == 0
  {
    var id := s.tried[p];
    var e := s.info[id].(inTried := false);
    RewriteLinked(s, id, e);
    UntryPlaced(h, s.info, s.tried, p);
    assert SlotsOf(s.untried, id) == {} by { NoSlots(h, s, id); }
    FlipNew(h, s.info, s.untried, id, e);
    MoveCounted(s, Untry(s, p), id, e, k);
    RewriteRest(s, Untry(s, p), id, e);
  }

  lemma EnterTriedKeeps(h: Bucketing, s: State, id: int, p: Slot, k: int)
    requires Core(h, s, k) && id in s.info && !s.info[id].inTried && s.info[id].refCount == 0
    requires s.info[id].lastSuccess > 0 && p == TriedSlot(h, s.info[id].key) && p !in s.tried
    ensures Core(h, EnterTried(s, id, p), k - 1)
  {
    var e := s.info[id].(inTried := true);
    RewriteLinked(s, id, e);
    EnterPlaced(h, s.info, s.tried, id, p);
    FlipNew(h, s.info, s.untried, id, e);
    MoveCounted(s, EnterTried(s, id, p), id, e, k);
    RewriteRest(s, EnterTried(s, id, p), id, e);
  }

  /** A tried entry holds no new cell. */
  lemma NoSlots(h: Bucketing, s: State, id: int)
    requires Placed(h, s) && id in s.info && s.info[id].inTried
    ensures SlotsOf(s.untried, id) == {} && s.info[id].refCount == 0
    ensures forall q | q in s.untried :: s.untried[q] != id
  {
    forall q | q in s.untried ensures s.untried[q] != id { var x := s.untried[q]; }
    assert SlotsOf(s.untried, id) == {};
  }
}
