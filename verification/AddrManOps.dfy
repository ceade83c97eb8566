/** The address manager's operations as functions on its state, and the proof that every run of them
    keeps the invariant. */
module AddrManOps {
  import opened Basics
  import opened Powers
  import opened AddrManState
  import opened AddrManSteps

  // ---------------------------------------------------------------- MakeTried

  lemma ClearNewHeld(h: Bucketing, s: State, p: Slot, moving: set<int>)
    requires Linked(s) && Placed(h, s) && Held(s, moving)
    ensures Held(ClearNew(s, p), moving)
  {
    if p in s.untried { var id := s.untried[p]; }
  }

  /** The entry in tried cell `p` goes back to the new cell that its own source selects. */
  function Evict(h: Bucketing, s: State, p: Slot): State
    requires Linked(s) && Placed(h, s) && p in s.tried
  {
    var id := s.tried[p];
    var q := NewSlot(h, s.info[id].key, s.info[id].source);
    assert Linked(Untry(s, p)) by { RewriteLinked(s, id, s.info[id].(inTried := false)); }
    assert NewPlaced(h, Untry(s, p).info, s.untried) by {
      NoSlots(h, s, id);
      FlipNew(h, s.info, s.untried, id, s.info[id].(inTried := false));
    }
    var u := ClearNew(Untry(s, p), q);
    assert id in u.info by {
      NoSlots(h, s, id);
      ClearNewEntries(h, Untry(s, p), q);
    }
    Acquire(u, id, q).(nNew := u.nNew + 1)
  }

  /** Vacating tried cell `p` and clearing new cell `q`: the evicted entry is left in no cell. */
  lemma VacateKeeps(h: Bucketing, s: State, p: Slot, q: Slot, k: int)
    requires Core(h, s, k) && p in s.tried
    ensures Linked(Untry(s, p)) && Core(h, ClearNew(Untry(s, p), q), k + 1)
  {
    UntryKeeps(h, s, p, k);
    ClearNewKeeps(h, Untry(s, p), q, k + 1);
  }

  /** What vacating does to the entries. */
  lemma VacateEntries(h: Bucketing, s: State, p: Slot, q: Slot)
    requires Linked(s) && Placed(h, s) && p in s.tried && Linked(Untry(s, p))
    ensures var u, id := ClearNew(Untry(s, p), q), s.tried[p];
      && u.untried == s.untried - {q} && u.tried == s.tried - {p} && SameFrame(s, u)
      && id in u.info && u.info[id].key == s.info[id].key && !u.info[id].inTried && u.info[id].refCount == 0
      && (forall x | x in s.info && x != id && SlotsOf(s.untried, x) == {} :: x in u.info && SameEntry(u.info[x], s.info[x]))
      && (forall x | x in u.info :: x in s.info && u.info[x].key == s.info[x].key)
  {
    var id := s.tried[p];
    NoSlots(h, s, id);
    FlipNew(h, s.info, s.untried, id, s.info[id].(inTried := false));
    hide Linked, Placed, NewPlaced, ClearNew;
    ClearNewEntries(h, Untry(s, p), q);
    assert SameEntry(ClearNew(Untry(s, p), q).info[id], Untry(s, p).info[id]);
    forall x | x in s.info && x != id && SlotsOf(s.untried, x) == {}
      ensures x in ClearNew(Untry(s, p), q).info && SameEntry(ClearNew(Untry(s, p), q).info[x], s.info[x])
    {
      if q in s.untried { assert q in SlotsOf(s.untried, s.untried[q]); }
    }
  }

  lemma EvictKeeps(h: Bucketing, s: State, p: Slot, k: int)
    requires Core(h, s, k) && p in s.tried
    ensures Core(h, Evict(h, s, p), k)
  {
    var id := s.tried[p];
    var q := NewSlot(h, s.info[id].key, s.info[id].source);
    VacateKeeps(h, s, p, q, k);
    VacateEntries(h, s, p, q);
    ReturnKeeps(h, ClearNew(Untry(s, p), q), id, q, k);
  }

  lemma ReturnKeeps(h: Bucketing, s: State, id: int, q: Slot, k: int)
    requires Core(h, s, k + 1) && id in s.info && !s.info[id].inTried && s.info[id].refCount == 0
    requires q !in s.untried && 0 <= q.0 < NEW_BUCKETS && q == SlotIn(h, s.info[id].key, q.0)
    ensures Core(h, Acquire(s, id, q).(nNew := s.nNew + 1), k)
  {
    AcquireKeeps(h, s, id, q, k + 1);
    SameIds(Acquire(s, id, q), Acquire(s, id, q).(nNew := s.nNew + 1));
  }

  /** Eviction moves one entry from its tried cell to a new cell; ids and addresses stay what they were. */
  lemma EvictEntries(h: Bucketing, s: State, p: Slot)
    requires Linked(s) && Placed(h, s) && p in s.tried
    ensures Evict(h, s, p).tried == s.tried - {p} && SameFrame(s, Evict(h, s, p))
    ensures forall x | x in s.info && x != s.tried[p] && SlotsOf(s.untried, x) == {} ::
      x in Evict(h, s, p).info && SameEntry(Evict(h, s, p).info[x], s.info[x])
    ensures forall x | x in Evict(h, s, p).info :: x in s.info && Evict(h, s, p).info[x].key == s.info[x].key
  {
    var id := s.tried[p];
    RewriteLinked(s, id, s.info[id].(inTried := false));
    VacateEntries(h, s, p, NewSlot(h, s.info[id].key, s.info[id].source));
  }

  lemma EvictHeld(h: Bucketing, s: State, p: Slot, moving: set<int>, k: int)
    requires Core(h, s, k) && p in s.tried && Held(s, moving)
    ensures Held(Evict(h, s, p), moving)
  {
    var id := s.tried[p];
    var q := NewSlot(h, s.info[id].key, s.info[id].source);
    UntryKeeps(h, s, p, k);
    ClearNewHeld(h, Untry(s, p), q, moving + {id});
    VacateEntries(h, s, p, q);
  }

  /** Leaving the new table keeps links and places; the entry is then in no cell. */
  lemma LeaveNewReady(h: Bucketing, s: State, id: int)
    requires Linked(s) && Placed(h, s) && id in s.info
    ensures Linked(LeaveNew(s, id)) && Placed(h, LeaveNew(s, id))
    ensures SlotsOf(LeaveNew(s, id).untried, id) == {} && LeaveNew(s, id).info[id].refCount == 0
    ensures Numbered(s) ==> Numbered(LeaveNew(s, id))
  {
    var e := LeaveNew(s, id).info[id];
    RewriteLinked(s, id, e);
    RewriteTried(h, s.info, s.tried, id, e);
    LeaveNewPlaced(h, s, id);
  }

  /** The state in which `id` may enter its tried cell: it holds no new cell and the tried cell is free. */
  function Cleared(h: Bucketing, s: State, id: int): State
    requires Linked(s) && Placed(h, s) && id in s.info && !s.info[id].inTried
  {
    LeaveNewReady(h, s, id);
    var p := TriedSlot(h, s.info[id].key);
    if p in s.tried then Evict(h, LeaveNew(s, id), p) else LeaveNew(s, id)
  }

  lemma ClearedEntry(h: Bucketing, s: State, id: int)
    requires Linked(s) && Placed(h, s) && id in s.info && !s.info[id].inTried
    ensures Cleared(h, s, id).tried == s.tried - {TriedSlot(h, s.info[id].key)} && SameFrame(s, Cleared(h, s, id))
    ensures id in Cleared(h, s, id).info && SameEntry(Cleared(h, s, id).info[id], s.info[id].(refCount := 0))
    ensures forall x | x in Cleared(h, s, id).info :: x in s.info && Cleared(h, s, id).info[x].key == s.info[x].key
  {
    LeaveNewReady(h, s, id);
    var t, p := LeaveNew(s, id), TriedSlot(h, s.info[id].key);
    if p in s.tried {
      EvictEntries(h, t, p);
      assert t.tried[p] != id by { var x := s.tried[p]; }
      assert SameEntry(Evict(h, t, p).info[id], t.info[id]);
      forall x | x in Evict(h, t, p).info ensures x in s.info && Evict(h, t, p).info[x].key == s.info[x].key {
        assert x in t.info;
      }
    }
  }

  lemma ClearedKeeps(h: Bucketing, s: State, id: int)
    requires Core(h, s, 0) && Held(s, {}) && id in s.info && !s.info[id].inTried
    ensures Core(h, Cleared(h, s, id), 1) && Held(Cleared(h, s, id), {id})
  {
    var t, p := LeaveNew(s, id), TriedSlot(h, s.info[id].key);
    LeaveNewKeeps(h, s, id, 0);
    assert Held(t, {id});
    if p in s.tried {
      EvictKeeps(h, t, p, 1);
      EvictHeld(h, t, p, {id}, 1);
    }
  }

  function MakeTried(h: Bucketing, s: State, id: int): State
    requires Linked(s) && Placed(h, s) && id in s.info && !s.info[id].inTried
  {
    ClearedEntry(h, s, id);
    EnterTried(Cleared(h, s, id), id, TriedSlot(h, s.info[id].key))
  }

  lemma MakeTriedKeeps(h: Bucketing, s: State, id: int)
    requires Inv(h, s) && id in s.info && !s.info[id].inTried && s.info[id].lastSuccess > 0
    ensures Core(h, MakeTried(h, s, id), 0) && Held(MakeTried(h, s, id), {})
  {
    ClearedEntry(h, s, id);
    ClearedKeeps(h, s, id);
    EnterTriedKeeps(h, Cleared(h, s, id), id, TriedSlot(h, s.info[id].key), 1);
  }

  lemma MakeTriedGrows(h: Bucketing, s: State, id: int)
    requires Linked(s) && Placed(h, s) && id in s.info && !s.info[id].inTried
    ensures Grows(s, MakeTried(h, s, id)) && MakeTried(h, s, id).collisions == s.collisions
    ensures TriedSlot(h, s.info[id].key) in MakeTried(h, s, id).tried
    ensures MakeTried(h, s, id).tried[TriedSlot(h, s.info[id].key)] == id
  {
    ClearedEntry(h, s, id);
  }

  // ---------------------------------------------------------------- rewriting an entry in place

  /** `e` differs from `i` only in what Add, Attempt, Good, Connected and SetServices may overwrite. */
  ghost predicate Refreshed(i: Info, e: Info) {
    && e == i.(services := e.services, time := e.time, lastTry := e.lastTry,
               lastCountAttempt := e.lastCountAttempt, lastSuccess := e.lastSuccess, attempts := e.attempts)
    && e.lastTry >= 0 && e.lastSuccess >= 0 && (e.inTried ==> e.lastSuccess > 0)
  }

  lemma RefreshKeeps(h: Bucketing, s: State, id: int, e: Info, lastGood: int)
    requires Inv(h, s) && id in s.info && Refreshed(s.info[id], e)
    ensures Inv(h, s.(info := s.info[id := e], lastGood := lastGood))
  {
    hide Linked, Placed, Counted, Timed, Numbered;
    var t := s.(info := s.info[id := e], lastGood := lastGood);
    RefreshLinked(s, t, id, e);
    RefreshPlaced(h, s, t, id, e);
    RewriteCounted(s, t, id, e, 0);
    RewriteRest(s, t, id, e);
  }

  lemma RefreshLinked(s: State, t: State, id: int, e: Info)
    requires Linked(s) && id in s.info && Refreshed(s.info[id], e) && t.info == s.info[id := e]
    requires t.random == s.random && t.addr == s.addr
    ensures Linked(t)
  {
    hide Shuffled, Indexed;
    RewriteLinked(s, id, e);
  }

  lemma RefreshPlaced(h: Bucketing, s: State, t: State, id: int, e: Info)
    requires Placed(h, s) && id in s.info && Refreshed(s.info[id], e) && t.info == s.info[id := e]
    requires t.tried == s.tried && t.untried == s.untried
    ensures Placed(h, t)
  {
    hide TriedPlaced, SlotsOf;
    RewriteTried(h, s.info, s.tried, id, e);
    forall q | q in t.untried
      ensures t.untried[q] in t.info && !t.info[t.untried[q]].inTried && q == SlotIn(h, t.info[t.untried[q]].key, q.0)
    { var x := s.untried[q]; }
  }

  lemma GrowsContested(h: Bucketing, s: State, t: State)
    requires Contested(h, s) && Numbered(s) && Grows(s, t) && t.collisions == s.collisions
    ensures Contested(h, t)
  {
  }

  // ---------------------------------------------------------------- Good

  /** A successful connection is recorded in the entry. */
  function Succeed(s: State, id: int, time: int): State
    requires id in s.info
  {
    s.(info := s.info[id := s.info[id].(lastSuccess := time, lastTry := time, attempts := 0)], lastGood := time)
  }

  /** An untried entry moves to the tried table, unless it has to wait for the entry now in its cell to be tested. */
  function Promote(h: Bucketing, s: State, id: int, testBeforeEvict: bool): State
    requires Linked(s) && Placed(h, s) && id in s.info
  {
    if s.info[id].inTried then s
    else if testBeforeEvict && TriedSlot(h, s.info[id].key) in s.tried then
      if |s.collisions| < COLLISION_LIMIT then s.(collisions := s.collisions + {id}) else s
    else MakeTried(h, s, id)
  }

  function Good(h: Bucketing, s: State, key: Service, testBeforeEvict: bool, time: int): State
    requires Linked(s) && Placed(h, s)
  {
    match Find(s, key.addr)
    case None => s.(lastGood := time)
    case Some(id) =>
      if s.info[id].key != key then s.(lastGood := time)
      else
        var t := Succeed(s, id, time);
        RefreshReady(h, s, id, t.info[id], time);
        Promote(h, t, id, testBeforeEvict)
  }

  lemma RefreshReady(h: Bucketing, s: State, id: int, e: Info, lastGood: int)
    requires Linked(s) && Placed(h, s) && id in s.info
    requires e.key == s.info[id].key && e.refCount == s.info[id].refCount
    requires e.inTried == s.info[id].inTried && e.randomPos == s.info[id].randomPos
    ensures var t := s.(info := s.info[id := e], lastGood := lastGood); Linked(t) && Placed(h, t)
  {
    var t := s.(info := s.info[id := e], lastGood := lastGood);
    RewriteLinked(s, id, e);
    RewriteTried(h, s.info, s.tried, id, e);
    forall q | q in t.untried
      ensures t.untried[q] in t.info && !t.info[t.untried[q]].inTried && q == SlotIn(h, t.info[t.untried[q]].key, q.0)
    { var x := s.untried[q]; }
  }

  /** The last branch of Good_: the entry moves to the tried table. */
  lemma MoveKeeps(h: Bucketing, s: State, id: int)
    requires Inv(h, s) && id in s.info && !s.info[id].inTried && s.info[id].lastSuccess > 0
    ensures Inv(h, MakeTried(h, s, id))
  {
    MakeTriedKeeps(h, s, id);
    MakeTriedGrows(h, s, id);
    GrowsContested(h, s, MakeTried(h, s, id));
  }

  lemma CollideKeeps(h: Bucketing, s: State, id: int)
    requires Inv(h, s) && id in s.info && TriedSlot(h, s.info[id].key) in s.tried && |s.collisions| < COLLISION_LIMIT
    ensures Inv(h, s.(collisions := s.collisions + {id}))
  {
    hide Shuffled, Indexed, TriedPlaced, NewPlaced, Referenced;
    SameIds(s, s.(collisions := s.collisions + {id}));
  }

  lemma PromoteKeeps(h: Bucketing, s: State, id: int, testBeforeEvict: bool)
    requires Inv(h, s) && id in s.info && s.info[id].lastSuccess > 0
    ensures Inv(h, Promote(h, s, id, testBeforeEvict))
  {
    if s.info[id].inTried {
    } else if testBeforeEvict && TriedSlot(h, s.info[id].key) in s.tried {
      if |s.collisions| < COLLISION_LIMIT { CollideKeeps(h, s, id); }
    } else {
      MoveKeeps(h, s, id);
    }
  }

  lemma GoodKeeps(h: Bucketing, s: State, key: Service, testBeforeEvict: bool, time: int)
    requires Inv(h, s) && time > 0
    ensures Inv(h, Good(h, s, key, testBeforeEvict, time))
  {
    var f := Find(s, key.addr);
    if f.Some? && s.info[f.value].key == key {
      RefreshKeeps(h, s, f.value, Succeed(s, f.value, time).info[f.value], time);
      PromoteKeeps(h, Succeed(s, f.value, time), f.value, testBeforeEvict);
    } else {
      SameIds(s, s.(lastGood := time));
    }
  }

  lemma PromoteGrows(h: Bucketing, s: State, id: int, testBeforeEvict: bool)
    requires Linked(s) && Placed(h, s) && id in s.info
    ensures Grows(s, Promote(h, s, id, testBeforeEvict))
  {
    if !s.info[id].inTried { MakeTriedGrows(h, s, id); }
  }

  lemma GoodGrows(h: Bucketing, s: State, key: Service, testBeforeEvict: bool, time: int)
    requires Linked(s) && Placed(h, s)
    ensures Grows(s, Good(h, s, key, testBeforeEvict, time))
  {
    var f := Find(s, key.addr);
    if f.Some? && s.info[f.value].key == key {
      var t := Succeed(s, f.value, time);
      RefreshReady(h, s, f.value, t.info[f.value], time);
      PromoteGrows(h, t, f.value, testBeforeEvict);
      assert Grows(s, t);
      GrowsTransitive(s, t, Promote(h, t, f.value, testBeforeEvict));
    }
  }

  lemma GrowsTransitive(s: State, t: State, u: State)
    requires Grows(s, t) && Grows(t, u)
    ensures Grows(s, u)
  {
  }

  // ---------------------------------------------------------------- Add

  /** Decide whether a new cell may be overwritten in favour of entry `id`. */
  predicate Replaceable(s: State, id: int, q: Slot, now: int)
    requires id in s.info && (q in s.untried ==> s.untried[q] in s.info)
  {
    || q !in s.untried
    || IsTerrible(s.info[s.untried[q]], now)
    || (s.info[s.untried[q]].refCount > 1 && s.info[id].refCount == 0)
  }

  /** The second half of Add_: try to put the entry into the new cell that `source` selects. */
  function Place(h: Bucketing, s: State, id: int, source: NetAddr, now: int): State
    requires Linked(s) && Placed(h, s) && id in s.info
  {
    var q := NewSlot(h, s.info[id].key, source);
    if q in s.untried && s.untried[q] == id then s
    else if Replaceable(s, id, q, now) then
      ClearNewEntries(h, s, q);
      Acquire(ClearNew(s, q), id, q)
    else if s.info[id].refCount == 0 then Delete(s, id)
    else s
  }

  lemma PlaceKeeps(h: Bucketing, s: State, id: int, source: NetAddr, now: int)
    requires Core(h, s, 0) && Held(s, {id}) && id in s.info && !s.info[id].inTried
    requires s.info[id].refCount < NEW_BUCKETS_PER_ADDRESS
    ensures Core(h, Place(h, s, id, source, now), 0)
  {
    var q := NewSlot(h, s.info[id].key, source);
    if q in s.untried && s.untried[q] == id {
    } else if Replaceable(s, id, q, now) {
      ClearNewEntries(h, s, q);
      assert SameEntry(ClearNew(s, q).info[id], s.info[id]);
      ClearNewKeeps(h, s, q, 0);
      AcquireKeeps(h, ClearNew(s, q), id, q, 0);
    } else if s.info[id].refCount == 0 {
      DeleteKeeps(h, s, id, 0);
    }
  }

  lemma SeizeHeld(h: Bucketing, s: State, id: int, q: Slot)
    requires Linked(s) && Placed(h, s) && Held(s, {id}) && id in s.info && !s.info[id].inTried
    requires q in s.untried ==> s.untried[q] != id
    ensures id in ClearNew(s, q).info && Held(Acquire(ClearNew(s, q), id, q), {})
  {
    ClearNewEntries(h, s, q);
    ClearNewHeld(h, s, q, {id});
    assert SameEntry(ClearNew(s, q).info[id], s.info[id]);
  }

  lemma PlaceHeld(h: Bucketing, s: State, id: int, source: NetAddr, now: int)
    requires Linked(s) && Placed(h, s) && Held(s, {id}) && id in s.info && !s.info[id].inTried
    ensures Held(Place(h, s, id, source, now), {})
  {
    var q := NewSlot(h, s.info[id].key, source);
    if q in s.untried && s.untried[q] == id {
      assert q in SlotsOf(s.untried, id);
    } else if Replaceable(s, id, q, now) {
      SeizeHeld(h, s, id, q);
    }
  }

  lemma PlaceGrows(h: Bucketing, s: State, id: int, source: NetAddr, now: int)
    requires Linked(s) && Placed(h, s) && id in s.info
    ensures Grows(s, Place(h, s, id, source, now)) && SameFrame(s, Place(h, s, id, source, now))
  {
    var q := NewSlot(h, s.info[id].key, source);
    if !(q in s.untried && s.untried[q] == id) && Replaceable(s, id, q, now) { ClearNewEntries(h, s, q); }
  }

  /** What Add_ may learn about an entry it already has. */
  function Heard(i: Info, a: Address, penalty: int, now: int): Info {
    var interval := if now - a.time < 24 * 60 * 60 then 60 * 60 else 24 * 60 * 60;
    var i' := if a.time != 0 && (i.time == 0 || i.time < a.time - interval - penalty)
              then i.(time := Max(0, a.time - penalty) % UINT32_RANGE) else i;
    i'.(services := i'.services + a.services)
  }

  /** An announcement never takes away a service and never moves the time back. It moves the time only if there was
      none, or to one that is more than an hour later even after the penalty. */
  lemma HeardForward(i: Info, a: Address, penalty: int, now: int)
    requires a.time - penalty < UINT32_RANGE
    ensures
      var e := Heard(i, a, penalty, now);
      && e == i.(services := i.services + a.services, time := e.time)
      && i.time <= e.time <= Max(i.time, a.time - penalty)
      && (e.time != i.time ==> i.time == 0 || e.time > i.time + 60 * 60)
  {
  }

  /** Whether Add_ goes on to look for another cell for a known entry; `dice` is the random draw. */
  predicate Multiplies(i: Info, a: Address, dice: nat) {
    && a.time != 0 && (i.time == 0 || a.time > i.time)
    && !i.inTried
    && i.refCount != NEW_BUCKETS_PER_ADDRESS
    && (i.refCount <= 0 || dice % Pow2(i.refCount) == 0)
  }

  function Announce(s: State, a: Address, source: NetAddr, penalty: int): State {
    var t := Create(s, a, source);
    var i := t.info[s.idCount];
    t.(info := t.info[s.idCount := i.(time := Max(0, i.time - penalty) % UINT32_RANGE)], nNew := s.nNew + 1)
  }

  /** Clock readings and random draw that one Add_ consumes. */
  datatype Luck = Luck(now: int, terribleNow: int, dice: nat)

  lemma AnnounceLinked(s: State, a: Address, source: NetAddr, penalty: int)
    requires Linked(s) && Numbered(s) && Find(s, a.key.addr).None?
    ensures Linked(Announce(s, a, source, penalty)) && Numbered(Announce(s, a, source, penalty))
  {
    var t := Announce(s, a, source, penalty);
    forall x | x in s.addr ensures t.addr[x] in t.info && t.info[t.addr[x]].key.addr == x { var id := s.addr[x]; }
  }

  lemma AnnouncePlaced(h: Bucketing, s: State, a: Address, source: NetAddr, penalty: int)
    requires Placed(h, s) && Numbered(s)
    ensures Placed(h, Announce(s, a, source, penalty))
  {
    var t := Announce(s, a, source, penalty);
    forall p | p in t.tried
      ensures t.tried[p] in t.info && t.info[t.tried[p]].inTried && p == TriedSlot(h, t.info[t.tried[p]].key)
    { var x := s.tried[p]; }
    forall q | q in t.untried
      ensures t.untried[q] in t.info && !t.info[t.untried[q]].inTried && q == SlotIn(h, t.info[t.untried[q]].key, q.0)
    { var x := s.untried[q]; }
    forall q | q in s.untried ensures s.untried[q] != s.idCount { var x := s.untried[q]; }
    assert SlotsOf(s.untried, s.idCount) == {};
  }

  lemma AnnounceReady(h: Bucketing, s: State, a: Address, source: NetAddr, penalty: int)
    requires Linked(s) && Placed(h, s) && Numbered(s) && Find(s, a.key.addr).None?
    ensures Linked(Announce(s, a, source, penalty)) && Placed(h, Announce(s, a, source, penalty))
    ensures Numbered(Announce(s, a, source, penalty))
  {
    hide Linked, Placed, Numbered, Announce;
    AnnounceLinked(s, a, source, penalty);
    AnnouncePlaced(h, s, a, source, penalty);
  }

  lemma AnnounceRest(s: State, a: Address, source: NetAddr, penalty: int)
    requires Numbered(s) && Timed(s) && Counted(s, 0) && Held(s, {})
    ensures var t := Announce(s, a, source, penalty);
      Timed(t) && Counted(t, 0) && Held(t, {s.idCount}) && Grows(s, t)
  {
    var t := Announce(s, a, source, penalty);
    assert forall x :: x in TriedIds(t) <==> x in TriedIds(s);
    assert TriedIds(t) == TriedIds(s);
    assert forall x :: x in NewIds(t) <==> x in NewIds(s) + {s.idCount};
    assert NewIds(t) == NewIds(s) + {s.idCount};
  }

  lemma AnnounceKeeps(h: Bucketing, s: State, a: Address, source: NetAddr, penalty: int)
    requires Inv(h, s) && Find(s, a.key.addr).None?
    ensures Core(h, Announce(s, a, source, penalty), 0) && Held(Announce(s, a, source, penalty), {s.idCount})
    ensures Grows(s, Announce(s, a, source, penalty))
  {
    hide Linked, Placed, Numbered, Announce, Timed, Counted, Held, Grows, Contested;
    AnnounceReady(h, s, a, source, penalty);
    AnnounceRest(s, a, source, penalty);
  }

  lemma SettleKeeps(h: Bucketing, s: State, id: int, source: NetAddr, now: int)
    requires Core(h, s, 0) && Contested(h, s) && Held(s, {id}) && id in s.info && !s.info[id].inTried
    requires s.info[id].refCount < NEW_BUCKETS_PER_ADDRESS
    ensures Inv(h, Place(h, s, id, source, now)) && Grows(s, Place(h, s, id, source, now))
  {
    PlaceKeeps(h, s, id, source, now);
    PlaceHeld(h, s, id, source, now);
    PlaceGrows(h, s, id, source, now);
    GrowsContested(h, s, Place(h, s, id, source, now));
  }

  /** Add_ on an address already known. */
  function AddKnown(h: Bucketing, s: State, id: int, a: Address, source: NetAddr, penalty: int, luck: Luck): State
    requires Linked(s) && Placed(h, s) && id in s.info
  {
    var i := Heard(s.info[id], a, penalty, luck.now);
    var t := s.(info := s.info[id := i]);
    RefreshReady(h, s, id, i, s.lastGood);
    if Multiplies(i, a, luck.dice) then Place(h, t, id, source, luck.terribleNow) else t
  }

  lemma HeardRefreshes(i: Info, a: Address, penalty: int, now: int)
    requires i.lastTry >= 0 && i.lastSuccess >= 0 && (i.inTried ==> i.lastSuccess > 0)
    ensures Refreshed(i, Heard(i, a, penalty, now))
  {
  }

  lemma AddKnownKeeps(h: Bucketing, s: State, id: int, a: Address, source: NetAddr, penalty: int, luck: Luck)
    requires Inv(h, s) && id in s.info
    ensures Inv(h, AddKnown(h, s, id, a, source, penalty, luck))
    ensures Grows(s, AddKnown(h, s, id, a, source, penalty, luck))
  {
    var i := Heard(s.info[id], a, penalty, luck.now);
    var t := s.(info := s.info[id := i]);
    HeardRefreshes(s.info[id], a, penalty, luck.now);
    RefreshKeeps(h, s, id, i, s.lastGood);
    assert Grows(s, t);
    MultiplyKeeps(h, s, t, id, i, a, source, luck);
  }

  lemma MultiplyKeeps(h: Bucketing, s: State, t: State, id: int, i: Info, a: Address, source: NetAddr, luck: Luck)
    requires Inv(h, t) && id in t.info && t.info[id] == i && Grows(s, t)
    ensures var u := if Multiplies(i, a, luck.dice) then Place(h, t, id, source, luck.terribleNow) else t;
      Inv(h, u) && Grows(s, u)
  {
    if Multiplies(i, a, luck.dice) {
      SettleKeeps(h, t, id, source, luck.terribleNow);
      GrowsTransitive(s, t, Place(h, t, id, source, luck.terribleNow));
    }
  }

  lemma AddUnknownKeeps(h: Bucketing, s: State, a: Address, source: NetAddr, penalty: int, now: int)
    requires Inv(h, s) && Find(s, a.key.addr).None?
    requires Linked(Announce(s, a, source, penalty)) && Placed(h, Announce(s, a, source, penalty))
    ensures Inv(h, Place(h, Announce(s, a, source, penalty), s.idCount, source, now))
    ensures Grows(s, Place(h, Announce(s, a, source, penalty), s.idCount, source, now))
  {
    var t := Announce(s, a, source, penalty);
    AnnounceKeeps(h, s, a, source, penalty);
    GrowsContested(h, s, t);
    SettleKeeps(h, t, s.idCount, source, now);
    GrowsTransitive(s, t, Place(h, t, s.idCount, source, now));
  }

  function Add(h: Bucketing, s: State, a: Address, routable: bool, source: NetAddr, penalty: int, luck: Luck): (r: (State, bool))
    requires Linked(s) && Placed(h, s) && Numbered(s)
  {
    if !routable then (s, false)
    else
      var pen := if a.key.addr == source then 0 else penalty;
      match Find(s, a.key.addr)
      case Some(id) => (AddKnown(h, s, id, a, source, pen, luck), false)
      case None =>
        AnnounceReady(h, s, a, source, pen);
        (Place(h, Announce(s, a, source, pen), s.idCount, source, luck.terribleNow), true)
  }

  lemma AddKeeps(h: Bucketing, s: State, a: Address, routable: bool, source: NetAddr, penalty: int, luck: Luck)
    requires Inv(h, s)
    ensures Inv(h, Add(h, s, a, routable, source, penalty, luck).0)
    ensures Grows(s, Add(h, s, a, routable, source, penalty, luck).0)
  {
    if routable {
      var pen := if a.key.addr == source then 0 else penalty;
      match Find(s, a.key.addr)
      case Some(id) => AddKnownKeeps(h, s, id, a, source, pen, luck);
      case None =>
        AnnounceReady(h, s, a, source, pen);
        AddUnknownKeeps(h, s, a, source, pen, luck.terribleNow);
    }
  }
}
