/** What the address manager's operations do, said on the fields of the result and with the numbers written out. */
module AddrManLaws {
  import opened Basics
  import opened Powers
  import opened AddrManState
  import opened AddrManSteps
  import opened AddrManOps
  import opened AddrManRuns

  // ---------------------------------------------------------------- vocabulary

  /** The cells that the keyed hashes select in tables of 1024 and 256 buckets with 64 cells each. */
  function NewCell(h: Bucketing, key: Service, source: NetAddr): Slot {
    var b := h.untried(key, source) % 1024;
    (b, h.place(key, true, b) % 64)
  }

  function TriedCell(h: Bucketing, key: Service): Slot {
    var b := h.tried(key) % 256;
    (b, h.place(key, false, b) % 64)
  }

  /** Not tried within a minute, and: announced for more than ten minutes from now, without a time, older than thirty days,
      never reached in three attempts, or not in a week and ten attempts. */
  predicate Worthless(i: Info, now: int) {
    && (i.lastTry == 0 || i.lastTry < now - 60)
    && (|| i.time > now + 600 || i.time == 0 || i.time < now - 2592000
        || (i.lastSuccess == 0 && i.attempts >= 3) || (i.lastSuccess < now - 604800 && i.attempts >= 10))
  }

  lemma WorthlessIff(i: Info, now: int)
    ensures IsTerrible(i, now) <==> Worthless(i, now)
  {
  }

  lemma Cells(h: Bucketing, key: Service, source: NetAddr)
    ensures NewCell(h, key, source) == NewSlot(h, key, source) && TriedCell(h, key) == TriedSlot(h, key)
  {
  }

  /** Nothing happens to entries other than `except`. */
  ghost predicate OthersKept(s: State, t: State, except: set<int>) {
    && (forall x | x in s.info && x !in except :: x in t.info && SameEntry(t.info[x], s.info[x]))
    && (forall x | x in t.info && x !in except :: x in s.info)
  }

  // ---------------------------------------------------------------- adding an unknown address

  /** The new cell is free, or what holds it is worthless or held elsewhere too. */
  ghost predicate CellToBeHad(s: State, q: Slot, now: int)
    requires q in s.untried ==> s.untried[q] in s.info
  {
    q in s.untried ==> Worthless(s.info[s.untried[q]], now) || s.info[s.untried[q]].refCount > 1
  }

  /** The entry that stands for a newly announced address. */
  ghost predicate Announced(t: State, id: int, a: Address, source: NetAddr, time: int, q: Slot) {
    && id in t.info && t.info[id].key == a.key && t.info[id].source == source && t.info[id].services == a.services
    && t.info[id].time == time && t.info[id].lastTry == 0 && t.info[id].lastSuccess == 0 && t.info[id].attempts == 0
    && !t.info[id].inTried && t.info[id].refCount == 1 && SlotsOf(t.untried, id) == {q}
  }

  ghost function Holder(s: State, q: Slot): set<int> {
    if q in s.untried then {s.untried[q]} else {}
  }

  /** From `u` to `t` an entry gets a new cell, over what is there. */
  ghost predicate Seized(u: State, t: State, id: int, q: Slot)
    requires id in u.info
  {
    && t.untried == u.untried[q := id] && t.tried == u.tried && SameFrame(u, t)
    && SlotsOf(t.untried, id) == SlotsOf(u.untried, id) + {q}
    && id in t.info && SameEntry(t.info[id], u.info[id].(refCount := u.info[id].refCount + 1))
    && OthersKept(u, t, {id} + Holder(u, q))
  }

  lemma SeizeFields(h: Bucketing, u: State, id: int, q: Slot)
    requires Linked(u) && NewPlaced(h, u.info, u.untried) && id in u.info && (q in u.untried ==> u.untried[q] != id)
    ensures id in ClearNew(u, q).info && Seized(u, Acquire(ClearNew(u, q), id, q), id, q)
  {
    ClearNewEntries(h, u, q);
    hide Linked, NewPlaced, ClearNew, Seized, SameEntry;
    SeizedBy(u, ClearNew(u, q), id, q);
  }

  lemma SeizedBy(u: State, v: State, id: int, q: Slot)
    requires id in u.info && (q in u.untried ==> u.untried[q] != id)
    requires v.untried == u.untried - {q} && v.tried == u.tried && SameFrame(u, v)
    requires forall x | x in u.info && (q in u.untried ==> x != u.untried[q]) :: x in v.info && SameEntry(v.info[x], u.info[x])
    requires forall x | x in v.info :: x in u.info
    ensures id in v.info && Seized(u, Acquire(v, id, q), id, q)
  {
    hide SlotsOf;
    CellsAfter(u.untried, id, q);
    assert SameEntry(v.info[id], u.info[id]);
  }

  lemma CellsAfter(untried: map<Slot, int>, id: int, q: Slot)
    ensures SlotsOf(untried[q := id], id) == SlotsOf(untried, id) + {q} && (untried - {q})[q := id] == untried[q := id]
  {
    var more, was := SlotsOf(untried[q := id], id), SlotsOf(untried, id);
    assert forall p :: p in more <==> p in was + {q};
  }

  /** From `u` to `t` an entry goes. */
  ghost predicate Discarded(u: State, t: State, id: int)
    requires id in u.info
  {
    && t.untried == u.untried && t.tried == u.tried && t.collisions == u.collisions
    && t.addr == u.addr - {u.info[id].key.addr} && id !in t.info && OthersKept(u, t, {id})
  }

  lemma DiscardFields(u: State, id: int)
    requires Linked(u) && id in u.info
    ensures Discarded(u, Delete(u, id), id)
  {
  }

  /** `u` is `s` with one more entry that is in no cell. */
  ghost predicate OneMore(s: State, u: State, a: Address, source: NetAddr, time: int) {
    var id := s.idCount;
    && u.untried == s.untried && u.tried == s.tried && u.collisions == s.collisions && u.addr == s.addr[a.key.addr := id]
    && id !in s.info && u.info.Keys == s.info.Keys + {id} && (forall x | x in s.info :: u.info[x] == s.info[x])
    && SlotsOf(s.untried, id) == {} && (forall p | p in s.untried :: s.untried[p] in s.info)
    && time >= 0 && u.info[id] == Info(a.key, source, a.services, time, 0, 0, 0, 0, 0, false, |s.random|)
  }

  lemma AnnounceFields(h: Bucketing, s: State, a: Address, source: NetAddr, pen: int)
    requires Placed(h, s) && Numbered(s)
    ensures OneMore(s, Announce(s, a, source, pen), a, source, Max(0, a.time - pen) % 0x1_0000_0000)
  {
    forall p | p in s.untried ensures s.untried[p] in s.info && s.untried[p] != s.idCount { var x := s.untried[p]; }
    assert SlotsOf(s.untried, s.idCount) == {};
  }

  /** The outcome for an address that was unknown. */
  ghost predicate Outcome(s: State, t: State, a: Address, source: NetAddr, time: int, q: Slot, had: bool) {
    && t.tried == s.tried && t.collisions == s.collisions && (a.key.addr in t.addr <==> had)
    && (had ==>
          var id := t.addr[a.key.addr];
          && Announced(t, id, a, source, time, q) && t.untried == s.untried[q := id]
          && OthersKept(s, t, {id} + Holder(s, q)))
    && (!had ==> t.addr == s.addr && t.untried == s.untried && OthersKept(s, t, {}))
  }

  /** An address with a cell to be had is entered there, and otherwise leaves no trace. */
  lemma AddUnknown(h: Bucketing, s: State, a: Address, source: NetAddr, penalty: int, luck: Luck)
    requires Inv(h, s) && a.key.addr !in s.addr
    ensures forall p | p in s.untried :: s.untried[p] in s.info
    ensures
      var pen, q := if a.key.addr == source then 0 else penalty, NewCell(h, a.key, source);
      var (t, isNew) := Add(h, s, a, true, source, penalty, luck);
      isNew && Outcome(s, t, a, source, Max(0, a.time - pen) % 0x1_0000_0000, q, CellToBeHad(s, q, luck.terribleNow))
  {
    hide Inv, Linked, Placed, Numbered, Announce, Place, NewCell, CellToBeHad, Outcome;
    var pen := if a.key.addr == source then 0 else penalty;
    InvReady(h, s);
    AddKeeps(h, s, a, true, source, penalty, luck);
    AnnounceReady(h, s, a, source, pen);
    AnnounceFields(h, s, a, source, pen);
    PlaceOne(h, s, Announce(s, a, source, pen), a, source, Max(0, a.time - pen) % 0x1_0000_0000, luck.terribleNow);
  }

  lemma PlaceOne(h: Bucketing, s: State, u: State, a: Address, source: NetAddr, time: int, now: int)
    requires a.key.addr !in s.addr && OneMore(s, u, a, source, time) && Linked(u) && Placed(h, u)
    requires Inv(h, Place(h, u, s.idCount, source, now))
    ensures var q := NewCell(h, a.key, source);
      Outcome(s, Place(h, u, s.idCount, source, now), a, source, time, q, CellToBeHad(s, q, now))
  {
    var id, q := s.idCount, NewCell(h, a.key, source);
    Cells(h, a.key, source);
    if q in s.untried { WorthlessIff(s.info[s.untried[q]], now); }
    hide IsTerrible, NewSlot, Inv, Linked, NewPlaced, TriedPlaced, ClearNew, Delete, Worthless, NewCell, Outcome, SlotsOf, Acquire;
    var t := Place(h, u, id, source, now);
    if CellToBeHad(s, q, now) {
      SeizeFields(h, u, id, q);
      EntryFound(h, t, id);
      SeizedOutcome(s, u, t, a, source, time, q);
    } else {
      DiscardFields(u, id);
      DiscardedOutcome(s, u, t, a, source, time, q);
    }
  }

  lemma SeizedOutcome(s: State, u: State, t: State, a: Address, source: NetAddr, time: int, q: Slot)
    requires a.key.addr !in s.addr && OneMore(s, u, a, source, time) && Seized(u, t, s.idCount, q)
    requires a.key.addr in t.addr && t.addr[a.key.addr] == s.idCount
    ensures Outcome(s, t, a, source, time, q, true)
  {
  }

  lemma DiscardedOutcome(s: State, u: State, t: State, a: Address, source: NetAddr, time: int, q: Slot)
    requires a.key.addr !in s.addr && OneMore(s, u, a, source, time) && Discarded(u, t, s.idCount)
    ensures Outcome(s, t, a, source, time, q, false)
  {
  }

  lemma EntryFound(h: Bucketing, t: State, id: int)
    requires Inv(h, t) && id in t.info
    ensures t.info[id].key.addr in t.addr && t.addr[t.info[id].key.addr] == id
  {
  }

  // ---------------------------------------------------------------- hearing of a known address again

  /** The time of a known entry after an announcement: it moves if it is more than an hour older, or more than a day if the
      announcement itself is a day old, and the penalty comes on top. */
  function TimeHeard(i: Info, a: Address, pen: int, now: int): int {
    var interval := if now - a.time < 86400 then 3600 else 86400;
    if a.time != 0 && (i.time == 0 || i.time + interval + pen < a.time) then Max(0, a.time - pen) % 0x1_0000_0000 else i.time
  }

  /** An untried entry in fewer than eight cells gets another with probability 2^-n if it is in n, if the announcement is
      news and the cell is free or holds something worthless. */
  ghost predicate GetsAnother(s: State, id: int, a: Address, time: int, q: Slot, luck: Luck)
    requires id in s.info && s.info[id].refCount >= 0 && (q in s.untried ==> s.untried[q] in s.info)
  {
    var i := s.info[id];
    && a.time != 0 && (time == 0 || time < a.time) && !i.inTried && i.refCount < 8 && luck.dice % Pow2(i.refCount) == 0
    && (q in s.untried ==> s.untried[q] != id && Worthless(s.info[s.untried[q]], luck.terribleNow))
  }

  /** What an entry becomes: `gains` is whether it gets cell `q` as well. */
  ghost predicate Reheard(s: State, t: State, id: int, services: set<nat>, time: int, q: Slot, gains: bool)
    requires id in s.info
  {
    var i := s.info[id];
    && id in t.info && time >= 0
    && SameEntry(t.info[id], i.(services := i.services + services, time := time, refCount := i.refCount + if gains then 1 else 0))
    && t.untried == (if gains then s.untried[q := id] else s.untried)
    && t.tried == s.tried && t.collisions == s.collisions
    && OthersKept(s, t, {id} + if gains then Holder(s, q) else {})
  }

  lemma AddKnownLaw(h: Bucketing, s: State, a: Address, source: NetAddr, penalty: int, luck: Luck)
    requires Inv(h, s) && a.key.addr in s.addr
    ensures s.addr[a.key.addr] in s.info && s.info[s.addr[a.key.addr]].refCount >= 0
    ensures forall p | p in s.untried :: s.untried[p] in s.info
    ensures
      var id, pen := s.addr[a.key.addr], if a.key.addr == source then 0 else penalty;
      var q, time := NewCell(h, s.info[id].key, source), TimeHeard(s.info[id], a, pen, luck.now);
      var (t, isNew) := Add(h, s, a, true, source, penalty, luck);
      !isNew && Reheard(s, t, id, a.services, time, q, GetsAnother(s, id, a, time, q, luck))
  {
    var id, pen := s.addr[a.key.addr], if a.key.addr == source then 0 else penalty;
    var q := NewCell(h, s.info[id].key, source);
    assert s.info[id].refCount == |SlotsOf(s.untried, id)|;
    forall p | p in s.untried ensures s.untried[p] in s.info { var x := s.untried[p]; }
    InvReady(h, s);
    hide Inv, Linked, Placed, Numbered, AddKnown, Reheard, GetsAnother, NewCell, TimeHeard;
    KnownOutcome(h, s, id, a, source, pen, luck);
  }

  lemma KnownOutcome(h: Bucketing, s: State, id: int, a: Address, source: NetAddr, pen: int, luck: Luck)
    requires Inv(h, s) && id in s.info && s.info[id].refCount >= 0 && forall p | p in s.untried :: s.untried[p] in s.info
    ensures
      var q, time := NewCell(h, s.info[id].key, source), TimeHeard(s.info[id], a, pen, luck.now);
      Reheard(s, AddKnown(h, s, id, a, source, pen, luck), id, a.services, time, q, GetsAnother(s, id, a, time, q, luck))
  {
    var i, q := s.info[id], NewCell(h, s.info[id].key, source);
    var e := Heard(i, a, pen, luck.now);
    var u := s.(info := s.info[id := e]);
    Cells(h, i.key, source);
    RefreshReady(h, s, id, e, s.lastGood);
    if q in s.untried { WorthlessIff(s.info[s.untried[q]], luck.terribleNow); }
    assert !i.inTried ==> i.refCount >= 1;
    assert Placed(h, u) && Linked(u) && NewPlaced(h, u.info, u.untried);
    hide IsTerrible, NewSlot, Inv, Linked, NewPlaced, TriedPlaced, Referenced, ClearNew, Delete, Worthless, NewCell, SlotsOf, Acquire,
      Pow2, Reheard, SameEntry;
    if GetsAnother(s, id, a, e.time, q, luck) {
      SeizeFields(h, u, id, q);
      SeizedKnown(s, u, AddKnown(h, s, id, a, source, pen, luck), id, a.services, e, q);
    } else {
      assert AddKnown(h, s, id, a, source, pen, luck) == u;
      KeptKnown(s, u, id, a.services, e, q);
    }
  }

  lemma SeizedKnown(s: State, u: State, t: State, id: int, services: set<nat>, e: Info, q: Slot)
    requires id in s.info && u == s.(info := s.info[id := e]) && Seized(u, t, id, q)
    requires e == s.info[id].(services := s.info[id].services + services, time := e.time)
    ensures Reheard(s, t, id, services, e.time, q, true)
  {
  }

  lemma KeptKnown(s: State, u: State, id: int, services: set<nat>, e: Info, q: Slot)
    requires id in s.info && u == s.(info := s.info[id := e])
    requires e == s.info[id].(services := s.info[id].services + services, time := e.time)
    ensures Reheard(s, u, id, services, e.time, q, false)
  {
  }

  // ---------------------------------------------------------------- moving to the tried table

  /** The new cells without those of an entry. */
  ghost function Without(untried: map<Slot, int>, id: int): map<Slot, int> {
    map p | p in untried && untried[p] != id :: untried[p]
  }

  /** From `s` to `t` the entry `x` leaves its tried cell `p` for the new cell `q`. */
  ghost predicate Evicted(s: State, t: State, p: Slot, x: int, q: Slot)
    requires x in s.info
  {
    && t.tried == s.tried - {p} && t.untried == s.untried[q := x] && SameFrame(s, t)
    && x in t.info && SameEntry(t.info[x], s.info[x].(inTried := false, refCount := 1))
    && OthersKept(s, t, {x} + Holder(s, q))
  }

  lemma EvictFields(h: Bucketing, s: State, p: Slot)
    requires Linked(s) && Placed(h, s) && p in s.tried
    ensures s.tried[p] in s.info
    ensures
      var x := s.tried[p];
      Evicted(s, Evict(h, s, p), p, x, NewSlot(h, s.info[x].key, s.info[x].source))
  {
    var x := s.tried[p];
    var q, u := NewSlot(h, s.info[x].key, s.info[x].source), Untry(s, p);
    NoSlots(h, s, x);
    assert s.info[x].refCount == 0;
    RewriteLinked(s, x, s.info[x].(inTried := false));
    FlipNew(h, s.info, s.untried, x, s.info[x].(inTried := false));
    hide Linked, Placed, NewPlaced, NewSlot, ClearNew, Seized, Evicted;
    SeizeFields(h, u, x, q);
    EvictedBy(s, Acquire(ClearNew(u, q), x, q), Evict(h, s, p), p, x, q);
  }

  lemma EvictedBy(s: State, w: State, t: State, p: Slot, x: int, q: Slot)
    requires p in s.tried && x == s.tried[p] && x in s.info && s.info[x].refCount == 0
    requires Seized(Untry(s, p), w, x, q) && t == w.(nNew := t.nNew)
    ensures Evicted(s, t, p, x, q)
  {
  }

  /** From `s` to `t` the entry `id` moves to its tried cell `p`; what was there goes to a new cell. */
  ghost predicate MovedToTried(h: Bucketing, s: State, t: State, id: int, e: Info, p: Slot)
    requires p in s.tried ==> s.tried[p] in s.info
  {
    && t.tried == s.tried[p := id] && t.collisions == s.collisions && t.idCount == s.idCount
    && id in t.info && SameEntry(t.info[id], e.(inTried := true, refCount := 0))
    && if p in s.tried then
         var x, rest := s.tried[p], Without(s.untried, id);
         var q := NewCell(h, s.info[x].key, s.info[x].source);
         && x in t.info && SameEntry(t.info[x], s.info[x].(inTried := false, refCount := 1))
         && t.untried == rest[q := x] && OthersKept(s, t, {id, x} + if q in rest then {rest[q]} else {})
       else t.untried == Without(s.untried, id) && OthersKept(s, t, {id})
  }

  lemma LeaveFields(h: Bucketing, s: State, id: int)
    requires Linked(s) && Placed(h, s) && id in s.info && !s.info[id].inTried
    ensures
      var v := LeaveNew(s, id);
      && Linked(v) && Placed(h, v) && v.untried == Without(s.untried, id) && v.tried == s.tried && SameFrame(s, v)
      && v.info == s.info[id := s.info[id].(refCount := 0)]
  {
    LeaveNewReady(h, s, id);
  }

  lemma ClearedHas(h: Bucketing, s: State, id: int)
    requires Linked(s) && Placed(h, s) && id in s.info && !s.info[id].inTried
    ensures id in Cleared(h, s, id).info
  {
    hide Linked, Placed, Cleared;
    ClearedEntry(h, s, id);
  }

  lemma MakeTriedFields(h: Bucketing, s: State, id: int)
    requires Linked(s) && Placed(h, s) && id in s.info && !s.info[id].inTried
    ensures forall p | p in s.tried :: s.tried[p] in s.info && s.tried[p] != id
    ensures MovedToTried(h, s, MakeTried(h, s, id), id, s.info[id], TriedCell(h, s.info[id].key))
  {
    forall p | p in s.tried ensures s.tried[p] in s.info && s.tried[p] != id { var x := s.tried[p]; }
    MakeTriedMoves(h, s, id);
  }

  lemma MakeTriedMoves(h: Bucketing, s: State, id: int)
    requires Linked(s) && Placed(h, s) && id in s.info && !s.info[id].inTried
    requires forall p | p in s.tried :: s.tried[p] in s.info && s.tried[p] != id
    ensures MovedToTried(h, s, MakeTried(h, s, id), id, s.info[id], TriedCell(h, s.info[id].key))
  {
    hide *;
    var p, v := TriedCell(h, s.info[id].key), LeaveNew(s, id);
    Cells(h, s.info[id].key, 0);
    LeaveFields(h, s, id);
    MakeTriedIs(h, s, id);
    if p in s.tried {
      var x := s.tried[p];
      EvictFields(h, v, p);
      Cells(h, s.info[x].key, s.info[x].source);
      MovedBy(h, s, v, Evict(h, v, p), MakeTried(h, s, id), id, p, x);
    } else {
      MovedFree(h, s, v, MakeTried(h, s, id), id, p);
    }
  }

  lemma MakeTriedIs(h: Bucketing, s: State, id: int)
    requires Linked(s) && Placed(h, s) && id in s.info && !s.info[id].inTried
    requires Linked(LeaveNew(s, id)) && Placed(h, LeaveNew(s, id))
    ensures
      var p, v := TriedSlot(h, s.info[id].key), LeaveNew(s, id);
      && v.tried == s.tried
      && if p in s.tried then id in Evict(h, v, p).info && MakeTried(h, s, id) == EnterTried(Evict(h, v, p), id, p)
         else id in v.info && MakeTried(h, s, id) == EnterTried(v, id, p)
  {
    ClearedHas(h, s, id);
    hide Linked, Placed, Evict, TriedSlot, EnterTried;
  }

  lemma MovedFree(h: Bucketing, s: State, v: State, t: State, id: int, p: Slot)
    requires id in s.info && p !in s.tried && v.untried == Without(s.untried, id) && v.tried == s.tried && SameFrame(s, v)
    requires v.info == s.info[id := s.info[id].(refCount := 0)] && t == EnterTried(v, id, p)
    ensures MovedToTried(h, s, t, id, s.info[id], p)
  {
  }

  lemma MovedBy(h: Bucketing, s: State, v: State, w: State, t: State, id: int, p: Slot, x: int)
    requires id in s.info && x in s.info && id != x && p in s.tried && s.tried[p] == x
    requires v.untried == Without(s.untried, id) && v.tried == s.tried && SameFrame(s, v)
    requires v.info == s.info[id := s.info[id].(refCount := 0)]
    requires Evicted(v, w, p, x, NewCell(h, s.info[x].key, s.info[x].source))
    requires id in w.info && t == EnterTried(w, id, p)
    ensures MovedToTried(h, s, t, id, s.info[id], p)
  {
    hide NewCell;
    assert (s.tried - {p})[p := id] == s.tried[p := id];
    var q := NewCell(h, s.info[x].key, s.info[x].source);
    assert SameEntry(w.info[id], v.info[id]);
  }

  // ---------------------------------------------------------------- a peer has answered

  ghost predicate Known(s: State, key: Service) {
    key.addr in s.addr && s.addr[key.addr] in s.info && s.info[s.addr[key.addr]].key == key
  }

  function Answered(i: Info, time: int): Info {
    i.(lastSuccess := time, lastTry := time, attempts := 0)
  }

  lemma AllInTable(h: Bucketing, s: State)
    requires Inv(h, s)
    ensures forall p | p in s.tried :: s.tried[p] in s.info
  {
  }

  /** Good_ resets the failures of exactly the entry with that address and port. An untried entry moves to the tried table,
      unless its cell is taken and it has to wait: then it becomes pending, if fewer than ten are. */
  lemma GoodLaw(h: Bucketing, s: State, key: Service, testBeforeEvict: bool, time: int)
    requires Inv(h, s)
    ensures forall p | p in s.tried :: s.tried[p] in s.info
    ensures
      var t := Good(h, s, key, testBeforeEvict, time);
      && t.lastGood == time && (!Known(s, key) ==> t == s.(lastGood := time))
      && (Known(s, key) ==>
            var id, p := s.addr[key.addr], TriedCell(h, key);
            var e := Answered(s.info[id], time);
            if !e.inTried && (testBeforeEvict ==> p !in s.tried) then MovedToTried(h, s, t, id, e, p)
            else
              t == s.(lastGood := time, info := s.info[id := e],
                      collisions := if !e.inTried && |s.collisions| < 10 then s.collisions + {id} else s.collisions))
  {
    hide Linked, Placed, Numbered, Contested, Held, MovedToTried, TriedCell, MakeTried;
    AllInTable(h, s);
    if Known(s, key) {
      var id := s.addr[key.addr];
      var u := Succeed(s, id, time);
      InvReady(h, s);
      RefreshReady(h, s, id, u.info[id], time);
      Cells(h, key, 0);
      if !u.info[id].inTried && (testBeforeEvict ==> TriedCell(h, key) !in s.tried) {
        MakeTriedFields(h, u, id);
        MakeTriedClock(h, u, id);
        MovedAfter(h, s, u, MakeTried(h, u, id), id, u.info[id], TriedCell(h, key));
      }
    }
  }

  lemma MakeTriedClock(h: Bucketing, s: State, id: int)
    requires Linked(s) && Placed(h, s) && id in s.info && !s.info[id].inTried
    ensures MakeTried(h, s, id).lastGood == s.lastGood
  {
    hide Linked, Placed, Cleared;
    ClearedEntry(h, s, id);
  }

  lemma MovedAfter(h: Bucketing, s: State, u: State, t: State, id: int, e: Info, p: Slot)
    requires (forall x | x in s.tried :: s.tried[x] in s.info && s.tried[x] != id) && id in s.info
    requires u == s.(info := s.info[id := e], lastGood := u.lastGood) && MovedToTried(h, u, t, id, e, p)
    ensures MovedToTried(h, s, t, id, e, p)
  {
    hide NewCell, Without;
    forall x | x in s.info && x != id ensures u.info[x] == s.info[x] { }
  }

  // ---------------------------------------------------------------- pending collisions

  /** The holder answered within four hours. */
  predicate HolderProven(holder: Info, clock: nat -> int) {
    clock(0) - holder.lastSuccess < 14400
  }

  /** The holder was tried within four hours, but not within the last minute, and did not answer; or it was not tried at
      all, although the challenger has been waiting for forty minutes. */
  predicate HolderFailed(holder: Info, challenger: Info, clock: nat -> int) {
    || (clock(1) - holder.lastTry < 14400 && clock(2) - holder.lastTry > 60)
    || (clock(1) - holder.lastTry >= 14400 && clock(3) - challenger.lastSuccess > 2400)
  }

  /** One pending collision: it is dropped, or the challenger takes the cell and the holder goes back to the new table, or
      it stays pending and nothing changes. */
  lemma ResolveLaw(h: Bucketing, s: State, id: int, valid: Service -> bool, clock: nat -> int)
    requires Inv(h, s) && id in s.collisions
    ensures forall p | p in s.tried :: s.tried[p] in s.info
    ensures
      var t, dropped := Resolve(h, s, id, valid, clock), s.(collisions := s.collisions - {id});
      && (id !in s.info || !valid(s.info[id].key) ==> t == dropped)
      && (id in s.info && valid(s.info[id].key) ==>
            var c, p := s.info[id], TriedCell(h, s.info[id].key);
            && p in s.tried
            && var holder := s.info[s.tried[p]];
               if HolderProven(holder, clock) then t == dropped
               else if !HolderFailed(holder, c, clock) then t == s
               else
                 && t.lastGood == clock(4) && t.collisions == s.collisions - {id}
                 && if c.inTried then t == dropped.(lastGood := clock(4), info := s.info[id := Answered(c, clock(4))])
                    else MovedToTried(h, dropped, t, id, Answered(c, clock(4)), p))
  {
    hide Linked, Placed, Numbered, Held, MovedToTried, TriedCell, Good;
    AllInTable(h, s);
    if id in s.info {
      var key := s.info[id].key;
      Cells(h, key, 0);
      StillContested(h, s, id);
      EntryFound(h, s, id);
      GoodLaw(h, s, key, false, clock(4));
      if !s.info[id].inTried { DropsToo(h, s, Good(h, s, key, false, clock(4)), id, Answered(s.info[id], clock(4)), TriedCell(h, key)); }
    }
  }

  lemma DropsToo(h: Bucketing, s: State, t: State, id: int, e: Info, p: Slot)
    requires (p in s.tried ==> s.tried[p] in s.info) && MovedToTried(h, s, t, id, e, p)
    ensures t.collisions == s.collisions
    ensures MovedToTried(h, s.(collisions := s.collisions - {id}), t.(collisions := t.collisions - {id}), id, e, p)
  {
    hide NewCell, Without;
  }

  /** So an untried challenger has the tried cell afterwards exactly if the holder is not proven and has failed. */
  lemma ChallengerWinsIff(h: Bucketing, s: State, id: int, valid: Service -> bool, clock: nat -> int)
    requires Inv(h, s) && id in s.collisions && id in s.info && !s.info[id].inTried && valid(s.info[id].key)
    ensures
      var t, p := Resolve(h, s, id, valid, clock), TriedCell(h, s.info[id].key);
      && p in s.tried && s.tried[p] in s.info && p in t.tried
      && var x := s.tried[p];
         (t.tried[p] == id <==> !HolderProven(s.info[x], clock) && HolderFailed(s.info[x], s.info[id], clock))
         && (t.tried[p] == id ==> x in t.info && !t.info[x].inTried && t.info[x].refCount == 1)
         && (t.tried[p] != id ==> t == s || t == s.(collisions := s.collisions - {id}))
  {
    ResolveLaw(h, s, id, valid, clock);
    var x := s.tried[TriedCell(h, s.info[id].key)];
  }

  // ---------------------------------------------------------------- attempts, connections and services

  /** An attempt is noted with the entry that has that address and port. It counts as a failure only if none has been
      counted since a peer last answered. */
  lemma AttemptLaw(s: State, key: Service, countFailure: bool, time: int)
    ensures
      var t := Attempt(s, key, countFailure, time);
      && (!Known(s, key) ==> t == s)
      && (Known(s, key) ==>
            var id := s.addr[key.addr];
            var i, counts := s.info[id], countFailure && s.info[id].lastCountAttempt < s.lastGood;
            && t == s.(info := s.info[id := t.info[id]])
            && t.info[id] == i.(lastTry := time, attempts := if counts then i.attempts + 1 else i.attempts,
                                lastCountAttempt := if counts then time else i.lastCountAttempt))
  {
  }

  /** Two failures in a row count once, and again after any peer has answered in between, at the time `answer`. */
  lemma FailuresCounted(s: State, key: Service, first: int, answer: int, second: int)
    requires Known(s, key) && s.info[s.addr[key.addr]].lastCountAttempt < s.lastGood <= first < answer
    ensures
      var id, t := s.addr[key.addr], Attempt(s, key, true, first);
      && t.info[id].attempts == s.info[id].attempts + 1
      && Attempt(t, key, true, second).info[id].attempts == s.info[id].attempts + 1
      && Attempt(t.(lastGood := answer), key, true, second).info[id].attempts == s.info[id].attempts + 2
  {
    AttemptLaw(s, key, true, first);
  }

  /** The time of a connected peer moves on, but only by more than twenty minutes. */
  lemma ConnectedLaw(s: State, key: Service, time: int)
    ensures
      var t := Connected(s, key, time);
      && (!Known(s, key) ==> t == s)
      && (Known(s, key) ==>
            var id := s.addr[key.addr];
            && t == s.(info := s.info[id := s.info[id].(time := t.info[id].time)])
            && t.info[id].time == if time > s.info[id].time + 1200 then time % 0x1_0000_0000 else s.info[id].time)
  {
    if Known(s, key) {
      var id := s.addr[key.addr];
      assert s.info[id := s.info[id]] == s.info;
    }
  }

  /** So for twenty minutes after it has moved, it stays. */
  lemma ConnectedAgain(s: State, key: Service, first: nat, second: int)
    requires first < 0x1_0000_0000 && second <= first + 1200
    requires Known(s, key) && first > s.info[s.addr[key.addr]].time + 1200
    ensures Connected(Connected(s, key, first), key, second) == Connected(s, key, first)
  {
    ConnectedLaw(s, key, first);
  }

  /** Services are replaced, not added to. */
  lemma SetServicesLaw(s: State, key: Service, services: set<nat>)
    ensures
      var t := SetServices(s, key, services);
      && (!Known(s, key) ==> t == s)
      && (Known(s, key) ==>
            var id := s.addr[key.addr];
            t.info[id].services == services && t == s.(info := s.info[id := s.info[id].(services := services)]))
  {
    if Known(s, key) { assert Exact(s, key) == Some(s.addr[key.addr]); }
  }

  /** The size of a sample is the largest number that is within the percentage and the maximum, where these are given. */
  lemma SampleLimitIff(size: nat, maxAddresses: nat, maxPct: nat, n: nat)
    ensures n <= SampleLimit(size, maxAddresses, maxPct) <==>
      (if maxPct != 0 then 100 * n <= maxPct * size else n <= size) && (maxAddresses != 0 ==> n <= maxAddresses)
  {
    var x := maxPct * size;
    assert n <= x / 100 <==> 100 * n <= x;
  }
}
