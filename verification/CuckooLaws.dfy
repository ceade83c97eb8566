/** What can be found in the cuckoo cache after an insertion or a lookup. */
module CuckooLaws {
  import opened Basics
  import opened Powers
  import opened Cuckoo

  predicate IsFound(h: Hashing, c: Cache, e: Element)
    requires Shaped(c)
  {
    Contains(h, c, e, false).0
  }

  /** One of the eight slots of an element holds nothing that has to be kept. */
  ghost predicate HasFreeSlot(h: Hashing, c: Cache, e: Element) {
    Shaped(c) && exists loc | loc in Locs(h, |c.table|, e) :: c.collected[loc]
  }

  lemma FoundAt(h: Hashing, c: Cache, e: Element)
    requires Shaped(c)
    ensures IsFound(h, c, e) <==> exists loc | loc in Locs(h, |c.table|, e) :: c.table[loc] == e
  {
    var locs := Locs(h, |c.table|, e);
    var k := FirstMatch(c.table, locs, e, 0);
    hide Locs;
    if k < 8 { assert locs[k] in locs && c.table[locs[k]] == e; }
  }

  lemma EpochCheckShape(c: Cache)
    requires Shaped(c)
    ensures Shaped(EpochCheck(c)) && EpochCheck(c).table == c.table && EpochCheck(c).depthLimit == c.depthLimit
  {
  }

  lemma PlaceSize(h: Hashing, c: Cache, e: Element)
    requires Shaped(c) && Homed(h, c.table) && Single(c.table)
    ensures |Place(h, c, e).0.table| == |c.table|
  {
    hide Homed, Single, Kick, Locs;
    var found := FirstMatch(c.table, Locs(h, |c.table|, e), e, 0);
    if found == 8 {
      if e != DEFAULT { FoundIff(h, c.table, e); }
      KickHomed(h, c, e, true, INVALID, c.depthLimit);
    }
  }

  /** An element that is there already, or for which a slot is free, is found after its insertion, and nothing is dropped.
      In the second case its slot is one that was free, and everything else stays where it was. */
  lemma InsertFree(h: Hashing, c: Cache, e: Element)
    requires Shaped(c)
    requires IsFound(h, c, e) || (HasFreeSlot(h, EpochCheck(c), e) && c.depthLimit >= 1)
    ensures
      var d := EpochCheck(c);
      var (r, dropped) := Insert(h, c, e);
      && dropped == Nothing && Shaped(r) && IsFound(h, r, e) && Shaped(d) && d.table == c.table
      && (IsFound(h, c, e) ==> r.table == c.table)
      && (!IsFound(h, c, e) ==>
            exists loc | loc in Locs(h, |c.table|, e) :: d.collected[loc] && r.table == c.table[loc := e] && !r.collected[loc])
  {
    EpochCheckShape(c);
    var d := EpochCheck(c);
    var (r, dropped) := Insert(h, c, e);
    hide EpochCheck, Locs;
    FoundAt(h, c, e);
    var locs := Locs(h, |c.table|, e);
    if IsFound(h, c, e) {
      assert r.table == c.table;
    } else {
      var free := FreeSlot(h, d, e);
      assert r == Settle(d, free.value, e, true) && r.table[free.value] == e;
    }
    FoundAt(h, r, e);
  }

  /** Only if all eight slots are taken, or there is no step to take, is anything dropped. */
  lemma DroppedOnlyIf(h: Hashing, c: Cache, e: Element)
    requires Inv(h, c) && Insert(h, c, e).1 != Nothing
    ensures !IsFound(h, c, e) && (!HasFreeSlot(h, EpochCheck(c), e) || c.depthLimit == 0)
  {
    hide Inv, Insert, IsFound, HasFreeSlot;
    ShapedInv(h, c);
    EpochCheckShape(c);
    if IsFound(h, c, e) || (HasFreeSlot(h, EpochCheck(c), e) && c.depthLimit >= 1) { InsertFree(h, c, e); }
  }

  /** With a single step, all slots taken and the element not there, it takes the place of what is in its second slot. */
  lemma OneStep(h: Hashing, c: Cache, e: Element)
    requires Inv(h, c) && c.depthLimit == 1 && !IsFound(h, c, e) && !HasFreeSlot(h, EpochCheck(c), e)
    ensures
      var loc := Locs(h, |c.table|, e)[1];
      var (r, dropped) := Insert(h, c, e);
      && Shaped(EpochCheck(c)) && r.table == c.table[loc := e] && dropped == Carried(c.table[loc], EpochCheck(c).epoch[loc])
      && Shaped(r) && IsFound(h, r, e)
  {
    EpochCheckShape(c);
    var d := EpochCheck(c);
    FirstVictim(h, d, e);
    hide EpochCheck, Locs, Homed, Single, Current, Victim;
    var (r, dropped) := Insert(h, c, e);
    var loc := Locs(h, |c.table|, e)[1];
    assert FreeSlot(h, d, e).None?;
    var s := Swap(d, loc, e, true);
    assert Kick(h, s, d.table[loc], d.epoch[loc], loc, 0) == (s, Carried(d.table[loc], d.epoch[loc]));
    FoundAt(h, r, e);
  }

  lemma {:induction false} LiveStands(c: Cache, n: nat, x: Element, recent: bool)
    requires Shaped(c) && n <= |c.table| && (x, recent) in LiveUpTo(c, n)
    ensures exists i | 0 <= i < n :: c.table[i] == x && !c.collected[i] && c.epoch[i] == recent
  {
    if (x, recent) in LiveUpTo(c, n - 1) {
      LiveStands(c, n - 1, x, recent);
    } else {
      assert (x, recent) in EntryAt(c, n - 1);
    }
  }

  /** In any case the element is found afterwards, or it is the one that was dropped. */
  lemma FoundOrDropped(h: Hashing, c: Cache, e: Element)
    requires Inv(h, c) && e != DEFAULT
    ensures
      var (r, dropped) := Insert(h, c, e);
      Shaped(r) && (IsFound(h, r, e) || dropped == Carried(e, true))
  {
    EpochCheckRoom(h, c);
    var d := EpochCheck(c);
    hide EpochCheck, Locs, Homed, Single, Current, Live, Kick;
    PlaceConserves(h, d, e);
    PlaceSize(h, d, e);
    var (r, dropped) := Insert(h, c, e);
    if IsFound(h, d, e) {
      FoundAt(h, d, e);
      FoundAt(h, r, e);
    } else {
      FoundAt(h, d, e);
      FoundIff(h, d.table, e);
      if dropped != Carried(e, true) {
        LiveHas(r, dropped, e, Live(d));
        LiveStands(r, |r.table|, e, true);
        FoundIff(h, r.table, e);
      }
    }
  }

  lemma LiveHas(r: Cache, dropped: Carried, e: Element, before: multiset<(Element, bool)>)
    requires Shaped(r) && Live(r) + AsBag(dropped) == before + multiset{(e, true)} && dropped != Carried(e, true)
    ensures (e, true) in LiveUpTo(r, |r.table|)
  {
    hide LiveUpTo;
    assert (e, true) in Live(r) + AsBag(dropped);
  }

  // ---------------------------------------------------------------- lookups

  /** A lookup that erases frees the slot of what it finds, and changes nothing else. */
  lemma LookupLaw(h: Hashing, c: Cache, e: Element, erase: bool)
    requires Shaped(c)
    ensures
      var (found, d) := Contains(h, c, e, erase);
      && (!erase || !found ==> d == c)
      && (erase && found ==>
            exists loc | loc in Locs(h, |c.table|, e) :: c.table[loc] == e && d == c.(collected := c.collected[loc := true]))
  {
    var locs := Locs(h, |c.table|, e);
    var k := FirstMatch(c.table, locs, e, 0);
    hide Locs;
    if k < 8 { assert locs[k] in locs; }
  }

  /** What has been looked up and erased can still be found, until its slot is needed. */
  lemma StillFound(h: Hashing, c: Cache, e: Element)
    requires Inv(h, c)
    ensures
      var (found, d) := Contains(h, c, e, true);
      Shaped(d) && IsFound(h, d, e) == found
  {
    hide Homed, Single, Current, Locs;
    ContainsKeeps(h, c, e, true);
  }

  // ---------------------------------------------------------------- epochs

  /** After a scan the next one waits for one insertion, a sixteenth of an epoch, and as many as the epoch has room for,
      whichever is most; after an epoch has ended, for a whole one. */
  lemma EpochWait(c: Cache, n: nat)
    requires Shaped(c)
    ensures c.counter > 0 ==> EpochCheck(c).counter == c.counter - 1
    ensures c.counter == 0 && Current(c) >= c.epochSize ==> EpochCheck(c).counter == c.epochSize
    ensures c.counter == 0 && Current(c) < c.epochSize ==>
      (EpochCheck(c).counter <= n <==> 1 <= n && c.epochSize < 16 * (n + 1) && c.epochSize <= n + Current(c))
  {
    hide Current;
  }

  /** The slots are equal shares of the range of a hash. */
  lemma SlotIff(h: Hashing, size: nat, e: Element, i: nat, k: nat)
    requires 0 < size && i < 8
    ensures Locs(h, size, e)[i] == k <==> k * 0x1_0000_0000 <= h(i, e) * size < (k + 1) * 0x1_0000_0000
  {
    FastModIff(h(i, e), size, k);
  }
}
