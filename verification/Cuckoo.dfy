/** The cuckoo cache on values: where elements sit, what an insertion can lose, and how epochs are kept short. */
module Cuckoo {
  import opened Basics
  import opened Powers

  type Element = nat

  const DEFAULT: Element := 0
  const INVALID := 0xffff_ffff

  /** The eight hash functions. */
  type Hashing = (nat, Element) -> Word32

  datatype Cache = Cache(
    table: seq<Element>, collected: seq<bool>, epoch: seq<bool>, counter: nat, epochSize: nat, depthLimit: nat)

  ghost predicate Shaped(c: Cache) {
    0 < |c.table| == |c.collected| == |c.epoch| <= INVALID && c.epochSize >= 1
  }

  function Locs(h: Hashing, size: nat, e: Element): (r: seq<nat>)
    requires size > 0
    ensures |r| == 8 && forall i | 0 <= i < 8 :: r[i] < size
  {
    [FastMod(h(0, e), size), FastMod(h(1, e), size), FastMod(h(2, e), size), FastMod(h(3, e), size),
     FastMod(h(4, e), size), FastMod(h(5, e), size), FastMod(h(6, e), size), FastMod(h(7, e), size)]
  }

  // ---------------------------------------------------------------- epochs

  /** Live entries of the current epoch among the first `n` slots. */
  function Fresh(c: Cache, n: nat): nat
    requires |c.collected| == |c.epoch| && n <= |c.epoch|
  {
    if n == 0 then 0 else Fresh(c, n - 1) + if c.epoch[n - 1] && !c.collected[n - 1] then 1 else 0
  }

  function Current(c: Cache): nat
    requires |c.collected| == |c.epoch|
  {
    Fresh(c, |c.epoch|)
  }

  /** Demote the current epoch and collect the one before. */
  function Aged(c: Cache): Cache
    requires |c.collected| == |c.epoch|
  {
    c.(collected := seq(|c.collected|, i requires 0 <= i < |c.collected| => c.collected[i] || !c.epoch[i]),
       epoch := seq(|c.epoch|, _ => false),
       counter := c.epochSize)
  }

  function EpochCheck(c: Cache): Cache
    requires |c.collected| == |c.epoch|
  {
    if c.counter != 0 then c.(counter := c.counter - 1)
    else if Current(c) >= c.epochSize then Aged(c)
    else c.(counter := Max(1, Max(c.epochSize / 16, c.epochSize - Current(c))))
  }

  // ---------------------------------------------------------------- insertion

  function FirstMatch(table: seq<Element>, locs: seq<nat>, e: Element, i: nat): (r: nat)
    requires i <= |locs| && forall k | 0 <= k < |locs| :: locs[k] < |table|
    ensures i <= r <= |locs| && (r < |locs| ==> table[locs[r]] == e)
    ensures forall k | i <= k < r :: table[locs[k]] != e
    decreases |locs| - i
  {
    if i == |locs| || table[locs[i]] == e then i else FirstMatch(table, locs, e, i + 1)
  }

  function FirstFree(collected: seq<bool>, locs: seq<nat>, i: nat): (r: nat)
    requires i <= |locs| && forall k | 0 <= k < |locs| :: locs[k] < |collected|
    ensures i <= r <= |locs| && (r < |locs| ==> collected[locs[r]])
    ensures forall k | i <= k < r :: !collected[locs[k]]
    decreases |locs| - i
  {
    if i == |locs| || collected[locs[i]] then i else FirstFree(collected, locs, i + 1)
  }

  /** std::find. */
  function FirstIndex(locs: seq<nat>, x: nat, i: nat): (r: nat)
    requires i <= |locs|
    ensures i <= r <= |locs|
    decreases |locs| - i
  {
    if i == |locs| || locs[i] == x then i else FirstIndex(locs, x, i + 1)
  }

  function Keep(c: Cache, loc: nat): Cache
    requires Shaped(c) && loc < |c.table|
  {
    c.(collected := c.collected[loc := false], epoch := c.epoch[loc := true])
  }

  function Settle(c: Cache, loc: nat, e: Element, recent: bool): Cache
    requires Shaped(c) && loc < |c.table|
  {
    c.(table := c.table[loc := e], collected := c.collected[loc := false], epoch := c.epoch[loc := recent])
  }

  function Swap(c: Cache, loc: nat, e: Element, recent: bool): Cache
    requires Shaped(c) && loc < |c.table|
  {
    c.(table := c.table[loc := e], epoch := c.epoch[loc := recent])
  }

  /** The first free slot of an element, if it has one. */
  function FreeSlot(h: Hashing, c: Cache, e: Element): (r: Option<nat>)
    requires Shaped(c)
    ensures r.Some? ==> r.value < |c.table| && r.value in Locs(h, |c.table|, e) && c.collected[r.value]
    ensures r.None? ==> forall loc | loc in Locs(h, |c.table|, e) :: !c.collected[loc]
  {
    var locs := Locs(h, |c.table|, e);
    var free := FirstFree(c.collected, locs, 0);
    if free < 8 then Some(locs[free]) else None
  }

  /** The slot whose element has to go: the one after the last that was touched. */
  function Victim(h: Hashing, c: Cache, e: Element, lastLoc: nat): (r: nat)
    requires Shaped(c)
    ensures r < |c.table| && r in Locs(h, |c.table|, e)
  {
    var locs := Locs(h, |c.table|, e);
    locs[(1 + FirstIndex(locs, lastLoc, 0)) % 8]
  }

  lemma {:induction false} FirstIndexIs(locs: seq<nat>, x: nat, i: nat)
    requires i <= |locs|
    ensures x !in locs[i..] ==> FirstIndex(locs, x, i) == |locs|
    ensures x in locs[i..] ==> i <= FirstIndex(locs, x, i) < |locs| && locs[FirstIndex(locs, x, i)] == x
    decreases |locs| - i
  {
    if i < |locs| {
      assert locs[i..] == [locs[i]] + locs[i + 1..];
      FirstIndexIs(locs, x, i + 1);
    }
  }

  /** The first element to go is the one in the second slot, which is the first only if the two slots coincide. */
  lemma FirstVictim(h: Hashing, c: Cache, e: Element)
    requires Shaped(c)
    ensures Victim(h, c, e, INVALID) == Locs(h, |c.table|, e)[1]
    ensures Victim(h, c, e, INVALID) == Locs(h, |c.table|, e)[0] <==> Locs(h, |c.table|, e)[0] == Locs(h, |c.table|, e)[1]
  {
    hide FirstIndex, Locs;
    FirstIndexIs(Locs(h, |c.table|, e), INVALID, 0);
  }

  /** A hashing whose second slot is in the upper half of the table and whose other slots are all the first. */
  function Lopsided(k: nat, e: Element): Word32 {
    if k == 1 then 0x8000_0000 else 0
  }

  lemma FirstSlotSpared(e: Element)
    ensures Locs(Lopsided, 2, e)[0] == 0 && Victim(Lopsided, Empty(2, 1, 1), e, INVALID) == 1
  {
    FirstVictim(Lopsided, Empty(2, 1, 1), e);
  }

  /** The element that was just put in is spared exactly when the next of the eight slots is another one. */
  lemma JustPlacedSparedIff(h: Hashing, c: Cache, e: Element, loc: nat)
    requires Shaped(c) && loc in Locs(h, |c.table|, e)
    ensures
      var locs := Locs(h, |c.table|, e);
      var k := FirstIndex(locs, loc, 0);
      k < 8 && locs[k] == loc && (Victim(h, c, e, loc) != loc <==> locs[(k + 1) % 8] != locs[k])
  {
    hide FirstIndex, Locs;
    FirstIndexIs(Locs(h, |c.table|, e), loc, 0);
  }

  /** With one slot for everything it is moved again at once. */
  lemma JustPlacedMoved(c: Cache, e: Element)
    requires Shaped(c)
    ensures Victim((k: nat, x: Element) => 0, c, e, 0) == 0
  {
    JustPlacedSparedIff((k: nat, x: Element) => 0, c, e, 0);
  }

  /** An element on the move, with its epoch. */
  datatype Carried = Nothing | Carried(element: Element, recent: bool)

  /** The loop: settle in a free slot, or take the place of another element and go on with that one. */
  function Kick(h: Hashing, c: Cache, e: Element, recent: bool, lastLoc: nat, depth: nat): (Cache, Carried)
    requires Shaped(c)
    decreases depth
  {
    if depth == 0 then (c, Carried(e, recent))
    else
      var free := FreeSlot(h, c, e);
      if free.Some? then (Settle(c, free.value, e, recent), Nothing)
      else
        var loc := Victim(h, c, e, lastLoc);
        Kick(h, Swap(c, loc, e, recent), c.table[loc], c.epoch[loc], loc, depth - 1)
  }

  /** After the epoch check: the new cache and the element that was dropped, if any. */
  function Place(h: Hashing, c: Cache, e: Element): (Cache, Carried)
    requires Shaped(c)
  {
    var locs := Locs(h, |c.table|, e);
    var found := FirstMatch(c.table, locs, e, 0);
    if found < 8 then (Keep(c, locs[found]), Nothing) else Kick(h, c, e, true, INVALID, c.depthLimit)
  }

  function Insert(h: Hashing, c: Cache, e: Element): (Cache, Carried)
    requires Shaped(c)
  {
    Place(h, EpochCheck(c), e)
  }

  function Contains(h: Hashing, c: Cache, e: Element, erase: bool): (bool, Cache)
    requires Shaped(c)
  {
    var locs := Locs(h, |c.table|, e);
    var found := FirstMatch(c.table, locs, e, 0);
    if found == 8 then (false, c)
    else (true, if erase then c.(collected := c.collected[locs[found] := true]) else c)
  }

  // ---------------------------------------------------------------- where elements sit

  /** Every element stands in one of its eight slots. */
  ghost predicate Homed(h: Hashing, table: seq<Element>) {
    forall i | 0 <= i < |table| :: table[i] == DEFAULT || i in Locs(h, |table|, table[i])
  }

  /** No element stands in two slots. */
  ghost predicate Single(table: seq<Element>) {
    forall i, j | 0 <= i < j < |table| && table[i] == table[j] :: table[i] == DEFAULT
  }

  lemma FoundIff(h: Hashing, table: seq<Element>, e: Element)
    requires |table| > 0 && Homed(h, table) && e != DEFAULT
    ensures FirstMatch(table, Locs(h, |table|, e), e, 0) < 8 <==> e in table
  {
    if e in table {
      var i :| 0 <= i < |table| && table[i] == e;
      assert i in Locs(h, |table|, e);
      var k :| 0 <= k < 8 && Locs(h, |table|, e)[k] == i;
    }
  }

  /** Replacing an entry by an element that is not in the table. */
  lemma Replaced(h: Hashing, table: seq<Element>, loc: nat, e: Element)
    requires loc < |table| && loc in Locs(h, |table|, e) && Homed(h, table) && Single(table)
    requires e == DEFAULT || e !in table
    ensures Homed(h, table[loc := e]) && Single(table[loc := e])
    ensures table[loc] == DEFAULT || table[loc] == e || table[loc] !in table[loc := e]
  {
  }

  lemma {:induction false} KickHomed(h: Hashing, c: Cache, e: Element, recent: bool, lastLoc: nat, depth: nat)
    requires Shaped(c) && Homed(h, c.table) && Single(c.table) && (e == DEFAULT || e !in c.table)
    ensures
      var r := Kick(h, c, e, recent, lastLoc, depth).0;
      Shaped(r) && |r.table| == |c.table| && Homed(h, r.table) && Single(r.table)
    decreases depth
  {
    hide Homed, Single, FreeSlot, Victim, Locs;
    if depth > 0 {
      var free := FreeSlot(h, c, e);
      if free.Some? {
        Replaced(h, c.table, free.value, e);
      } else {
        var loc := Victim(h, c, e, lastLoc);
        Replaced(h, c.table, loc, e);
        KickHomed(h, Swap(c, loc, e, recent), c.table[loc], c.epoch[loc], loc, depth - 1);
      }
    }
  }

  // ---------------------------------------------------------------- what is kept

  /** The live entry of a slot. */
  ghost function EntryAt(c: Cache, i: nat): multiset<(Element, bool)>
    requires Shaped(c) && i < |c.table|
  {
    if c.collected[i] then multiset{} else multiset{(c.table[i], c.epoch[i])}
  }

  /** Live elements with their epochs, among the first `n` slots. */
  ghost function LiveUpTo(c: Cache, n: nat): multiset<(Element, bool)>
    requires Shaped(c) && n <= |c.table|
  {
    if n == 0 then multiset{} else LiveUpTo(c, n - 1) + EntryAt(c, n - 1)
  }

  ghost function Live(c: Cache): multiset<(Element, bool)>
    requires Shaped(c)
  {
    LiveUpTo(c, |c.table|)
  }

  /** The caches agree except in one slot. */
  ghost predicate DifferAt(c: Cache, d: Cache, loc: nat) {
    && Shaped(c) && Shaped(d) && |c.table| == |d.table| && loc < |c.table|
    && forall i | 0 <= i < |c.table| && i != loc ::
        c.table[i] == d.table[i] && c.collected[i] == d.collected[i] && c.epoch[i] == d.epoch[i]
  }

  lemma {:induction false} LiveChange(c: Cache, d: Cache, loc: nat, n: nat)
    requires DifferAt(c, d, loc) && n <= |c.table|
    ensures n <= loc ==> LiveUpTo(c, n) == LiveUpTo(d, n)
    ensures n > loc ==> LiveUpTo(c, n) + EntryAt(d, loc) == LiveUpTo(d, n) + EntryAt(c, loc)
  {
    hide EntryAt;
    if n > 0 {
      LiveChange(c, d, loc, n - 1);
      if n - 1 < loc {
        SameEntry(c, d, loc, n - 1);
      } else if n - 1 > loc {
        SameEntry(c, d, loc, n - 1);
        BothGrow(LiveUpTo(c, n - 1), LiveUpTo(d, n - 1), EntryAt(c, loc), EntryAt(d, loc), EntryAt(c, n - 1));
      }
    }
  }

  lemma SameEntry(c: Cache, d: Cache, loc: nat, i: nat)
    requires DifferAt(c, d, loc) && i < |c.table| && i != loc
    ensures EntryAt(c, i) == EntryAt(d, i)
  {
  }

  lemma BothGrow<T>(a: multiset<T>, b: multiset<T>, x: multiset<T>, y: multiset<T>, more: multiset<T>)
    requires a + y == b + x
    ensures (a + more) + y == (b + more) + x
  {
    assert (a + more) + y == (a + y) + more;
    assert (b + more) + x == (b + x) + more;
  }

  lemma {:induction false} FreshChange(c: Cache, d: Cache, loc: nat, n: nat)
    requires DifferAt(c, d, loc) && n <= |c.table|
    ensures n <= loc ==> Fresh(c, n) == Fresh(d, n)
    ensures n > loc ==> Fresh(c, n) + FreshAt(d, loc) == Fresh(d, n) + FreshAt(c, loc)
  {
    if n > 0 { FreshChange(c, d, loc, n - 1); }
  }

  function FreshAt(c: Cache, i: nat): nat
    requires i < |c.epoch| && i < |c.collected|
  {
    if c.epoch[i] && !c.collected[i] then 1 else 0
  }

  ghost function AsBag(x: Carried): multiset<(Element, bool)> {
    if x.Nothing? then multiset{} else multiset{(x.element, x.recent)}
  }

  function AsCount(x: Carried): nat {
    if x.Carried? && x.recent then 1 else 0
  }

  /** One slot changes hands: the entry that was there leaves and another one comes. */
  lemma Exchange(c: Cache, d: Cache, loc: nat)
    requires DifferAt(c, d, loc)
    ensures Live(c) + EntryAt(d, loc) == Live(d) + EntryAt(c, loc)
    ensures Current(c) + FreshAt(d, loc) == Current(d) + FreshAt(c, loc)
  {
    LiveChange(c, d, loc, |c.table|);
    FreshChange(c, d, loc, |c.table|);
  }

  lemma SettleAdds(c: Cache, loc: nat, e: Element, recent: bool)
    requires Shaped(c) && loc < |c.table| && c.collected[loc]
    ensures Live(Settle(c, loc, e, recent)) == Live(c) + AsBag(Carried(e, recent))
    ensures Current(Settle(c, loc, e, recent)) == Current(c) + AsCount(Carried(e, recent))
  {
    hide Live, Current;
    Exchange(c, Settle(c, loc, e, recent), loc);
  }

  lemma SwapExchanges(c: Cache, loc: nat, e: Element, recent: bool)
    requires Shaped(c) && loc < |c.table| && !c.collected[loc]
    ensures Live(Swap(c, loc, e, recent)) + AsBag(Carried(c.table[loc], c.epoch[loc])) == Live(c) + AsBag(Carried(e, recent))
    ensures Current(Swap(c, loc, e, recent)) + AsCount(Carried(c.table[loc], c.epoch[loc])) == Current(c) + AsCount(Carried(e, recent))
  {
    hide Live, Current;
    Exchange(c, Swap(c, loc, e, recent), loc);
  }

  /** Nothing but the element dropped at the end of the loop is lost, and nothing changes its epoch. */
  lemma {:induction false} KickConserves(h: Hashing, c: Cache, e: Element, recent: bool, lastLoc: nat, depth: nat)
    requires Shaped(c)
    ensures
      var (r, dropped) := Kick(h, c, e, recent, lastLoc, depth);
      && Shaped(r) && r.counter == c.counter && r.epochSize == c.epochSize && r.depthLimit == c.depthLimit
      && Live(r) + AsBag(dropped) == Live(c) + AsBag(Carried(e, recent))
      && Current(r) + AsCount(dropped) == Current(c) + AsCount(Carried(e, recent))
    decreases depth
  {
    hide Live, Current, FreeSlot, Victim, Locs, AsBag, AsCount;
    if depth > 0 {
      var free := FreeSlot(h, c, e);
      if free.Some? {
        SettleAdds(c, free.value, e, recent);
        NothingCarried();
      } else {
        var loc := Victim(h, c, e, lastLoc);
        SwapExchanges(c, loc, e, recent);
        KickConserves(h, Swap(c, loc, e, recent), c.table[loc], c.epoch[loc], loc, depth - 1);
      }
    }
  }

  lemma NothingCarried()
    ensures AsBag(Nothing) == multiset{} && AsCount(Nothing) == 0
  {
  }

  // ---------------------------------------------------------------- one insertion

  /** What holds of every cache. */
  ghost predicate Inv(h: Hashing, c: Cache) {
    && Shaped(c) && Homed(h, c.table) && Single(c.table)
    && Current(c) + c.counter <= c.epochSize + Max(1, c.epochSize / 16)
  }

  lemma {:induction false} NoneFresh(c: Cache, n: nat)
    requires |c.collected| == |c.epoch| && n <= |c.epoch| && forall i | 0 <= i < n :: !c.epoch[i]
    ensures Fresh(c, n) == 0
  {
    if n > 0 { NoneFresh(c, n - 1); }
  }

  /** The epoch check leaves room for one more entry in the current epoch. */
  lemma EpochCheckRoom(h: Hashing, c: Cache)
    requires Inv(h, c)
    ensures
      var d := EpochCheck(c);
      && Shaped(d) && d.table == c.table && d.epochSize == c.epochSize && d.depthLimit == c.depthLimit
      && Current(d) + 1 + d.counter <= d.epochSize + Max(1, d.epochSize / 16)
  {
    hide Homed, Single;
    var d := EpochCheck(c);
    if c.counter != 0 {
      SameFresh(c, d, |c.epoch|);
    } else if Current(c) >= c.epochSize {
      NoneFresh(d, |d.epoch|);
    } else {
      SameFresh(c, d, |c.epoch|);
    }
  }

  lemma {:induction false} SameFresh(c: Cache, d: Cache, n: nat)
    requires |c.collected| == |c.epoch| && n <= |c.epoch| && c.epoch == d.epoch && c.collected == d.collected
    ensures Fresh(c, n) == Fresh(d, n)
  {
    if n > 0 { SameFresh(c, d, n - 1); }
  }

  lemma KeepAdds(c: Cache, loc: nat)
    requires Shaped(c) && loc < |c.table|
    ensures Shaped(Keep(c, loc))
    ensures Live(Keep(c, loc)) + EntryAt(c, loc) == Live(c) + multiset{(c.table[loc], true)}
    ensures Current(Keep(c, loc)) <= Current(c) + 1
  {
    hide Live, Current;
    Exchange(c, Keep(c, loc), loc);
  }

  /** An insertion keeps every live element, with its epoch, and adds the new one, but for at most one that is dropped.
      An element that is there already is only made live and recent. */
  lemma PlaceConserves(h: Hashing, c: Cache, e: Element)
    requires Shaped(c) && Homed(h, c.table) && Single(c.table)
    ensures
      var (r, dropped) := Place(h, c, e);
      && Shaped(r) && Homed(h, r.table) && Single(r.table)
      && Current(r) <= Current(c) + 1 && r.counter == c.counter && r.epochSize == c.epochSize && r.depthLimit == c.depthLimit
      && (if e in c.table && FirstMatch(c.table, Locs(h, |c.table|, e), e, 0) < 8 then
            var loc := Locs(h, |c.table|, e)[FirstMatch(c.table, Locs(h, |c.table|, e), e, 0)];
            r.table == c.table && Live(r) + EntryAt(c, loc) == Live(c) + multiset{(e, true)}
          else Live(r) + AsBag(dropped) == Live(c) + multiset{(e, true)})
  {
    hide Live, Current, Homed, Single, Locs, Kick;
    var locs := Locs(h, |c.table|, e);
    var found := FirstMatch(c.table, locs, e, 0);
    if found < 8 {
      assert c.table[locs[found]] == e;
      KeepAdds(c, locs[found]);
    } else {
      if e != DEFAULT { FoundIff(h, c.table, e); }
      KickHomed(h, c, e, true, INVALID, c.depthLimit);
      KickConserves(h, c, e, true, INVALID, c.depthLimit);
    }
  }

  lemma InsertKeeps(h: Hashing, c: Cache, e: Element)
    requires Inv(h, c)
    ensures Inv(h, Insert(h, c, e).0)
  {
    hide Current, Homed, Single, Place;
    EpochCheckRoom(h, c);
    PlaceConserves(h, EpochCheck(c), e);
  }

  // ---------------------------------------------------------------- aging

  /** Aging keeps exactly the entries of the current epoch, demoted. */
  lemma {:induction false} AgedKeeps(c: Cache, x: Element, n: nat)
    requires Shaped(c) && n <= |c.table|
    ensures Shaped(Aged(c))
    ensures LiveUpTo(Aged(c), n)[(x, false)] == LiveUpTo(c, n)[(x, true)]
    ensures LiveUpTo(Aged(c), n)[(x, true)] == 0
  {
    hide EntryAt, Aged;
    AgedShape(c);
    if n > 0 {
      AgedKeeps(c, x, n - 1);
      AgedEntry(c, x, n - 1);
    }
  }

  lemma AgedShape(c: Cache)
    requires Shaped(c)
    ensures Shaped(Aged(c)) && Aged(c).table == c.table
  {
  }

  lemma AgedEntry(c: Cache, x: Element, i: nat)
    requires Shaped(c) && Shaped(Aged(c)) && Aged(c).table == c.table && i < |c.table|
    ensures EntryAt(Aged(c), i)[(x, false)] == EntryAt(c, i)[(x, true)]
    ensures EntryAt(Aged(c), i)[(x, true)] == 0
  {
    assert Aged(c).collected[i] == (c.collected[i] || !c.epoch[i]) && !Aged(c).epoch[i];
  }

  lemma {:induction false} SameLive(c: Cache, d: Cache, n: nat)
    requires Shaped(c) && Shaped(d) && n <= |c.table|
    requires c.table == d.table && c.collected == d.collected && c.epoch == d.epoch
    ensures LiveUpTo(c, n) == LiveUpTo(d, n)
  {
    if n > 0 { SameLive(c, d, n - 1); }
  }

  /** The epoch check touches live entries only when the current epoch is full and no insertions are left to wait for. */
  lemma EpochCheckLive(c: Cache)
    requires Shaped(c)
    ensures c.counter > 0 || Current(c) < c.epochSize ==> Live(EpochCheck(c)) == Live(c)
    ensures c.counter == 0 && Current(c) >= c.epochSize ==> EpochCheck(c) == Aged(c)
  {
    hide Current;
    if c.counter > 0 || Current(c) < c.epochSize { SameLive(c, EpochCheck(c), |c.table|); }
  }

  // ---------------------------------------------------------------- runs

  datatype Op = Add(e: Element) | Look(e: Element, erase: bool)

  function Next(h: Hashing, c: Cache, op: Op): Cache
    requires Shaped(c)
  {
    match op
    case Add(e) => Insert(h, c, e).0
    case Look(e, erase) => Contains(h, c, e, erase).1
  }

  /** Looking an element up, with or without releasing it. */
  lemma ContainsKeeps(h: Hashing, c: Cache, e: Element, erase: bool)
    requires Inv(h, c)
    ensures Inv(h, Contains(h, c, e, erase).1)
    ensures Contains(h, c, e, erase).1.table == c.table && Contains(h, c, e, erase).1.counter == c.counter
    ensures e != DEFAULT ==> (Contains(h, c, e, erase).0 <==> e in c.table)
  {
    hide Current, Homed, Single, Locs;
    if e != DEFAULT { FoundIff(h, c.table, e); }
    var (found, d) := Contains(h, c, e, erase);
    if d != c {
      var locs := Locs(h, |c.table|, e);
      Exchange(c, d, locs[FirstMatch(c.table, locs, e, 0)]);
    }
  }

  lemma NextKeeps(h: Hashing, c: Cache, op: Op)
    requires Inv(h, c)
    ensures Inv(h, Next(h, c, op))
  {
    hide Inv, Insert, Contains;
    ShapedInv(h, c);
    match op
    case Add(e) => InsertKeeps(h, c, e);
    case Look(e, erase) => ContainsKeeps(h, c, e, erase);
  }

  lemma ShapedInv(h: Hashing, c: Cache)
    requires Inv(h, c)
    ensures Shaped(c)
  {
  }

  ghost predicate IsRun(h: Hashing, ops: seq<Op>, states: seq<Cache>) {
    && |states| == |ops| + 1
    && forall i | 0 <= i < |ops| :: Shaped(states[i]) && states[i + 1] == Next(h, states[i], ops[i])
  }

  /** A table of `size` default entries, all free. */
  function Empty(size: nat, epochSize: nat, depthLimit: nat): Cache {
    Cache(seq(size, _ => DEFAULT), seq(size, _ => true), seq(size, _ => false), epochSize, epochSize, depthLimit)
  }

  lemma EmptyInv(h: Hashing, size: nat, epochSize: nat, depthLimit: nat)
    requires 0 < size <= INVALID && epochSize >= 1
    ensures Inv(h, Empty(size, epochSize, depthLimit))
  {
    NoneFresh(Empty(size, epochSize, depthLimit), size);
  }

  /** In every reachable state elements are at home and single, and the current epoch is within its budget. */
  lemma {:induction false} RunInvariant(h: Hashing, ops: seq<Op>, states: seq<Cache>, n: nat)
    requires IsRun(h, ops, states) && Inv(h, states[0]) && n <= |ops|
    ensures Inv(h, states[n])
  {
    hide Inv, Next;
    if n > 0 {
      RunInvariant(h, ops, states, n - 1);
      NextKeeps(h, states[n - 1], ops[n - 1]);
    }
  }

  function Insertions(ops: seq<Op>): nat {
    if ops == [] then 0 else Insertions(ops[..|ops| - 1]) + if ops[|ops| - 1].Add? then 1 else 0
  }

  /** Until the counter has run down, insertions only count: no epoch ends. Since an epoch starts with the counter at
      the epoch size, at least that many insertions pass between two agings. */
  lemma {:induction false} NoAgingBefore(h: Hashing, ops: seq<Op>, states: seq<Cache>, n: nat)
    requires IsRun(h, ops, states) && Inv(h, states[0]) && n <= |ops| && Insertions(ops[..n]) <= states[0].counter
    ensures states[n].counter == states[0].counter - Insertions(ops[..n])
  {
    hide Inv, Next;
    if n > 0 {
      assert ops[..n][..n - 1] == ops[..n - 1];
      NoAgingBefore(h, ops, states, n - 1);
      RunInvariant(h, ops, states, n - 1);
      CounterStep(h, states[n - 1], ops[n - 1]);
    }
  }

  lemma CounterStep(h: Hashing, c: Cache, op: Op)
    requires Inv(h, c) && (op.Add? ==> c.counter > 0)
    ensures Next(h, c, op).counter == if op.Add? then c.counter - 1 else c.counter
  {
    hide Current, Homed, Single, Place, Contains;
    match op
    case Add(e) =>
      EpochCheckRoom(h, c);
      PlaceConserves(h, EpochCheck(c), e);
    case Look(e, erase) => ContainsKeeps(h, c, e, erase);
  }
}
