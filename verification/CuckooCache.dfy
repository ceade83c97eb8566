/** The cuckoo cache object, with its collection flags packed into bytes. */
module CuckooCache {
  import opened Basics
  import opened Bits8
  import opened Cuckoo

  /** The first `size` flags in a list of bytes. */
  function FlagList(bytes: seq<Byte>, size: nat): seq<bool>
    requires size <= 8 * |bytes|
  {
    seq(size, i requires 0 <= i < size => FlagAt(bytes, i))
  }

  class BitPackedFlags {
    var mem: array<Byte>

    ghost predicate Valid(size: nat)
      reads this, mem
    {
      mem.Length == (size + 7) / 8
    }

    ghost function Flags(size: nat): seq<bool>
      requires Valid(size)
      reads this, mem
    {
      FlagList(mem[..], size)
    }

    constructor (size: nat)
      ensures Valid(size) && fresh(mem) && Flags(size) == seq(size, _ => true)
    {
      mem := new Byte[(size + 7) / 8](_ => 0xFF);
      new;
      forall i: nat | i < size ensures FlagAt(mem[..], i) { EveryBit(i % 8); }
    }

    method Setup(b: nat)
      modifies this
      ensures Valid(b) && fresh(mem) && Flags(b) == seq(b, _ => true)
    {
      var d := new BitPackedFlags(b);
      mem := d.mem;
    }

    method Set(s: nat, ghost size: nat)
      requires Valid(size) && s < size
      modifies mem
      ensures Valid(size) && Flags(size) == old(Flags(size))[s := true]
    {
      ghost var before := mem[..];
      mem[s / 8] := mem[s / 8] | Mask(s % 8);
      FlagSet(before, s, mem[..]);
    }

    method Unset(s: nat, ghost size: nat)
      requires Valid(size) && s < size
      modifies mem
      ensures Valid(size) && Flags(size) == old(Flags(size))[s := false]
    {
      ghost var before := mem[..];
      mem[s / 8] := mem[s / 8] & !Mask(s % 8);
      FlagUnset(before, s, mem[..]);
    }

    method IsSet(s: nat, ghost size: nat) returns (r: bool)
      requires Valid(size) && s < size
      ensures r == Flags(size)[s]
    {
      r := Mask(s % 8) & mem[s / 8] != 0;
    }
  }

  class CuckooCache {
    const hash: Hashing
    var table: array<Element>
    var size: nat
    const collectionFlags: BitPackedFlags
    var epochFlags: array<bool>
    var epochHeuristicCounter: nat
    var epochSize: nat
    var depthLimit: nat

    /** No cache until Setup is called. */
    constructor (hash: Hashing)
      ensures this.hash == hash && size == 0 && fresh(collectionFlags)
    {
      this.hash := hash;
      table := new Element[0];
      size := 0;
      collectionFlags := new BitPackedFlags(0);
      epochFlags := new bool[0];
      epochHeuristicCounter, epochSize, depthLimit := 0, 0, 0;
    }

    /** The objects the cache owns. */
    ghost function Repr(): set<object>
      reads this, collectionFlags
    {
      {this, table, epochFlags, collectionFlags, collectionFlags.mem}
    }

    ghost predicate Valid()
      reads this, collectionFlags, table, epochFlags, collectionFlags.mem
    {
      && table.Length == epochFlags.Length == size && collectionFlags.Valid(size)
      && (epochFlags as object) != table && (collectionFlags.mem as object) != table && (collectionFlags.mem as object) != epochFlags
      && 0 < size <= INVALID && epochSize >= 1
    }

    ghost function View(): (c: Cache)
      requires Valid()
      reads this, collectionFlags, table, epochFlags, collectionFlags.mem
      ensures Shaped(c)
    {
      Cache(table[..], collectionFlags.Flags(size), epochFlags[..], epochHeuristicCounter, epochSize, depthLimit)
    }

    /** `depth` is the integer logarithm of the size, which the source takes in floating point. */
    method Setup(newSize: nat, depth: nat) returns (r: nat)
      requires newSize <= INVALID
      modifies this, collectionFlags
      ensures Valid() && r == size == Max(2, newSize)
      ensures View() == Empty(size, epochSize, depth) && epochSize == Max(1, 45 * size % 0x1_0000_0000 / 100)
    {
      depthLimit := depth;
      size := Max(2, newSize);
      table := new Element[size](_ => DEFAULT);
      collectionFlags.Setup(size);
      epochFlags := new bool[size](_ => false);
      epochSize := Max(1, 45 * size % 0x1_0000_0000 / 100);
      epochHeuristicCounter := epochSize;
      return size;
    }

    method AllowErase(n: nat)
      requires Valid() && n < size
      modifies collectionFlags.mem
      ensures Valid() && View() == old(View()).(collected := old(View()).collected[n := true])
    {
      collectionFlags.Set(n, size);
    }

    method PleaseKeep(n: nat)
      requires Valid() && n < size
      modifies collectionFlags.mem
      ensures Valid() && View() == old(View()).(collected := old(View()).collected[n := false])
    {
      collectionFlags.Unset(n, size);
    }

    method CountUnused() returns (count: nat)
      requires Valid()
      ensures count == Current(View())
    {
      count := 0;
      for i := 0 to size
        invariant count == Fresh(View(), i)
      {
        var isSet := collectionFlags.IsSet(i, size);
        count := count + if epochFlags[i] && !isSet then 1 else 0;
      }
    }

    /** Every entry of the old epoch is released and every one of the current epoch demoted. */
    method AgeEntries()
      requires Valid()
      modifies epochFlags, collectionFlags.mem
      ensures Valid()
      ensures View() == Aged(old(View())).(counter := epochHeuristicCounter)
    {
      ghost var c := View();
      for i := 0 to size
        invariant Valid()
        invariant table == old(table) && epochFlags == old(epochFlags) && collectionFlags.mem == old(collectionFlags.mem)
        invariant View() == c.(collected := View().collected, epoch := View().epoch)
        invariant forall j | 0 <= j < size ::
          && View().collected[j] == (if j < i then Aged(c).collected[j] else c.collected[j])
          && View().epoch[j] == (j >= i && c.epoch[j])
      {
        if epochFlags[i] {
          epochFlags[i] := false;
        } else {
          AllowErase(i);
        }
      }
      assert View().collected == Aged(c).collected && View().epoch == Aged(c).epoch;
    }

    method EpochCheck()
      requires Valid()
      modifies Repr()
      ensures Valid() && Repr() == old(Repr()) && table == old(table) && View() == Cuckoo.EpochCheck(old(View()))
    {
      if epochHeuristicCounter != 0 {
        epochHeuristicCounter := epochHeuristicCounter - 1;
        return;
      }
      var epochUnusedCount := CountUnused();
      if epochUnusedCount >= epochSize {
        AgeEntries();
        epochHeuristicCounter := epochSize;
      } else {
        epochHeuristicCounter := Max(1, Max(epochSize / 16, epochSize - epochUnusedCount));
      }
    }

    method FindMatch(locs: seq<nat>, e: Element) returns (k: nat)
      requires Valid() && forall i | 0 <= i < |locs| :: locs[i] < size
      ensures k == FirstMatch(View().table, locs, e, 0)
    {
      k := 0;
      while k < |locs|
        invariant k <= |locs| && FirstMatch(View().table, locs, e, k) == FirstMatch(View().table, locs, e, 0)
      {
        if table[locs[k]] == e {
          return;
        }
        k := k + 1;
      }
    }

    method FindFree(locs: seq<nat>) returns (k: nat)
      requires Valid() && forall i | 0 <= i < |locs| :: locs[i] < size
      ensures k == FirstFree(View().collected, locs, 0)
    {
      k := 0;
      while k < |locs|
        invariant k <= |locs| && FirstFree(View().collected, locs, k) == FirstFree(View().collected, locs, 0)
      {
        var isSet := collectionFlags.IsSet(locs[k], size);
        if isSet {
          return;
        }
        k := k + 1;
      }
    }

    static method FindIndex(locs: seq<nat>, x: nat) returns (k: nat)
      ensures k == FirstIndex(locs, x, 0)
    {
      k := 0;
      while k < |locs|
        invariant k <= |locs| && FirstIndex(locs, x, k) == FirstIndex(locs, x, 0)
      {
        if locs[k] == x {
          return;
        }
        k := k + 1;
      }
    }

    /** Writes an element into a slot and marks it live. */
    method SettleAt(loc: nat, e: Element, recent: bool)
      requires Valid() && loc < size
      modifies table, epochFlags, collectionFlags.mem
      ensures Valid() && View() == Settle(old(View()), loc, e, recent)
    {
      table[loc] := e;
      PleaseKeep(loc);
      epochFlags[loc] := recent;
    }

    /** Puts an element in the place of another one, which is handed back. */
    method SwapAt(loc: nat, e: Element, recent: bool) returns (out: Element, wasRecent: bool)
      requires Valid() && loc < size
      modifies table, epochFlags
      ensures Valid() && View() == Swap(old(View()), loc, e, recent)
      ensures out == old(View()).table[loc] && wasRecent == old(View()).epoch[loc]
    {
      out, wasRecent := table[loc], epochFlags[loc];
      table[loc] := e;
      epochFlags[loc] := recent;
    }

    /** The insertion loop; tells which element was dropped. */
    method KickOut(element: Element) returns (dropped: Carried)
      requires Valid()
      modifies table, epochFlags, collectionFlags.mem
      ensures Valid() && (View(), dropped) == Kick(hash, old(View()), element, true, INVALID, depthLimit)
    {
      hide Kick, View, Locs, Settle, Swap, FirstFree, FirstIndex;
      ghost var result := Kick(hash, View(), element, true, INVALID, depthLimit);
      var e, lastLoc: nat, lastEpoch := element, INVALID, true;
      var locs := Locs(hash, size, e);
      for depth := 0 to depthLimit
        invariant Valid() && locs == Locs(hash, size, e)
        invariant Kick(hash, View(), e, lastEpoch, lastLoc, depthLimit - depth) == result
      {
        ViewSize();
        KickStep(hash, View(), e, lastEpoch, lastLoc, depthLimit - depth);
        var free := FindFree(locs);
        if free < 8 {
          SettleAt(locs[free], e, lastEpoch);
          return Nothing;
        }
        var k := FindIndex(locs, lastLoc);
        lastLoc := locs[(1 + k) % 8];
        e, lastEpoch := SwapAt(lastLoc, e, lastEpoch);
        locs := Locs(hash, size, e);
      }
      dropped := Carried(e, lastEpoch);
      KickEnd(hash, View(), e, lastEpoch, lastLoc);
    }

    lemma ViewSize()
      requires Valid()
      ensures |View().table| == size
    {
    }

    /** Also tells which element was dropped. */
    method Insert(e: Element) returns (dropped: Carried)
      requires Valid()
      modifies Repr()
      ensures Valid() && Repr() == old(Repr())
      ensures (View(), dropped) == Cuckoo.Insert(hash, old(View()), e)
    {
      hide Kick, Cuckoo.EpochCheck, Locs, FirstMatch;
      EpochCheck();
      var locs := Locs(hash, size, e);
      var found := FindMatch(locs, e);
      if found < 8 {
        PleaseKeep(locs[found]);
        epochFlags[locs[found]] := true;
        return Nothing;
      }
      dropped := KickOut(e);
    }

    method Contains(e: Element, erase: bool) returns (found: bool)
      requires Valid()
      modifies collectionFlags.mem
      ensures Valid() && (found, View()) == Cuckoo.Contains(hash, old(View()), e, erase)
    {
      var locs := Locs(hash, size, e);
      var k := FindMatch(locs, e);
      if k < 8 {
        if erase {
          AllowErase(locs[k]);
        }
        return true;
      }
      return false;
    }
  }

  lemma KickStep(h: Hashing, c: Cache, e: Element, recent: bool, lastLoc: nat, depth: nat)
    requires Shaped(c) && depth > 0
    ensures
      var locs := Locs(h, |c.table|, e);
      var free := FirstFree(c.collected, locs, 0);
      if free < 8 then Kick(h, c, e, recent, lastLoc, depth) == (Settle(c, locs[free], e, recent), Nothing)
      else
        var loc := locs[(1 + FirstIndex(locs, lastLoc, 0)) % 8];
        Kick(h, c, e, recent, lastLoc, depth)
        == Kick(h, Swap(c, loc, e, recent), c.table[loc], c.epoch[loc], loc, depth - 1)
  {
    hide Locs, FirstFree, FirstIndex;
  }

  lemma KickEnd(h: Hashing, c: Cache, e: Element, recent: bool, lastLoc: nat)
    requires Shaped(c)
    ensures Kick(h, c, e, recent, lastLoc, 0) == (c, Carried(e, recent))
  {
  }
}
