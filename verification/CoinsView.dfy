/** The coin views as objects: caches linked by their base pointers down to the database. Each method
    is proved to transform the stack of layers it stands on exactly as the function of the same name. */
module CoinsView {
  import opened Basics
  import opened Coins

  /** A cache when `base` is set; otherwise the database at the bottom. */
  class CoinsView {
    const base: CoinsView?
    var coins: map<OutPoint, Coin>
    var cacheCoins: Entries
    var cachedCoinsUsage: int
    ghost const Repr: set<CoinsView>

    ghost predicate Valid()
      reads Repr
      decreases Repr
    {
      && this in Repr
      && (base != null ==> base.Repr < Repr && this !in base.Repr && base.Valid())
    }

    /** The stack of layers this view stands on. */
    ghost function Model(): View
      requires Valid()
      reads Repr
      decreases Repr
    {
      if base == null then Db(coins) else Coins.Cache(cacheCoins, cachedCoinsUsage, base.Model())
    }

    constructor Database(coins: map<OutPoint, Coin>)
      ensures Valid() && Model() == Db(coins) && fresh(Repr)
    {
      base := null;
      this.coins, cacheCoins, cachedCoinsUsage := coins, map[], 0;
      Repr := {this};
    }

    constructor CacheOver(base: CoinsView)
      requires base.Valid()
      ensures Valid() && Model() == Coins.Cache(map[], 0, base.Model()) && fresh(Repr - base.Repr)
    {
      this.base := base;
      coins, cacheCoins, cachedCoinsUsage := map[], map[], 0;
      Repr := {this} + base.Repr;
    }

    method FetchCoin(o: OutPoint) returns (found: bool)
      requires Valid() && base != null
      modifies Repr
      ensures Valid() && (Model(), found) == Fetch(old(Model()), o)
      decreases Repr, 0
    {
      if o in cacheCoins {
        return true;
      }
      var got := base.GetCoin(o);
      if got.None? {
        return false;
      }
      var c := got.value;
      var n := Entry(c, false, false);
      if IsSpent(c) {
        n := n.(isFresh := true);
      }
      cacheCoins := cacheCoins[o := n];
      cachedCoinsUsage := cachedCoinsUsage + Usage(c);
      return true;
    }

    method GetCoin(o: OutPoint) returns (r: Option<Coin>)
      requires Valid()
      modifies Repr
      ensures Valid() && (Model(), r) == Coins.GetCoin(old(Model()), o)
      decreases Repr, 1
    {
      if base == null {
        r := if o in coins then Some(coins[o]) else None;
        return;
      }
      var found := FetchCoin(o);
      if found && !IsSpent(cacheCoins[o].coin) {
        return Some(cacheCoins[o].coin);
      }
      return None;
    }

    method AddCoin(o: OutPoint, c: Coin, possibleOverwrite: bool) returns (threw: bool)
      requires Valid() && base != null && !IsSpent(c)
      modifies this
      ensures Valid() && Added(Model(), threw) == Coins.AddCoin(old(Model()), o, c, possibleOverwrite)
    {
      if IsUnspendable(c) { return false; }
      var inserted := o !in cacheCoins;
      var n := if inserted then Entry(NO_COIN, false, false) else cacheCoins[o];
      var isFresh := false;
      if !inserted {
        cachedCoinsUsage := cachedCoinsUsage - Usage(n.coin);
      }
      if !possibleOverwrite {
        if !IsSpent(n.coin) {
          return true;
        }
        isFresh := !n.dirty;
      }
      n := n.(coin := c);
      n := n.(dirty := true, isFresh := n.isFresh || isFresh);
      cacheCoins := cacheCoins[o := n];
      cachedCoinsUsage := cachedCoinsUsage + Usage(c);
      return false;
    }

    method SpendCoin(o: OutPoint) returns (spent: bool, moved: Coin)
      requires Valid() && base != null
      modifies Repr
      ensures Valid() && (Model(), spent, moved) == Coins.SpendCoin(old(Model()), o)
    {
      var found := FetchCoin(o);
      if !found { return false, NO_COIN; }
      var n := cacheCoins[o];
      cachedCoinsUsage := cachedCoinsUsage - Usage(n.coin);
      moved := n.coin;
      if n.isFresh {
        cacheCoins := cacheCoins - {o};
      } else {
        cacheCoins := cacheCoins[o := n.(dirty := true, coin := Cleared(n.coin))];
      }
      return true, moved;
    }

    method Uncache(o: OutPoint)
      requires Valid() && base != null
      modifies this
      ensures Valid() && Model() == Coins.Uncache(old(Model()), o)
    {
      if o in cacheCoins && !cacheCoins[o].dirty && !cacheCoins[o].isFresh {
        cachedCoinsUsage := cachedCoinsUsage - Usage(cacheCoins[o].coin);
        cacheCoins := cacheCoins - {o};
      }
    }

    /** Writes the child's entries into this view, in whatever order the map yields them. */
    method BatchWrite(mapCoins: Entries) returns (threw: bool)
      requires Valid()
      modifies this
      ensures Valid()
      ensures threw <==> base != null && exists o | o in mapCoins :: Misapplied(EntryAt(old(cacheCoins), o), mapCoins[o])
      ensures !threw ==> Model() == Coins.BatchWrite(old(Model()), mapCoins)
    {
      hide Merged, Misapplied, Merge, EntryAt, TotalUsage, Written;
      if base == null {
        WriteDatabase(mapCoins);
        return false;
      }
      threw := WriteCache(mapCoins);
    }

    /** BatchWrite of a cache. */
    method WriteCache(mapCoins: Entries) returns (threw: bool)
      requires Valid() && base != null
      modifies this
      ensures Valid() && base.Model() == old(base.Model())
      ensures threw <==> exists o | o in mapCoins :: Misapplied(EntryAt(old(cacheCoins), o), mapCoins[o])
      ensures !threw ==> cacheCoins == Merged(old(cacheCoins), mapCoins)
      ensures !threw ==> cachedCoinsUsage == old(cachedCoinsUsage) + TotalUsage(cacheCoins) - TotalUsage(old(cacheCoins))
    {
      hide Merged, Misapplied, Merge, EntryAt, TotalUsage;
      ghost var e := cacheCoins;
      MergedNone(e, mapCoins);
      var todo := mapCoins.Keys;
      while todo != {}
        invariant Valid() && todo <= mapCoins.Keys && cacheCoins == Merged(e, mapCoins - todo)
        invariant cachedCoinsUsage == old(cachedCoinsUsage) + TotalUsage(cacheCoins) - TotalUsage(e)
        invariant forall o | o in mapCoins && o !in todo :: !Misapplied(EntryAt(e, o), mapCoins[o])
        invariant base.Model() == old(base.Model())
        decreases |todo|
      {
        var o :| o in todo;
        MergedNext(e, mapCoins, todo, o);
        threw := WriteEntry(o, mapCoins[o]);
        if threw { return; }
        todo := todo - {o};
      }
      assert mapCoins - {} == mapCoins;
      return false;
    }

    /** BatchWrite's loop body. */
    method WriteEntry(o: OutPoint, it: Entry) returns (threw: bool)
      requires Valid() && base != null
      modifies this
      ensures Valid() && base.Model() == old(base.Model())
      ensures threw <==> Misapplied(EntryAt(old(cacheCoins), o), it)
      ensures !threw ==> cacheCoins == Put(old(cacheCoins), o, Merge(EntryAt(old(cacheCoins), o), it))
      ensures !threw ==> cachedCoinsUsage == old(cachedCoinsUsage) + TotalUsage(cacheCoins) - TotalUsage(old(cacheCoins))
    {
      if !it.dirty { return false; }
      if o !in cacheCoins {
        if !(it.isFresh && IsSpent(it.coin)) {
          TotalUsageSet(cacheCoins, o, Entry(it.coin, true, it.isFresh));
          cachedCoinsUsage := cachedCoinsUsage + Usage(it.coin);
          cacheCoins := cacheCoins[o := Entry(it.coin, true, it.isFresh)];
        } else {
          assert cacheCoins - {o} == cacheCoins;
        }
      } else {
        var us := cacheCoins[o];
        if it.isFresh && !IsSpent(us.coin) { return true; }
        if us.isFresh && IsSpent(it.coin) {
          TotalUsageRemove(cacheCoins, o);
          cachedCoinsUsage := cachedCoinsUsage - Usage(us.coin);
          cacheCoins := cacheCoins - {o};
        } else {
          TotalUsageSet(cacheCoins, o, us.(coin := it.coin, dirty := true));
          cachedCoinsUsage := cachedCoinsUsage - Usage(us.coin) + Usage(it.coin);
          cacheCoins := cacheCoins[o := us.(coin := it.coin, dirty := true)];
        }
      }
      return false;
    }

    method WriteDatabase(mapCoins: Entries)
      requires Valid() && base == null
      modifies this
      ensures coins == Written(old(coins), mapCoins)
    {
      ghost var c := coins;
      WrittenNone(c, mapCoins);
      hide Written;
      var todo := mapCoins.Keys;
      while todo != {}
        invariant todo <= mapCoins.Keys && coins == Written(c, mapCoins - todo)
        decreases |todo|
      {
        var o :| o in todo;
        WrittenNext(c, mapCoins, todo, o);
        if mapCoins[o].dirty {
          if IsSpent(mapCoins[o].coin) {
            coins := coins - {o};
          } else {
            coins := coins[o := mapCoins[o].coin];
          }
        }
        todo := todo - {o};
      }
      assert mapCoins - {} == mapCoins;
    }

    /** Push this cache's changes to its base. It throws exactly when some entry is FRESH that its base holds unspent,
        which a cache that keeps Ok never has. */
    method Flush() returns (threw: bool)
      requires Valid() && base != null
      modifies Repr
      ensures Valid()
      ensures threw <==> Misflagged(old(Model()))
      ensures old(Ok(Model())) ==> !threw
      ensures !threw ==> Model() == Coins.Flush(old(Model()))
    {
      hide Ok, Misapplied, Coins.BatchWrite, EntryAt;
      NoneMisapplied(Model());
      threw := base.BatchWrite(cacheCoins);
      if threw { return; }
      cacheCoins := map[];
      cachedCoinsUsage := 0;
    }
  }

  /** Some entry is FRESH although the cache below holds an unspent coin for it. */
  ghost predicate Misflagged(v: View) {
    v.Cache? && v.base.Cache? && exists o | o in v.entries :: Misapplied(EntryAt(v.base.entries, o), v.entries[o])
  }

  lemma NoneMisapplied(v: View)
    ensures Ok(v) ==> !Misflagged(v)
  {
    if Ok(v) && v.Cache? && v.base.Cache? {
      forall o | o in v.entries ensures !Misapplied(EntryAt(v.base.entries, o), v.entries[o]) { NeverMisapplied(v, o); }
    }
  }

  /** Set or remove one entry. */
  function Put(e: Entries, o: OutPoint, n: Option<Entry>): Entries {
    match n
    case None => e - {o}
    case Some(x) => e[o := x]
  }

  lemma MergedNone(e: Entries, m: Entries)
    ensures Merged(e, m - m.Keys) == e
  {
  }

  /** One more entry of the batch changes one entry of the parent, which the batch had not touched before. */
  lemma MergedNext(e: Entries, m: Entries, todo: set<OutPoint>, o: OutPoint)
    requires o in m && o in todo
    ensures EntryAt(Merged(e, m - todo), o) == EntryAt(e, o)
    ensures Merged(e, m - (todo - {o})) == Put(Merged(e, m - todo), o, Merge(EntryAt(e, o), m[o]))
  {
    forall x ensures MergeAt(e, m - (todo - {o}), x) == if x == o then Merge(EntryAt(e, o), m[o]) else MergeAt(e, m - todo, x) {}
  }

  lemma WrittenNone(c: map<OutPoint, Coin>, m: Entries)
    ensures Written(c, m - m.Keys) == c
  {
  }

  lemma WrittenNext(c: map<OutPoint, Coin>, m: Entries, todo: set<OutPoint>, o: OutPoint)
    requires o in m && o in todo
    ensures var w := Written(c, m - todo);
      Written(c, m - (todo - {o})) == if !m[o].dirty then w else if IsSpent(m[o].coin) then w - {o} else w[o := m[o].coin]
  {
    forall x | x != o ensures WriteAt(c, m - (todo - {o}), x) == WriteAt(c, m - todo, x) {}
  }
}
