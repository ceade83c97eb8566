/** The coin database and the stack of write-back caches above it, as values.

    A cache entry may be DIRTY (differs from what the layer below has) and FRESH (the layer below
    has no unspent coin for it, so spending it here may simply forget it). The operations below are
    those of CCoinsViewCache; Lookup is the plain outpoint-to-coin view they have to implement. */
module Coins {
  import opened Basics

  datatype OutPoint = OutPoint(hash: nat, n: nat)

  type Script = seq<nat>

  datatype Coin = Coin(value: int, script: Script, coinBase: bool, coinStake: bool, pocketTx: bool, height: nat)

  const NO_COIN := Coin(-1, [], false, false, false, 0)
  const MAX_SCRIPT_SIZE := 10000
  const OP_RETURN := 0x6a
  const DIRECT_SCRIPT_SIZE := 28

  predicate IsSpent(c: Coin) { c.value == -1 }

  predicate IsUnspendable(c: Coin) {
    (|c.script| > 0 && c.script[0] == OP_RETURN) || |c.script| > MAX_SCRIPT_SIZE
  }

  /** Coin::Clear keeps the proof-of-stake and payload marks. */
  function Cleared(c: Coin): Coin {
    c.(value := -1, script := [], coinBase := false, height := 0)
  }

  /** Heap bytes behind a coin: short scripts are stored in place, longer ones in one allocation. */
  function Usage(c: Coin): nat {
    if |c.script| <= DIRECT_SCRIPT_SIZE then 0 else (|c.script| + 31) / 16 * 16
  }

  datatype Entry = Entry(coin: Coin, dirty: bool, isFresh: bool)

  type Entries = map<OutPoint, Entry>

  /** The database, or a cache over another view. */
  datatype View = Db(coins: map<OutPoint, Coin>) | Cache(entries: Entries, usage: int, base: View)

  // ---------------------------------------------------------------- the view a stack of layers implements

  function Unspent(c: Coin): Option<Coin> {
    if IsSpent(c) then None else Some(c)
  }

  function Lookup(v: View, o: OutPoint): Option<Coin> {
    match v
    case Db(coins) => if o in coins then Unspent(coins[o]) else None
    case Cache(entries, _, base) => if o in entries then Unspent(entries[o].coin) else Lookup(base, o)
  }

  // ---------------------------------------------------------------- usage accounting

  ghost function TotalUsage(e: Entries): nat
    decreases |e|
  {
    if e == map[] then 0
    else
      var o :| o in e;
      Usage(e[o].coin) + TotalUsage(e - {o})
  }

  lemma {:induction false} TotalUsageRemove(e: Entries, o: OutPoint)
    requires o in e
    ensures TotalUsage(e) == Usage(e[o].coin) + TotalUsage(e - {o})
    decreases |e|
  {
    var x :| x in e && TotalUsage(e) == Usage(e[x].coin) + TotalUsage(e - {x});
    if x != o {
      TotalUsageRemove(e - {x}, o);
      TotalUsageRemove(e - {o}, x);
      assert e - {x} - {o} == e - {o} - {x};
    }
  }

  lemma TotalUsageSet(e: Entries, o: OutPoint, n: Entry)
    ensures TotalUsage(e[o := n]) == TotalUsage(e - {o}) + Usage(n.coin)
    ensures o in e ==> TotalUsage(e[o := n]) == TotalUsage(e) - Usage(e[o].coin) + Usage(n.coin)
    ensures o !in e ==> TotalUsage(e[o := n]) == TotalUsage(e) + Usage(n.coin)
  {
    TotalUsageRemove(e[o := n], o);
    assert e[o := n] - {o} == e - {o};
    if o in e { TotalUsageRemove(e, o); } else { assert e - {o} == e; }
  }

  // ---------------------------------------------------------------- invariant

  /** What an entry's flags promise about the layer below, and the combinations that can occur. */
  ghost predicate EntryOk(n: Entry, below: Option<Coin>) {
    && (n.isFresh ==> below.None?)
    && (!n.dirty ==> Unspent(n.coin) == below)
    && (IsSpent(n.coin) ==> n.dirty && !n.isFresh)
    && (n.isFresh ==> n.dirty)
  }

  ghost predicate Ok(v: View) {
    match v
    case Db(coins) => forall o | o in coins :: !IsSpent(coins[o])
    case Cache(entries, usage, base) =>
      && Ok(base)
      && usage == TotalUsage(entries)
      && (forall o | o in entries :: EntryOk(entries[o], Lookup(base, o)))
  }

  /** Layer by layer, the two stacks show the same coins. */
  ghost predicate SameViews(v: View, w: View) {
    && v.Db? == w.Db?
    && (forall o :: Lookup(v, o) == Lookup(w, o))
    && (v.Cache? ==> SameViews(v.base, w.base))
  }

  // ---------------------------------------------------------------- reading

  /** FetchCoin: find the entry, loading it from the layers below if need be. */
  function Fetch(v: View, o: OutPoint): (r: (View, bool))
    requires v.Cache?
    ensures r.0.Cache? && (r.1 <==> o in r.0.entries)
    decreases v, 0
  {
    if o in v.entries then (v, true)
    else
      var (base, got) := GetCoin(v.base, o);
      match got
      case None => (v.(base := base), false)
      case Some(c) =>
        (Cache(v.entries[o := Entry(c, false, IsSpent(c))], v.usage + Usage(c), base), true)
  }

  function GetCoin(v: View, o: OutPoint): (View, Option<Coin>)
    decreases v, 1
  {
    match v
    case Db(coins) => (v, if o in coins then Some(coins[o]) else None)
    case Cache(_, _, _) =>
      var (w, found) := Fetch(v, o);
      (w, if found then Unspent(w.entries[o].coin) else None)
  }

  /** Reading changes what is cached where, but neither the invariant nor any layer's view. */
  lemma {:induction false} GetCoinReads(v: View, o: OutPoint)
    requires Ok(v)
    ensures Ok(GetCoin(v, o).0) && SameViews(v, GetCoin(v, o).0)
    ensures GetCoin(v, o).1 == Lookup(v, o)
    decreases v, 1
  {
    if v.Cache? { FetchReads(v, o); }
  }

  lemma {:induction false} FetchReads(v: View, o: OutPoint)
    requires Ok(v) && v.Cache?
    ensures Ok(Fetch(v, o).0) && SameViews(v, Fetch(v, o).0)
    ensures Fetch(v, o).1 ==> Unspent(Fetch(v, o).0.entries[o].coin) == Lookup(v, o)
    ensures !Fetch(v, o).1 ==> Lookup(v, o).None?
    decreases v, 0
  {
    if o !in v.entries {
      GetCoinReads(v.base, o);
      var (base, got) := GetCoin(v.base, o);
      if got.Some? { TotalUsageSet(v.entries, o, Entry(got.value, false, false)); }
      var w := Fetch(v, o).0;
      assert forall x :: Lookup(w.base, x) == Lookup(v.base, x);
      forall x ensures Lookup(v, x) == Lookup(w, x) {}
    } else {
      SameViewsReflexive(v);
    }
  }

  lemma SameViewsReflexive(v: View)
    ensures SameViews(v, v)
  {
  }

  // ---------------------------------------------------------------- writing

  /** AddCoin's outcome; when it throws, the usage counter has already been lowered. */
  datatype Added = Added(view: View, threw: bool)

  function EntryAt(e: Entries, o: OutPoint): Option<Entry> {
    if o in e then Some(e[o]) else None
  }

  function AddCoin(v: View, o: OutPoint, c: Coin, possibleOverwrite: bool): (r: Added)
    requires v.Cache? && !IsSpent(c)
    ensures r.view.Cache? && r.view.base == v.base
  {
    if IsUnspendable(c) then Added(v, false)
    else
      var was := if o in v.entries then v.entries[o] else Entry(NO_COIN, false, false);
      var usage := if o in v.entries then v.usage - Usage(was.coin) else v.usage;
      if !possibleOverwrite && !IsSpent(was.coin) then Added(v.(usage := usage), true)
      else
        var isFresh := !possibleOverwrite && !was.dirty;
        Added(Cache(v.entries[o := Entry(c, true, was.isFresh || isFresh)], usage + Usage(c), v.base), false)
  }

  /** Spend the coin of an entry that is in this cache. */
  function SpendEntry(v: View, o: OutPoint): (r: View)
    requires v.Cache? && o in v.entries
    ensures r.Cache? && r.base == v.base
  {
    var n := v.entries[o];
    if n.isFresh then Cache(v.entries - {o}, v.usage - Usage(n.coin), v.base)
    else Cache(v.entries[o := Entry(Cleared(n.coin), true, false)], v.usage - Usage(n.coin), v.base)
  }

  function SpendCoin(v: View, o: OutPoint): (r: (View, bool, Coin))
    requires v.Cache?
    ensures r.0.Cache?
  {
    var (w, found) := Fetch(v, o);
    if found then (SpendEntry(w, o), true, w.entries[o].coin) else (w, false, NO_COIN)
  }

  function Uncache(v: View, o: OutPoint): (r: View)
    requires v.Cache?
    ensures r.Cache?
  {
    if o in v.entries && !v.entries[o].dirty && !v.entries[o].isFresh
    then Cache(v.entries - {o}, v.usage - Usage(v.entries[o].coin), v.base)
    else v
  }

  /** Adding a coin sets it in the view of this layer, unless it can never be spent. */
  lemma AddSets(v: View, o: OutPoint, c: Coin, possibleOverwrite: bool)
    requires Ok(v) && v.Cache? && !IsSpent(c)
    ensures var r := AddCoin(v, o, c, possibleOverwrite);
      && (r.threw <==> !IsUnspendable(c) && !possibleOverwrite && o in v.entries && !IsSpent(v.entries[o].coin))
      && forall x :: Lookup(r.view, x) == if x == o && !r.threw && !IsUnspendable(c) then Some(c) else Lookup(v, x)
  {
  }

  /** Exactly when AddCoin keeps the invariant: without `possibleOverwrite`, an entry missing from this
      cache must not be unspent further down. */
  lemma AddKeepsIff(v: View, o: OutPoint, c: Coin, possibleOverwrite: bool)
    requires Ok(v) && v.Cache? && !IsSpent(c) && !IsUnspendable(c)
    requires !AddCoin(v, o, c, possibleOverwrite).threw
    ensures Ok(AddCoin(v, o, c, possibleOverwrite).view)
      <==> possibleOverwrite || o in v.entries || Lookup(v.base, o).None?
  {
    var w := AddCoin(v, o, c, possibleOverwrite).view;
    TotalUsageSet(v.entries, o, w.entries[o]);
    assert w.entries[o].isFresh && Lookup(v.base, o).Some? ==> !EntryOk(w.entries[o], Lookup(w.base, o));
    forall x | x in w.entries && x != o ensures EntryOk(w.entries[x], Lookup(w.base, x)) {
      assert x in v.entries;
    }
  }

  /** After a throw the usage counter is right only if the coin in the way used no heap memory. */
  lemma AddThrowsIff(v: View, o: OutPoint, c: Coin)
    requires Ok(v) && v.Cache? && !IsSpent(c) && AddCoin(v, o, c, false).threw
    ensures AddCoin(v, o, c, false).view.entries == v.entries
    ensures Ok(AddCoin(v, o, c, false).view) <==> Usage(v.entries[o].coin) == 0
  {
  }

  lemma SpendEntryRemoves(v: View, o: OutPoint)
    requires Ok(v) && v.Cache? && o in v.entries
    ensures Ok(SpendEntry(v, o))
    ensures forall x :: Lookup(SpendEntry(v, o), x) == if x == o then None else Lookup(v, x)
  {
    TotalUsageRemove(v.entries, o);
    TotalUsageSet(v.entries, o, Entry(Cleared(v.entries[o].coin), true, false));
  }

  /** Spending removes the coin from this layer's view and hands it out. The call also reports success
      for an outpoint whose entry here is already spent. */
  lemma SpendRemoves(v: View, o: OutPoint)
    requires Ok(v) && v.Cache?
    ensures Ok(SpendCoin(v, o).0) && SameViews(v.base, SpendCoin(v, o).0.base)
    ensures forall x :: Lookup(SpendCoin(v, o).0, x) == if x == o then None else Lookup(v, x)
    ensures SpendCoin(v, o).1 <==> o in v.entries || Lookup(v, o).Some?
    ensures Lookup(v, o).Some? ==> SpendCoin(v, o).2 == Lookup(v, o).value
  {
    FetchReads(v, o);
    if Fetch(v, o).1 { SpendEntryRemoves(Fetch(v, o).0, o); }
  }

  lemma UncacheReads(v: View, o: OutPoint)
    requires Ok(v) && v.Cache?
    ensures Ok(Uncache(v, o)) && SameViews(v, Uncache(v, o))
  {
    if o in v.entries { TotalUsageRemove(v.entries, o); }
    SameViewsReflexive(v);
  }

  // ---------------------------------------------------------------- flushing

  /** The throw "FRESH flag misapplied to coin that exists in parent cache". */
  predicate Misapplied(us: Option<Entry>, it: Entry) {
    it.dirty && us.Some? && it.isFresh && !IsSpent(us.value.coin)
  }

  /** What BatchWrite leaves in the parent for one outpoint, given the child's entry `it`. */
  function Merge(us: Option<Entry>, it: Entry): Option<Entry> {
    if !it.dirty then us
    else match us
      case None =>
        if it.isFresh && IsSpent(it.coin) then None else Some(Entry(it.coin, true, it.isFresh))
      case Some(e) =>
        if e.isFresh && IsSpent(it.coin) then None else Some(Entry(it.coin, true, e.isFresh))
  }

  function MergeAt(e: Entries, m: Entries, o: OutPoint): Option<Entry> {
    if o in m then Merge(EntryAt(e, o), m[o]) else EntryAt(e, o)
  }

  function Merged(e: Entries, m: Entries): Entries {
    map o | o in e.Keys + m.Keys && MergeAt(e, m, o).Some? :: MergeAt(e, m, o).value
  }

  /** The database after a batch: dirty entries are written, or erased when spent. */
  function WriteAt(coins: map<OutPoint, Coin>, m: Entries, o: OutPoint): Option<Coin> {
    if o in m && m[o].dirty then Unspent(m[o].coin)
    else if o in coins then Some(coins[o]) else None
  }

  function Written(coins: map<OutPoint, Coin>, m: Entries): map<OutPoint, Coin> {
    map o | o in coins.Keys + m.Keys && WriteAt(coins, m, o).Some? :: WriteAt(coins, m, o).value
  }

  ghost function BatchWrite(v: View, m: Entries): View {
    match v
    case Db(coins) => Db(Written(coins, m))
    case Cache(e, usage, base) => Cache(Merged(e, m), usage + TotalUsage(Merged(e, m)) - TotalUsage(e), base)
  }

  ghost function Flush(v: View): (r: View)
    requires v.Cache?
    ensures r.Cache?
  {
    Cache(map[], 0, BatchWrite(v.base, v.entries))
  }

  /** The misapplied-FRESH throw is unreachable. */
  lemma NeverMisapplied(v: View, o: OutPoint)
    requires Ok(v) && v.Cache? && v.base.Cache? && o in v.entries
    ensures !Misapplied(EntryAt(v.base.entries, o), v.entries[o])
  {
  }

  lemma MergeOk(e: Entries, base: View, it: Entry, o: OutPoint)
    requires o in e ==> EntryOk(e[o], Lookup(base, o))
    requires var below := if o in e then Unspent(e[o].coin) else Lookup(base, o); EntryOk(it, below)
    ensures var r := Merge(EntryAt(e, o), it);
      && (r.Some? ==> EntryOk(r.value, Lookup(base, o)))
      && Unspent(it.coin) == if r.Some? then Unspent(r.value.coin) else Lookup(base, o)
  {
  }

  /** Flushing hands the parent exactly the child's view and keeps every layer's invariant. */
  lemma FlushHandsOver(v: View)
    requires Ok(v) && v.Cache?
    ensures Ok(Flush(v))
    ensures forall x :: Lookup(Flush(v), x) == Lookup(v, x)
    ensures forall x :: Lookup(Flush(v).base, x) == Lookup(v, x)
    ensures v.base.Cache? ==> Flush(v).base.Cache? && Flush(v).base.base == v.base.base
    ensures v.base.Db? ==> Flush(v).base.Db?
  {
    var b := BatchWrite(v.base, v.entries);
    forall x ensures Lookup(b, x) == Lookup(v, x) {
      if v.base.Cache? && x in v.entries { MergeOk(v.base.entries, v.base.base, v.entries[x], x); }
    }
    if v.base.Cache? {
      forall x | x in b.entries ensures EntryOk(b.entries[x], Lookup(b.base, x)) {
        if x in v.entries { MergeOk(v.base.entries, v.base.base, v.entries[x], x); }
      }
    }
  }
}
