/** Whole runs over a stack of coin caches, against a stack of plain maps. */
module CoinsRuns {
  import opened Basics
  import opened Coins

  type Flat = map<OutPoint, Coin>

  datatype Op =
    | DoGet(o: OutPoint)
    | DoAdd(o: OutPoint, c: Coin, possibleOverwrite: bool)
    | DoSpend(o: OutPoint)
    | DoUncache(o: OutPoint)
    | DoFlush
    | DoPush
    | DoPop

  /** What the caller must guarantee, in terms of the plain maps (the topmost comes last). Coins are
      cached above the database only, and a coin added without `possibleOverwrite` must not exist. */
  predicate Legal(flats: seq<Flat>, op: Op) {
    match op
    case DoPush => |flats| >= 1
    case DoAdd(o, c, overwrite) => |flats| >= 2 && !IsSpent(c) && (overwrite || o !in flats[|flats| - 1])
    case _ => |flats| >= 2
  }

  /** The reference: every layer is a plain map from outpoints to unspent coins. */
  function RefStep(flats: seq<Flat>, op: Op): seq<Flat>
    requires Legal(flats, op)
  {
    var n := |flats| - 1;
    match op
    case DoGet(_) => flats
    case DoAdd(o, c, _) => if IsUnspendable(c) then flats else flats[n := flats[n][o := c]]
    case DoSpend(o) => flats[n := flats[n] - {o}]
    case DoUncache(_) => flats
    case DoFlush => flats[n - 1 := flats[n]]
    case DoPush => flats + [flats[n]]
    case DoPop => flats[..n]
  }

  /** The caches: operations act on the topmost one. */
  ghost function Step(v: View, op: Op): View
    requires op.DoPush? || v.Cache?
    requires op.DoAdd? ==> !IsSpent(op.c)
  {
    match op
    case DoGet(o) => Fetch(v, o).0
    case DoAdd(o, c, overwrite) => AddCoin(v, o, c, overwrite).view
    case DoSpend(o) => SpendCoin(v, o).0
    case DoUncache(o) => Uncache(v, o)
    case DoFlush => Flush(v)
    case DoPush => Cache(map[], 0, v)
    case DoPop => v.base
  }

  function FlatAt(f: Flat, o: OutPoint): Option<Coin> {
    if o in f then Some(f[o]) else None
  }

  /** Layer by layer, the view of the caches is the plain map. */
  ghost predicate Agree(v: View, flats: seq<Flat>) {
    && |flats| >= 1
    && (forall o :: Lookup(v, o) == FlatAt(flats[|flats| - 1], o))
    && (v.Cache? <==> |flats| >= 2)
    && (v.Cache? ==> Agree(v.base, flats[..|flats| - 1]))
  }

  lemma {:induction false} AgreeSame(v: View, w: View, flats: seq<Flat>)
    requires Agree(v, flats) && SameViews(v, w)
    ensures Agree(w, flats)
  {
    if v.Cache? { AgreeSame(v.base, w.base, flats[..|flats| - 1]); }
  }

  lemma AddStep(v: View, flats: seq<Flat>, o: OutPoint, c: Coin, overwrite: bool)
    requires Ok(v) && Agree(v, flats) && Legal(flats, DoAdd(o, c, overwrite))
    ensures Ok(Step(v, DoAdd(o, c, overwrite))) && Agree(Step(v, DoAdd(o, c, overwrite)), RefStep(flats, DoAdd(o, c, overwrite)))
    ensures !AddCoin(v, o, c, overwrite).threw
  {
    var n := |flats| - 1;
    AddSets(v, o, c, overwrite);
    assert !overwrite ==> Lookup(v, o).None?;
    if !IsUnspendable(c) {
      AddKeepsIff(v, o, c, overwrite);
      assert flats[n := flats[n][o := c]][..n] == flats[..n];
    }
  }

  lemma SpendStep(v: View, flats: seq<Flat>, o: OutPoint)
    requires Ok(v) && Agree(v, flats) && v.Cache?
    ensures Ok(SpendCoin(v, o).0) && Agree(SpendCoin(v, o).0, flats[|flats| - 1 := flats[|flats| - 1] - {o}])
  {
    var n := |flats| - 1;
    SpendRemoves(v, o);
    AgreeSame(v.base, SpendCoin(v, o).0.base, flats[..n]);
    assert flats[n := flats[n] - {o}][..n] == flats[..n];
  }

  /** Replacing the top plain map of a stack whose lower layers stay. */
  lemma AgreeTop(v: View, w: View, flats: seq<Flat>, f: Flat)
    requires Agree(v, flats) && (forall o :: Lookup(w, o) == FlatAt(f, o))
    requires v.Db? == w.Db? && (v.Cache? ==> w.base == v.base)
    ensures Agree(w, flats[|flats| - 1 := f])
  {
    var n := |flats| - 1;
    assert flats[n := f][..n] == flats[..n];
  }

  lemma FlushStep(v: View, flats: seq<Flat>)
    requires Ok(v) && Agree(v, flats) && v.Cache?
    ensures Ok(Flush(v)) && Agree(Flush(v), flats[|flats| - 2 := flats[|flats| - 1]])
  {
    hide Flush;
    var n := |flats| - 1;
    FlushHandsOver(v);
    AgreeTop(v.base, Flush(v).base, flats[..n], flats[n]);
    assert flats[n - 1 := flats[n]][..n] == flats[..n][n - 1 := flats[n]];
  }

  lemma StepAgrees(v: View, flats: seq<Flat>, op: Op)
    requires Ok(v) && Agree(v, flats) && Legal(flats, op)
    ensures Ok(Step(v, op)) && Agree(Step(v, op), RefStep(flats, op))
  {
    match op
    case DoGet(o) => FetchReads(v, o); AgreeSame(v, Fetch(v, o).0, flats);
    case DoAdd(o, c, overwrite) => AddStep(v, flats, o, c, overwrite);
    case DoSpend(o) => SpendStep(v, flats, o);
    case DoUncache(o) => UncacheReads(v, o); AgreeSame(v, Uncache(v, o), flats);
    case DoFlush => FlushStep(v, flats);
    case DoPush => assert (flats + [flats[|flats| - 1]])[..|flats|] == flats;
    case DoPop =>
  }

  ghost predicate LegalRun(flats: seq<Flat>, ops: seq<Op>)
    decreases |ops|
  {
    ops != [] ==> Legal(flats, ops[0]) && LegalRun(RefStep(flats, ops[0]), ops[1..])
  }

  ghost function RefRun(flats: seq<Flat>, ops: seq<Op>): seq<Flat>
    requires LegalRun(flats, ops)
    decreases |ops|
  {
    if ops == [] then flats else RefRun(RefStep(flats, ops[0]), ops[1..])
  }

  /** The caches reached by a run, and the plain maps they stand for. */
  ghost function Run(v: View, flats: seq<Flat>, ops: seq<Op>): View
    requires Ok(v) && Agree(v, flats) && LegalRun(flats, ops)
    decreases |ops|
  {
    if ops == [] then v
    else
      StepAgrees(v, flats, ops[0]);
      Run(Step(v, ops[0]), RefStep(flats, ops[0]), ops[1..])
  }

  /** After any legal run, through any number of layers, every layer shows its plain map and every
      invariant holds. */
  lemma {:induction false} RunAgrees(v: View, flats: seq<Flat>, ops: seq<Op>)
    requires Ok(v) && Agree(v, flats) && LegalRun(flats, ops)
    ensures Ok(Run(v, flats, ops)) && Agree(Run(v, flats, ops), RefRun(flats, ops))
    decreases |ops|
  {
    if ops != [] {
      StepAgrees(v, flats, ops[0]);
      RunAgrees(Step(v, ops[0]), RefStep(flats, ops[0]), ops[1..]);
    }
  }

  /** What a caller of the topmost cache sees after a run that started from a database. */
  lemma LookupAfterRun(coins: Flat, ops: seq<Op>, o: OutPoint)
    requires (forall x | x in coins :: !IsSpent(coins[x])) && LegalRun([coins], ops)
    ensures Ok(Db(coins)) && Agree(Db(coins), [coins])
    ensures var v, flats := Run(Db(coins), [coins], ops), RefRun([coins], ops);
      |flats| >= 1 && GetCoin(v, o).1 == FlatAt(flats[|flats| - 1], o)
  {
    RunAgrees(Db(coins), [coins], ops);
    GetCoinReads(Run(Db(coins), [coins], ops), o);
  }

  /** SpendCoin reports whether there was a coin to spend exactly when the cache has no spent entry for the outpoint. */
  lemma SpendReportsIff(v: View, o: OutPoint)
    requires Ok(v) && v.Cache?
    ensures (SpendCoin(v, o).1 <==> Lookup(v, o).Some?) <==> !(o in v.entries && IsSpent(v.entries[o].coin))
  {
    SpendRemoves(v, o);
  }

  /** A coin fetched from below can be spent twice, it seems. */
  lemma SpentTwice(o: OutPoint, c: Coin)
    requires !IsSpent(c)
    ensures var once := SpendCoin(Cache(map[], 0, Db(map[o := c])), o).0;
      Lookup(once, o) == None && SpendCoin(once, o).1
  {
    var v := Cache(map[], 0, Db(map[o := c]));
    assert GetCoin(v.base, o).1 == Some(c);
    assert Fetch(v, o).0.entries[o] == Entry(c, false, false);
    assert o in SpendCoin(v, o).0.entries;
  }

  /** Why the caller's promise is needed: adding over a coin that only a lower layer holds marks it FRESH,
      and spending it then uncovers the older coin instead of removing it. */
  lemma HiddenOverwriteResurfaces(o: OutPoint, older: Coin, newer: Coin)
    requires !IsSpent(older) && !IsSpent(newer) && !IsUnspendable(newer)
    ensures var v := Cache(map[], 0, Db(map[o := older]));
      var added := AddCoin(v, o, newer, false);
      !added.threw && Lookup(SpendCoin(added.view, o).0, o) == Some(older)
  {
  }
}
