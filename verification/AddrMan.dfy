/** CAddrMan itself: the object whose methods update the tables in place. Each method is proved to
    do to the tables exactly what the function of the same name does to the state they represent. */
module AddrMan {
  import opened Basics
  import opened Powers
  import opened AddrManState
  import opened AddrManSteps
  import opened AddrManOps
  import opened AddrManRuns
  import opened AddrManCheck
  import Sets
  import opened PeersFile
  import opened PeersRoundTrip

  const EMPTY := -1

  /** The array `a` holds exactly the occupied cells `m`, and EMPTY elsewhere. */
  ghost predicate Holds(a: array2<int>, m: map<Slot, int>)
    reads a
  {
    && (forall b, i | 0 <= b < a.Length0 && 0 <= i < a.Length1 :: a[b, i] == if (b, i) in m then m[(b, i)] else EMPTY)
    && (forall p | p in m :: 0 <= p.0 < a.Length0 && 0 <= p.1 < a.Length1 && m[p] != EMPTY)
  }

  /** A cell of the array is empty, or holds what the map says. */
  lemma HoldsCell(a: array2<int>, m: map<Slot, int>, b: int, i: int)
    requires Holds(a, m) && 0 <= b < a.Length0 && 0 <= i < a.Length1
    ensures (b, i) in m <==> a[b, i] != EMPTY
    ensures (b, i) in m ==> m[(b, i)] == a[b, i]
  {
  }

  lemma HoldsRange(a: array2<int>, m: map<Slot, int>)
    requires Holds(a, m)
    ensures forall p | p in m :: 0 <= p.0 < a.Length0 && 0 <= p.1 < a.Length1
  {
  }

  /** Delete's swap-and-pop is the removal that the specification describes. */
  lemma SwapThenPop(s: State, id: int)
    requires Shuffled(s.info, s.random) && id in s.info
    ensures var t := SwapRandom(s, s.info[id].randomPos, |s.random| - 1);
      t.(random := t.random[..|t.random| - 1], addr := t.addr - {s.info[id].key.addr},
         info := t.info - {id}, nNew := t.nNew - 1) == Delete(s, id)
  {
    var pos, n := s.info[id].randomPos, |s.random| - 1;
    var last := s.random[n];
    var t := SwapRandom(s, pos, n);
    assert t.random[..n] == s.random[pos := last][..n];
    assert (t.info - {id}).Keys == Delete(s, id).info.Keys;
    forall x | x in t.info - {id} ensures t.info[x] == Delete(s, id).info[x] {
      assert s.info[last].randomPos == n;
    }
    assert t.info - {id} == Delete(s, id).info;
  }

  // MakeTried's loop over the new buckets: the cells the entry has given up below bucket `n`, and those left.

  ghost function LeftBelow(untried: map<Slot, int>, id: int, n: int): set<Slot> {
    set p | p in untried && untried[p] == id && p.0 < n
  }

  ghost function Remaining(untried: map<Slot, int>, id: int, n: int): map<Slot, int> {
    map p | p in untried && !(untried[p] == id && p.0 < n) :: untried[p]
  }

  /** In bucket `n` the entry can only be in the one cell that the loop looks at. */
  lemma LeavingStep(h: Bucketing, info: map<int, Info>, untried: map<Slot, int>, id: int, n: int)
    requires NewPlaced(h, info, untried) && id in info
    ensures var p := SlotIn(h, info[id].key, n);
      if p in untried && untried[p] == id
      then LeftBelow(untried, id, n + 1) == LeftBelow(untried, id, n) + {p} && p !in LeftBelow(untried, id, n)
      else LeftBelow(untried, id, n + 1) == LeftBelow(untried, id, n)
  {
    var p := SlotIn(h, info[id].key, n);
    forall q | q in LeftBelow(untried, id, n + 1) ensures q in LeftBelow(untried, id, n) || q == p { var x := untried[q]; }
    assert forall q :: q in LeftBelow(untried, id, n + 1) <==> q in LeftBelow(untried, id, n) || (q == p && p in untried && untried[p] == id);
  }

  lemma RemainingStep(untried: map<Slot, int>, id: int, n: int, p: Slot)
    requires LeftBelow(untried, id, n + 1) == LeftBelow(untried, id, n) + {p}
    ensures Remaining(untried, id, n + 1) == Remaining(untried, id, n) - {p}
  {
    assert forall q | q in untried :: q in LeftBelow(untried, id, n + 1) <==> untried[q] == id && q.0 < n + 1;
    assert forall q | q in untried :: q in LeftBelow(untried, id, n) <==> untried[q] == id && q.0 < n;
  }

  lemma RemainingSame(untried: map<Slot, int>, id: int, n: int)
    requires LeftBelow(untried, id, n + 1) == LeftBelow(untried, id, n)
    ensures Remaining(untried, id, n + 1) == Remaining(untried, id, n)
  {
    assert forall q | q in untried :: q in LeftBelow(untried, id, n + 1) <==> untried[q] == id && q.0 < n + 1;
    assert forall q | q in untried :: q in LeftBelow(untried, id, n) <==> untried[q] == id && q.0 < n;
  }

  ghost function Leaving(s: State, id: int, n: int): State
    requires id in s.info
  {
    s.(untried := Remaining(s.untried, id, n),
       info := s.info[id := s.info[id].(refCount := s.info[id].refCount - |LeftBelow(s.untried, id, n)|)])
  }

  /** What the loop body has to do in bucket `n`. */
  lemma LeavingNext(h: Bucketing, s: State, id: int, n: int)
    requires NewPlaced(h, s.info, s.untried) && id in s.info
    ensures var p, t := SlotIn(h, s.info[id].key, n), Leaving(s, id, n);
      && id in t.info && t.info[id].key == s.info[id].key
      && (p in t.untried && t.untried[p] == id ==> Leaving(s, id, n + 1) == Release(t, p))
      && (!(p in t.untried && t.untried[p] == id) ==> Leaving(s, id, n + 1) == t)
  {
    hide NewPlaced;
    var p := SlotIn(h, s.info[id].key, n);
    LeavingStep(h, s.info, s.untried, id, n);
    if p in s.untried && s.untried[p] == id {
      RemainingStep(s.untried, id, n, p);
    } else {
      RemainingSame(s.untried, id, n);
    }
  }

  lemma LeavingAll(h: Bucketing, info: map<int, Info>, untried: map<Slot, int>, id: int)
    requires NewPlaced(h, info, untried)
    ensures LeftBelow(untried, id, NEW_BUCKETS) == SlotsOf(untried, id) && LeftBelow(untried, id, 0) == {}
    ensures Remaining(untried, id, NEW_BUCKETS) == (map p | p in untried && untried[p] != id :: untried[p])
    ensures Remaining(untried, id, 0) == untried
  {
    forall q | q in untried ensures 0 <= q.0 < NEW_BUCKETS { var x := untried[q]; }
    assert forall q :: q in LeftBelow(untried, id, NEW_BUCKETS) <==> q in SlotsOf(untried, id);
  }

  lemma LeavingWhole(h: Bucketing, s: State, id: int)
    requires NewPlaced(h, s.info, s.untried) && id in s.info
    ensures Leaving(s, id, 0) == s
    ensures Leaving(s, id, NEW_BUCKETS).(nNew := s.nNew - 1) == LeaveNew(s, id)
  {
    LeavingAll(h, s.info, s.untried, id);
    assert s.info[id := s.info[id]] == s.info;
  }

  class AddrManager {
    const hash: Bucketing
    var nIdCount: int
    var mapInfo: map<int, Info>
    var mapAddr: map<NetAddr, int>
    var vRandom: seq<int>
    var nTried: int
    const vvTried: array2<int>
    var nNew: int
    const vvNew: array2<int>
    var nLastGood: int
    var triedCollisions: set<int>
    ghost var tried: map<Slot, int>
    ghost var untried: map<Slot, int>

    ghost predicate Shaped()
      reads this, vvTried, vvNew
    {
      && vvTried.Length0 == TRIED_BUCKETS && vvTried.Length1 == BUCKET_SIZE
      && vvNew.Length0 == NEW_BUCKETS && vvNew.Length1 == BUCKET_SIZE
      && vvTried != vvNew && Holds(vvTried, tried) && Holds(vvNew, untried)
    }

    ghost function View(): State
      reads this
    {
      State(nIdCount, mapInfo, mapAddr, vRandom, nTried, tried, nNew, untried, nLastGood, triedCollisions)
    }

    ghost predicate Valid()
      reads this, vvTried, vvNew
    {
      Shaped() && Inv(hash, View())
    }

    constructor (hash: Bucketing)
      ensures Valid() && View() == Empty() && fresh(vvTried) && fresh(vvNew)
    {
      this.hash := hash;
      nIdCount, mapInfo, mapAddr, vRandom := 0, map[], map[], [];
      nTried, nNew, nLastGood, triedCollisions := 0, 0, 1, {};
      vvTried := new int[TRIED_BUCKETS, BUCKET_SIZE]((_, _) => EMPTY);
      vvNew := new int[NEW_BUCKETS, BUCKET_SIZE]((_, _) => EMPTY);
      tried, untried := map[], map[];
      new;
      EmptyInv(hash);
    }

    method SwapRandom(i: int, j: int)
      requires Shaped() && Shuffled(mapInfo, vRandom) && 0 <= i < |vRandom| && 0 <= j < |vRandom|
      modifies this
      ensures Shaped() && View() == AddrManState.SwapRandom(old(View()), i, j)
    {
      hide Holds;
      if i == j { return; }
      var id1, id2 := vRandom[i], vRandom[j];
      mapInfo := mapInfo[id1 := mapInfo[id1].(randomPos := j)];
      mapInfo := mapInfo[id2 := mapInfo[id2].(randomPos := i)];
      vRandom := vRandom[i := id2];
      vRandom := vRandom[j := id1];
    }

    method Delete(id: int)
      requires Shaped() && Shuffled(mapInfo, vRandom) && id in mapInfo && !mapInfo[id].inTried && mapInfo[id].refCount == 0
      modifies this
      ensures Shaped() && View() == AddrManState.Delete(old(View()), id)
    {
      hide Holds;
      var key := mapInfo[id].key;
      SwapThenPop(View(), id);
      SwapRandom(mapInfo[id].randomPos, |vRandom| - 1);
      vRandom := vRandom[..|vRandom| - 1];
      mapAddr := mapAddr - {key.addr};
      mapInfo := mapInfo - {id};
      nNew := nNew - 1;
    }

    method InCell(b: int, i: int, id: int) returns (r: bool)
      requires Shaped() && 0 <= b < NEW_BUCKETS && 0 <= i < BUCKET_SIZE && id != EMPTY
      ensures r <==> (b, i) in untried && untried[(b, i)] == id
      ensures r <==> vvNew[b, i] == id
    {
      r := vvNew[b, i] == id;
    }

    /** Empty an occupied new cell; its entry loses one reference. */
    method Release(b: int, i: int)
      requires Shaped() && 0 <= b < NEW_BUCKETS && 0 <= i < BUCKET_SIZE
      requires vvNew[b, i] != EMPTY && vvNew[b, i] in mapInfo
      modifies this, vvNew
      ensures (b, i) in old(untried) && old(untried)[(b, i)] in old(mapInfo)
      ensures Shaped() && View() == AddrManState.Release(old(View()), (b, i))
      ensures vvNew[b, i] == EMPTY
    {
      var id := vvNew[b, i];
      mapInfo := mapInfo[id := mapInfo[id].(refCount := mapInfo[id].refCount - 1)];
      vvNew[b, i], untried := EMPTY, untried - {(b, i)};
    }

    method ClearNew(b: int, i: int)
      requires Shaped() && Linked(View()) && NewPlaced(hash, mapInfo, untried) && Referenced(mapInfo, untried)
      requires 0 <= b < NEW_BUCKETS && 0 <= i < BUCKET_SIZE
      modifies this, vvNew
      ensures Shaped() && View() == AddrManState.ClearNew(old(View()), (b, i))
      ensures vvNew[b, i] == EMPTY
    {
      hide Linked, NewPlaced, Referenced;
      if vvNew[b, i] != EMPTY {
        var id := vvNew[b, i];
        ReleaseReady(hash, View(), (b, i));
        assert mapInfo[id].refCount > 0;
        Release(b, i);
        if mapInfo[id].refCount == 0 {
          Delete(id);
        }
      }
    }

    /** The entry gives up every new cell it holds. */
    method LeaveNew(id: int)
      requires Shaped() && NewPlaced(hash, mapInfo, untried) && id in mapInfo && id != EMPTY
      modifies this, vvNew
      ensures Shaped() && View() == AddrManState.LeaveNew(old(View()), id)
    {
      hide NewPlaced;
      ghost var s := View();
      LeavingWhole(hash, s, id);
      hide Leaving, AddrManState.Release, Holds;
      for b := 0 to NEW_BUCKETS
        invariant Shaped() && View() == Leaving(s, id, b)
      {
        LeavingNext(hash, s, id, b);
        var i := hash.place(mapInfo[id].key, true, b) % BUCKET_SIZE;
        var mine := InCell(b, i, id);
        if mine {
          Release(b, i);
        }
      }
      nNew := nNew - 1;
    }

    /** Empty a tried cell. */
    method Untry(b: int, i: int) returns (id: int)
      requires Shaped() && 0 <= b < TRIED_BUCKETS && 0 <= i < BUCKET_SIZE
      requires vvTried[b, i] != EMPTY && vvTried[b, i] in mapInfo
      modifies this, vvTried
      ensures (b, i) in old(tried) && id == old(tried)[(b, i)] && id in old(mapInfo)
      ensures Shaped() && View() == AddrManState.Untry(old(View()), (b, i))
      ensures vvTried[b, i] == EMPTY
    {
      id := vvTried[b, i];
      assert (b, i) in tried && tried[(b, i)] == id;
      mapInfo := mapInfo[id := mapInfo[id].(inTried := false)];
      vvTried[b, i], tried := EMPTY, tried - {(b, i)};
      nTried := nTried - 1;
    }

    /** Empty a tried cell; its entry goes back to the new table. */
    method EvictTried(b: int, i: int)
      requires Shaped() && Linked(View()) && Placed(hash, View()) && Numbered(View())
      requires 0 <= b < TRIED_BUCKETS && 0 <= i < BUCKET_SIZE && vvTried[b, i] != EMPTY
      modifies this, vvNew, vvTried
      ensures Shaped() && View() == Evict(hash, old(View()), (b, i))
      ensures vvTried[b, i] == EMPTY
    {
      hide Linked, Placed, Numbered, NewPlaced, Referenced;
      ghost var s := View();
      CellKnown(hash, s, (b, i));
      var id := Untry(b, i);
      var key, source := mapInfo[id].key, mapInfo[id].source;
      var ub := hash.untried(key, source) % NEW_BUCKETS;
      var ui := hash.place(key, true, ub) % BUCKET_SIZE;
      EvictReady(hash, s, (b, i), (ub, ui));
      ClearNew(ub, ui);
      ghost var u := View();
      Enlist(id, ub, ui);
      EvictIs(hash, s, (b, i), u);
    }

    /** Enter an evicted entry into the new set again. */
    method Enlist(id: int, b: int, i: int)
      requires Shaped() && id in mapInfo && mapInfo[id].refCount == 0 && id != EMPTY
      requires 0 <= b < NEW_BUCKETS && 0 <= i < BUCKET_SIZE
      modifies this, vvNew
      ensures Shaped() && View() == AddrManState.Acquire(old(View()), id, (b, i)).(nNew := old(nNew) + 1)
    {
      mapInfo := mapInfo[id := mapInfo[id].(refCount := 1)];
      vvNew[b, i], untried := id, untried[(b, i) := id];
      nNew := nNew + 1;
    }

    method MakeTried(id: int)
      requires Shaped() && Linked(View()) && Placed(hash, View()) && Numbered(View()) && id in mapInfo && !mapInfo[id].inTried
      modifies this, vvNew, vvTried
      ensures Shaped() && View() == AddrManOps.MakeTried(hash, old(View()), id)
    {
      assert id != EMPTY;
      hide Linked, Placed, Numbered, NewPlaced, Referenced, TriedPlaced;
      ghost var s := View();
      var key := mapInfo[id].key;
      LeaveNewReady(hash, s, id);
      LeaveNew(id);
      assert mapInfo[id].refCount == 0;
      var kb := hash.tried(key) % TRIED_BUCKETS;
      var ki := hash.place(key, false, kb) % BUCKET_SIZE;
      if vvTried[kb, ki] != EMPTY {
        EvictTried(kb, ki);
      }
      assert vvTried[kb, ki] == EMPTY;
      assert View() == Cleared(hash, s, id);
      ClearedEntry(hash, s, id);
      EnterTried(id, kb, ki);
    }

    method EnterTried(id: int, b: int, i: int)
      requires Shaped() && id in mapInfo && id != EMPTY && 0 <= b < TRIED_BUCKETS && 0 <= i < BUCKET_SIZE
      requires vvTried[b, i] == EMPTY
      modifies this, vvTried
      ensures Shaped() && View() == AddrManState.EnterTried(old(View()), id, (b, i))
    {
      vvTried[b, i], tried := id, tried[(b, i) := id];
      nTried := nTried + 1;
      mapInfo := mapInfo[id := mapInfo[id].(inTried := true)];
    }

    method Find(a: NetAddr) returns (r: Option<int>)
      ensures r == AddrManState.Find(View(), a)
    {
      if a !in mapAddr { return None; }
      var id := mapAddr[a];
      if id in mapInfo { return Some(id); }
      return None;
    }

    /** Good_: `rnd` is the random bucket at which the search for the entry's own cell starts. */
    method Good(key: Service, testBeforeEvict: bool, time: int, rnd: nat)
      requires Valid() && time > 0
      modifies this, vvNew, vvTried
      ensures Valid() && View() == AddrManOps.Good(hash, old(View()), key, testBeforeEvict, time)
    {
      hide Linked, Placed, Core, Held, Contested, Inv, Promote;
      ghost var s := View();
      InvReady(hash, s);
      GoodKeeps(hash, s, key, testBeforeEvict, time);
      nLastGood := time;
      var found := Find(key.addr);
      if found.None? || mapInfo[found.value].key != key { return; }
      var id := found.value;
      mapInfo := mapInfo[id := mapInfo[id].(lastSuccess := time, lastTry := time, attempts := 0)];
      assert View() == Succeed(s, id, time);
      RefreshKeeps(hash, s, id, mapInfo[id], time);
      InvReady(hash, View());
      PromoteEntry(id, testBeforeEvict, rnd);
    }

    /** The second half of Good_. */
    method PromoteEntry(id: int, testBeforeEvict: bool, rnd: nat)
      requires Shaped() && Inv(hash, View()) && Linked(View()) && Placed(hash, View()) && Numbered(View()) && id in mapInfo
      modifies this, vvNew, vvTried
      ensures Shaped() && View() == Promote(hash, old(View()), id, testBeforeEvict)
    {
      hide Linked, Placed, Core, Held, Contested, Inv, Numbered;
      var key := mapInfo[id].key;
      if mapInfo[id].inTried { return; }
      var bucket := FindBucket(id, key, rnd);
      var kb := hash.tried(key) % TRIED_BUCKETS;
      var ki := hash.place(key, false, kb) % BUCKET_SIZE;
      if testBeforeEvict && vvTried[kb, ki] != EMPTY {
        if |triedCollisions| < COLLISION_LIMIT {
          triedCollisions := triedCollisions + {id};
        }
      } else {
        MakeTried(id);
      }
    }

    /** Good_'s search for a new bucket that holds the entry: it always succeeds. */
    method FindBucket(id: int, key: Service, rnd: nat) returns (bucket: int)
      requires Shaped() && Inv(hash, View()) && id in mapInfo && !mapInfo[id].inTried && key == mapInfo[id].key
      ensures 0 <= bucket < NEW_BUCKETS && SlotIn(hash, key, bucket) in untried && untried[SlotIn(hash, key, bucket)] == id
    {
      hide Inv;
      InNewBucket(hash, View(), id);
      ghost var p :| p in SlotsOf(untried, id) && p == SlotIn(hash, key, p.0) && 0 <= p.0 < NEW_BUCKETS;
      ghost var turn := (p.0 - rnd) % NEW_BUCKETS;
      assert (turn + rnd) % NEW_BUCKETS == p.0;
      var n := 0;
      while n < NEW_BUCKETS
        invariant 0 <= n <= turn
      {
        var b := (n + rnd) % NEW_BUCKETS;
        var i := hash.place(key, true, b) % BUCKET_SIZE;
        if vvNew[b, i] == id {
          return b;
        }
        n := n + 1;
      }
      assert false;
    }

    method Create(a: Address, source: NetAddr) returns (id: int)
      requires Shaped()
      modifies this
      ensures id == old(nIdCount) && Shaped() && View() == AddrManState.Create(old(View()), a, source)
    {
      hide Holds;
      id := nIdCount;
      nIdCount := nIdCount + 1;
      mapInfo := mapInfo[id := Info(a.key, source, a.services, a.time, 0, 0, 0, 0, 0, false, -1)];
      mapAddr := mapAddr[a.key.addr := id];
      mapInfo := mapInfo[id := mapInfo[id].(randomPos := |vRandom|)];
      vRandom := vRandom + [id];
    }

    /** Add_'s stochastic test: each reference already held makes another one twice as unlikely. */
    method Lucky(refCount: int, dice: nat) returns (r: bool)
      ensures r <==> refCount <= 0 || dice % Pow2(refCount) == 0
    {
      var factor, n := 1, 0;
      while n < refCount
        invariant 0 <= n && (0 <= refCount ==> n <= refCount) && (refCount <= 0 ==> n == 0) && factor == Pow2(n)
      {
        factor := factor * 2;
        n := n + 1;
      }
      assert refCount > 0 ==> Pow2(refCount) == 2 * Pow2(refCount - 1);
      r := !(factor > 1 && dice % factor != 0);
    }

    /** Create the entry for an address not known before. */
    method Announce(a: Address, source: NetAddr, penalty: int) returns (id: int)
      requires Shaped()
      modifies this
      ensures id == old(nIdCount) && id in mapInfo && !mapInfo[id].inTried
      ensures Shaped() && View() == AddrManOps.Announce(old(View()), a, source, penalty)
    {
      hide Holds;
      id := Create(a, source);
      mapInfo := mapInfo[id := mapInfo[id].(time := Max(0, mapInfo[id].time - penalty) % UINT32_RANGE)];
      nNew := nNew + 1;
    }

    method Add(a: Address, routable: bool, source: NetAddr, penalty: int, luck: Luck) returns (added: bool)
      requires Valid()
      modifies this, vvNew
      ensures Valid() && (View(), added) == AddrManOps.Add(hash, old(View()), a, routable, source, penalty, luck)
    {
      hide Linked, Placed, Core, Held, Contested, Inv, Numbered, Place, AddKnown, Holds, AddrManOps.Announce, Grows;
      ghost var s := View();
      InvReady(hash, s);
      AddKeeps(hash, s, a, routable, source, penalty, luck);
      if !routable { return false; }
      var found := Find(a.key.addr);
      var pen := if a.key.addr == source then 0 else penalty;
      match found {
        case Some(id) =>
          UpdateKnown(id, a, source, pen, luck);
          return false;
        case None =>
          AnnounceReady(hash, s, a, source, pen);
          AnnounceKeeps(hash, s, a, source, pen);
          CoreParts(hash, AddrManOps.Announce(s, a, source, pen), 0);
          var id := Announce(a, source, pen);
          PlaceEntry(id, source, luck.terribleNow);
          return true;
      }
    }

    /** Add_ on a known entry: refresh its time now and then, and collect service bits. */
    method Hear(i: Info, a: Address, penalty: int, now: int) returns (r: Info)
      ensures r == Heard(i, a, penalty, now)
    {
      hide Max;
      r := i;
      var interval := if now - a.time < 24 * 60 * 60 then 60 * 60 else 24 * 60 * 60;
      if a.time != 0 && (r.time == 0 || r.time < a.time - interval - penalty) {
        r := r.(time := Max(0, a.time - penalty) % UINT32_RANGE);
      }
      r := r.(services := r.services + a.services);
    }

    method MayMultiply(i: Info, a: Address, dice: nat) returns (r: bool)
      ensures r == Multiplies(i, a, dice)
      ensures r ==> !i.inTried
    {
      if a.time == 0 || (i.time != 0 && a.time <= i.time) { return false; }
      if i.inTried { return false; }
      if i.refCount == NEW_BUCKETS_PER_ADDRESS { return false; }
      r := Lucky(i.refCount, dice);
    }

    method UpdateKnown(id: int, a: Address, source: NetAddr, penalty: int, luck: Luck)
      requires Shaped() && Inv(hash, View()) && Linked(View()) && Placed(hash, View()) && Numbered(View()) && id in mapInfo
      modifies this, vvNew
      ensures Shaped() && View() == AddKnown(hash, old(View()), id, a, source, penalty, luck)
    {
      hide Linked, Placed, Core, Held, Contested, Inv, Numbered, Place, Heard, Multiplies;
      HeardReady(hash, View(), id, a, penalty, luck.now);
      var i := Hear(mapInfo[id], a, penalty, luck.now);
      mapInfo := mapInfo[id := i];
      var more := MayMultiply(i, a, luck.dice);
      if more {
        PlaceEntry(id, source, luck.terribleNow);
      }
    }

    /** Put an entry into an empty new cell. */
    method Acquire(id: int, b: int, i: int)
      requires Shaped() && id in mapInfo && id != EMPTY && 0 <= b < NEW_BUCKETS && 0 <= i < BUCKET_SIZE
      modifies this, vvNew
      ensures Shaped() && View() == AddrManState.Acquire(old(View()), id, (b, i))
    {
      mapInfo := mapInfo[id := mapInfo[id].(refCount := mapInfo[id].refCount + 1)];
      vvNew[b, i], untried := id, untried[(b, i) := id];
    }

    /** The second half of Add_. */
    method PlaceEntry(id: int, source: NetAddr, now: int)
      requires Shaped() && Linked(View()) && Placed(hash, View()) && Numbered(View())
      requires id in mapInfo && !mapInfo[id].inTried
      modifies this, vvNew
      ensures Shaped() && View() == Place(hash, old(View()), id, source, now)
    {
      hide Shuffled, Indexed, Placed, Numbered, NewPlaced, Referenced, IsTerrible;
      hide AddrManState.ClearNew, AddrManState.Delete, AddrManState.Acquire;
      ghost var s := View();
      var key := mapInfo[id].key;
      var ub := hash.untried(key, source) % NEW_BUCKETS;
      var ui := hash.place(key, true, ub) % BUCKET_SIZE;
      PlaceReady(hash, s, id, (ub, ui));
      if vvNew[ub, ui] != id {
        var insert := vvNew[ub, ui] == EMPTY;
        if !insert {
          var existing := mapInfo[vvNew[ub, ui]];
          if IsTerrible(existing, now) || (existing.refCount > 1 && mapInfo[id].refCount == 0) {
            insert := true;
          }
        }
        if insert {
          ClearNew(ub, ui);
          Acquire(id, ub, ui);
        } else if mapInfo[id].refCount == 0 {
          Delete(id);
        }
      }
    }

    method Attempt(key: Service, countFailure: bool, time: int)
      requires Valid() && time >= 0
      modifies this
      ensures Valid() && View() == AddrManRuns.Attempt(old(View()), key, countFailure, time)
    {
      hide Inv, Holds;
      TouchKeeps(hash, View(), key, countFailure, time, {});
      var found := Find(key.addr);
      if found.None? || mapInfo[found.value].key != key { return; }
      var id := found.value;
      var i := mapInfo[id].(lastTry := time);
      if countFailure && i.lastCountAttempt < nLastGood {
        i := i.(lastCountAttempt := time, attempts := i.attempts + 1);
      }
      mapInfo := mapInfo[id := i];
    }

    method Connected(key: Service, time: int)
      requires Valid()
      modifies this
      ensures Valid() && View() == AddrManRuns.Connected(old(View()), key, time)
    {
      hide Inv, Holds;
      TouchKeeps(hash, View(), key, false, time, {});
      var found := Find(key.addr);
      if found.None? || mapInfo[found.value].key != key { return; }
      var id := found.value;
      if time - mapInfo[id].time > 20 * 60 {
        mapInfo := mapInfo[id := mapInfo[id].(time := time % UINT32_RANGE)];
      }
    }

    method SetServices(key: Service, services: set<nat>)
      requires Valid()
      modifies this
      ensures Valid() && View() == AddrManRuns.SetServices(old(View()), key, services)
    {
      hide Inv, Holds;
      TouchKeeps(hash, View(), key, false, 0, services);
      var found := Find(key.addr);
      if found.None? || mapInfo[found.value].key != key { return; }
      var id := found.value;
      mapInfo := mapInfo[id := mapInfo[id].(services := services)];
    }

    /** GetAddr_: distinct entries, at most the limit, and fewer only when every entry has been judged. */
    method GetAddr(maxAddresses: nat, maxPct: nat, dice: nat -> nat, now: nat -> int) returns (ids: seq<int>)
      requires Valid()
      modifies this
      ensures Valid() && Reordered(old(View()), View()) && Linked(View())
      ensures Shared(View(), ids, SampleLimit(|old(vRandom)|, maxAddresses, maxPct), now)
    {
      hide Inv, Holds, Shuffled, Indexed, Shared, Sampled, Reordered;
      ghost var s := View();
      InvReady(hash, s);
      var limit := |vRandom|;
      if maxPct != 0 { limit := maxPct * limit / 100; }
      if maxAddresses != 0 && maxAddresses < limit { limit := maxAddresses; }
      ids := [];
      SampleStart(s, now);
      var n := 0;
      while n < |vRandom| && |ids| < limit
        invariant Shaped() && Linked(View()) && Reordered(s, View()) && |vRandom| == |s.random|
        invariant 0 <= n <= |vRandom| && |ids| <= limit && Sampled(View(), n, ids, now)
        decreases |vRandom| - n
      {
        var j := dice(n) % (|vRandom| - n) + n;
        ghost var t := View();
        SwapPrefix(t, n, j);
        SwapRandomLinked(t, n, j);
        SwapRandom(n, j);
        SampleStep(t, View(), n, ids, now);
        ReorderedTransitive(s, t, View());
        var id := vRandom[n];
        InRandom(View(), n);
        if !IsTerrible(mapInfo[id], now(n)) {
          ids := ids + [id];
        }
        n := n + 1;
      }
      SampleDone(View(), n, limit, ids, now);
      ReorderedInv(hash, s, View());
    }

    /** The body of ResolveCollisions_'s loop. */
    method ResolveOne(id: int, valid: Service -> bool, clock: nat -> int, rnd: nat)
      requires Valid() && clock(4) > 0 && id in triedCollisions
      modifies this, vvNew, vvTried
      ensures Valid() && View() == Resolve(hash, old(View()), id, valid, clock)
    {
      hide Inv, Holds, Linked, Placed, Numbered, AddrManOps.Good;
      ghost var s := View();
      ResolveKeeps(hash, s, id, valid, clock);
      var erase := false;
      if id !in mapInfo {
        erase := true;
      } else {
        var key := mapInfo[id].key;
        var kb := hash.tried(key) % TRIED_BUCKETS;
        var ki := hash.place(key, false, kb) % BUCKET_SIZE;
        StillContested(hash, s, id);
        assert TriedSlot(hash, key) == (kb, ki);
        if !valid(key) {
          erase := true;
        } else if IsTaken(kb, ki) {
          var holder := mapInfo[vvTried[kb, ki]];
          if clock(0) - holder.lastSuccess < REPLACEMENT_HOURS * (60 * 60) {
            erase := true;
          } else if clock(1) - holder.lastTry < REPLACEMENT_HOURS * (60 * 60) {
            if clock(2) - holder.lastTry > 60 {
              Good(key, false, clock(4), rnd);
              erase := true;
            }
          } else if clock(3) - mapInfo[id].lastSuccess > TEST_WINDOW {
            Good(key, false, clock(4), rnd);
            erase := true;
          }
        } else {
          assert false;
        }
      }
      if erase {
        triedCollisions := triedCollisions - {id};
      }
    }

    predicate IsTaken(b: int, i: int)
      requires Shaped() && 0 <= b < TRIED_BUCKETS && 0 <= i < BUCKET_SIZE
      reads this, vvTried, vvNew
      ensures IsTaken(b, i) ==> (b, i) in tried && tried[(b, i)] == vvTried[b, i]
      ensures !IsTaken(b, i) ==> (b, i) !in tried
    {
      vvTried[b, i] != EMPTY
    }

    method ResolveCollisions(valid: Service -> bool, clock: int -> (nat -> int), rnd: nat) returns (ghost ids: seq<int>)
      requires Valid() && forall id :: clock(id)(4) > 0
      modifies this, vvNew, vvTried
      ensures Valid() && View() == ResolveAll(hash, old(View()), ids, valid, clock)
      ensures Ascending(ids) && forall id :: id in ids <==> id in old(triedCollisions)
    {
      hide Inv, Shaped, Resolve, Visited;
      ghost var s := View();
      var todo := triedCollisions;
      ids := [];
      VisitedNone(todo);
      while todo != {}
        invariant Shaped() && Inv(hash, View()) && View() == ResolveAll(hash, s, ids, valid, clock)
        invariant todo <= triedCollisions && Visited(s.collisions, ids, todo)
        decreases |todo|
      {
        Sets.HasLeast(todo);
        var id :| id in todo && forall x | x in todo :: id <= x;
        ResolveAllNext(hash, s, ids, id, valid, clock);
        VisitedNext(s.collisions, ids, todo, id);
        ResolveOne(id, valid, clock(id), rnd);
        ids, todo := ids + [id], todo - {id};
      }
      VisitedAll(s.collisions, ids);
    }

    /** SelectTriedCollision_; `id` is what the random draw picks, if anything is pending. */
    method SelectTriedCollision(id: int) returns (r: Option<Info>)
      requires Valid() && (triedCollisions == {} || id in triedCollisions)
      modifies this
      ensures Valid() && (View(), r) == AddrManRuns.SelectTriedCollision(hash, old(View()), id)
    {
      hide Inv, Holds;
      ghost var s := View();
      if triedCollisions == {} { return None; }
      if id !in mapInfo {
        DismissKeeps(hash, s, id);
        triedCollisions := triedCollisions - {id};
        return None;
      }
      var key := mapInfo[id].key;
      var kb := hash.tried(key) % TRIED_BUCKETS;
      var ki := hash.place(key, false, kb) % BUCKET_SIZE;
      StillContested(hash, s, id);
      assert TriedSlot(hash, key) == (kb, ki) && IsTaken(kb, ki);
      return Some(mapInfo[vvTried[kb, ki]]);
    }

    // ---------------------------------------------------------------- the file

    /** Entries of the new table, and the number each id gets. */
    method ListNews() returns (news: seq<Record>, mapUnkIds: map<int, int>)
      requires Valid()
      ensures news == NewBelow(View(), nIdCount)
      ensures forall id | id in mapInfo :: id in mapUnkIds && 0 <= id && mapUnkIds[id] == Rank(View(), id)
    {
      hide Inv, Save;
      InvIds(hash, View());
      SavedCounts(hash, View());
      SaveIs(View());
      news, mapUnkIds := [], map[];
      for id := 0 to nIdCount
        invariant news == NewBelow(View(), id)
        invariant forall x | x in mapInfo && x < id :: x in mapUnkIds && mapUnkIds[x] == Rank(View(), x)
      {
        if id in mapInfo {
          mapUnkIds := mapUnkIds[id := |news|];
          if mapInfo[id].refCount != 0 {
            NewListed(View(), id, nIdCount);
            assert |news| != nNew;
            news := news + [RecordOf(mapInfo[id])];
          }
        }
      }
    }

    method ListTrieds() returns (trieds: seq<Record>)
      requires Valid()
      ensures trieds == TriedBelow(View(), nIdCount)
    {
      hide Inv, Save;
      InvIds(hash, View());
      SavedCounts(hash, View());
      SaveIs(View());
      trieds := [];
      for id := 0 to nIdCount
        invariant trieds == TriedBelow(View(), id)
      {
        if id in mapInfo && mapInfo[id].inTried {
          TriedListed(View(), id, nIdCount);
          assert |trieds| != nTried;
          trieds := trieds + [RecordOf(mapInfo[id])];
        }
      }
    }

    method ListBucket(bucket: int, mapUnkIds: map<int, int>) returns (r: seq<int>)
      requires Valid() && 0 <= bucket < NEW_BUCKETS
      requires forall id | id in mapInfo :: id in mapUnkIds && 0 <= id && mapUnkIds[id] == Rank(View(), id)
      ensures r == BucketBelow(View(), bucket, BUCKET_SIZE)
    {
      hide Inv, Rank;
      r := [];
      for i := 0 to BUCKET_SIZE
        invariant r == BucketBelow(View(), bucket, i)
      {
        if vvNew[bucket, i] != EMPTY {
          CellInside(hash, View(), (bucket, i));
          r := r + [mapUnkIds[vvNew[bucket, i]]];
        }
      }
    }

    method Serialize() returns (f: File)
      requires Valid()
      ensures nIdCount >= 0 && f == Save(View())
    {
      hide Inv, NewBelow, TriedBelow, BucketBelow, Rank;
      InvIds(hash, View());
      var news, mapUnkIds := ListNews();
      var trieds := ListTrieds();
      var buckets := [];
      for bucket := 0 to NEW_BUCKETS
        invariant |buckets| == bucket && forall b | 0 <= b < bucket :: buckets[b] == BucketBelow(View(), b, BUCKET_SIZE)
      {
        var one := ListBucket(bucket, mapUnkIds);
        buckets := buckets + [one];
      }
      f := File(news, trieds, buckets);
      assert f.buckets == Save(View()).buckets;
    }

    /** Forget every address. The pending collisions are kept. */
    method Clear()
      requires Shaped()
      modifies this, vvTried, vvNew
      ensures Shaped() && View() == Empty().(collisions := old(triedCollisions))
    {
      nIdCount, mapInfo, mapAddr, vRandom := 0, map[], map[], [];
      nTried, nNew, nLastGood := 0, 0, 1;
      ClearTable(vvNew);
      ClearTable(vvTried);
      tried, untried := map[], map[];
    }

    static method ClearTable(a: array2<int>)
      modifies a
      ensures forall b, i | 0 <= b < a.Length0 && 0 <= i < a.Length1 :: a[b, i] == EMPTY
    {
      for b := 0 to a.Length0
        invariant forall c, i | 0 <= c < b && 0 <= i < a.Length1 :: a[c, i] == EMPTY
      {
        for i := 0 to a.Length1
          invariant forall c, j | 0 <= c < b && 0 <= j < a.Length1 :: a[c, j] == EMPTY
          invariant forall j | 0 <= j < i :: a[b, j] == EMPTY
        {
          a[b, i] := EMPTY;
        }
      }
    }

    /** The new entries, under the ids 0, 1, 2, ... */
    method ReadNews(news: seq<Record>)
      requires Shaped() && nIdCount == 0
      modifies this
      ensures Shaped() && View() == LoadNews(old(View()), news).(nNew := old(nNew))
    {
      hide Holds;
      ghost var s := View();
      for n := 0 to |news|
        invariant Shaped() && View().(idCount := n) == LoadNews(s, news[..n]).(nNew := s.nNew)
        invariant nIdCount == 0
      {
        assert news[..n + 1][..n] == news[..n];
        mapInfo := mapInfo[n := Fresh(news[n], |vRandom|)];
        mapAddr := mapAddr[news[n].key.addr := n];
        vRandom := vRandom + [n];
      }
      assert news[..|news|] == news;
      nIdCount := |news|;
    }

    method FillTried(b: int, i: int, id: int)
      requires Shaped() && 0 <= b < TRIED_BUCKETS && 0 <= i < BUCKET_SIZE && id != EMPTY
      modifies this`tried, vvTried
      ensures Shaped() && tried == old(tried)[(b, i) := id]
    {
      vvTried[b, i], tried := id, tried[(b, i) := id];
    }

    method IsFree(b: int, i: int) returns (r: bool)
      requires Shaped() && 0 <= b < TRIED_BUCKETS && 0 <= i < BUCKET_SIZE
      ensures r <==> (b, i) !in tried
    {
      r := vvTried[b, i] == EMPTY;
    }

    /** A tried entry, unless its cell is taken. */
    method ReadTried(r: Record) returns (lost: bool)
      requires Shaped() && nIdCount >= 0
      modifies this, vvTried
      ensures Shaped() && View() == LoadTried(hash, old(View()), r).(nTried := old(nTried)) && nIdCount >= 0
      ensures LoadTried(hash, old(View()), r).nTried == old(nTried) + if lost then 0 else 1
    {
      hide Holds, Fresh;
      var kb := hash.tried(r.key) % TRIED_BUCKETS;
      var ki := hash.place(r.key, false, kb) % BUCKET_SIZE;
      var free := IsFree(kb, ki);
      if free {
        mapInfo := mapInfo[nIdCount := Fresh(r, |vRandom|).(inTried := true)];
        vRandom := vRandom + [nIdCount];
        mapAddr := mapAddr[r.key.addr := nIdCount];
        FillTried(kb, ki, nIdCount);
        nIdCount := nIdCount + 1;
      }
      lost := !free;
    }

    /** The number of tried entries is known beforehand and corrected for those that are lost. */
    method ReadTrieds(trieds: seq<Record>)
      requires Shaped() && nIdCount >= 0 && nTried == |trieds|
      modifies this, vvTried
      ensures Shaped() && nIdCount >= 0 && View() == LoadTrieds(hash, old(View()).(nTried := 0), trieds)
    {
      hide Holds, LoadTried;
      ghost var s := View().(nTried := 0);
      var nLost := 0;
      for k := 0 to |trieds|
        invariant Shaped() && nIdCount >= 0 && nTried == |trieds|
        invariant View().(nTried := k - nLost) == LoadTrieds(hash, s, trieds[..k])
      {
        assert trieds[..k + 1][..k] == trieds[..k];
        LoadTriedShift(hash, View(), k - nLost, trieds[k]);
        var lost := ReadTried(trieds[k]);
        if lost {
          nLost := nLost + 1;
        }
      }
      assert trieds[..|trieds|] == trieds;
      nTried := nTried - nLost;
    }

    /** The last bucket that lists each entry. */
    method ReadBuckets(buckets: seq<seq<int>>, count: nat) returns (entryToBucket: map<int, int>)
      ensures forall n | 0 <= n < count ::
        (if n in entryToBucket then entryToBucket[n] else 0) == LastBucket(buckets, n, |buckets|)
    {
      entryToBucket := map[];
      for b := 0 to |buckets|
        invariant forall n | 0 <= n < count :: (if n in entryToBucket then entryToBucket[n] else 0) == LastBucket(buckets, n, b)
      {
        ghost var before := entryToBucket;
        for i := 0 to |buckets[b]|
          invariant forall n | 0 <= n < count ::
            if n in buckets[b][..i] then n in entryToBucket && entryToBucket[n] == b
            else (n in entryToBucket <==> n in before) && (n in before ==> entryToBucket[n] == before[n])
        {
          var index := buckets[b][i];
          assert buckets[b][..i + 1] == buckets[b][..i] + [index];
          if 0 <= index < count {
            entryToBucket := entryToBucket[index := b];
          }
        }
        assert buckets[b][..|buckets[b]|] == buckets[b];
      }
    }

    /** An entry back into a new cell. */
    method ReplaceEntry(n: int, bucket: int, same: bool)
      requires Shaped() && n in mapInfo && n != EMPTY && (same ==> 0 <= bucket < NEW_BUCKETS)
      modifies this, vvNew
      ensures Shaped() && View() == PeersFile.Replace(hash, old(View()), n, bucket, same)
    {
      var key := mapInfo[n].key;
      var pos := hash.place(key, true, bucket) % BUCKET_SIZE;
      if same && vvNew[bucket, pos] == EMPTY && mapInfo[n].refCount < NEW_BUCKETS_PER_ADDRESS {
        Acquire(n, bucket, pos);
      } else {
        var b := hash.untried(key, mapInfo[n].source) % NEW_BUCKETS;
        var i := hash.place(key, true, b) % BUCKET_SIZE;
        if vvNew[b, i] == EMPTY {
          Acquire(n, b, i);
        }
      }
    }

    method ReplaceEntries(buckets: seq<seq<int>>, count: nat, same: bool)
      requires Shaped() && (same ==> |buckets| == NEW_BUCKETS) && forall i | 0 <= i < count :: i in mapInfo
      modifies this, vvNew
      ensures Shaped() && View() == ReplaceAll(hash, old(View()), buckets, count, same)
    {
      hide Holds, PeersFile.Replace;
      ghost var s := View();
      var entryToBucket := ReadBuckets(buckets, count);
      for n := 0 to count
        invariant Shaped() && View() == ReplaceAll(hash, s, buckets, n, same)
      {
        var bucket := if n in entryToBucket then entryToBucket[n] else 0;
        ReplaceEntry(n, bucket, same);
      }
    }

    /** Drop the entries that got no cell. */
    method PruneEntries()
      requires Shaped() && Shuffled(mapInfo, vRandom) && nIdCount >= 0
      modifies this
      ensures nIdCount == old(nIdCount) && Shaped() && View() == Prune(old(View()), nIdCount)
    {
      hide Holds, Shuffled, AddrManState.Delete;
      ghost var s := View();
      for id := 0 to nIdCount
        invariant Shaped() && View() == Prune(s, id)
      {
        PruneId(s, id);
        if id in mapInfo && !mapInfo[id].inTried && mapInfo[id].refCount == 0 {
          Delete(id);
        }
      }
      PruneId(s, s.idCount);
    }

    /** Check_'s tests on one entry. Looking up a missing address enters it with 0. */
    method CheckEntry(n: int) returns (code: int)
      requires Shaped() && n in mapInfo
      modifies `mapAddr
      ensures Shaped() && forall a :: AddressId(mapAddr, a) == AddressId(old(mapAddr), a)
      ensures mapInfo[n].key.addr in old(mapAddr) ==> mapAddr == old(mapAddr)
      ensures code == 0 <==> EntryChecked(old(View()), n)
    {
      hide Holds;
      var info := mapInfo[n];
      if info.inTried {
        if info.lastSuccess == 0 { return -1; }
        if info.refCount != 0 { return -2; }
      } else {
        if info.refCount < 0 || info.refCount > NEW_BUCKETS_PER_ADDRESS { return -3; }
        if info.refCount == 0 { return -4; }
      }
      if info.key.addr !in mapAddr { mapAddr := mapAddr[info.key.addr := 0]; }
      if mapAddr[info.key.addr] != n { return -5; }
      if info.randomPos < 0 || info.randomPos >= |vRandom| || vRandom[info.randomPos] != n { return -14; }
      if info.lastTry < 0 { return -6; }
      if info.lastSuccess < 0 { return -8; }
      return 0;
    }

    /** Check_'s pass over mapInfo. */
    method CheckEntries() returns (code: int, setTried: set<int>, mapNew: map<int, int>)
      requires Shaped()
      modifies `mapAddr
      ensures Shaped() && forall a :: AddressId(mapAddr, a) == AddressId(old(mapAddr), a)
      ensures Indexed(mapInfo, old(mapAddr)) ==> mapAddr == old(mapAddr)
      ensures code == 0 <==> forall id | id in mapInfo :: EntryChecked(old(View()), id)
      ensures code == 0 ==> setTried == TriedOnce(mapInfo).Keys && mapNew == References(mapInfo)
    {
      hide Holds, AddressId;
      ghost var s := View();
      setTried, mapNew := {}, map[];
      var todo := mapInfo.Keys;
      while todo != {}
        invariant Shaped() && todo <= mapInfo.Keys && forall a :: AddressId(mapAddr, a) == AddressId(s.addr, a)
        invariant Indexed(mapInfo, s.addr) ==> mapAddr == s.addr
        invariant forall id | id in mapInfo && id !in todo :: EntryChecked(s, id)
        invariant setTried == (set id | id in mapInfo && id !in todo && mapInfo[id].inTried)
        invariant mapNew == map id | id in mapInfo && id !in todo && !mapInfo[id].inTried :: mapInfo[id].refCount
      {
        ghost var some := Sets.Pick(todo);
        var n :| n in todo;
        code := CheckEntry(n);
        if code != 0 { return; }
        if mapInfo[n].inTried { setTried := setTried + {n}; } else { mapNew := mapNew[n := mapInfo[n].refCount]; }
        todo := todo - {n};
      }
      code := 0;
      assert setTried == TriedOnce(mapInfo).Keys;
    }

    /** Check_'s pass over the tried table, which strikes each entry that it meets from setTried. */
    method CheckTried(setTried: set<int>) returns (code: int, left: set<int>)
      requires Shaped() && TriedPass(hash, mapInfo, tried, 0, 0, setTried)
      ensures code == 0 && left == {} <==> TriedChecked(hash, mapInfo, tried)
    {
      hide Holds, TriedPass, TriedChecked;
      left := setTried;
      for n := 0 to TRIED_BUCKETS
        invariant TriedPass(hash, mapInfo, tried, n, 0, left)
      {
        for i := 0 to BUCKET_SIZE
          invariant TriedPass(hash, mapInfo, tried, n, i, left)
        {
          HoldsCell(vvTried, tried, n, i);
          TriedPassStep(hash, mapInfo, tried, n, i, left);
          TriedLeftKnown(hash, mapInfo, tried, n, i, left);
          var id := vvTried[n, i];
          if id != EMPTY {
            if id !in left { return -11, left; }
            if hash.tried(mapInfo[id].key) % TRIED_BUCKETS != n { return -17, left; }
            if hash.place(mapInfo[id].key, false, n) % BUCKET_SIZE != i { return -18, left; }
            left := left - {id};
          }
        }
        HoldsRange(vvTried, tried);
        TriedRow(hash, mapInfo, tried, n, left);
      }
      code := 0;
      HoldsRange(vvTried, tried);
      TriedEnds(hash, mapInfo, tried, left);
    }

    /** Check_'s pass over the new table, which counts each entry down in mapNew. */
    method CheckNew(mapNew: map<int, int>) returns (code: int, left: map<int, int>)
      requires Shaped() && NewPass(hash, mapInfo, untried, 0, 0, mapNew)
      ensures code == 0 && left == map[] <==> NewChecked(hash, mapInfo, untried)
    {
      hide Holds, NewPass, NewChecked;
      left := mapNew;
      for n := 0 to NEW_BUCKETS
        invariant NewPass(hash, mapInfo, untried, n, 0, left)
      {
        for i := 0 to BUCKET_SIZE
          invariant NewPass(hash, mapInfo, untried, n, i, left)
        {
          HoldsCell(vvNew, untried, n, i);
          NewPassStep(hash, mapInfo, untried, n, i, left);
          NewLeftKnown(hash, mapInfo, untried, n, i, left);
          var id := vvNew[n, i];
          if id != EMPTY {
            if id !in left { return -12, left; }
            if hash.place(mapInfo[id].key, true, n) % BUCKET_SIZE != i { return -19, left; }
            left := if left[id] == 1 then left - {id} else left[id := left[id] - 1];
          }
        }
        HoldsRange(vvNew, untried);
        NewRow(hash, mapInfo, untried, n, left);
      }
      code := 0;
      HoldsRange(vvNew, untried);
      NewEnds(hash, mapInfo, untried, left);
    }

    /** The debugging self-check. It changes nothing but that missing addresses are entered with 0. */
    method Check() returns (code: int)
      requires Shaped()
      modifies `mapAddr
      ensures Shaped() && (code == 0 <==> Checked(hash, old(View())))
      ensures forall a :: AddressId(mapAddr, a) == AddressId(old(mapAddr), a)
      ensures old(Valid()) ==> code == 0 && View() == old(View())
    {
      hide Holds, Inv, EntryChecked, Checked, AddressId, TriedPass, NewPass, TriedChecked, NewChecked, TriedOnce, References;
      ghost var s := View();
      CheckedParts(hash, s);
      if old(Valid()) { InvChecked(hash, s); InvIndexed(hash, s); }
      if |vRandom| != nTried + nNew { return -7; }
      var setTried, mapNew;
      code, setTried, mapNew := CheckEntries();
      if code != 0 { return; }
      if |setTried| != nTried { return -9; }
      if |mapNew| != nNew { return -10; }
      HoldsRange(vvTried, tried);
      HoldsRange(vvNew, untried);
      PassStarts(hash, s);
      code, setTried := CheckTried(setTried);
      if code != 0 { return; }
      code, mapNew := CheckNew(mapNew);
      if code != 0 { return; }
      if |setTried| != 0 { return -13; }
      if |mapNew| != 0 { return -15; }
    }

    /** Reads any file. `same`: format and asmap are as they were when it was written. */
    method Unserialize(f: File, same: bool)
      requires Shaped()
      modifies this, vvTried, vvNew
      ensures Shaped() && View() == Load(hash, old(triedCollisions), f, same)
      ensures Valid() <==> Consistent(hash, old(triedCollisions), f, same) && PendingFits(hash, old(triedCollisions), f, same)
      ensures Checked(hash, View()) <==> Passing(hash, old(triedCollisions), f, same)
    {
      hide Holds, Inv, Checked, LoadNews, LoadTrieds, ReplaceAll, Prune, Consistent, PendingFits, Passing;
      ghost var pending := triedCollisions;
      LoadInvIff(hash, pending, f, same);
      LoadCheckedIff(hash, pending, f, same);
      LoadParts(hash, pending, f, same);
      Clear();
      nNew, nTried := |f.news|, |f.trieds|;
      ghost var s := LoadNews(Start(pending), f.news);
      LoadNewsShift(Start(pending), |f.news|, |f.trieds|, f.news);
      ReadNews(f.news);
      assert View() == s.(nTried := |f.trieds|);
      ReadTrieds(f.trieds);
      assert View() == Read(hash, pending, f);
      ReplaceEntries(f.buckets, |f.news|, same && |f.buckets| == NEW_BUCKETS);
      PruneEntries();
    }
  }

  ghost predicate Ascending(ids: seq<int>) {
    forall i, j | 0 <= i < j < |ids| :: ids[i] < ids[j]
  }

  /** `ids` have been visited in ascending order and `todo` are still ahead. */
  ghost predicate Visited(all: set<int>, ids: seq<int>, todo: set<int>) {
    && (forall id :: id in all <==> id in ids || id in todo)
    && (forall i, x | 0 <= i < |ids| && x in todo :: ids[i] < x)
    && Ascending(ids)
  }

  lemma VisitedNone(all: set<int>)
    ensures Visited(all, [], all)
  {
  }

  lemma VisitedNext(all: set<int>, ids: seq<int>, todo: set<int>, id: int)
    requires Visited(all, ids, todo) && id in todo && forall x | x in todo :: id <= x
    ensures Visited(all, ids + [id], todo - {id})
  {
  }

  lemma VisitedAll(all: set<int>, ids: seq<int>)
    requires Visited(all, ids, {})
    ensures Ascending(ids) && forall id :: id in ids <==> id in all
  {
  }

  lemma ResolveAllNext(h: Bucketing, s: State, ids: seq<int>, id: int, valid: Service -> bool, clock: int -> (nat -> int))
    requires Inv(h, s) && forall id :: clock(id)(4) > 0
    ensures var t := ResolveAll(h, s, ids, valid, clock);
      && ResolveAll(h, s, ids + [id], valid, clock) == Resolve(h, t, id, valid, clock(id))
      && t.collisions - {id} <= Resolve(h, t, id, valid, clock(id)).collisions
  {
    assert (ids + [id])[..|ids|] == ids;
    ResolveLeaves(h, ResolveAll(h, s, ids, valid, clock), id, valid, clock(id));
  }

  /** Resolving one pending entry leaves the others pending. */
  lemma ResolveLeaves(h: Bucketing, s: State, id: int, valid: Service -> bool, clock: nat -> int)
    requires Inv(h, s)
    ensures s.collisions - {id} <= Resolve(h, s, id, valid, clock).collisions
  {
    if id in s.info && Find(s, s.info[id].key.addr) == Some(id) {
      var t := Succeed(s, id, clock(4));
      RefreshReady(h, s, id, t.info[id], clock(4));
      if !t.info[id].inTried { MakeTriedGrows(h, t, id); }
    }
  }

  lemma SampleStart(s: State, now: nat -> int)
    requires Linked(s)
    ensures Reordered(s, s) && Sampled(s, 0, [], now)
  {
  }

  lemma InRandom(s: State, n: int)
    requires Linked(s) && 0 <= n < |s.random|
    ensures s.random[n] in s.info
  {
  }

  lemma CoreParts(h: Bucketing, s: State, k: int)
    requires Core(h, s, k)
    ensures Linked(s) && Placed(h, s) && Numbered(s)
  {
  }

  lemma HeardReady(h: Bucketing, s: State, id: int, a: Address, penalty: int, now: int)
    requires Linked(s) && Placed(h, s) && Numbered(s) && id in s.info
    ensures var t := s.(info := s.info[id := Heard(s.info[id], a, penalty, now)]); Linked(t) && Placed(h, t) && Numbered(t)
  {
    hide Linked, Placed;
    RefreshReady(h, s, id, Heard(s.info[id], a, penalty, now), s.lastGood);
  }

  lemma PlaceReady(h: Bucketing, s: State, id: int, q: Slot)
    requires Linked(s) && Placed(h, s) && Numbered(s) && id in s.info
    ensures NewPlaced(h, s.info, s.untried) && Referenced(s.info, s.untried) && id != EMPTY
    ensures q in s.untried ==> s.untried[q] in s.info
    ensures (q in s.untried ==> s.untried[q] != id) ==> id in AddrManState.ClearNew(s, q).info
  {
    ClearNewEntries(h, s, q);
    if q in s.untried { var x := s.untried[q]; }
  }

  /** An untried entry is in some new bucket, in the cell that its hash gives there. */
  lemma InNewBucket(h: Bucketing, s: State, id: int)
    requires Inv(h, s) && id in s.info && !s.info[id].inTried
    ensures id != EMPTY
    ensures exists p :: p in SlotsOf(s.untried, id) && p == SlotIn(h, s.info[id].key, p.0) && 0 <= p.0 < NEW_BUCKETS
  {
    assert |SlotsOf(s.untried, id)| >= 1;
    var p :| p in SlotsOf(s.untried, id);
    var x := s.untried[p];
  }

  lemma CellKnown(h: Bucketing, s: State, p: Slot)
    requires Placed(h, s) && p in s.tried && Numbered(s)
    ensures s.tried[p] in s.info && s.tried[p] != EMPTY
  { var x := s.tried[p]; }

  lemma EvictIs(h: Bucketing, s: State, p: Slot, u: State)
    requires Linked(s) && Placed(h, s) && p in s.tried && Linked(Untry(s, p))
    requires u == AddrManState.ClearNew(Untry(s, p), NewSlot(h, s.info[s.tried[p]].key, s.info[s.tried[p]].source))
    requires s.tried[p] in u.info
    ensures Evict(h, s, p)
      == Acquire(u, s.tried[p], NewSlot(h, s.info[s.tried[p]].key, s.info[s.tried[p]].source)).(nNew := u.nNew + 1)
  {
  }

  lemma ReleaseReady(h: Bucketing, s: State, p: Slot)
    requires Linked(s) && NewPlaced(h, s.info, s.untried) && Referenced(s.info, s.untried) && p in s.untried
    ensures var id := s.untried[p]; id in s.info && !s.info[id].inTried && s.info[id].refCount > 0 && Linked(Release(s, p))
  {
    var id := s.untried[p];
    assert p in SlotsOf(s.untried, id);
    RewriteLinked(s, id, s.info[id].(refCount := s.info[id].refCount - 1));
  }

  /** Between Untry and the return to the new table, ClearNew may be called and spares the evicted entry. */
  lemma EvictReady(h: Bucketing, s: State, p: Slot, q: Slot)
    requires Linked(s) && Placed(h, s) && p in s.tried
    ensures var t, id := Untry(s, p), s.tried[p];
      && Linked(t) && NewPlaced(h, t.info, t.untried) && Referenced(t.info, t.untried)
      && id in AddrManState.ClearNew(t, q).info && AddrManState.ClearNew(t, q).info[id].refCount == 0
  {
    var id := s.tried[p];
    NoSlots(h, s, id);
    RewriteLinked(s, id, s.info[id].(inTried := false));
    FlipNew(h, s.info, s.untried, id, s.info[id].(inTried := false));
    VacateEntries(h, s, p, q);
  }

  lemma InvIds(h: Bucketing, s: State)
    requires Inv(h, s)
    ensures s.idCount >= 0 && forall id | id in s.info :: 0 <= id < s.idCount
  {
  }

  lemma CellInside(h: Bucketing, s: State, p: Slot)
    requires Inv(h, s) && p in s.untried
    ensures s.untried[p] in s.info && s.untried[p] >= 0
  {
    var id := s.untried[p];
  }

  /** Loading a tried entry only adds to the counter. */
  lemma LoadTriedShift(h: Bucketing, s: State, c: int, r: Record)
    ensures LoadTried(h, s.(nTried := c), r)
      == LoadTried(h, s, r).(nTried := c + LoadTried(h, s, r).nTried - s.nTried)
  {
    hide TriedSlot, Fresh;
  }

  /** Loading new entries does not depend on the counters. */
  lemma {:induction false} LoadNewsShift(s: State, a: int, b: int, rs: seq<Record>)
    ensures LoadNews(s.(nNew := a, nTried := b), rs).(nNew := a)
      == LoadNews(s, rs).(nNew := a, nTried := b)
  {
    if rs != [] { LoadNewsShift(s, a, b, rs[..|rs| - 1]); }
  }

  /** The stages of a load, and what each relies on. */
  lemma LoadParts(h: Bucketing, pending: set<int>, f: File, same: bool)
    ensures
      var s, t, u := LoadNews(Start(pending), f.news), Read(h, pending, f), LoadTables(h, pending, f, same);
      && s.idCount == |f.news| == s.nNew && s.nTried == 0 && (forall i | 0 <= i < |f.news| :: i in t.info)
      && Shuffled(u.info, u.random) && u.idCount >= 0
  {
    hide LoadNews, LoadTrieds, ReplaceAll, Shuffled, Placed, Counted, Latest;
    NewsLoaded(h, pending, f.news);
    ReadIs(h, pending, f);
    LoadTablesIs(h, pending, f, same);
  }

  lemma {:induction false} PruneId(s: State, n: nat)
    requires Shuffled(s.info, s.random)
    ensures Prune(s, n).idCount == s.idCount
  {
    hide Shuffled;
    if n > 0 { PruneId(s, n - 1); }
  }
}
