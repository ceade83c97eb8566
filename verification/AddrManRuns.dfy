/** The remaining operations of the address manager, and whole runs from an empty manager. */
module AddrManRuns {
  import opened Basics
  import opened AddrManState
  import opened AddrManSteps
  import opened AddrManOps
  import opened AddrManCheck

  // ---------------------------------------------------------------- Good at any time

  /** Good_ acts on an entry, and that entry stays in the new table. */
  ghost predicate StaysNew(h: Bucketing, s: State, id: int, testBeforeEvict: bool)
    requires id in s.info
  {
    !s.info[id].inTried && testBeforeEvict && TriedSlot(h, s.info[id].key) in s.tried
  }

  /** Exactly when Good_ keeps the invariant, and Check_ passes after it: a time of 0 is refused for tried entries. */
  lemma GoodIff(h: Bucketing, s: State, key: Service, testBeforeEvict: bool, time: int)
    requires Inv(h, s)
    ensures
      var keeps := match Exact(s, key)
        case Some(id) => time > 0 || (time == 0 && StaysNew(h, s, id, testBeforeEvict))
        case None => true;
      var t := Good(h, s, key, testBeforeEvict, time);
      (Inv(h, t) <==> keeps) && (Checked(h, t) <==> keeps)
  {
    hide Linked, Placed, Held, Contested, Checked;
    var t := Good(h, s, key, testBeforeEvict, time);
    if Inv(h, t) { InvChecked(h, t); }
    match Exact(s, key)
    case Some(id) =>
      if time > 0 {
        GoodKeeps(h, s, key, testBeforeEvict, time);
      } else if time == 0 && StaysNew(h, s, id, testBeforeEvict) {
        WaitingKeeps(h, s, id, testBeforeEvict);
      } else {
        Mistimed(h, s, id, testBeforeEvict, time);
      }
    case None => IgnoredKeeps(h, s, time);
  }

  lemma IgnoredKeeps(h: Bucketing, s: State, time: int)
    requires Inv(h, s)
    ensures Inv(h, s.(lastGood := time))
  {
    SameIds(s, s.(lastGood := time));
  }

  lemma WaitingKeeps(h: Bucketing, s: State, id: int, testBeforeEvict: bool)
    requires Inv(h, s) && id in s.info && StaysNew(h, s, id, testBeforeEvict)
    ensures Inv(h, Promote(h, Succeed(s, id, 0), id, testBeforeEvict))
  {
    var t := Succeed(s, id, 0);
    RefreshKeeps(h, s, id, t.info[id], 0);
    if |t.collisions| < COLLISION_LIMIT { CollideKeeps(h, t, id); }
  }

  lemma Mistimed(h: Bucketing, s: State, id: int, testBeforeEvict: bool, time: int)
    requires Inv(h, s) && id in s.info && (time < 0 || (time == 0 && !StaysNew(h, s, id, testBeforeEvict)))
    ensures Linked(Succeed(s, id, time)) && Placed(h, Succeed(s, id, time))
    ensures !Checked(h, Promote(h, Succeed(s, id, time), id, testBeforeEvict))
  {
    var t := Succeed(s, id, time);
    RefreshReady(h, s, id, t.info[id], time);
    var u := Promote(h, t, id, testBeforeEvict);
    if !t.info[id].inTried && !StaysNew(h, t, id, testBeforeEvict) { ClearedEntry(h, t, id); }
    assert !EntryChecked(u, id);
  }

  // ---------------------------------------------------------------- Attempt, Connected, SetServices

  /** The entry these three operations act on: the one with exactly this address and port. */
  function Exact(s: State, key: Service): Option<int> {
    match Find(s, key.addr)
    case Some(id) => if s.info[id].key == key then Some(id) else None
    case None => None
  }

  function Attempted(i: Info, countFailure: bool, lastGood: int, time: int): Info {
    if countFailure && i.lastCountAttempt < lastGood
    then i.(lastTry := time, lastCountAttempt := time, attempts := i.attempts + 1)
    else i.(lastTry := time)
  }

  function Attempt(s: State, key: Service, countFailure: bool, time: int): State {
    match Exact(s, key)
    case Some(id) => s.(info := s.info[id := Attempted(s.info[id], countFailure, s.lastGood, time)])
    case None => s
  }

  function Connected(s: State, key: Service, time: int): State {
    match Exact(s, key)
    case Some(id) =>
      if time - s.info[id].time > 20 * 60
      then s.(info := s.info[id := s.info[id].(time := time % UINT32_RANGE)]) else s
    case None => s
  }

  function SetServices(s: State, key: Service, services: set<nat>): State {
    match Exact(s, key)
    case Some(id) => s.(info := s.info[id := s.info[id].(services := services)])
    case None => s
  }

  lemma TouchKeeps(h: Bucketing, s: State, key: Service, countFailure: bool, time: int, services: set<nat>)
    requires Inv(h, s)
    ensures time >= 0 ==> Inv(h, Attempt(s, key, countFailure, time))
    ensures Inv(h, Connected(s, key, time))
    ensures Inv(h, SetServices(s, key, services))
  {
    assert Timed(s);
    hide Linked, Placed, Counted, Numbered, Held, Contested, Core, Inv;
    var f := Exact(s, key);
    if f.Some? {
      var i := s.info[f.value];
      if time >= 0 { RefreshKeeps(h, s, f.value, Attempted(i, countFailure, s.lastGood, time), s.lastGood); }
      if time - i.time > 20 * 60 { RefreshKeeps(h, s, f.value, i.(time := time % UINT32_RANGE), s.lastGood); }
      RefreshKeeps(h, s, f.value, i.(services := services), s.lastGood);
    }
  }

  // ---------------------------------------------------------------- GetAddr

  function SampleLimit(size: nat, maxAddresses: nat, maxPct: nat): nat {
    var n := if maxPct != 0 then maxPct * size / 100 else size;
    if maxAddresses != 0 && maxAddresses < n then maxAddresses else n
  }

  /** `got` are the entries among the first `n` of vRandom that were judged good. */
  ghost predicate Sampled(s: State, n: nat, got: seq<int>, now: nat -> int)
    requires n <= |s.random|
  {
    && (forall id | id in got :: id in s.random[..n])
    && (forall i | 0 <= i < n ::
          s.random[i] in s.info && (s.random[i] in got <==> !IsTerrible(s.info[s.random[i]], now(i))))
    && Distinct(got)
  }

  lemma SwapPrefix(s: State, n: int, j: int)
    requires Linked(s) && 0 <= n <= j < |s.random|
    ensures SwapRandom(s, n, j).random[..n] == s.random[..n] && |SwapRandom(s, n, j).random| == |s.random|
  {
  }

  function Judge(s: State, n: nat, got: seq<int>, now: nat -> int): seq<int>
    requires Linked(s) && n < |s.random|
  {
    if IsTerrible(s.info[s.random[n]], now(n)) then got else got + [s.random[n]]
  }

  lemma SampleStep(s: State, t: State, n: nat, got: seq<int>, now: nat -> int)
    requires Linked(t) && Reordered(s, t) && n < |t.random| == |s.random| && t.random[..n] == s.random[..n]
    requires Sampled(s, n, got, now)
    ensures Sampled(t, n + 1, Judge(t, n, got, now), now)
  {
    assert t.random[..n + 1] == s.random[..n] + [t.random[n]];
    forall i | 0 <= i < n
      ensures t.random[i] in t.info && (t.random[i] in got <==> !IsTerrible(t.info[t.random[i]], now(i)))
      ensures t.random[i] != t.random[n]
    {
      assert t.random[..n][i] == s.random[..n][i];
      var id := t.random[i];
      assert t.info[id].randomPos == i;
      assert SameEntry(t.info[id], s.info[id]);
    }
    forall id | id in got ensures id != t.random[n] && id in t.random[..n + 1] {
      assert id in s.random[..n];
      var i :| 0 <= i < n && s.random[..n][i] == id;
      assert t.random[..n + 1][i] == id && t.random[i] == id;
    }
    JudgeMore(t, n, got, now);
  }

  lemma JudgeMore(t: State, n: nat, got: seq<int>, now: nat -> int)
    requires Linked(t) && n < |t.random| && Distinct(got)
    requires forall i | 0 <= i < n ::
      && t.random[i] in t.info && (t.random[i] in got <==> !IsTerrible(t.info[t.random[i]], now(i)))
      && t.random[i] != t.random[n]
    requires forall id | id in got :: id != t.random[n] && id in t.random[..n + 1]
    ensures Sampled(t, n + 1, Judge(t, n, got, now), now)
  {
    hide IsTerrible;
    var got' := Judge(t, n, got, now);
    forall i | 0 <= i < n + 1
      ensures t.random[i] in t.info && (t.random[i] in got' <==> !IsTerrible(t.info[t.random[i]], now(i)))
    {
      if i == n && got' == got + [t.random[n]] { assert got'[|got|] == t.random[n]; }
    }
    forall id | id in got' ensures id in t.random[..n + 1] {
      if id !in got { assert t.random[..n + 1][n] == id; }
    }
    forall i, j | 0 <= i < j < |got'| ensures got'[i] != got'[j] {
      if j == |got| { assert got[i] in got; }
    }
  }

  /** What holds of the pass when it ends: no entry twice, none that was terrible when its turn came, at most as many
      as allowed, and if fewer, all that were not. */
  ghost predicate Shared(s: State, ids: seq<int>, limit: nat, now: nat -> int)
    requires Linked(s)
  {
    && |ids| <= limit && Distinct(ids)
    && (forall id | id in ids :: id in s.info && !IsTerrible(s.info[id], now(s.info[id].randomPos)))
    && (|ids| < limit ==> forall id | id in s.info :: id in ids || IsTerrible(s.info[id], now(s.info[id].randomPos)))
  }

  lemma SampleDone(s: State, n: nat, limit: nat, got: seq<int>, now: nat -> int)
    requires Linked(s) && n <= |s.random| && |got| <= limit && Sampled(s, n, got, now)
    requires n == |s.random| || |got| >= limit
    ensures Shared(s, got, limit, now)
  {
    hide IsTerrible;
    forall id | id in got ensures id in s.info && !IsTerrible(s.info[id], now(s.info[id].randomPos)) {
      var i :| 0 <= i < n && s.random[..n][i] == id;
      assert s.random[i] == id && s.info[id].randomPos == i;
    }
    if |got| < limit {
      forall id | id in s.info ensures id in got || IsTerrible(s.info[id], now(s.info[id].randomPos)) {
        var i := s.info[id].randomPos;
        assert s.random[i] == id;
      }
    }
  }

  lemma ReorderedTransitive(s: State, t: State, u: State)
    requires Reordered(s, t) && Reordered(t, u)
    ensures Reordered(s, u)
  {
  }

  lemma ReorderedInv(h: Bucketing, s: State, t: State)
    requires Inv(h, s) && Reordered(s, t) && Linked(t)
    ensures Inv(h, t)
  {
    ReorderedKeeps(h, s, t, 0);
    forall id | id in t.info && !t.info[id].inTried ensures t.info[id].refCount >= 1 {
      assert SameEntry(t.info[id], s.info[id]);
    }
    forall id | id in t.collisions && id in t.info ensures TriedSlot(h, t.info[id].key) in t.tried {
      assert SameEntry(t.info[id], s.info[id]);
    }
  }

  // ---------------------------------------------------------------- tried collisions

  function Dismiss(s: State, id: int): State {
    s.(collisions := s.collisions - {id})
  }

  lemma DismissKeeps(h: Bucketing, s: State, id: int)
    requires Inv(h, s)
    ensures Inv(h, Dismiss(s, id))
  {
    SameIds(s, Dismiss(s, id));
  }

  /** What ResolveCollisions_ does about a pending entry. */
  datatype Verdict = Wait | Drop | Replace

  /** `holder` is the entry now in the contested tried cell; `clock(k)` is the k-th clock reading taken meanwhile. */
  function Judgement(holder: Info, challenger: Info, clock: nat -> int): Verdict {
    if clock(0) - holder.lastSuccess < REPLACEMENT_HOURS * (60 * 60) then Drop
    else if clock(1) - holder.lastTry < REPLACEMENT_HOURS * (60 * 60) then
      if clock(2) - holder.lastTry > 60 then Replace else Wait
    else if clock(3) - challenger.lastSuccess > TEST_WINDOW then Replace
    else Wait
  }

  function Resolve(h: Bucketing, s: State, id: int, valid: Service -> bool, clock: nat -> int): State
    requires Inv(h, s)
  {
    if id !in s.info || !valid(s.info[id].key) then Dismiss(s, id)
    else
      var i := s.info[id];
      var p := TriedSlot(h, i.key);
      var v := if p in s.tried then Judgement(s.info[s.tried[p]], i, clock) else Replace;
      match v
      case Wait => s
      case Drop => Dismiss(s, id)
      case Replace => Dismiss(Good(h, s, i.key, false, clock(4)), id)
  }

  lemma InvReady(h: Bucketing, s: State)
    requires Inv(h, s)
    ensures Linked(s) && Placed(h, s) && Numbered(s)
    ensures forall p | p in s.tried :: s.tried[p] in s.info
  {
  }

  lemma ResolveKeeps(h: Bucketing, s: State, id: int, valid: Service -> bool, clock: nat -> int)
    requires Inv(h, s) && clock(4) > 0
    ensures Inv(h, Resolve(h, s, id, valid, clock))
  {
    hide Inv, Good;
    InvReady(h, s);
    DismissKeeps(h, s, id);
    if id in s.info {
      GoodKeeps(h, s, s.info[id].key, false, clock(4));
      DismissKeeps(h, Good(h, s, s.info[id].key, false, clock(4)), id);
    }
  }

  /** The branch "collision is not actually a collision anymore" is never taken. */
  lemma StillContested(h: Bucketing, s: State, id: int)
    requires Inv(h, s) && id in s.collisions && id in s.info
    ensures var p := TriedSlot(h, s.info[id].key);
      && p in s.tried && s.tried[p] in s.info && s.info[s.tried[p]].inTried
      && TriedSlot(h, s.info[s.tried[p]].key) == p
  {
    var x := s.tried[TriedSlot(h, s.info[id].key)];
  }

  /** ResolveCollisions_ goes through the pending entries one by one. */
  function ResolveAll(h: Bucketing, s: State, ids: seq<int>, valid: Service -> bool, clock: int -> (nat -> int)): (t: State)
    requires Inv(h, s) && forall id :: clock(id)(4) > 0
    ensures Inv(h, t)
  {
    if ids == [] then s
    else
      var t := ResolveAll(h, s, ids[..|ids| - 1], valid, clock);
      var id := ids[|ids| - 1];
      ResolveKeeps(h, t, id, valid, clock(id));
      Resolve(h, t, id, valid, clock(id))
  }

  /** SelectTriedCollision_; `id` is the pending entry that its random draw picks, if any is pending. The answer is
      the tried entry whose cell the pending one contests. */
  function SelectTriedCollision(h: Bucketing, s: State, id: int): (r: (State, Option<Info>))
    requires Inv(h, s) && (s.collisions == {} || id in s.collisions)
    ensures r.1.Some? <==> id in s.collisions && id in s.info
    ensures r.1.Some? ==> r.0 == s && r.1.value.inTried
    ensures r.1.Some? ==> TriedSlot(h, r.1.value.key) == TriedSlot(h, s.info[id].key)
    ensures r.1.None? ==> r.0 == Dismiss(s, id)
  {
    if s.collisions == {} then (s, None)
    else if id !in s.info then (Dismiss(s, id), None)
    else
      StillContested(h, s, id);
      (s, Some(s.info[s.tried[TriedSlot(h, s.info[id].key)]]))
  }

  // ---------------------------------------------------------------- runs

  datatype Op =
    | DoAdd(a: Address, routable: bool, source: NetAddr, penalty: int, luck: Luck)
    | DoGood(key: Service, testBeforeEvict: bool, time: int)
    | DoAttempt(key: Service, countFailure: bool, time: int)
    | DoConnected(key: Service, time: int)
    | DoSetServices(key: Service, services: set<nat>)
    | DoGetAddr
    | DoResolve(ids: seq<int>, valid: Service -> bool, clock: int -> (nat -> int))
    | DoSelect(id: int)

  /** Times at which peers answered are positive, and others not negative. */
  ghost predicate WellTimed(op: Op) {
    match op
    case DoGood(_, _, time) => time > 0
    case DoAttempt(_, _, time) => time >= 0
    case DoResolve(_, _, clock) => forall id :: clock(id)(4) > 0
    case _ => true
  }

  ghost predicate Next(h: Bucketing, s: State, op: Op, t: State)
    requires Inv(h, s)
  {
    WellTimed(op) &&
    match op
    case DoAdd(a, routable, source, penalty, luck) => t == Add(h, s, a, routable, source, penalty, luck).0
    case DoGood(key, test, time) => t == Good(h, s, key, test, time)
    case DoAttempt(key, countFailure, time) => t == Attempt(s, key, countFailure, time)
    case DoConnected(key, time) => t == Connected(s, key, time)
    case DoSetServices(key, services) => t == SetServices(s, key, services)
    case DoGetAddr => Reordered(s, t) && Linked(t)
    case DoResolve(ids, valid, clock) => (forall id :: id in ids <==> id in s.collisions) && t == ResolveAll(h, s, ids, valid, clock)
    case DoSelect(id) => (s.collisions == {} || id in s.collisions) && t == SelectTriedCollision(h, s, id).0
  }

  lemma NextKeeps(h: Bucketing, s: State, op: Op, t: State)
    requires Inv(h, s) && Next(h, s, op, t)
    ensures Inv(h, t)
  {
    match op
    case DoAdd(a, routable, source, penalty, luck) => AddKeeps(h, s, a, routable, source, penalty, luck);
    case DoGood(key, test, time) => GoodKeeps(h, s, key, test, time);
    case DoAttempt(key, countFailure, time) => TouchKeeps(h, s, key, countFailure, time, {});
    case DoConnected(key, time) => TouchKeeps(h, s, key, false, time, {});
    case DoSetServices(key, services) => TouchKeeps(h, s, key, false, 0, services);
    case DoGetAddr => ReorderedInv(h, s, t);
    case DoResolve(ids, valid, clock) =>
    case DoSelect(id) => DismissKeeps(h, s, id);
  }

  lemma EmptyInv(h: Bucketing)
    ensures Inv(h, Empty())
  {
    assert TriedIds(Empty()) == {} && NewIds(Empty()) == {};
  }

  /** A run: states joined by operations, starting from the empty manager. */
  ghost predicate IsRun(h: Bucketing, ops: seq<Op>, states: seq<State>) {
    && |states| == |ops| + 1
    && states[0] == Empty()
    && forall i | 0 <= i < |ops| :: Inv(h, states[i]) ==> Next(h, states[i], ops[i], states[i + 1])
  }

  /** Every state of every run satisfies the invariant, and Check_ passes in it. */
  lemma {:induction false} RunInvariant(h: Bucketing, ops: seq<Op>, states: seq<State>, n: nat)
    requires IsRun(h, ops, states) && n < |states|
    ensures Inv(h, states[n]) && Checked(h, states[n])
  {
    hide Checked;
    if n == 0 {
      EmptyInv(h);
    } else {
      RunInvariant(h, ops, states, n - 1);
      NextKeeps(h, states[n - 1], ops[n - 1], states[n]);
    }
    InvChecked(h, states[n]);
  }
}
