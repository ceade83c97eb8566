/** The address manager's state as a value, its operations as functions, and the
    consistency invariant (the conditions of CAddrMan::Check_, stated declaratively).

    Bucket hashing, the clock and the random generator are parameters: nothing below depends
    on which hash, which clock or which random choices are used. */
module AddrManState {
  import opened Basics

  const TRIED_BUCKETS := 256
  const NEW_BUCKETS := 1024
  const BUCKET_SIZE := 64
  const NEW_BUCKETS_PER_ADDRESS := 8
  const HORIZON_DAYS := 30
  const RETRIES := 3
  const MAX_FAILURES := 10
  const MIN_FAIL_DAYS := 7
  const REPLACEMENT_HOURS := 4
  const COLLISION_LIMIT := 10
  const TEST_WINDOW := 40 * 60
  const UINT32_RANGE := 0x1_0000_0000

  /** A network address without its port (CNetAddr). */
  type NetAddr = nat

  /** An address with its port (CService). */
  datatype Service = Service(addr: NetAddr, port: nat)

  /** What peers announce (CAddress); service flags are the set of bits that are on. */
  datatype Address = Address(key: Service, services: set<nat>, time: nat)

  /** A table cell: bucket and position inside it. */
  type Slot = (int, int)

  /** The three keyed hashes that choose cells; each is reduced modulo its table size on use. */
  datatype Bucketing = Bucketing(
    tried: Service -> nat,
    untried: (Service, NetAddr) -> nat,
    place: (Service, bool, int) -> nat)

  datatype Info = Info(
    key: Service, source: NetAddr, services: set<nat>, time: nat,
    lastTry: int, lastCountAttempt: int, lastSuccess: int, attempts: int,
    refCount: int, inTried: bool, randomPos: int)

  /** `tried` and `untried` hold the occupied cells of vvTried and vvNew: a cell absent here is -1 there. */
  datatype State = State(
    idCount: int, info: map<int, Info>, addr: map<NetAddr, int>, random: seq<int>,
    nTried: int, tried: map<Slot, int>, nNew: int, untried: map<Slot, int>,
    lastGood: int, collisions: set<int>)

  function Empty(): State {
    State(0, map[], map[], [], 0, map[], 0, map[], 1, {})
  }

  // ---------------------------------------------------------------- cells

  function TriedSlot(h: Bucketing, k: Service): Slot {
    var b := h.tried(k) % TRIED_BUCKETS;
    (b, h.place(k, false, b) % BUCKET_SIZE)
  }

  /** The only cell of new bucket `b` that `k` may occupy. */
  function SlotIn(h: Bucketing, k: Service, b: int): Slot {
    (b, h.place(k, true, b) % BUCKET_SIZE)
  }

  function NewSlot(h: Bucketing, k: Service, source: NetAddr): Slot {
    SlotIn(h, k, h.untried(k, source) % NEW_BUCKETS)
  }

  function SlotsOf(t: map<Slot, int>, id: int): set<Slot> {
    set p | p in t && t[p] == id
  }

  predicate IsTerrible(i: Info, now: int) {
    if i.lastTry != 0 && i.lastTry >= now - 60 then false
    else
      || i.time > now + 10 * 60
      || i.time == 0
      || now - i.time > HORIZON_DAYS * 24 * 60 * 60
      || (i.lastSuccess == 0 && i.attempts >= RETRIES)
      || (now - i.lastSuccess > MIN_FAIL_DAYS * 24 * 60 * 60 && i.attempts >= MAX_FAILURES)
  }

  // ---------------------------------------------------------------- invariant

  function TriedIds(s: State): set<int> { set id | id in s.info && s.info[id].inTried }
  function NewIds(s: State): set<int> { set id | id in s.info && !s.info[id].inTried }

  /** vRandom and nRandomPos are inverse to each other. */
  ghost predicate Shuffled(info: map<int, Info>, random: seq<int>) {
    && (forall id {:trigger info[id].randomPos} | id in info ::
          0 <= info[id].randomPos < |random| && random[info[id].randomPos] == id)
    && (forall i {:trigger random[i]} | 0 <= i < |random| ::
          random[i] in info && info[random[i]].randomPos == i)
  }

  /** mapAddr and mapInfo agree. */
  ghost predicate Indexed(info: map<int, Info>, addr: map<NetAddr, int>) {
    && (forall id | id in info :: info[id].key.addr in addr && addr[info[id].key.addr] == id)
    && (forall a | a in addr :: addr[a] in info && info[addr[a]].key.addr == a)
  }

  ghost predicate Linked(s: State) {
    Shuffled(s.info, s.random) && Indexed(s.info, s.addr)
  }

  /** Each tried entry holds exactly its own cell, and each tried cell holds such an entry. */
  ghost predicate TriedPlaced(h: Bucketing, info: map<int, Info>, tried: map<Slot, int>) {
    && (forall p | p in tried :: tried[p] in info && info[tried[p]].inTried && p == TriedSlot(h, info[tried[p]].key))
    && (forall id | id in info && info[id].inTried ::
          TriedSlot(h, info[id].key) in tried && tried[TriedSlot(h, info[id].key)] == id)
  }

  /** Each new cell holds an untried entry that hashes there. */
  ghost predicate NewPlaced(h: Bucketing, info: map<int, Info>, untried: map<Slot, int>) {
    forall p | p in untried ::
      && 0 <= p.0 < NEW_BUCKETS && untried[p] in info && !info[untried[p]].inTried
      && p == SlotIn(h, info[untried[p]].key, p.0)
  }

  /** Reference counts are the numbers of new cells held. */
  ghost predicate Referenced(info: map<int, Info>, untried: map<Slot, int>) {
    forall id | id in info :: info[id].refCount == |SlotsOf(untried, id)| <= NEW_BUCKETS_PER_ADDRESS
  }

  ghost predicate Placed(h: Bucketing, s: State) {
    TriedPlaced(h, s.info, s.tried) && NewPlaced(h, s.info, s.untried) && Referenced(s.info, s.untried)
  }

  /** The counters, with `k` entries of mapInfo in transit between the two tables. */
  ghost predicate Counted(s: State, k: int) {
    s.nTried == |TriedIds(s)| && s.nNew + k == |NewIds(s)|
  }

  /** Identifiers are handed out once, in increasing order. */
  ghost predicate Numbered(s: State) {
    && 0 <= s.idCount
    && (forall id | id in s.info :: 0 <= id < s.idCount)
    && (forall id | id in s.collisions :: 0 <= id < s.idCount)
  }

  ghost predicate Timed(s: State) {
    forall id | id in s.info ::
      s.info[id].lastTry >= 0 && s.info[id].lastSuccess >= 0 && (s.info[id].inTried ==> s.info[id].lastSuccess > 0)
  }

  /** From `s` to `t` no identifier is reused and no tried cell is left empty. */
  ghost predicate Grows(s: State, t: State) {
    && s.tried.Keys <= t.tried.Keys
    && s.idCount <= t.idCount
    && (forall id | id in t.info && id < s.idCount :: id in s.info && t.info[id].key == s.info[id].key)
  }

  ghost predicate SameFrame(s: State, t: State) {
    s.idCount == t.idCount && s.collisions == t.collisions && s.lastGood == t.lastGood
  }

  /** Entries waiting to evict a tried entry really do collide with one. */
  ghost predicate Contested(h: Bucketing, s: State) {
    && |s.collisions| <= COLLISION_LIMIT
    && (forall id | id in s.collisions && id in s.info :: TriedSlot(h, s.info[id].key) in s.tried)
  }

  /** Every untried entry but those in `moving` is in some new cell. */
  ghost predicate Held(s: State, moving: set<int>) {
    forall id | id in s.info && id !in moving && !s.info[id].inTried :: s.info[id].refCount >= 1
  }

  /** The invariant between steps: an entry may be in no cell at all, and `k` are uncounted. */
  ghost predicate Core(h: Bucketing, s: State, k: int) {
    Linked(s) && Placed(h, s) && Counted(s, k) && Numbered(s) && Timed(s)
  }

  /** Everything CAddrMan::Check_ tests, and what SelectTriedCollision_ relies on. */
  ghost predicate Inv(h: Bucketing, s: State) {
    && Core(h, s, 0)
    && Contested(h, s)
    && Held(s, {})
  }

  // ---------------------------------------------------------------- operations

  function Find(s: State, a: NetAddr): Option<int> {
    if a in s.addr && s.addr[a] in s.info then Some(s.addr[a]) else None
  }

  function Create(s: State, a: Address, source: NetAddr): State {
    s.(idCount := s.idCount + 1,
       info := s.info[s.idCount := Info(a.key, source, a.services, a.time, 0, 0, 0, 0, 0, false, |s.random|)],
       addr := s.addr[a.key.addr := s.idCount],
       random := s.random + [s.idCount])
  }

  function SwapRandom(s: State, i: int, j: int): State
    requires 0 <= i < |s.random| && 0 <= j < |s.random|
    requires s.random[i] in s.info && s.random[j] in s.info
  {
    if i == j then s
    else
      var a, b := s.random[i], s.random[j];
      var info1 := s.info[a := s.info[a].(randomPos := j)];
      s.(info := info1[b := info1[b].(randomPos := i)],
         random := s.random[i := b][j := a])
  }

  /** Remove an entry: the last id of vRandom takes its place there. */
  function Delete(s: State, id: int): State
    requires Shuffled(s.info, s.random) && id in s.info
  {
    var pos, last := s.info[id].randomPos, s.random[|s.random| - 1];
    s.(info := map x | x in s.info && x != id ::
                 if x == last then s.info[x].(randomPos := pos) else s.info[x],
       addr := s.addr - {s.info[id].key.addr},
       random := s.random[pos := last][..|s.random| - 1],
       nNew := s.nNew - 1)
  }

  /** Empty an occupied new cell; its entry loses one reference. */
  function Release(s: State, p: Slot): State
    requires p in s.untried && s.untried[p] in s.info
  {
    var id := s.untried[p];
    s.(info := s.info[id := s.info[id].(refCount := s.info[id].refCount - 1)], untried := s.untried - {p})
  }

  function ClearNew(s: State, p: Slot): State
    requires Linked(s) && (p in s.untried ==> s.untried[p] in s.info)
  {
    if p !in s.untried then s
    else
      var id := s.untried[p];
      var t := Release(s, p);
      if t.info[id].refCount == 0 then Delete(t, id) else t
  }

  /** The first half of MakeTried: the entry gives up every new cell it holds. */
  function LeaveNew(s: State, id: int): State
    requires id in s.info
  {
    s.(untried := map p | p in s.untried && s.untried[p] != id :: s.untried[p],
       info := s.info[id := s.info[id].(refCount := s.info[id].refCount - |SlotsOf(s.untried, id)|)],
       nNew := s.nNew - 1)
  }

  /** Vacate an occupied tried cell. */
  function Untry(s: State, p: Slot): State
    requires p in s.tried && s.tried[p] in s.info
  {
    var id := s.tried[p];
    s.(info := s.info[id := s.info[id].(inTried := false)], tried := s.tried - {p}, nTried := s.nTried - 1)
  }

  /** Put an entry into a new cell. */
  function Acquire(s: State, id: int, p: Slot): State
    requires id in s.info
  {
    s.(info := s.info[id := s.info[id].(refCount := s.info[id].refCount + 1)], untried := s.untried[p := id])
  }

  /** Put an entry into a tried cell. */
  function EnterTried(s: State, id: int, p: Slot): State
    requires id in s.info
  {
    s.(info := s.info[id := s.info[id].(inTried := true)], tried := s.tried[p := id], nTried := s.nTried + 1)
  }
}
