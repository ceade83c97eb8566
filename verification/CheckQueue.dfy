/** The parallel check queue as a transition system: one master and any number of workers, one step per
    critical section and one per executed check. Thread 0 is the master.

    A thread leaves a condition wait when it is signalled or for no reason at all; both are the same
    step here, so nothing below relies on wake-ups being genuine. */
module CheckQueue {
  import opened Basics

  /** A verification and the answer it will give. */
  datatype Check = Check(id: nat, passes: bool)

  datatype Phase =
    | Outside                                          // not in Loop
    | Ready(done: nat, ok: bool)                       // about to lock; `done` checks not yet accounted for
    | Asleep(signalled: bool)                          // in cond.wait
    | Busy(batch: seq<Check>, taken: nat, ok: bool)    // executing; `batch` is still to run

  /** The shared fields, the threads, and what happened to the checks of the current session. */
  datatype System = System(
    queue: seq<Check>, nIdle: int, nTotal: int, nTodo: int, allOk: bool,
    threads: seq<Phase>,
    added: multiset<Check>, passed: multiset<Check>, failed: multiset<Check>, skipped: multiset<Check>,
    result: Option<bool>)

  datatype Action =
    | Open                                  // a CCheckQueueControl takes the control mutex
    | Add(checks: seq<Check>, pick: nat)    // `pick` is the worker that notify_one wakes
    | Enter(i: nat)                         // a thread calls Loop
    | Lock(i: nat)                          // a critical section of Loop
    | Execute(i: nat)                       // run the next check of the batch, or finish it

  // ---------------------------------------------------------------- sums over threads

  ghost function Sum(f: Phase -> int, ts: seq<Phase>): int {
    if ts == [] then 0 else f(ts[0]) + Sum(f, ts[1..])
  }

  lemma {:induction false} SumUpdate(f: Phase -> int, ts: seq<Phase>, i: nat, p: Phase)
    requires i < |ts|
    ensures Sum(f, ts[i := p]) == Sum(f, ts) - f(ts[i]) + f(p)
    decreases |ts|
  {
    if i == 0 {
      assert ts[i := p][1..] == ts[1..];
    } else {
      assert ts[i := p][1..] == ts[1..][i - 1 := p];
      SumUpdate(f, ts[1..], i - 1, p);
    }
  }

  lemma {:induction false} SumZero(f: Phase -> int, ts: seq<Phase>)
    requires forall i | 0 <= i < |ts| :: f(ts[i]) >= 0
    ensures Sum(f, ts) >= 0
    ensures Sum(f, ts) == 0 <==> forall i | 0 <= i < |ts| :: f(ts[i]) == 0
    decreases |ts|
  {
    if ts != [] {
      SumZero(f, ts[1..]);
      assert forall i | 0 <= i < |ts[1..]| :: ts[1..][i] == ts[i + 1];
      if Sum(f, ts) == 0 {
        forall i | 0 <= i < |ts| ensures f(ts[i]) == 0 { if i > 0 { assert ts[1..][i - 1] == ts[i]; } }
      }
    }
  }

  ghost function Batches(ts: seq<Phase>): multiset<Check> {
    if ts == [] then multiset{} else Held(ts[0]) + Batches(ts[1..])
  }

  lemma {:induction false} BatchesUpdate(ts: seq<Phase>, i: nat, p: Phase)
    requires i < |ts|
    ensures Batches(ts[i := p]) == Batches(ts) - Held(ts[i]) + Held(p)
    ensures Held(ts[i]) <= Batches(ts)
    decreases |ts|
  {
    hide Held;
    if i == 0 {
      assert ts[i := p][1..] == ts[1..];
      ExchangeHead(Held(ts[0]), Batches(ts[1..]), Held(p));
    } else {
      assert ts[i := p][1..] == ts[1..][i - 1 := p];
      BatchesUpdate(ts[1..], i - 1, p);
      Exchange(Held(ts[0]), Batches(ts[1..]), Held(ts[i]), Held(p));
    }
  }

  lemma ExchangeHead(x: multiset<Check>, b: multiset<Check>, y: multiset<Check>)
    ensures y + b == x + b - x + y && x <= x + b
  {
  }

  lemma Exchange(a: multiset<Check>, b: multiset<Check>, x: multiset<Check>, y: multiset<Check>)
    requires x <= b
    ensures a + (b - x + y) == a + b - x + y && x <= a + b
  {
  }

  function Held(p: Phase): multiset<Check> { if p.Busy? then multiset(p.batch) else multiset{} }

  /** Checks taken from the queue whose outcome is not in the shared fields yet. */
  function Unaccounted(p: Phase): int {
    match p case Ready(n, _) => n case Busy(_, n, _) => n case _ => 0
  }
  function Idle(p: Phase): int { if p.Asleep? then 1 else 0 }
  /** Whether Loop has counted the thread in nTotal. */
  function Inside(p: Phase): int { if p.Outside? || (p.Ready? && p.done == 0) then 0 else 1 }

  // ---------------------------------------------------------------- steps

  /** How many checks a thread takes at once: smaller batches as the queue runs dry. */
  function BatchSize(limit: nat, queued: nat, nTotal: int, nIdle: int): (n: nat)
    requires queued > 0 && nTotal >= 0 && nIdle >= 0
    ensures 1 <= n <= queued && n <= Max(1, limit)
  {
    Max(1, Min(limit, queued / (nTotal + nIdle + 1)))
  }

  /** No more than a thread's share unless that is one check, and less than the share only at the limit. */
  ghost predicate Fair(n: nat, limit: nat, queued: nat, threads: int) {
    && (n > 1 ==> n * threads <= queued)
    && (n < limit ==> queued < (n + 1) * threads)
  }

  lemma Monotone(a: int, b: int, k: int)
    requires a <= b && k >= 0
    ensures a * k <= b * k
  {
  }

  lemma FairShare(n: nat, limit: nat, queued: nat, threads: int, share: int)
    requires threads > 0 && share * threads <= queued < (share + 1) * threads
    requires n > 1 ==> n <= share
    requires n < limit ==> share <= n
    ensures Fair(n, limit, queued, threads)
  {
    if n <= share { Monotone(n, share, threads); }
    if share <= n { Monotone(share + 1, n + 1, threads); }
  }

  lemma Quotient(queued: nat, threads: int)
    requires threads > 0
    ensures queued / threads * threads <= queued < (queued / threads + 1) * threads
  {
  }

  lemma BatchShare(limit: nat, queued: nat, nTotal: int, nIdle: int)
    requires queued > 0 && nTotal >= 0 && nIdle >= 0
    ensures Fair(BatchSize(limit, queued, nTotal, nIdle), limit, queued, nTotal + nIdle + 1)
  {
    hide Fair;
    var threads := nTotal + nIdle + 1;
    Quotient(queued, threads);
    FairShare(BatchSize(limit, queued, nTotal, nIdle), limit, queued, threads, queued / threads);
  }

  function Reverse(s: seq<Check>): (r: seq<Check>)
    ensures |r| == |s| && multiset(r) == multiset(s)
  {
    if s == [] then []
    else
      assert s == [s[0]] + s[1..];
      Reverse(s[1..]) + [s[0]]
  }

  /** notify_all on the workers' condition. */
  function WakeAll(ts: seq<Phase>): (r: seq<Phase>)
    ensures |r| == |ts|
    ensures forall i | 0 <= i < |ts| :: r[i] == if i > 0 && ts[i].Asleep? then Asleep(true) else ts[i]
  {
    seq(|ts|, i requires 0 <= i < |ts| => if i > 0 && ts[i].Asleep? then Asleep(true) else ts[i])
  }

  /** notify_one: wakes the thread `pick`, provided it is waiting. */
  function Wake(ts: seq<Phase>, pick: nat): (r: seq<Phase>)
    ensures |r| == |ts|
  {
    if pick < |ts| && ts[pick].Asleep? then ts[pick := Asleep(true)] else ts
  }

  predicate Enabled(s: System, a: Action) {
    |s.threads| > 0 &&
    match a
    case Open => s.result.Some? && s.threads[0].Outside?
    case Add(checks, pick) =>
      && s.result.None? && s.threads[0].Outside? && pick != 0
      && (|checks| == 1 && (exists i | 0 < i < |s.threads| :: s.threads[i].Asleep?)
          ==> pick < |s.threads| && s.threads[pick].Asleep?)
    case Enter(i) => i < |s.threads| && s.threads[i].Outside? && (i == 0 ==> s.result.None?)
    case Lock(i) => i < |s.threads| && (s.threads[i].Ready? || s.threads[i].Asleep?)
    case Execute(i) => i < |s.threads| && s.threads[i].Busy?
  }

  /** The first part of the critical section: account for the batch just run, or count oneself in, or
      count oneself awake. While it holds the lock the thread stands Outside. */
  function CleanUp(s: System, i: nat): (r: System)
    requires i < |s.threads|
    ensures |r.threads| == |s.threads|
  {
    var ts := s.threads[i := Outside];
    match s.threads[i]
    case Ready(done, ok) =>
      if done == 0 then s.(nTotal := s.nTotal + 1, threads := ts)
      else
        s.(allOk := s.allOk && ok, nTodo := s.nTodo - done,
           threads := if s.nTodo == done && i != 0 then Wake(ts, 0) else ts)
    case _ => s.(nIdle := s.nIdle - 1, threads := ts)
  }

  /** The rest of it: return, go to sleep, or take a batch from the back of the queue. */
  function Proceed(limit: nat, s: System, i: nat): System
    requires i < |s.threads| && s.nTotal >= 0 && s.nIdle >= 0
  {
    if s.queue == [] then
      if i == 0 && s.nTodo == 0 then
        s.(nTotal := s.nTotal - 1, allOk := true, result := Some(s.allOk), threads := s.threads[i := Outside])
      else
        s.(nIdle := s.nIdle + 1, threads := s.threads[i := Asleep(false)])
    else
      var n := BatchSize(limit, |s.queue|, s.nTotal, s.nIdle);
      var keep := |s.queue| - n;
      s.(queue := s.queue[..keep], threads := s.threads[i := Busy(Reverse(s.queue[keep..]), n, s.allOk)])
  }

  function RunCheck(s: System, i: nat): System
    requires i < |s.threads| && s.threads[i].Busy?
  {
    var Busy(batch, taken, ok) := s.threads[i];
    if batch == [] then s.(threads := s.threads[i := Ready(taken, ok)])
    else
      var c := batch[0];
      var t := s.(threads := s.threads[i := Busy(batch[1..], taken, ok && c.passes)]);
      if !ok then t.(skipped := t.skipped + multiset{c})
      else if c.passes then t.(passed := t.passed + multiset{c})
      else t.(failed := t.failed + multiset{c})
  }

  lemma CleanUpCounts(s: System, i: nat)
    requires Inv(s) && Enabled(s, Lock(i))
    ensures CleanUp(s, i).nTotal >= 0 && CleanUp(s, i).nIdle >= 0
  {
    Repose(s.threads, i, Outside);
    SumsPositive(s.threads[i := Outside]);
    SumsPositive(s.threads);
  }

  function Next(limit: nat, s: System, a: Action): System
    requires Inv(s) && Enabled(s, a)
  {
    match a
    case Open =>
      s.(added := multiset{}, passed := multiset{}, failed := multiset{}, skipped := multiset{}, result := None)
    case Add(checks, pick) =>
      s.(queue := s.queue + checks, nTodo := s.nTodo + |checks|, added := s.added + multiset(checks),
         threads := if |checks| == 1 then Wake(s.threads, pick)
                    else if |checks| > 1 then WakeAll(s.threads) else s.threads)
    case Enter(i) => s.(threads := s.threads[i := Ready(0, true)])
    case Lock(i) => CleanUpCounts(s, i); Proceed(limit, CleanUp(s, i), i)
    case Execute(i) => RunCheck(s, i)
  }

  /** A queue with its workers, before any of them has started. */
  function Start(workers: nat): System {
    System([], 0, 0, 0, true, seq(workers + 1, _ => Outside), multiset{}, multiset{}, multiset{}, multiset{}, Some(true))
  }

  // ---------------------------------------------------------------- invariant

  ghost predicate Counted(s: System) {
    && s.nTodo == |s.queue| + Sum(Unaccounted, s.threads)
    && s.nIdle == Sum(Idle, s.threads)
    && s.nTotal == Sum(Inside, s.threads)
    && (forall i | 0 <= i < |s.threads| :: Formed(s.threads[i]))
  }

  predicate Formed(p: Phase) {
    match p
    case Busy(batch, taken, _) => taken >= 1 && |batch| <= taken
    case Ready(done, ok) => done == 0 ==> ok
    case _ => true
  }

  /** Every check of the session is queued, in a batch, or has met exactly one of the three fates. */
  ghost predicate Conserved(s: System) {
    && s.added == multiset(s.queue) + Batches(s.threads) + s.passed + s.failed + s.skipped
    && (forall c | c in s.passed :: c.passes)
    && (forall c | c in s.failed :: !c.passes)
  }

  predicate OkOf(p: Phase) {
    match p case Ready(_, ok) => ok case Busy(_, _, ok) => ok case _ => true
  }

  /** No failure has been noticed by anyone. */
  ghost predicate Clean(s: System) {
    s.allOk && forall i | 0 <= i < |s.threads| :: OkOf(s.threads[i])
  }

  /** Within a session somebody remembers a failure exactly when there was one, and only then are checks
      skipped. Between sessions the shared fields are reset and the answer given was the right one. */
  ghost predicate Judged(s: System)
    requires |s.threads| > 0
  {
    match s.result
    case None =>
      && (Clean(s) ==> s.failed == multiset{} && s.skipped == multiset{})
      && (!Clean(s) ==> s.failed != multiset{})
    case Some(r) =>
      && s.threads[0].Outside? && s.queue == [] && s.nTodo == 0 && s.allOk
      && (forall i | 0 <= i < |s.threads| :: OkOf(s.threads[i]))
      && (r ==> s.failed == multiset{} && s.skipped == multiset{})
      && (!r ==> s.failed != multiset{})
  }

  /** A sleeping master has something to wait for, or has been told. */
  ghost predicate Wakeful(s: System)
    requires |s.threads| > 0
  {
    s.threads[0].Asleep? ==> s.queue == [] && (!s.threads[0].signalled ==> s.nTodo > 0)
  }

  ghost predicate Inv(s: System) {
    |s.threads| > 0 && Counted(s) && Conserved(s) && Judged(s) && Wakeful(s)
  }

  // ---------------------------------------------------------------- every step keeps it

  /** Replacing one thread's phase in all the sums at once. */
  lemma Repose(ts: seq<Phase>, i: nat, p: Phase)
    requires i < |ts|
    ensures Sum(Unaccounted, ts[i := p]) == Sum(Unaccounted, ts) - Unaccounted(ts[i]) + Unaccounted(p)
    ensures Sum(Idle, ts[i := p]) == Sum(Idle, ts) - Idle(ts[i]) + Idle(p)
    ensures Sum(Inside, ts[i := p]) == Sum(Inside, ts) - Inside(ts[i]) + Inside(p)
    ensures Batches(ts[i := p]) == Batches(ts) - Held(ts[i]) + Held(p)
    ensures Held(ts[i]) <= Batches(ts)
  {
    SumUpdate(Unaccounted, ts, i, p);
    SumUpdate(Idle, ts, i, p);
    SumUpdate(Inside, ts, i, p);
    BatchesUpdate(ts, i, p);
  }

  /** The sums that bound things from below. */
  lemma SumsPositive(ts: seq<Phase>)
    ensures Sum(Unaccounted, ts) >= 0 && Sum(Idle, ts) >= 0 && Sum(Inside, ts) >= 0
    ensures forall i | 0 <= i < |ts| :: Unaccounted(ts[i]) <= Sum(Unaccounted, ts)
    ensures Sum(Unaccounted, ts) == 0 <==> forall i | 0 <= i < |ts| :: Unaccounted(ts[i]) == 0
  {
    SumZero(Unaccounted, ts);
    SumZero(Idle, ts);
    SumZero(Inside, ts);
    forall i | 0 <= i < |ts| ensures Unaccounted(ts[i]) <= Sum(Unaccounted, ts) {
      SumUpdate(Unaccounted, ts, i, Outside);
      SumZero(Unaccounted, ts[i := Outside]);
    }
  }

  lemma StartInv(workers: nat)
    ensures Inv(Start(workers))
  {
    var ts := Start(workers).threads;
    SumZero(Unaccounted, ts);
    SumZero(Idle, ts);
    SumZero(Inside, ts);
    NoBatches(ts);
  }

  lemma {:induction false} NoBatches(ts: seq<Phase>)
    requires forall i | 0 <= i < |ts| :: !ts[i].Busy?
    ensures Batches(ts) == multiset{}
    decreases |ts|
  {
    if ts != [] { NoBatches(ts[1..]); }
  }

  /** Waking threads changes none of the sums. */
  lemma {:induction false} SameSums(ts: seq<Phase>, us: seq<Phase>)
    requires |ts| == |us|
    requires forall i | 0 <= i < |ts| :: us[i] == ts[i] || (ts[i].Asleep? && us[i].Asleep?)
    ensures Sum(Unaccounted, us) == Sum(Unaccounted, ts) && Sum(Idle, us) == Sum(Idle, ts)
    ensures Sum(Inside, us) == Sum(Inside, ts) && Batches(us) == Batches(ts)
    decreases |ts|
  {
    if ts != [] { SameSums(ts[1..], us[1..]); }
  }

  // A step that moves one thread from one phase to another, seen by each part of the invariant.

  lemma CountedMove(s: System, t: System, i: nat, p: Phase)
    requires Counted(s) && i < |s.threads| && t.threads == s.threads[i := p] && Formed(p)
    requires t.nTodo - s.nTodo == |t.queue| - |s.queue| + Unaccounted(p) - Unaccounted(s.threads[i])
    requires t.nIdle - s.nIdle == Idle(p) - Idle(s.threads[i])
    requires t.nTotal - s.nTotal == Inside(p) - Inside(s.threads[i])
    ensures Counted(t)
  {
    Repose(s.threads, i, p);
  }

  lemma ConservedMove(s: System, t: System, i: nat, p: Phase)
    requires Conserved(s) && i < |s.threads| && t.threads == s.threads[i := p] && t.added == s.added
    requires multiset(t.queue) + Held(p) + t.passed + t.failed + t.skipped
          == multiset(s.queue) + Held(s.threads[i]) + s.passed + s.failed + s.skipped
    requires (forall c | c in t.passed :: c.passes) && (forall c | c in t.failed :: !c.passes)
    ensures Conserved(t)
  {
    Repose(s.threads, i, p);
    hide Held, Batches;
    Replace(Batches(s.threads), Held(s.threads[i]), Held(p), multiset(s.queue), multiset(t.queue),
            s.passed, t.passed, s.failed, t.failed, s.skipped, t.skipped);
  }

  /** Exchanging a part of the batches against something of the same total. */
  lemma Replace(b: multiset<Check>, x: multiset<Check>, y: multiset<Check>, q: multiset<Check>, q': multiset<Check>,
                p: multiset<Check>, p': multiset<Check>, f: multiset<Check>, f': multiset<Check>, k: multiset<Check>, k': multiset<Check>)
    requires x <= b && q' + y + p' + f' + k' == q + x + p + f + k
    ensures q' + (b - x + y) + p' + f' + k' == q + b + p + f + k
  {
    Regroup(b - x, y, q', p', f', k');
    Regroup(b - x, x, q, p, f, k);
    assert b - x + x == b;
  }

  lemma Regroup(r: multiset<Check>, h: multiset<Check>, q: multiset<Check>, p: multiset<Check>, f: multiset<Check>, k: multiset<Check>)
    ensures q + (r + h) + p + f + k == r + (q + h + p + f + k)
  {
  }

  lemma CleanMove(s: System, t: System, i: nat, p: Phase)
    requires i < |s.threads| && t.threads == s.threads[i := p]
    requires (t.allOk && OkOf(p)) == (s.allOk && OkOf(s.threads[i]))
    ensures Clean(t) == Clean(s)
  {
    assert forall j | 0 <= j < |s.threads| && j != i :: t.threads[j] == s.threads[j];
    assert t.threads[i] == p;
    if Clean(t) {
      forall j | 0 <= j < |s.threads| ensures OkOf(s.threads[j]) { assert OkOf(t.threads[j]); assert OkOf(t.threads[i]); }
    }
    if Clean(s) {
      forall j | 0 <= j < |t.threads| ensures OkOf(t.threads[j]) { assert OkOf(s.threads[j]); assert OkOf(s.threads[i]); }
    }
  }

  lemma JudgedMove(s: System, t: System, i: nat, p: Phase)
    requires i < |s.threads| && t.threads == s.threads[i := p] && Judged(s)
    requires (t.allOk && OkOf(p)) == (s.allOk && OkOf(s.threads[i]))
    requires t.result == s.result && t.failed == s.failed && t.skipped == s.skipped
    requires s.result.Some? ==> i != 0 && t.allOk && OkOf(p) && t.queue == s.queue && t.nTodo == s.nTodo
    ensures Judged(t)
  {
    CleanMove(s, t, i, p);
  }

  lemma OpenKeeps(limit: nat, s: System)
    requires Inv(s) && Enabled(s, Open)
    ensures Inv(Next(limit, s, Open))
  {
    SumsPositive(s.threads);
    assert forall i | 0 <= i < |s.threads| :: Formed(s.threads[i]) && Unaccounted(s.threads[i]) == 0;
    NoBatches(s.threads);
  }

  lemma AddKeeps(limit: nat, s: System, checks: seq<Check>, pick: nat)
    requires Inv(s) && Enabled(s, Add(checks, pick))
    ensures Inv(Next(limit, s, Add(checks, pick)))
  {
    var t := Next(limit, s, Add(checks, pick));
    forall i | 0 <= i < |s.threads|
      ensures t.threads[i] == s.threads[i] || (s.threads[i].Asleep? && t.threads[i].Asleep?)
      ensures OkOf(t.threads[i]) == OkOf(s.threads[i])
      ensures Formed(t.threads[i])
    { assert Formed(s.threads[i]); }
    SameSums(s.threads, t.threads);
    AddJudged(s, t);
  }

  lemma AddJudged(s: System, t: System)
    requires |s.threads| > 0 && Judged(s) && s.result.None? && t.result.None?
    requires |t.threads| == |s.threads| && t.allOk == s.allOk && t.failed == s.failed && t.skipped == s.skipped
    requires forall i | 0 <= i < |s.threads| :: OkOf(t.threads[i]) == OkOf(s.threads[i])
    ensures Judged(t)
  {
    assert Clean(t) == Clean(s);
  }

  lemma EnterKeeps(limit: nat, s: System, i: nat)
    requires Inv(s) && Enabled(s, Enter(i))
    ensures Inv(Next(limit, s, Enter(i)))
  {
    ThreadFacts(s, i);
    hide Counted, Conserved, Judged;
    var t := Next(limit, s, Enter(i));
    CountedMove(s, t, i, Ready(0, true));
    assert Conserved(t) by { ConservedStays(s, t, i, Ready(0, true)); }
    JudgedMove(s, t, i, Ready(0, true));
  }

  /** What the invariant says about one thread. */
  lemma ThreadFacts(s: System, i: nat)
    requires Inv(s) && i < |s.threads|
    ensures Formed(s.threads[i]) && s.nTodo >= |s.queue| + Unaccounted(s.threads[i])
    ensures s.result.Some? ==>
      && (i == 0 ==> s.threads[i].Outside?) && OkOf(s.threads[i]) && Unaccounted(s.threads[i]) == 0
      && s.allOk && s.queue == []
  {
    SumsPositive(s.threads);
  }

  /** A move that touches no check. */
  lemma ConservedStays(s: System, t: System, i: nat, p: Phase)
    requires Conserved(s) && i < |s.threads| && t.threads == s.threads[i := p] && Held(p) == Held(s.threads[i])
    requires t.added == s.added && t.queue == s.queue && t.passed == s.passed && t.failed == s.failed && t.skipped == s.skipped
    ensures Conserved(t)
  {
    ConservedMove(s, t, i, p);
  }

  /** The state in the middle of a critical section of thread `i`. */
  ghost predicate Mid(s: System, i: nat) {
    && i < |s.threads| && s.threads[i].Outside?
    && Counted(s.(nTotal := s.nTotal - 1))
    && Conserved(s) && Wakeful(s)
    && (i == 0 ==> s.result.None?)
    && Judged(s)
  }

  /** Telling the master is invisible to everything but the master. */
  lemma WakeKeeps(s: System, t: System)
    requires |s.threads| > 0 && t == s.(threads := Wake(s.threads, 0)) && Judged(s) && Conserved(s)
    ensures Conserved(t) && Judged(t)
  {
    hide Batches;
    SameSums(s.threads, t.threads);
    assert forall j | 0 < j < |s.threads| :: t.threads[j] == s.threads[j];
    assert OkOf(t.threads[0]) == OkOf(s.threads[0]);
    assert Clean(t) == Clean(s);
  }

  /** CleanUp without the notification. */
  function Settle(s: System, i: nat): System
    requires i < |s.threads|
  {
    CleanUp(s, i).(threads := s.threads[i := Outside])
  }

  lemma SettleKeeps(s: System, i: nat)
    requires Inv(s) && Enabled(s, Lock(i))
    ensures Counted(Settle(s, i).(nTotal := Settle(s, i).nTotal - 1))
    ensures Conserved(Settle(s, i)) && Judged(Settle(s, i)) && (i == 0 ==> s.result.None?)
  {
    hide Counted, Conserved, Judged, Wakeful;
    ThreadFacts(s, i);
    CountedMove(s, Settle(s, i).(nTotal := Settle(s, i).nTotal - 1), i, Outside);
    ConservedStays(s, Settle(s, i), i, Outside);
    JudgedMove(s, Settle(s, i), i, Outside);
  }

  lemma CleanUpWakeful(s: System, i: nat)
    requires |s.threads| > 0 && Wakeful(s) && Enabled(s, Lock(i))
    requires s.nTodo >= |s.queue| + Unaccounted(s.threads[i])
    ensures Wakeful(CleanUp(s, i))
  {
  }

  lemma CleanUpKeeps(s: System, i: nat)
    requires Inv(s) && Enabled(s, Lock(i))
    ensures Mid(CleanUp(s, i), i)
  {
    hide Counted, Conserved, Judged, Wakeful;
    var m, t := Settle(s, i), CleanUp(s, i);
    SettleKeeps(s, i);
    ThreadFacts(s, i);
    CleanUpWakeful(s, i);
    if t.threads != m.threads {
      WakeKeeps(m, t);
      WakeCounted(m.(nTotal := m.nTotal - 1), t.(nTotal := t.nTotal - 1));
    }
  }

  lemma WakeCounted(s: System, t: System)
    requires |s.threads| > 0 && t == s.(threads := Wake(s.threads, 0)) && Counted(s)
    ensures Counted(t)
  {
    SameSums(s.threads, t.threads);
    assert forall j | 0 < j < |s.threads| :: t.threads[j] == s.threads[j];
  }

  lemma ReturnKeeps(limit: nat, s: System)
    requires Mid(s, 0) && s.queue == [] && s.nTodo == 0 && s.nTotal >= 0 && s.nIdle >= 0
    ensures Inv(Proceed(limit, s, 0))
  {
    SumsPositive(s.threads);
    assert s.threads[0 := Outside] == s.threads;
    assert forall j | 0 <= j < |s.threads| :: Formed(s.threads[j]) && Unaccounted(s.threads[j]) == 0;
  }

  lemma MidFacts(s: System, i: nat)
    requires Mid(s, i)
    ensures s.nTodo >= |s.queue| && (s.result.Some? ==> s.allOk && s.queue == [])
    ensures s.threads[0].Asleep? ==> s.queue == []
  {
    SumsPositive(s.threads);
  }

  lemma SleepKeeps(limit: nat, s: System, i: nat)
    requires Mid(s, i) && s.queue == [] && !(i == 0 && s.nTodo == 0) && s.nTotal >= 0 && s.nIdle >= 0
    ensures Inv(Proceed(limit, s, i))
  {
    hide Counted, Conserved, Judged;
    var t := Proceed(limit, s, i);
    MidFacts(s, i);
    CountedMove(s.(nTotal := s.nTotal - 1), t, i, Asleep(false));
    ConservedStays(s, t, i, Asleep(false));
    JudgedMove(s, t, i, Asleep(false));
  }

  /** What Proceed takes from the queue. */
  lemma TakenBatch(limit: nat, s: System, i: nat)
    requires i < |s.threads| && s.nTotal >= 0 && s.nIdle >= 0 && s.queue != []
    ensures var t := Proceed(limit, s, i);
      && t.threads == s.threads[i := t.threads[i]] && t.threads[i].Busy? && Formed(t.threads[i])
      && t.threads[i].taken == |s.queue| - |t.queue| && t.threads[i].ok == s.allOk
      && multiset(t.queue) + Held(t.threads[i]) == multiset(s.queue)
      && t == s.(queue := t.queue, threads := t.threads)
  {
    var keep := |s.queue| - BatchSize(limit, |s.queue|, s.nTotal, s.nIdle);
    assert s.queue == s.queue[..keep] + s.queue[keep..];
  }

  lemma TakeKeeps(limit: nat, s: System, i: nat)
    requires Mid(s, i) && s.queue != [] && s.nTotal >= 0 && s.nIdle >= 0
    ensures Inv(Proceed(limit, s, i))
  {
    hide Counted, Conserved, Judged, Proceed;
    TakenBatch(limit, s, i);
    MidFacts(s, i);
    var t := Proceed(limit, s, i);
    CountedMove(s.(nTotal := s.nTotal - 1), t, i, t.threads[i]);
    ConservedTakes(s, t, i, t.threads[i]);
    JudgedMove(s, t, i, t.threads[i]);
  }

  lemma ConservedTakes(s: System, t: System, i: nat, p: Phase)
    requires Conserved(s) && i < |s.threads| && s.threads[i].Outside? && t.threads == s.threads[i := p]
    requires t.added == s.added && t.passed == s.passed && t.failed == s.failed && t.skipped == s.skipped
    requires multiset(t.queue) + Held(p) == multiset(s.queue)
    ensures Conserved(t)
  {
    ConservedMove(s, t, i, p);
  }

  lemma LockKeeps(limit: nat, s: System, i: nat)
    requires Inv(s) && Enabled(s, Lock(i))
    ensures Inv(Next(limit, s, Lock(i)))
  {
    hide Inv, Mid;
    var m := CleanUp(s, i);
    CleanUpKeeps(s, i);
    CleanUpCounts(s, i);
    if m.queue != [] { TakeKeeps(limit, m, i); }
    else if i == 0 && m.nTodo == 0 { ReturnKeeps(limit, m); }
    else { SleepKeeps(limit, m, i); }
  }

  lemma ExecuteConserves(s: System, i: nat)
    requires Conserved(s) && i < |s.threads| && s.threads[i].Busy?
    ensures Conserved(RunCheck(s, i))
  {
    hide Conserved;
    var t, batch := RunCheck(s, i), s.threads[i].batch;
    if batch == [] {
      ConservedStays(s, t, i, t.threads[i]);
    } else {
      FateConserves(s, t, i, batch[0], batch[1..]);
    }
  }

  lemma FateConserves(s: System, t: System, i: nat, c: Check, rest: seq<Check>)
    requires Conserved(s) && i < |s.threads| && s.threads[i].Busy? && s.threads[i].batch == [c] + rest
    requires |t.threads| == |s.threads| && t.threads == s.threads[i := t.threads[i]]
    requires t.threads[i].Busy? && t.threads[i].batch == rest
    requires t.queue == s.queue && t.added == s.added
    requires
      || (c.passes && t.passed == s.passed + multiset{c} && t.failed == s.failed && t.skipped == s.skipped)
      || (!c.passes && t.passed == s.passed && t.failed == s.failed + multiset{c} && t.skipped == s.skipped)
      || (t.passed == s.passed && t.failed == s.failed && t.skipped == s.skipped + multiset{c})
    ensures Conserved(t)
  {
    assert Held(s.threads[i]) == multiset{c} + multiset(rest);
    FateMoves(multiset(s.queue), multiset(rest), c, s.passed, s.failed, s.skipped);
    hide Held, Batches;
    ConservedMove(s, t, i, t.threads[i]);
  }

  /** A check leaves the batch for one of the three fates. */
  lemma FateMoves(q: multiset<Check>, b: multiset<Check>, c: Check, p: multiset<Check>, f: multiset<Check>, s: multiset<Check>)
    ensures q + b + (p + multiset{c}) + f + s == q + (multiset{c} + b) + p + f + s
    ensures q + b + p + (f + multiset{c}) + s == q + (multiset{c} + b) + p + f + s
    ensures q + b + p + f + (s + multiset{c}) == q + (multiset{c} + b) + p + f + s
  {
  }

  lemma ExecuteJudges(s: System, i: nat)
    requires |s.threads| > 0 && Judged(s) && i < |s.threads| && s.threads[i].Busy? && s.result.None?
    ensures Judged(RunCheck(s, i))
  {
    var t := RunCheck(s, i);
    var Busy(batch, taken, ok) := s.threads[i];
    if batch == [] || !ok || batch[0].passes {
      CleanMove(s, t, i, t.threads[i]);
      assert !ok ==> !Clean(s);
    } else {
      assert !OkOf(t.threads[i]);
      assert batch[0] in t.failed;
    }
  }

  lemma ExecuteKeeps(limit: nat, s: System, i: nat)
    requires Inv(s) && Enabled(s, Execute(i))
    ensures Inv(Next(limit, s, Execute(i)))
  {
    hide Counted, Conserved, Judged;
    var t := RunCheck(s, i);
    ThreadFacts(s, i);
    CountedMove(s, t, i, t.threads[i]);
    ExecuteConserves(s, i);
    ExecuteJudges(s, i);
  }

  lemma NextKeeps(limit: nat, s: System, a: Action)
    requires Inv(s) && Enabled(s, a)
    ensures Inv(Next(limit, s, a))
  {
    hide Inv;
    match a
    case Open => OpenKeeps(limit, s);
    case Add(checks, pick) => AddKeeps(limit, s, checks, pick);
    case Enter(i) => EnterKeeps(limit, s, i);
    case Lock(i) => LockKeeps(limit, s, i);
    case Execute(i) => ExecuteKeeps(limit, s, i);
  }

  // ---------------------------------------------------------------- runs

  /** A run: states joined by enabled actions, starting with idle workers and no session. */
  ghost predicate IsRun(limit: nat, workers: nat, run: seq<Action>, states: seq<System>) {
    && |states| == |run| + 1
    && states[0] == Start(workers)
    && (forall n | 0 <= n < |run| :: Inv(states[n]) ==> Enabled(states[n], run[n]) && states[n + 1] == Next(limit, states[n], run[n]))
  }

  /** In every interleaving, with any number of workers and sessions, the invariant holds. */
  lemma {:induction false} RunInvariant(limit: nat, workers: nat, run: seq<Action>, states: seq<System>, n: nat)
    requires IsRun(limit, workers, run, states) && n < |states|
    ensures Inv(states[n])
  {
    if n == 0 {
      StartInv(workers);
    } else {
      RunInvariant(limit, workers, run, states, n - 1);
      NextKeeps(limit, states[n - 1], run[n - 1]);
    }
  }

  /** Between sessions nothing is queued or in flight, the verdict is reset, and the answer given was true
      exactly when every check added in the session ran and passed. */
  lemma SessionAnswer(s: System)
    requires Inv(s) && s.result.Some?
    ensures s.queue == [] && s.nTodo == 0 && s.allOk
    ensures forall i | 0 <= i < |s.threads| :: Unaccounted(s.threads[i]) == 0 && !s.threads[i].Busy?
    ensures s.result.value <==> s.passed == s.added
    ensures !s.result.value ==> exists c :: c in s.added && !c.passes
  {
    SumsPositive(s.threads);
    assert forall i | 0 <= i < |s.threads| :: Formed(s.threads[i]);
    NoBatches(s.threads);
    assert s.added == s.passed + s.failed + s.skipped;
    if !s.result.value {
      var c :| c in s.failed;
      assert c in s.added;
      assert s.passed[c] < s.added[c];
    }
  }

  /** Wait returns exactly through the step that sets the answer. */
  lemma WaitReturns(limit: nat, s: System)
    requires Inv(s) && Enabled(s, Lock(0)) && s.result.None?
    ensures var t := Next(limit, s, Lock(0));
      && (t.threads[0].Outside? <==> t.result.Some?)
      && (t.result.Some? <==> s.queue == [] && s.nTodo == Unaccounted(s.threads[0]))
  {
    hide Conserved, Judged, Wakeful, Reverse, Wake;
    CleanUpCounts(s, 0);
  }

  /** No lost wake-up and no deadlock: while the master is inside Wait, either it can step itself or has been
      signalled, or some worker still holds checks that it will account for. */
  lemma NoDeadlock(s: System)
    requires Inv(s) && s.threads[0] == Asleep(false)
    ensures s.queue == [] && exists i | 0 < i < |s.threads| :: Unaccounted(s.threads[i]) > 0
  {
    SumsPositive(s.threads);
    var i :| 0 <= i < |s.threads| && Unaccounted(s.threads[i]) != 0;
    assert i != 0;
  }

  /** Work left: bounds the number of steps that can still happen before Wait returns. */
  function Weight(p: Phase): int {
    match p
    case Outside => 4
    case Ready(_, _) => 3
    case Asleep(signalled) => if signalled then 2 else 0
    case Busy(batch, _, _) => 2 * |batch| + 4
  }

  ghost function Work(s: System): int { 8 * |s.queue| + Sum(Weight, s.threads) }

  lemma CleanUpWork(s: System, i: nat)
    requires Inv(s) && Enabled(s, Lock(i))
    ensures Work(CleanUp(s, i)) <= Work(s) - Weight(s.threads[i]) + 4 + (if s.queue == [] && s.threads[i].Ready? && i != 0 then 2 else 0)
    ensures CleanUp(s, i).queue == s.queue
  {
    ThreadFacts(s, i);
    var ts := s.threads[i := Outside];
    SumUpdate(Weight, s.threads, i, Outside);
    SumUpdate(Weight, ts, 0, Asleep(true));
  }

  lemma ProceedWork(limit: nat, s: System, i: nat)
    requires i < |s.threads| && s.threads[i].Outside? && s.nTotal >= 0 && s.nIdle >= 0
    ensures var t := Proceed(limit, s, i);
      Work(t) <= if s.queue != [] then Work(s) - 6 else if i == 0 && s.nTodo == 0 then Work(s) else Work(s) - 4
  {
    var t := Proceed(limit, s, i);
    SumUpdate(Weight, s.threads, i, t.threads[i]);
    if s.queue != [] { TakenBatch(limit, s, i); assert |t.threads[i].batch| == t.threads[i].taken; }
  }

  lemma LockWork(limit: nat, s: System, i: nat)
    requires Inv(s) && Enabled(s, Lock(i))
    ensures var t := Next(limit, s, Lock(i));
      Work(t) < Work(s) || t.result != s.result || (t == s && s.threads[i] == Asleep(false))
  {
    hide Inv, Work, BatchSize, Reverse;
    CleanUpCounts(s, i);
    CleanUpWork(s, i);
    LockResult(s, i);
    ProceedWork(limit, CleanUp(s, i), i);
    assert s.threads[i := Outside][i := s.threads[i]] == s.threads;
  }

  /** No answer is pending while the master is in Loop. */
  lemma LockResult(s: System, i: nat)
    requires Inv(s) && Enabled(s, Lock(i))
    ensures i == 0 ==> s.result.None?
  {
  }

  lemma MoveWork(s: System, t: System, i: nat)
    requires i < |s.threads| && |t.threads| == |s.threads| && t.threads == s.threads[i := t.threads[i]]
    requires t.queue == s.queue && Weight(t.threads[i]) < Weight(s.threads[i])
    ensures 0 <= Work(t) < Work(s)
  {
    SumUpdate(Weight, s.threads, i, t.threads[i]);
    SumZero(Weight, t.threads);
  }

  /** Every step of a thread inside Loop uses up work, except an unprompted wake-up that goes back to sleep,
      and the step by which Wait returns. */
  lemma StepsWork(limit: nat, s: System, a: Action)
    requires Inv(s) && Enabled(s, a) && (a.Enter? || a.Lock? || a.Execute?)
    ensures var t := Next(limit, s, a);
      || 0 <= Work(t) < Work(s)
      || t.result != s.result
      || (t == s && a.Lock? && s.threads[a.i] == Asleep(false))
  {
    hide Inv, Work, Proceed;
    match a
    case Enter(i) => MoveWork(s, Next(limit, s, a), i);
    case Execute(i) => MoveWork(s, Next(limit, s, a), i);
    case Lock(i) =>
      LockWork(limit, s, i);
      WorkPositive(Next(limit, s, a));
  }

  lemma WorkPositive(s: System)
    ensures Work(s) >= 0
  {
    SumZero(Weight, s.threads);
  }

  // ---------------------------------------------------------------- the answer comes

  predicate IsThreadStep(a: Action) {
    a.Enter? || a.Lock? || a.Execute?
  }

  /** Steps of threads only: nothing more is added, and the master still waits for its answer. */
  ghost predicate IsWaiting(limit: nat, run: seq<Action>, states: seq<System>) {
    && |states| == |run| + 1 && Inv(states[0])
    && (forall n | 0 <= n < |states| :: states[n].result.None?)
    && (forall n | 0 <= n < |run| :: Inv(states[n]) ==>
          IsThreadStep(run[n]) && Enabled(states[n], run[n]) && states[n + 1] == Next(limit, states[n], run[n]))
  }

  /** How many of the first `n` steps changed anything. */
  ghost function Moves(states: seq<System>, n: nat): nat
    requires n < |states|
  {
    if n == 0 then 0 else Moves(states, n - 1) + if states[n] == states[n - 1] then 0 else 1
  }

  /** However threads are scheduled, while the master waits they can change something at most Work(states[0]) times. */
  lemma {:induction false} WaitBounded(limit: nat, run: seq<Action>, states: seq<System>, n: nat)
    requires IsWaiting(limit, run, states) && n < |states|
    ensures Inv(states[n]) && 0 <= Work(states[n]) && Moves(states, n) + Work(states[n]) <= Work(states[0])
  {
    hide Inv, Work;
    WorkPositive(states[n]);
    if n > 0 {
      WaitBounded(limit, run, states, n - 1);
      NextKeeps(limit, states[n - 1], run[n - 1]);
      StepsWork(limit, states[n - 1], run[n - 1]);
    }
  }

  /** A thread step that changes something. */
  ghost predicate Moving(limit: nat, s: System, a: Action)
    requires Inv(s)
  {
    IsThreadStep(a) && Enabled(s, a) && Next(limit, s, a) != s
  }

  lemma LockMoves(limit: nat, s: System, i: nat)
    requires Inv(s) && i < |s.threads| && (s.threads[i].Ready? || s.threads[i] == Asleep(true))
    ensures Moving(limit, s, Lock(i))
  {
    hide Inv, BatchSize, Reverse;
    CleanUpCounts(s, i);
    var t := Next(limit, s, Lock(i));
    assert t.threads[i] != s.threads[i];
  }

  lemma ExecuteMoves(limit: nat, s: System, i: nat)
    requires Inv(s) && i < |s.threads| && s.threads[i].Busy?
    ensures Moving(limit, s, Execute(i))
  {
    hide Inv;
    var t := Next(limit, s, Execute(i));
    assert t.threads[i] != s.threads[i];
  }

  /** And one such step can always be taken: with the bound, the answer comes. */
  lemma SomeoneMoves(limit: nat, s: System)
    requires Inv(s) && s.result.None?
    ensures exists a :: Moving(limit, s, a)
  {
    hide Next;
    match s.threads[0]
    case Outside => EnterMoves(limit, s);
    case Ready(_, _) => LockMoves(limit, s, 0);
    case Busy(_, _, _) => ExecuteMoves(limit, s, 0);
    case Asleep(signalled) =>
      if signalled {
        LockMoves(limit, s, 0);
      } else {
        NoDeadlock(s);
        var i :| 0 < i < |s.threads| && Unaccounted(s.threads[i]) > 0;
        if s.threads[i].Busy? { ExecuteMoves(limit, s, i); } else { LockMoves(limit, s, i); }
      }
  }

  lemma EnterMoves(limit: nat, s: System)
    requires Inv(s) && s.result.None? && s.threads[0].Outside?
    ensures Moving(limit, s, Enter(0))
  {
    assert Next(limit, s, Enter(0)).threads[0] != s.threads[0];
  }

  lemma {:induction false} AllMove(states: seq<System>, n: nat)
    requires n < |states| && forall i | 0 < i < |states| :: states[i] != states[i - 1]
    ensures Moves(states, n) == n
  {
    if n > 0 { AllMove(states, n - 1); }
  }

  /** Wait returns: if threads keep taking steps that change something, the master has waited for at most
      Work(states[0]) of them, and until it has its answer there is always another to take. */
  lemma WaitEnds(limit: nat, run: seq<Action>, states: seq<System>)
    requires IsWaiting(limit, run, states) && forall i | 0 < i < |states| :: states[i] != states[i - 1]
    ensures |run| <= Work(states[0])
    ensures Inv(states[|run|]) && exists a :: Moving(limit, states[|run|], a)
  {
    hide Inv, Work, Moves, Next, Moving;
    WaitBounded(limit, run, states, |run|);
    AllMove(states, |run|);
    SomeoneMoves(limit, states[|run|]);
  }
}
