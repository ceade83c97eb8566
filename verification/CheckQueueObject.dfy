/** The queue object: what its critical sections do to the fields, with the loops of the code. */
module CheckQueueObject {
  import opened CheckQueue

  datatype Notify = NotifyNone | NotifyOne | NotifyAll

  class Queue {
    var queue: seq<Check>
    var nIdle: nat
    var nTotal: nat
    var fAllOk: bool
    var nTodo: int
    const nBatchSize: nat

    constructor (batchSize: nat)
      ensures queue == [] && nIdle == 0 && nTotal == 0 && nTodo == 0 && fAllOk && nBatchSize == batchSize
    {
      queue, nIdle, nTotal, nTodo, fAllOk := [], 0, 0, 0, true;
      nBatchSize := batchSize;
    }

    /** The fields as the transition system sees them. */
    ghost predicate Shows(s: System)
      reads this
    {
      queue == s.queue && nIdle == s.nIdle && nTotal == s.nTotal && nTodo == s.nTodo && fAllOk == s.allOk
    }

    /** Add, under the lock; the result says which notification it sends to the workers. */
    method Add(vChecks: seq<Check>, ghost s: System, ghost pick: nat) returns (n: Notify)
      requires Inv(s) && Enabled(s, CheckQueue.Add(vChecks, pick)) && Shows(s)
      modifies this
      ensures Shows(Next(nBatchSize, s, CheckQueue.Add(vChecks, pick)))
      ensures n == if |vChecks| == 0 then NotifyNone else if |vChecks| == 1 then NotifyOne else NotifyAll
    {
      hide Inv, Enabled;
      for i := 0 to |vChecks|
        invariant queue == s.queue + vChecks[..i]
        invariant nIdle == s.nIdle && nTotal == s.nTotal && nTodo == s.nTodo && fAllOk == s.allOk
      {
        queue := queue + [vChecks[i]];
      }
      assert vChecks[..|vChecks|] == vChecks;
      nTodo := nTodo + |vChecks|;
      n := if |vChecks| == 1 then NotifyOne else if |vChecks| > 1 then NotifyAll else NotifyNone;
    }

    /** The clean-up at the head of Loop's critical section; returns whether the master is to be told. */
    method CleanUp(nNow: nat, fOk: bool, fMaster: bool, ghost s: System, ghost i: nat) returns (tellMaster: bool)
      requires i < |s.threads| && (fMaster <==> i == 0) && s.threads[i] == Ready(nNow, fOk) && Shows(s)
      modifies this
      ensures Shows(CheckQueue.CleanUp(s, i))
      ensures tellMaster <==> nNow > 0 && nTodo == 0 && !fMaster
    {
      tellMaster := false;
      if nNow > 0 {
        fAllOk := fAllOk && fOk;
        nTodo := nTodo - nNow;
        if nTodo == 0 && !fMaster {
          tellMaster := true;
        }
      } else {
        nTotal := nTotal + 1;
      }
    }

    /** Move `nNow` checks from the back of the queue into a vector. */
    method PopBack(nNow: nat) returns (vChecks: seq<Check>)
      requires nNow <= |queue|
      modifies this`queue
      ensures queue == old(queue)[..|old(queue)| - nNow] && vChecks == Reverse(old(queue)[|old(queue)| - nNow..])
    {
      hide Reverse;
      vChecks := [];
      ghost var all := queue;
      assert Reverse(all[|all|..]) == [] by { assert |all[|all|..]| == 0; }
      for k := 0 to nNow
        invariant queue == all[..|all| - k] && vChecks == Reverse(all[|all| - k..])
      {
        ReverseFront(all, |all| - k - 1);
        vChecks := vChecks + [queue[|queue| - 1]];
        queue := queue[..|queue| - 1];
      }
    }

    /** Decide how many checks to take, and take them. */
    method TakeBatch(ghost s: System, ghost i: nat) returns (vChecks: seq<Check>, fOk: bool)
      requires i < |s.threads| && queue != [] && Shows(s)
      modifies this
      ensures Shows(Proceed(nBatchSize, s, i))
      ensures Proceed(nBatchSize, s, i).threads[i] == Busy(vChecks, |vChecks|, fOk)
    {
      hide Reverse, BatchSize, Proceed;
      ProceedTakes(nBatchSize, s, i);
      var nNow := BatchSize(nBatchSize, |queue|, nTotal, nIdle);
      vChecks := PopBack(nNow);
      fOk := fAllOk;
    }

    /** Execute the batch outside the lock; `ran` are the checks really evaluated. */
    method RunBatch(vChecks: seq<Check>, fOk: bool) returns (ok: bool, ghost ran: seq<Check>)
      ensures ok <==> fOk && forall c | c in vChecks :: c.passes
      ensures ran <= vChecks && (ok ==> ran == vChecks)
      ensures fOk && !ok ==> |ran| > 0 && !ran[|ran| - 1].passes && forall c | c in ran[..|ran| - 1] :: c.passes
      ensures !fOk ==> ran == []
    {
      ok, ran := fOk, [];
      for i := 0 to |vChecks|
        invariant ran <= vChecks[..i] && (ok ==> fOk && ran == vChecks[..i] && forall c | c in ran :: c.passes)
        invariant fOk && !ok ==> |ran| > 0 && !ran[|ran| - 1].passes && forall c | c in ran[..|ran| - 1] :: c.passes
        invariant !fOk ==> ran == [] && !ok
      {
        assert vChecks[..i + 1] == vChecks[..i] + [vChecks[i]];
        if ok {
          ok, ran := vChecks[i].passes, ran + [vChecks[i]];
        }
      }
      assert vChecks[..|vChecks|] == vChecks;
    }
  }

  /** Popping from the back and pushing to a vector builds the reversal. */
  lemma ReverseFront(s: seq<Check>, k: nat)
    requires k < |s|
    ensures Reverse(s[k..]) == Reverse(s[k + 1..]) + [s[k]]
  {
    assert s[k..][1..] == s[k + 1..];
  }

  lemma ProceedTakes(limit: nat, s: System, i: nat)
    requires i < |s.threads| && s.queue != [] && s.nTotal >= 0 && s.nIdle >= 0
    ensures var t, n := Proceed(limit, s, i), BatchSize(limit, |s.queue|, s.nTotal, s.nIdle);
      && t.queue == s.queue[..|s.queue| - n]
      && t.nIdle == s.nIdle && t.nTotal == s.nTotal && t.nTodo == s.nTodo && t.allOk == s.allOk
      && |t.threads| == |s.threads| && t.threads[i] == Busy(Reverse(s.queue[|s.queue| - n..]), n, s.allOk)
  {
  }
}
