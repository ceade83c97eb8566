/** What stays in a coin cache: coins that come and go leave no trace, and clean entries can be dropped. */
module CoinsLaws {
  import opened Basics
  import opened Coins

  /** A coin that no layer below knows, added to a cache and spent there, leaves it as it was. */
  lemma LeavesNoTrace(v: View, o: OutPoint, c: Coin)
    requires v.Cache? && o !in v.entries && !IsSpent(c) && !IsUnspendable(c)
    ensures SpendCoin(AddCoin(v, o, c, false).view, o) == (v, true, c)
  {
    var n := Entry(c, true, true);
    assert v.entries[o := n] - {o} == v.entries;
  }

  /** Flushed into a cache in between, it leaves no trace there either. */
  lemma LeavesNoTraceBelow(v: View, o: OutPoint, c: Coin)
    requires v.Cache? && v.base.Cache? && o !in v.entries && o !in v.base.entries && !IsSpent(c) && !IsUnspendable(c)
    ensures
      var parent := Flush(AddCoin(v, o, c, false).view).base;
      parent.Cache? && parent.entries.Keys == Flush(v).base.entries.Keys + {o} && SpendCoin(parent, o).1
      && SpendCoin(parent, o).0.entries == Flush(v).base.entries
  {
    var e, m := v.base.entries, v.entries;
    var m' := m[o := Entry(c, true, true)];
    forall x | x != o ensures MergeAt(e, m', x) == MergeAt(e, m, x) { }
    assert MergeAt(e, m', o) == Some(Entry(c, true, true)) && MergeAt(e, m, o) == None;
    assert Merged(e, m') == Merged(e, m)[o := Entry(c, true, true)];
    assert Merged(e, m)[o := Entry(c, true, true)] - {o} == Merged(e, m);
  }

  /** An entry that differs from what is below stays; any other can be dropped, and is read again when needed. */
  lemma UncacheLaw(v: View, o: OutPoint)
    requires Ok(v) && v.Cache? && o in v.entries
    ensures
      var n := v.entries[o];
      Uncache(v, o).entries == if n.dirty then v.entries else v.entries - {o}
  {
  }

  /** Reading a coin puts it into every cache on the way, so that reading it again changes nothing. */
  lemma ReadAgain(v: View, o: OutPoint)
    requires Ok(v) && v.Cache? && Lookup(v, o).Some?
    ensures o in GetCoin(v, o).0.entries && GetCoin(GetCoin(v, o).0, o) == GetCoin(v, o)
  {
    FetchReads(v, o);
  }

  /** Coins that nobody can ever spend are never stored: those whose script begins with OP_RETURN, 0x6a, or is longer than
      10000 bytes. */
  lemma NeverStored(v: View, o: OutPoint, c: Coin, possibleOverwrite: bool)
    requires v.Cache? && !IsSpent(c)
    ensures (|c.script| > 0 && c.script[0] == 0x6a) || |c.script| > 10000 ==> AddCoin(v, o, c, possibleOverwrite) == Added(v, false)
    ensures !((|c.script| > 0 && c.script[0] == 0x6a) || |c.script| > 10000) && !AddCoin(v, o, c, possibleOverwrite).threw ==>
      o in AddCoin(v, o, c, possibleOverwrite).view.entries && AddCoin(v, o, c, possibleOverwrite).view.entries[o].coin == c
  {
  }

  /** A script of up to 28 bytes takes no memory of its own. A longer one takes the smallest multiple of 16 that holds it
      and 16 bytes more. */
  lemma UsageIs(c: Coin)
    ensures |c.script| <= 28 ==> Usage(c) == 0
    ensures |c.script| > 28 ==> Usage(c) % 16 == 0 && |c.script| + 16 <= Usage(c) < |c.script| + 32
  {
  }

  /** Spending forgets the coin, but not whether it came from a stake or a social transaction. */
  lemma ClearedIs(c: Coin)
    ensures IsSpent(Cleared(c)) && Usage(Cleared(c)) == 0
    ensures Cleared(c).coinStake == c.coinStake && Cleared(c).pocketTx == c.pocketTx
    ensures !Cleared(c).coinBase && Cleared(c).height == 0
  {
  }
}
