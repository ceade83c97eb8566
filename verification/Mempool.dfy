/** The mempool as block assembly sees it: a finite acyclic graph of entries, and sums over ancestor closures. */
module Mempool {
  import Sets

  type Txid = nat
  type Payload = nat

  /** Entries and the statistics the mempool keeps for them. `ancestors` is closed: it lists all of them. */
  datatype Pool = Pool(
    ancestors: map<Txid, set<Txid>>,
    size: map<Txid, nat>,
    weight: map<Txid, nat>,
    sigOps: map<Txid, nat>,
    fee: map<Txid, int>,
    modifiedFee: map<Txid, int>,
    countWith: map<Txid, nat>,
    sizeWith: map<Txid, nat>,
    sigOpsWith: map<Txid, nat>,
    modFeesWith: map<Txid, int>)

  /** An entry with its ancestors. */
  function Full(p: Pool, x: Txid): set<Txid>
    requires x in p.ancestors
  {
    p.ancestors[x] + {x}
  }

  ghost predicate Complete(p: Pool) {
    && p.size.Keys == p.weight.Keys == p.sigOps.Keys == p.ancestors.Keys
    && p.fee.Keys == p.modifiedFee.Keys == p.ancestors.Keys
    && p.countWith.Keys == p.sizeWith.Keys == p.sigOpsWith.Keys == p.modFeesWith.Keys == p.ancestors.Keys
  }

  ghost predicate Acyclic(p: Pool) {
    forall x | x in p.ancestors ::
      && x !in p.ancestors[x]
      && p.ancestors[x] <= p.ancestors.Keys
      && forall y | y in p.ancestors[x] :: p.ancestors[y] <= p.ancestors[x]
  }

  /** Cached statistics are sums over the closure, and a transaction weighs at most four times its size. */
  ghost predicate Statistics(p: Pool)
    requires Complete(p) && Acyclic(p)
  {
    forall x | x in p.ancestors ::
      && p.countWith[x] == |Full(p, x)|
      && p.sizeWith[x] == Total(p.size, Full(p, x))
      && p.sigOpsWith[x] == Total(p.sigOps, Full(p, x))
      && p.weight[x] <= 4 * p.size[x]
  }

  ghost predicate Ok(p: Pool) {
    Complete(p) && Acyclic(p) && Statistics(p)
  }

  lemma PoolComplete(p: Pool)
    requires Ok(p)
    ensures Complete(p) && Acyclic(p)
  {
  }

  // ---------------------------------------------------------------- sums over sets

  ghost function Total(f: map<Txid, nat>, s: set<Txid>): nat
    requires s <= f.Keys
    decreases |s|
  {
    if s == {} then 0
    else
      var x :| x in s;
      f[x] + Total(f, s - {x})
  }

  /** The fees, for mempools in which none is negative. */
  function FeeOf(p: Pool): map<Txid, nat> {
    map x | x in p.fee :: if p.fee[x] >= 0 then p.fee[x] else 0
  }

  /** Nothing has been prioritised: fees count as they are. */
  ghost predicate Plain(p: Pool)
    requires Complete(p) && Acyclic(p)
  {
    && p.modifiedFee == p.fee && (forall x | x in p.fee :: p.fee[x] >= 0)
    && forall x | x in p.ancestors :: p.modFeesWith[x] == Total(FeeOf(p), Full(p, x))
  }

  lemma {:induction false} TotalRemove(f: map<Txid, nat>, s: set<Txid>, x: Txid)
    requires s <= f.Keys && x in s
    ensures Total(f, s) == f[x] + Total(f, s - {x})
    decreases |s|
  {
    var y :| y in s && Total(f, s) == f[y] + Total(f, s - {y});
    if y != x {
      TotalRemove(f, s - {y}, x);
      TotalRemove(f, s - {x}, y);
      assert s - {y} - {x} == s - {x} - {y};
    }
  }

  lemma TotalAdd(f: map<Txid, nat>, s: set<Txid>, x: Txid)
    requires s <= f.Keys && x in f && x !in s
    ensures Total(f, s + {x}) == Total(f, s) + f[x]
  {
    TotalRemove(f, s + {x}, x);
    assert s + {x} - {x} == s;
  }

  lemma {:induction false} TotalJoin(f: map<Txid, nat>, a: set<Txid>, b: set<Txid>)
    requires a <= f.Keys && b <= f.Keys && a !! b
    ensures Total(f, a + b) == Total(f, a) + Total(f, b)
    decreases |b|
  {
    if b == {} {
      assert a + b == a;
    } else {
      var x := Sets.Pick(b);
      TotalJoin(f, a, b - {x});
      TotalRemove(f, b, x);
      TotalRemove(f, a + b, x);
      assert a + b - {x} == a + (b - {x});
    }
  }

  lemma TotalSubset(f: map<Txid, nat>, a: set<Txid>, b: set<Txid>)
    requires a <= b <= f.Keys
    ensures Total(f, a) <= Total(f, b)
    ensures Total(f, b - a) == Total(f, b) - Total(f, a)
  {
    TotalJoin(f, a, b - a);
    assert a + (b - a) == b;
  }

  lemma {:induction false} TotalBounded(w: map<Txid, nat>, z: map<Txid, nat>, s: set<Txid>)
    requires s <= w.Keys && s <= z.Keys && forall x | x in s :: w[x] <= 4 * z[x]
    ensures Total(w, s) <= 4 * Total(z, s)
    decreases |s|
  {
    if s != {} {
      var x := Sets.Pick(s);
      TotalRemove(w, s, x);
      TotalRemove(z, s, x);
      TotalBounded(w, z, s - {x});
    }
  }

  lemma WeightsBounded(p: Pool, s: set<Txid>)
    requires Ok(p) && s <= p.ancestors.Keys
    ensures Total(p.weight, s) <= 4 * Total(p.size, s)
  {
    hide Total, Full, Acyclic;
    TotalBounded(p.weight, p.size, s);
  }

  // ---------------------------------------------------------------- ancestor counts

  lemma {:induction false} SubsetSize(a: set<Txid>, b: set<Txid>)
    requires a <= b
    ensures |a| <= |b|
    decreases |a|
  {
    if a != {} {
      var x := Sets.Pick(a);
      SubsetSize(a - {x}, b - {x});
    }
  }

  lemma AncestorsBelow(p: Pool, x: Txid, y: Txid)
    requires Acyclic(p) && y in p.ancestors && x in p.ancestors[y]
    ensures x in p.ancestors && y !in p.ancestors[y] && Full(p, x) <= p.ancestors[y]
  {
  }

  lemma CountIs(p: Pool, x: Txid)
    requires Ok(p) && x in p.ancestors
    ensures p.countWith[x] == |Full(p, x)|
  {
    hide Acyclic, Total;
  }

  /** An ancestor has fewer ancestors: the reason why sorting by ancestor count orders a package. */
  lemma AncestorCount(p: Pool, x: Txid, y: Txid)
    requires Ok(p) && y in p.ancestors && x in p.ancestors[y]
    ensures x in p.ancestors && p.countWith[x] < p.countWith[y]
  {
    hide Acyclic, Statistics;
    AncestorsBelow(p, x, y);
    SubsetSize(Full(p, x), p.ancestors[y]);
    CountIs(p, x);
    CountIs(p, y);
  }
}
