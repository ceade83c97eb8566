/** Partial Merkle trees (BIP 37): the tree, the traversal that builds a proof and the one that reads it.

    Hashing a pair of nodes is an arbitrary function `H`; the theorems ask only that it does not
    collide on the pairs that were really hashed. */
module MerkleTree {
  import opened Basics
  import opened Powers

  type Hash = nat
  type Pair = (Hash, Hash)

  const NO_HASH: Hash := 0
  const MIN_TRANSACTION_WEIGHT := 240

  // ---------------------------------------------------------------- shape

  /** Number of nodes at a height of the tree over `n` transactions. */
  function Width(n: nat, height: nat): nat {
    (n + Pow2(height) - 1) / Pow2(height)
  }

  lemma WidthHalves(n: nat, height: nat)
    ensures Width(n, height + 1) == (Width(n, height) + 1) / 2
  {
    hide Pow2;
    var p := Pow2(height);
    assert Pow2(height + 1) == 2 * p by { Pow2Step(height); }
    var w := (n + p - 1) / p;
    DivBounds(n + p - 1, p);
    HalfCeiling(n, p, w, (w + 1) / 2);
  }

  lemma Twice(v: int, p: int)
    ensures v * (2 * p) == 2 * v * p
    ensures (v + 1) * (2 * p) == 2 * v * p + 2 * p
    ensures (2 * v - 1) * p == 2 * v * p - p
    ensures (2 * v + 1) * p == 2 * v * p + p
    ensures (2 * v + 2) * p == 2 * v * p + 2 * p
  {
  }

  lemma HalfCeiling(n: nat, p: nat, w: nat, v: nat)
    requires p > 0 && w * p <= n + p - 1 < (w + 1) * p && v == (w + 1) / 2
    ensures (n + 2 * p - 1) / (2 * p) == v
  {
    Twice(v, p);
    assert v * (2 * p) <= n + 2 * p - 1 < (v + 1) * (2 * p) by {
      if w == 2 * v {
        assert (w + 1) * p == (2 * v + 1) * p;
      } else {
        assert w == 2 * v - 1;
      }
    }
    DivUnique(n + 2 * p - 1, 2 * p, v);
  }

  /** Every node but perhaps the last has two children; the last has at least one. */
  lemma Children(n: nat, height: nat, pos: nat)
    requires height > 0 && pos < Width(n, height)
    ensures 2 * pos < Width(n, height - 1)
    ensures pos + 1 < Width(n, height) ==> 2 * pos + 1 < Width(n, height - 1)
  {
    WidthHalves(n, height - 1);
  }

  lemma WidthZero(n: nat)
    ensures Width(n, 0) == n
  {
  }

  /** The leaves below a node are those below its children. */
  lemma Halves(pos: nat, height: nat)
    requires height > 0
    ensures pos * Pow2(height) == 2 * pos * Pow2(height - 1)
    ensures (pos + 1) * Pow2(height) == (2 * pos + 2) * Pow2(height - 1)
    ensures 2 * pos * Pow2(height - 1) <= (2 * pos + 1) * Pow2(height - 1) <= (2 * pos + 2) * Pow2(height - 1)
  {
    Twice(pos, Pow2(height - 1));
  }

  // ---------------------------------------------------------------- the tree

  function CalcHash(H: (Hash, Hash) -> Hash, txids: seq<Hash>, height: nat, pos: nat): Hash
    requires pos < Width(|txids|, height)
    decreases height
  {
    if height == 0 then txids[pos]
    else
      Children(|txids|, height, pos);
      var left := CalcHash(H, txids, height - 1, 2 * pos);
      var right := if 2 * pos + 1 < Width(|txids|, height - 1) then CalcHash(H, txids, height - 1, 2 * pos + 1) else left;
      H(left, right)
  }

  /** The pairs hashed below a node of the tree. */
  ghost function TreePairs(H: (Hash, Hash) -> Hash, txids: seq<Hash>, height: nat, pos: nat): set<Pair>
    requires pos < Width(|txids|, height)
    decreases height
  {
    if height == 0 then {}
    else
      Children(|txids|, height, pos);
      var left := CalcHash(H, txids, height - 1, 2 * pos);
      if 2 * pos + 1 < Width(|txids|, height - 1) then
        {(left, CalcHash(H, txids, height - 1, 2 * pos + 1))}
        + TreePairs(H, txids, height - 1, 2 * pos) + TreePairs(H, txids, height - 1, 2 * pos + 1)
      else {(left, left)} + TreePairs(H, txids, height - 1, 2 * pos)
  }

  /** The pair hashed into an inner node. */
  ghost function TopPair(H: (Hash, Hash) -> Hash, txids: seq<Hash>, height: nat, pos: nat): (r: Pair)
    requires height > 0 && pos < Width(|txids|, height)
    ensures r in TreePairs(H, txids, height, pos)
    ensures CalcHash(H, txids, height, pos) == H(r.0, r.1)
  {
    Children(|txids|, height, pos);
    var left := CalcHash(H, txids, height - 1, 2 * pos);
    (left, if 2 * pos + 1 < Width(|txids|, height - 1) then CalcHash(H, txids, height - 1, 2 * pos + 1) else left)
  }

  lemma TreePairsBelow(H: (Hash, Hash) -> Hash, txids: seq<Hash>, height: nat, pos: nat, pairs: set<Pair>)
    requires height > 0 && pos < Width(|txids|, height) && 2 * pos < Width(|txids|, height - 1)
    requires TreePairs(H, txids, height, pos) <= pairs
    ensures TopPair(H, txids, height, pos) in pairs
    ensures TreePairs(H, txids, height - 1, 2 * pos) <= pairs
    ensures 2 * pos + 1 < Width(|txids|, height - 1) ==> TreePairs(H, txids, height - 1, 2 * pos + 1) <= pairs
  {
    hide Width, CalcHash;
  }

  /** `H` tells the given pairs apart. */
  ghost predicate NoCollision(H: (Hash, Hash) -> Hash, pairs: set<Pair>) {
    forall x, y | x in pairs && y in pairs && H(x.0, x.1) == H(y.0, y.1) :: x == y
  }

  // ---------------------------------------------------------------- reading a proof

  /** The partial tree as it travels: the number of leaves, the flag bits and the hashes. */
  datatype Partial = Partial(nTransactions: nat, vBits: seq<bool>, vHash: seq<Hash>)

  /** What TraverseAndExtract returns and the counters it advances; `bad` is fBad. */
  datatype Extract = Extract(hash: Hash, bits: nat, hashes: nat, found: seq<(Hash, nat)>, bad: bool)

  function TraverseAndExtract(H: (Hash, Hash) -> Hash, t: Partial,
                              height: nat, pos: nat, bits: nat, hashes: nat): Extract
    decreases height
  {
    if bits >= |t.vBits| then Extract(NO_HASH, bits, hashes, [], true)
    else
      var parent := t.vBits[bits];
      if height == 0 || !parent then
        if hashes >= |t.vHash| then Extract(NO_HASH, bits + 1, hashes, [], true)
        else
          var h := t.vHash[hashes];
          Extract(h, bits + 1, hashes + 1, if height == 0 && parent then [(h, pos)] else [], false)
      else
        var l := TraverseAndExtract(H, t, height - 1, 2 * pos, bits + 1, hashes);
        if 2 * pos + 1 < Width(t.nTransactions, height - 1) then
          var r := TraverseAndExtract(H, t, height - 1, 2 * pos + 1, l.bits, l.hashes);
          Extract(H(l.hash, r.hash), r.bits, r.hashes, l.found + r.found, l.bad || r.bad || r.hash == l.hash)
        else
          Extract(H(l.hash, l.hash), l.bits, l.hashes, l.found, l.bad)
  }

  /** The pairs hashed while reading. */
  ghost function ReadPairs(H: (Hash, Hash) -> Hash, t: Partial,
                           height: nat, pos: nat, bits: nat, hashes: nat): set<Pair>
    decreases height
  {
    if bits >= |t.vBits| || height == 0 || !t.vBits[bits] then {}
    else
      var l := TraverseAndExtract(H, t, height - 1, 2 * pos, bits + 1, hashes);
      var left := ReadPairs(H, t, height - 1, 2 * pos, bits + 1, hashes);
      if 2 * pos + 1 < Width(t.nTransactions, height - 1) then
        var r := TraverseAndExtract(H, t, height - 1, 2 * pos + 1, l.bits, l.hashes);
        {(l.hash, r.hash)} + left + ReadPairs(H, t, height - 1, 2 * pos + 1, l.bits, l.hashes)
      else {(l.hash, l.hash)} + left
  }

  /** What is read at a node that is opened, in terms of its children. */
  lemma ReadInner(H: (Hash, Hash) -> Hash, t: Partial, height: nat, pos: nat, bits: nat, hashes: nat)
    requires height > 0 && bits < |t.vBits| && t.vBits[bits]
    ensures
      var e := TraverseAndExtract(H, t, height, pos, bits, hashes);
      var l := TraverseAndExtract(H, t, height - 1, 2 * pos, bits + 1, hashes);
      if 2 * pos + 1 < Width(t.nTransactions, height - 1) then
        var r := TraverseAndExtract(H, t, height - 1, 2 * pos + 1, l.bits, l.hashes);
        e == Extract(H(l.hash, r.hash), r.bits, r.hashes, l.found + r.found, l.bad || r.bad || r.hash == l.hash)
      else e == Extract(H(l.hash, l.hash), l.bits, l.hashes, l.found, l.bad)
  {
    hide Width;
  }

  lemma ReadPairsBelow(H: (Hash, Hash) -> Hash, t: Partial, height: nat, pos: nat, bits: nat, hashes: nat, pairs: set<Pair>)
    requires height > 0 && bits < |t.vBits| && t.vBits[bits]
    requires ReadPairs(H, t, height, pos, bits, hashes) <= pairs
    ensures ReadPairs(H, t, height - 1, 2 * pos, bits + 1, hashes) <= pairs
    ensures
      var l := TraverseAndExtract(H, t, height - 1, 2 * pos, bits + 1, hashes);
      if 2 * pos + 1 < Width(t.nTransactions, height - 1) then
        var r := TraverseAndExtract(H, t, height - 1, 2 * pos + 1, l.bits, l.hashes);
        (l.hash, r.hash) in pairs && ReadPairs(H, t, height - 1, 2 * pos + 1, l.bits, l.hashes) <= pairs
      else (l.hash, l.hash) in pairs
  {
    hide Width, TraverseAndExtract;
  }

  // ---------------------------------------------------------------- soundness

  /** Positions are distinct, in order and within [lo, hi). */
  ghost predicate InOrder(found: seq<(Hash, nat)>, lo: nat, hi: nat) {
    && (forall k | 0 <= k < |found| :: lo <= found[k].1 < hi)
    && (forall j, k | 0 <= j < k < |found| :: found[j].1 < found[k].1)
  }

  /** Each entry is the transaction at its position. */
  ghost predicate Genuine(txids: seq<Hash>, found: seq<(Hash, nat)>) {
    forall k | 0 <= k < |found| :: found[k].1 < |txids| && found[k].0 == txids[found[k].1]
  }

  lemma InOrderJoin(a: seq<(Hash, nat)>, b: seq<(Hash, nat)>, lo: nat, mid: nat, hi: nat)
    requires InOrder(a, lo, mid) && InOrder(b, mid, hi) && lo <= mid <= hi
    ensures InOrder(a + b, lo, hi)
  {
  }

  lemma {:induction false} ExtractAscends(H: (Hash, Hash) -> Hash, t: Partial,
                                          height: nat, pos: nat, bits: nat, hashes: nat)
    ensures InOrder(TraverseAndExtract(H, t, height, pos, bits, hashes).found,
                      pos * Pow2(height), (pos + 1) * Pow2(height))
    decreases height
  {
    hide Pow2, Width, InOrder, TraverseAndExtract;
    if bits >= |t.vBits| || height == 0 || !t.vBits[bits] {
      LeafAscends(H, t, height, pos, bits, hashes);
    } else {
      Halves(pos, height);
      ReadInner(H, t, height, pos, bits, hashes);
      var l := TraverseAndExtract(H, t, height - 1, 2 * pos, bits + 1, hashes);
      ExtractAscends(H, t, height - 1, 2 * pos, bits + 1, hashes);
      var lo, mid, hi := pos * Pow2(height), (2 * pos + 1) * Pow2(height - 1), (pos + 1) * Pow2(height);
      if 2 * pos + 1 < Width(t.nTransactions, height - 1) {
        var r := TraverseAndExtract(H, t, height - 1, 2 * pos + 1, l.bits, l.hashes);
        ExtractAscends(H, t, height - 1, 2 * pos + 1, l.bits, l.hashes);
        InOrderJoin(l.found, r.found, lo, mid, hi);
      } else {
        InOrderNone(mid, hi);
        InOrderJoin(l.found, [], lo, mid, hi);
        assert l.found + [] == l.found;
      }
    }
  }

  lemma InOrderNone(lo: nat, hi: nat)
    ensures InOrder([], lo, hi)
  {
  }

  lemma LeafAscends(H: (Hash, Hash) -> Hash, t: Partial,
                    height: nat, pos: nat, bits: nat, hashes: nat)
    requires bits >= |t.vBits| || height == 0 || !t.vBits[bits]
    ensures InOrder(TraverseAndExtract(H, t, height, pos, bits, hashes).found,
                      pos * Pow2(height), (pos + 1) * Pow2(height))
  {
    if height == 0 { Pow2Zero(); }
  }

  /** If reading arbitrary data yields the hash that the true tree has at a node, then every transaction it
      reports below that node is really there, at the reported position. */
  lemma {:induction false} ExtractGenuine(H: (Hash, Hash) -> Hash, txids: seq<Hash>, t: Partial,
                                          height: nat, pos: nat, bits: nat, hashes: nat, pairs: set<Pair>)
    requires t.nTransactions == |txids| && pos < Width(|txids|, height)
    requires !TraverseAndExtract(H, t, height, pos, bits, hashes).bad
    requires TraverseAndExtract(H, t, height, pos, bits, hashes).hash == CalcHash(H, txids, height, pos)
    requires TreePairs(H, txids, height, pos) <= pairs
    requires ReadPairs(H, t, height, pos, bits, hashes) <= pairs
    requires NoCollision(H, pairs)
    ensures Genuine(txids, TraverseAndExtract(H, t, height, pos, bits, hashes).found)
    decreases height
  {
    hide Pow2, Width, NoCollision, Genuine, TraverseAndExtract, ReadPairs, TreePairs, CalcHash;
    if height == 0 || bits >= |t.vBits| || !t.vBits[bits] {
      LeafGenuine(H, txids, t, height, pos, bits, hashes);
    } else {
      Children(|txids|, height, pos);
      ReadInner(H, t, height, pos, bits, hashes);
      ReadPairsBelow(H, t, height, pos, bits, hashes, pairs);
      TreePairsBelow(H, txids, height, pos, pairs);
      var l := TraverseAndExtract(H, t, height - 1, 2 * pos, bits + 1, hashes);
      if 2 * pos + 1 < Width(t.nTransactions, height - 1) {
        var r := TraverseAndExtract(H, t, height - 1, 2 * pos + 1, l.bits, l.hashes);
        SamePair(H, pairs, (l.hash, r.hash), TopPair(H, txids, height, pos));
        ExtractGenuine(H, txids, t, height - 1, 2 * pos, bits + 1, hashes, pairs);
        ExtractGenuine(H, txids, t, height - 1, 2 * pos + 1, l.bits, l.hashes, pairs);
        GenuineJoin(txids, l.found, r.found);
      } else {
        SamePair(H, pairs, (l.hash, l.hash), TopPair(H, txids, height, pos));
        ExtractGenuine(H, txids, t, height - 1, 2 * pos, bits + 1, hashes, pairs);
      }
    }
  }

  lemma SamePair(H: (Hash, Hash) -> Hash, pairs: set<Pair>, x: Pair, y: Pair)
    requires NoCollision(H, pairs) && x in pairs && y in pairs && H(x.0, x.1) == H(y.0, y.1)
    ensures x == y
  {
  }

  lemma GenuineJoin(txids: seq<Hash>, a: seq<(Hash, nat)>, b: seq<(Hash, nat)>)
    requires Genuine(txids, a) && Genuine(txids, b)
    ensures Genuine(txids, a + b)
  {
  }

  lemma LeafGenuine(H: (Hash, Hash) -> Hash, txids: seq<Hash>, t: Partial,
                    height: nat, pos: nat, bits: nat, hashes: nat)
    requires t.nTransactions == |txids| && pos < Width(|txids|, height)
    requires height == 0 || bits >= |t.vBits| || !t.vBits[bits]
    requires !TraverseAndExtract(H, t, height, pos, bits, hashes).bad
    requires TraverseAndExtract(H, t, height, pos, bits, hashes).hash == CalcHash(H, txids, height, pos)
    ensures Genuine(txids, TraverseAndExtract(H, t, height, pos, bits, hashes).found)
  {
    if height == 0 { WidthZero(|txids|); }
  }

  // ---------------------------------------------------------------- whole messages

  /** The lowest height with a single node. */
  function HeightFrom(n: nat, height: nat): (r: nat)
    ensures r >= height && Width(n, r) <= 1
    decreases Width(n, height)
  {
    WidthHalves(n, height);
    if Width(n, height) > 1 then HeightFrom(n, height + 1) else height
  }

  function Height(n: nat): nat {
    HeightFrom(n, 0)
  }

  lemma RootInside(n: nat, height: nat)
    requires n > 0
    ensures 0 < Width(n, height)
  {
    var p := Pow2(height);
    if Width(n, height) == 0 { DivBounds(n + p - 1, p); }
  }

  function MerkleRoot(H: (Hash, Hash) -> Hash, txids: seq<Hash>): Hash
    requires |txids| > 0
  {
    RootInside(|txids|, Height(|txids|));
    CalcHash(H, txids, Height(|txids|), 0)
  }

  /** Sizes that are refused before any traversal. */
  predicate Plausible(t: Partial) {
    && t.nTransactions != 0
    && t.nTransactions <= MAX_BLOCK_WEIGHT / MIN_TRANSACTION_WEIGHT
    && |t.vHash| <= t.nTransactions
    && |t.vHash| <= |t.vBits|
  }

  /** Nothing is left over, apart from the bits that fill the last byte. */
  predicate Consumed(t: Partial, e: Extract) {
    (e.bits + 7) / 8 == (|t.vBits| + 7) / 8 && e.hashes == |t.vHash|
  }

  function ReadWhole(H: (Hash, Hash) -> Hash, t: Partial): Extract {
    TraverseAndExtract(H, t, Height(t.nTransactions), 0, 0, 0)
  }

  /** The root that ExtractMatches returns. */
  function ExtractedRoot(H: (Hash, Hash) -> Hash, t: Partial): Hash {
    if Plausible(t) && !ReadWhole(H, t).bad && Consumed(t, ReadWhole(H, t)) then ReadWhole(H, t).hash else NO_HASH
  }

  ghost function WholeTree(H: (Hash, Hash) -> Hash, txids: seq<Hash>): set<Pair>
    requires |txids| > 0
  {
    RootInside(|txids|, Height(|txids|));
    TreePairs(H, txids, Height(|txids|), 0)
  }

  ghost function HashedPairs(H: (Hash, Hash) -> Hash, txids: seq<Hash>, t: Partial): set<Pair>
    requires |txids| > 0
  {
    WholeTree(H, txids) + ReadPairs(H, t, Height(t.nTransactions), 0, 0, 0)
  }

  /** Authentication. Whatever bits and hashes arrive, if the extraction returns the root of a list of as many
      transactions as the message claims, then everything it reported is in that list where it says. */
  lemma ExtractSound(H: (Hash, Hash) -> Hash, txids: seq<Hash>, t: Partial)
    requires t.nTransactions == |txids| > 0
    requires ExtractedRoot(H, t) == MerkleRoot(H, txids) != NO_HASH
    requires NoCollision(H, HashedPairs(H, txids, t))
    ensures Genuine(txids, ReadWhole(H, t).found)
    ensures InOrder(ReadWhole(H, t).found, 0, |txids|)
  {
    hide Pow2, Width, InOrder, TraverseAndExtract, CalcHash, TreePairs, ReadPairs, NoCollision, Genuine;
    var n := |txids|;
    RootInside(n, Height(n));
    ExtractGenuine(H, txids, t, Height(n), 0, 0, 0, HashedPairs(H, txids, t));
    ExtractAscends(H, t, Height(n), 0, 0, 0);
    InOrderBelow(txids, ReadWhole(H, t).found, Pow2(Height(n)));
  }

  lemma InOrderBelow(txids: seq<Hash>, found: seq<(Hash, nat)>, hi: nat)
    requires Genuine(txids, found) && InOrder(found, 0, hi)
    ensures InOrder(found, 0, |txids|)
  {
  }
}
