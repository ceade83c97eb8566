/** Building partial Merkle trees, and reading back what was built. */
module MerkleProof {
  import opened Basics
  import opened Powers
  import opened MerkleTree

  /** Some transaction at a position in [lo, hi) is selected. */
  predicate AnyMatch(mask: seq<bool>, lo: nat, hi: nat)
    decreases hi - lo
  {
    lo < hi && lo < |mask| && (mask[lo] || AnyMatch(mask, lo + 1, hi))
  }

  /** The selected transactions with positions in [lo, hi). */
  function Matched(txids: seq<Hash>, mask: seq<bool>, lo: nat, hi: nat): seq<(Hash, nat)>
    requires |mask| == |txids|
    decreases hi - lo
  {
    if lo < hi && lo < |mask| then
      (if mask[lo] then [(txids[lo], lo)] else []) + Matched(txids, mask, lo + 1, hi)
    else []
  }

  lemma {:induction false} MatchedNone(txids: seq<Hash>, mask: seq<bool>, lo: nat, hi: nat)
    requires |mask| == |txids|
    ensures Matched(txids, mask, lo, hi) == [] <==> !AnyMatch(mask, lo, hi)
    decreases hi - lo
  {
    if lo < hi && lo < |mask| { MatchedNone(txids, mask, lo + 1, hi); }
  }

  lemma {:induction false} MatchedSplit(txids: seq<Hash>, mask: seq<bool>, lo: nat, mid: nat, hi: nat)
    requires |mask| == |txids| && lo <= mid <= hi
    ensures Matched(txids, mask, lo, hi) == Matched(txids, mask, lo, mid) + Matched(txids, mask, mid, hi)
    decreases mid - lo
  {
    if lo < mid && lo < |mask| {
      MatchedSplit(txids, mask, lo + 1, mid, hi);
    }
  }

  lemma MatchedBeyond(txids: seq<Hash>, mask: seq<bool>, lo: nat, hi: nat)
    requires |mask| == |txids| <= lo
    ensures Matched(txids, mask, lo, hi) == []
  {
  }

  /** Matched lists exactly the selected positions. */
  lemma {:induction false} MatchedAt(txids: seq<Hash>, mask: seq<bool>, lo: nat, hi: nat, h: Hash, p: nat)
    requires |mask| == |txids|
    ensures (h, p) in Matched(txids, mask, lo, hi) <==> lo <= p < hi && p < |mask| && mask[p] && h == txids[p]
    decreases hi - lo
  {
    if lo < hi && lo < |mask| { MatchedAt(txids, mask, lo + 1, hi, h, p); }
  }

  // ---------------------------------------------------------------- building

  datatype Built = Built(bits: seq<bool>, hashes: seq<Hash>)

  predicate ParentOfMatch(mask: seq<bool>, height: nat, pos: nat) {
    AnyMatch(mask, pos * Pow2(height), (pos + 1) * Pow2(height))
  }

  function TraverseAndBuild(H: (Hash, Hash) -> Hash, txids: seq<Hash>, mask: seq<bool>, height: nat, pos: nat): Built
    requires |mask| == |txids| && pos < Width(|txids|, height)
    decreases height
  {
    var parent := ParentOfMatch(mask, height, pos);
    if height == 0 || !parent then Built([parent], [CalcHash(H, txids, height, pos)])
    else
      Children(|txids|, height, pos);
      var l := TraverseAndBuild(H, txids, mask, height - 1, 2 * pos);
      if 2 * pos + 1 < Width(|txids|, height - 1) then
        var r := TraverseAndBuild(H, txids, mask, height - 1, 2 * pos + 1);
        Built([true] + l.bits + r.bits, l.hashes + r.hashes)
      else Built([true] + l.bits, l.hashes)
  }

  /** Some node that the traversal descends into has two children with the same hash. */
  predicate Twins(H: (Hash, Hash) -> Hash, txids: seq<Hash>, mask: seq<bool>, height: nat, pos: nat)
    requires |mask| == |txids| && pos < Width(|txids|, height)
    decreases height
  {
    if height == 0 || !ParentOfMatch(mask, height, pos) then false
    else
      Children(|txids|, height, pos);
      || Twins(H, txids, mask, height - 1, 2 * pos)
      || (2 * pos + 1 < Width(|txids|, height - 1)
          && (CalcHash(H, txids, height - 1, 2 * pos) == CalcHash(H, txids, height - 1, 2 * pos + 1)
              || Twins(H, txids, mask, height - 1, 2 * pos + 1)))
  }

  /** What was built for a node stands in the message at the given places. */
  ghost predicate Holds(t: Partial, b: Built, bits: nat, hashes: nat) {
    && bits + |b.bits| <= |t.vBits| && t.vBits[bits..bits + |b.bits|] == b.bits
    && hashes + |b.hashes| <= |t.vHash| && t.vHash[hashes..hashes + |b.hashes|] == b.hashes
  }

  lemma HoldsBoth(t: Partial, l: Built, r: Built, bits: nat, hashes: nat)
    requires Holds(t, Built([true] + l.bits + r.bits, l.hashes + r.hashes), bits, hashes)
    ensures bits < |t.vBits| && t.vBits[bits]
    ensures Holds(t, l, bits + 1, hashes)
    ensures Holds(t, r, bits + 1 + |l.bits|, hashes + |l.hashes|)
  {
    var b := [true] + l.bits + r.bits;
    assert b[0] && b[1..1 + |l.bits|] == l.bits && b[1 + |l.bits|..] == r.bits;
    var h := l.hashes + r.hashes;
    assert h[..|l.hashes|] == l.hashes && h[|l.hashes|..] == r.hashes;
  }

  lemma HoldsOne(t: Partial, l: Built, bits: nat, hashes: nat)
    requires Holds(t, Built([true] + l.bits, l.hashes), bits, hashes)
    ensures bits < |t.vBits| && t.vBits[bits]
    ensures Holds(t, l, bits + 1, hashes)
  {
    var b := [true] + l.bits;
    assert b[0] && b[1..] == l.bits;
  }

  lemma HoldsLeaf(t: Partial, parent: bool, h: Hash, bits: nat, hashes: nat)
    requires Holds(t, Built([parent], [h]), bits, hashes)
    ensures bits < |t.vBits| && t.vBits[bits] == parent
    ensures hashes < |t.vHash| && t.vHash[hashes] == h
  {
    assert t.vBits[bits..bits + 1][0] == parent && t.vHash[hashes..hashes + 1][0] == h;
  }

  // ---------------------------------------------------------------- reading back

  ghost function ReadsAs(H: (Hash, Hash) -> Hash, txids: seq<Hash>, mask: seq<bool>, height: nat, pos: nat,
                         bits: nat, hashes: nat): Extract
    requires |mask| == |txids| && pos < Width(|txids|, height)
  {
    var b := TraverseAndBuild(H, txids, mask, height, pos);
    Extract(CalcHash(H, txids, height, pos), bits + |b.bits|, hashes + |b.hashes|,
            Matched(txids, mask, pos * Pow2(height), (pos + 1) * Pow2(height)), Twins(H, txids, mask, height, pos))
  }

  /** Reading what was built for a node consumes exactly that and returns the node's hash and its selected leaves;
      it fails exactly when two sibling subtrees look alike. */
  lemma {:induction false} ReadsBack(H: (Hash, Hash) -> Hash, txids: seq<Hash>, mask: seq<bool>, t: Partial,
                                     height: nat, pos: nat, bits: nat, hashes: nat)
    requires |mask| == |txids| == t.nTransactions && pos < Width(|txids|, height)
    requires Holds(t, TraverseAndBuild(H, txids, mask, height, pos), bits, hashes)
    ensures TraverseAndExtract(H, t, height, pos, bits, hashes) == ReadsAs(H, txids, mask, height, pos, bits, hashes)
    decreases height
  {
    hide Pow2, Width, Holds, Matched, ParentOfMatch, TraverseAndExtract, ReadsAs, CalcHash, Twins;
    if height == 0 {
      ReadsTransaction(H, txids, mask, t, pos, bits, hashes);
    } else if !ParentOfMatch(mask, height, pos) {
      ReadsPruned(H, txids, mask, t, height, pos, bits, hashes);
    } else {
      Children(|txids|, height, pos);
      var l := TraverseAndBuild(H, txids, mask, height - 1, 2 * pos);
      if 2 * pos + 1 < Width(|txids|, height - 1) {
        var r := TraverseAndBuild(H, txids, mask, height - 1, 2 * pos + 1);
        HoldsBoth(t, l, r, bits, hashes);
        ReadsBack(H, txids, mask, t, height - 1, 2 * pos, bits + 1, hashes);
        ReadsBack(H, txids, mask, t, height - 1, 2 * pos + 1, bits + 1 + |l.bits|, hashes + |l.hashes|);
        ReadsTwo(H, txids, mask, t, height, pos, bits, hashes);
      } else {
        HoldsOne(t, l, bits, hashes);
        ReadsBack(H, txids, mask, t, height - 1, 2 * pos, bits + 1, hashes);
        ReadsOne(H, txids, mask, t, height, pos, bits, hashes);
      }
    }
  }

  lemma ReadsTwo(H: (Hash, Hash) -> Hash, txids: seq<Hash>, mask: seq<bool>, t: Partial,
                 height: nat, pos: nat, bits: nat, hashes: nat)
    requires |mask| == |txids| == t.nTransactions && height > 0 && pos < Width(|txids|, height)
    requires ParentOfMatch(mask, height, pos) && bits < |t.vBits| && t.vBits[bits]
    requires 2 * pos + 1 < Width(|txids|, height - 1)
    requires TraverseAndExtract(H, t, height - 1, 2 * pos, bits + 1, hashes)
          == ReadsAs(H, txids, mask, height - 1, 2 * pos, bits + 1, hashes)
    requires
      var l := TraverseAndBuild(H, txids, mask, height - 1, 2 * pos);
      TraverseAndExtract(H, t, height - 1, 2 * pos + 1, bits + 1 + |l.bits|, hashes + |l.hashes|)
      == ReadsAs(H, txids, mask, height - 1, 2 * pos + 1, bits + 1 + |l.bits|, hashes + |l.hashes|)
    ensures TraverseAndExtract(H, t, height, pos, bits, hashes) == ReadsAs(H, txids, mask, height, pos, bits, hashes)
  {
    hide Pow2, Width, Matched, ParentOfMatch;
    Halves(pos, height);
    MatchedSplit(txids, mask, pos * Pow2(height), (2 * pos + 1) * Pow2(height - 1), (pos + 1) * Pow2(height));
  }

  lemma ReadsOne(H: (Hash, Hash) -> Hash, txids: seq<Hash>, mask: seq<bool>, t: Partial,
                 height: nat, pos: nat, bits: nat, hashes: nat)
    requires |mask| == |txids| == t.nTransactions && height > 0 && pos < Width(|txids|, height)
    requires ParentOfMatch(mask, height, pos) && bits < |t.vBits| && t.vBits[bits]
    requires 2 * pos < Width(|txids|, height - 1) <= 2 * pos + 1
    requires TraverseAndExtract(H, t, height - 1, 2 * pos, bits + 1, hashes)
          == ReadsAs(H, txids, mask, height - 1, 2 * pos, bits + 1, hashes)
    ensures TraverseAndExtract(H, t, height, pos, bits, hashes) == ReadsAs(H, txids, mask, height, pos, bits, hashes)
  {
    hide Pow2, Width, Matched, ParentOfMatch;
    Halves(pos, height);
    var mid, hi := (2 * pos + 1) * Pow2(height - 1), (pos + 1) * Pow2(height);
    MatchedSplit(txids, mask, pos * Pow2(height), mid, hi);
    Beyond(|txids|, height - 1, 2 * pos + 1);
    MatchedBeyond(txids, mask, mid, hi);
  }

  lemma Beyond(n: nat, height: nat, pos: nat)
    requires Width(n, height) <= pos
    ensures n <= pos * Pow2(height)
  {
    var p := Pow2(height);
    DivBounds(n + p - 1, p);
    MulMono(Width(n, height), pos, p);
  }

  lemma ReadsPruned(H: (Hash, Hash) -> Hash, txids: seq<Hash>, mask: seq<bool>, t: Partial,
                    height: nat, pos: nat, bits: nat, hashes: nat)
    requires |mask| == |txids| == t.nTransactions && pos < Width(|txids|, height)
    requires !ParentOfMatch(mask, height, pos)
    requires Holds(t, TraverseAndBuild(H, txids, mask, height, pos), bits, hashes)
    ensures TraverseAndExtract(H, t, height, pos, bits, hashes) == ReadsAs(H, txids, mask, height, pos, bits, hashes)
  {
    hide Pow2, Width, Matched, CalcHash, Holds, AnyMatch;
    HoldsLeaf(t, false, CalcHash(H, txids, height, pos), bits, hashes);
    MatchedNone(txids, mask, pos * Pow2(height), (pos + 1) * Pow2(height));
  }

  lemma ReadsTransaction(H: (Hash, Hash) -> Hash, txids: seq<Hash>, mask: seq<bool>, t: Partial,
                         pos: nat, bits: nat, hashes: nat)
    requires |mask| == |txids| == t.nTransactions && pos < Width(|txids|, 0)
    requires Holds(t, TraverseAndBuild(H, txids, mask, 0, pos), bits, hashes)
    ensures TraverseAndExtract(H, t, 0, pos, bits, hashes) == ReadsAs(H, txids, mask, 0, pos, bits, hashes)
  {
    hide Pow2, Width, Holds, Matched, AnyMatch;
    WidthZero(|txids|);
    Pow2Zero();
    HoldsLeaf(t, AnyMatch(mask, pos, pos + 1), txids[pos], bits, hashes);
    MatchedSingle(txids, mask, pos);
  }

  lemma MatchedSingle(txids: seq<Hash>, mask: seq<bool>, pos: nat)
    requires |mask| == |txids| && pos < |mask|
    ensures AnyMatch(mask, pos, pos + 1) == mask[pos]
    ensures Matched(txids, mask, pos, pos + 1) == if mask[pos] then [(txids[pos], pos)] else []
  {
    assert !AnyMatch(mask, pos + 1, pos + 1);
  }

  // ---------------------------------------------------------------- sizes

  /** No more hashes than leaves, and a bit for every hash. */
  lemma {:induction false} HashesPerLeaf(H: (Hash, Hash) -> Hash, txids: seq<Hash>, mask: seq<bool>, height: nat, pos: nat)
    requires |mask| == |txids| && pos < Width(|txids|, height)
    ensures 1 <= |TraverseAndBuild(H, txids, mask, height, pos).hashes| <= |TraverseAndBuild(H, txids, mask, height, pos).bits|
    ensures pos * Pow2(height) + |TraverseAndBuild(H, txids, mask, height, pos).hashes|
         <= Min(|txids|, (pos + 1) * Pow2(height))
    decreases height
  {
    hide Pow2, Width, ParentOfMatch, CalcHash;
    if height == 0 || !ParentOfMatch(mask, height, pos) {
      Inside(|txids|, height, pos);
    } else {
      Children(|txids|, height, pos);
      Halves(pos, height);
      HashesPerLeaf(H, txids, mask, height - 1, 2 * pos);
      if 2 * pos + 1 < Width(|txids|, height - 1) {
        HashesPerLeaf(H, txids, mask, height - 1, 2 * pos + 1);
      }
    }
  }

  lemma Inside(n: nat, height: nat, pos: nat)
    requires pos < Width(n, height)
    ensures pos * Pow2(height) + 1 <= Min(n, (pos + 1) * Pow2(height))
  {
    var p := Pow2(height);
    DivBounds(n + p - 1, p);
    MulMono(pos + 1, Width(n, height), p);
  }

  /** The documented bound on the number of hashes. */
  lemma {:induction false} HashesPerMatch(H: (Hash, Hash) -> Hash, txids: seq<Hash>, mask: seq<bool>, height: nat, pos: nat)
    requires |mask| == |txids| && pos < Width(|txids|, height)
    ensures |TraverseAndBuild(H, txids, mask, height, pos).hashes|
         <= 1 + |Matched(txids, mask, pos * Pow2(height), (pos + 1) * Pow2(height))| * height
    decreases height
  {
    hide Pow2, Width, AnyMatch, CalcHash, Matched;
    var lo, hi := pos * Pow2(height), (pos + 1) * Pow2(height);
    MatchedNone(txids, mask, lo, hi);
    if height > 0 && ParentOfMatch(mask, height, pos) {
      Children(|txids|, height, pos);
      Halves(pos, height);
      var mid := (2 * pos + 1) * Pow2(height - 1);
      MatchedSplit(txids, mask, lo, mid, hi);
      HashesPerMatch(H, txids, mask, height - 1, 2 * pos);
      var m, ml, mr := |Matched(txids, mask, lo, hi)|, |Matched(txids, mask, lo, mid)|, |Matched(txids, mask, mid, hi)|;
      OneLevelMore(m, ml, mr, height);
      if 2 * pos + 1 < Width(|txids|, height - 1) {
        HashesPerMatch(H, txids, mask, height - 1, 2 * pos + 1);
      }
    }
  }

  lemma OneLevelMore(m: nat, l: nat, r: nat, height: nat)
    requires m == l + r && m > 0 && height > 0
    ensures (1 + l * (height - 1)) + (1 + r * (height - 1)) <= 1 + m * height
    ensures 1 + l * (height - 1) <= 1 + m * height
  {
    assert l * (height - 1) + r * (height - 1) == m * (height - 1);
    assert m * height == m * (height - 1) + m;
  }

  /** Nodes the traversal descends into that lack a second child. */
  function Singles(mask: seq<bool>, height: nat, pos: nat): nat
    requires pos < Width(|mask|, height)
    decreases height
  {
    if height == 0 || !ParentOfMatch(mask, height, pos) then 0
    else
      Children(|mask|, height, pos);
      var left := Singles(mask, height - 1, 2 * pos);
      if 2 * pos + 1 < Width(|mask|, height - 1) then left + Singles(mask, height - 1, 2 * pos + 1) else 1 + left
  }

  /** The number of bits, exactly: one less than twice the hashes, and one more for each node without a second child. */
  lemma {:induction false} BitsPerHash(H: (Hash, Hash) -> Hash, txids: seq<Hash>, mask: seq<bool>, height: nat, pos: nat)
    requires |mask| == |txids| && pos < Width(|txids|, height)
    ensures |TraverseAndBuild(H, txids, mask, height, pos).bits|
         == 2 * |TraverseAndBuild(H, txids, mask, height, pos).hashes| - 1 + Singles(mask, height, pos)
    decreases height
  {
    hide Pow2, Width, ParentOfMatch, CalcHash;
    if height > 0 && ParentOfMatch(mask, height, pos) {
      Children(|txids|, height, pos);
      BitsPerHash(H, txids, mask, height - 1, 2 * pos);
      if 2 * pos + 1 < Width(|txids|, height - 1) { BitsPerHash(H, txids, mask, height - 1, 2 * pos + 1); }
    }
  }

  /** Only the last node of a level can lack a second child, so there is at most one per level. */
  lemma {:induction false} SinglesPerLevel(mask: seq<bool>, height: nat, pos: nat)
    requires pos < Width(|mask|, height)
    ensures Singles(mask, height, pos) <= if pos + 1 < Width(|mask|, height) then 0 else height
    decreases height
  {
    hide Pow2, Width, ParentOfMatch;
    if height > 0 && ParentOfMatch(mask, height, pos) {
      Children(|mask|, height, pos);
      WidthHalves(|mask|, height - 1);
      SinglesPerLevel(mask, height - 1, 2 * pos);
      if 2 * pos + 1 < Width(|mask|, height - 1) { SinglesPerLevel(mask, height - 1, 2 * pos + 1); }
    }
  }

  // ---------------------------------------------------------------- whole messages

  function Build(H: (Hash, Hash) -> Hash, txids: seq<Hash>, mask: seq<bool>): Partial
    requires |mask| == |txids| > 0
  {
    RootInside(|txids|, Height(|txids|));
    var b := TraverseAndBuild(H, txids, mask, Height(|txids|), 0);
    Partial(|txids|, b.bits, b.hashes)
  }

  /** Two sibling subtrees that the proof opens have the same hash. */
  predicate LookAlike(H: (Hash, Hash) -> Hash, txids: seq<Hash>, mask: seq<bool>)
    requires |mask| == |txids| > 0
  {
    RootInside(|txids|, Height(|txids|));
    Twins(H, txids, mask, Height(|txids|), 0)
  }

  /** Every partial tree, with the filler bits that end its last byte, reads back as the root and exactly the
      selected transactions; it is refused exactly when two of the subtrees it opens look alike. */
  lemma RoundTrip(H: (Hash, Hash) -> Hash, txids: seq<Hash>, mask: seq<bool>, pad: seq<bool>)
    requires 0 < |mask| == |txids| <= MAX_BLOCK_WEIGHT / MIN_TRANSACTION_WEIGHT
    requires (|Build(H, txids, mask).vBits + pad| + 7) / 8 == (|Build(H, txids, mask).vBits| + 7) / 8
    ensures
      var t := Build(H, txids, mask);
      var sent := t.(vBits := t.vBits + pad);
      && ReadWhole(H, sent).hash == MerkleRoot(H, txids)
      && ReadWhole(H, sent).found == Matched(txids, mask, 0, |txids|)
      && (ReadWhole(H, sent).bad <==> LookAlike(H, txids, mask))
      && ExtractedRoot(H, sent) == if LookAlike(H, txids, mask) then NO_HASH else MerkleRoot(H, txids)
  {
    hide Pow2, Width, Matched, TraverseAndExtract, TraverseAndBuild, CalcHash, Twins;
    var n, height := |txids|, Height(|txids|);
    RootInside(n, height);
    var t := Build(H, txids, mask);
    var sent := t.(vBits := t.vBits + pad);
    WholeHolds(t, sent, pad);
    ReadsBack(H, txids, mask, sent, height, 0, 0, 0);
    HashesPerLeaf(H, txids, mask, height, 0);
    Beyond(n, height, 1);
    MatchedSplit(txids, mask, 0, n, Pow2(height));
    MatchedBeyond(txids, mask, n, Pow2(height));
  }

  lemma WholeHolds(t: Partial, sent: Partial, pad: seq<bool>)
    requires sent == t.(vBits := t.vBits + pad)
    ensures Holds(sent, Built(t.vBits, t.vHash), 0, 0)
  {
  }

  /** The documented bounds, for whole trees. */
  lemma BuildSizes(H: (Hash, Hash) -> Hash, txids: seq<Hash>, mask: seq<bool>)
    requires 0 < |mask| == |txids|
    ensures |Build(H, txids, mask).vHash| <= |txids|
    ensures |Build(H, txids, mask).vHash| <= 1 + |Matched(txids, mask, 0, |txids|)| * Height(|txids|)
    ensures |Build(H, txids, mask).vBits| <= 2 * |Build(H, txids, mask).vHash| - 1 + Height(|txids|)
  {
    hide Pow2, Width, Matched, TraverseAndBuild, Singles;
    var n, height := |txids|, Height(|txids|);
    RootInside(n, height);
    HashesPerLeaf(H, txids, mask, height, 0);
    HashesPerMatch(H, txids, mask, height, 0);
    BitsPerHash(H, txids, mask, height, 0);
    SinglesPerLevel(mask, height, 0);
    Beyond(n, height, 1);
    MatchedSplit(txids, mask, 0, n, Pow2(height));
    MatchedBeyond(txids, mask, n, Pow2(height));
  }

  /** The documented bound on the flag bits holds exactly when every node that is opened has two children. */
  lemma BitsAsDocumentedIff(H: (Hash, Hash) -> Hash, txids: seq<Hash>, mask: seq<bool>)
    requires 0 < |mask| == |txids|
    ensures 0 < Width(|mask|, Height(|mask|))
    ensures |Build(H, txids, mask).vBits| <= 2 * |Build(H, txids, mask).vHash| - 1 <==> Singles(mask, Height(|mask|), 0) == 0
  {
    hide Pow2, Width, Matched, TraverseAndBuild, Singles;
    RootInside(|txids|, Height(|txids|));
    BitsPerHash(H, txids, mask, Height(|txids|), 0);
  }

  /** Three transactions of which the last is selected take four bits for two hashes, one more than documented. */
  lemma BitsExceedDocumented(H: (Hash, Hash) -> Hash, a: Hash, b: Hash, c: Hash)
    ensures
      var t := Build(H, [a, b, c], [false, false, true]);
      |t.vHash| == 2 && |t.vBits| == 4 > 2 * |t.vHash| - 1
  {
    var mask := [false, false, true];
    assert Width(3, 0) == 3 && Width(3, 1) == 2 && Width(3, 2) == 1;
    assert Height(3) == 2;
    assert AnyMatch(mask, 2, 3) && AnyMatch(mask, 2, 4) && AnyMatch(mask, 1, 4) && AnyMatch(mask, 0, 4);
    assert !AnyMatch(mask, 2, 2) && !AnyMatch(mask, 1, 2) && !AnyMatch(mask, 0, 2);
    assert ParentOfMatch(mask, 2, 0) && !ParentOfMatch(mask, 1, 0) && ParentOfMatch(mask, 1, 1) && ParentOfMatch(mask, 0, 2);
  }

  // ---------------------------------------------------------------- distinct transactions

  /** Two nodes at one height have different hashes. */
  lemma {:induction false} NodesDiffer(H: (Hash, Hash) -> Hash, txids: seq<Hash>, height: nat, p: nat, q: nat, pairs: set<Pair>)
    requires Distinct(txids) && NoCollision(H, pairs)
    requires p < Width(|txids|, height) && q < Width(|txids|, height) && p != q
    requires TreePairs(H, txids, height, p) <= pairs && TreePairs(H, txids, height, q) <= pairs
    ensures CalcHash(H, txids, height, p) != CalcHash(H, txids, height, q)
    decreases height
  {
    hide Pow2, Width, NoCollision;
    if height == 0 {
      WidthZero(|txids|);
    } else {
      Children(|txids|, height, p);
      Children(|txids|, height, q);
      NodesDiffer(H, txids, height - 1, 2 * p, 2 * q, pairs);
      var x, y := TopPair(H, txids, height, p), TopPair(H, txids, height, q);
      if H(x.0, x.1) == H(y.0, y.1) { SamePair(H, pairs, x, y); }
    }
  }

  lemma {:induction false} NoTwins(H: (Hash, Hash) -> Hash, txids: seq<Hash>, mask: seq<bool>, height: nat, pos: nat, pairs: set<Pair>)
    requires |mask| == |txids| && Distinct(txids) && NoCollision(H, pairs)
    requires pos < Width(|txids|, height) && TreePairs(H, txids, height, pos) <= pairs
    ensures !Twins(H, txids, mask, height, pos)
    decreases height
  {
    hide Pow2, Width, NoCollision, Distinct, ParentOfMatch, CalcHash;
    if height > 0 {
      Children(|txids|, height, pos);
      NoTwins(H, txids, mask, height - 1, 2 * pos, pairs);
      if 2 * pos + 1 < Width(|txids|, height - 1) {
        NoTwins(H, txids, mask, height - 1, 2 * pos + 1, pairs);
        NodesDiffer(H, txids, height - 1, 2 * pos, 2 * pos + 1, pairs);
      }
    }
  }

  /** Distinct transactions are never refused, unless the hash collides within their own tree. */
  lemma DistinctAccepted(H: (Hash, Hash) -> Hash, txids: seq<Hash>, mask: seq<bool>)
    requires 0 < |mask| == |txids| && Distinct(txids)
    requires NoCollision(H, WholeTree(H, txids))
    ensures !LookAlike(H, txids, mask)
  {
    RootInside(|txids|, Height(|txids|));
    NoTwins(H, txids, mask, Height(|txids|), 0, WholeTree(H, txids));
  }
}
