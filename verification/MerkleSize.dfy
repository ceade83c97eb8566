/** The serialized size of a partial Merkle tree, against the bound that its documentation promises. */
module MerkleSize {
  import opened Basics
  import opened Powers
  import opened MerkleTree
  import opened MerkleProof

  /** GetSizeOfCompactSize. */
  function CompactSizeLength(n: nat): nat {
    if n < 253 then 1 else if n <= 0xffff then 3 else if n <= 0xffff_ffff then 5 else 9
  }

  /** The number of transactions, the hashes, and the bits packed into bytes. */
  function SerializedSize(t: Partial): nat {
    var n, bytes := |t.vHash|, (|t.vBits| + 7) / 8;
    4 + CompactSizeLength(n) + 32 * n + CompactSizeLength(bytes) + bytes
  }

  /** 10 + ceil(32.25 * n) */
  function DocumentedSize(n: nat): nat {
    10 + (129 * n + 3) / 4
  }

  /** The bytes of flag bits that the documentation does not foresee, if nodes lack a second child. */
  function Overrun(n: nat, singles: nat): nat {
    ((2 * n + 6) % 8 + singles) / 8
  }

  lemma FlagBytes(n: nat, singles: nat)
    requires n > 0
    ensures (2 * n - 1 + singles + 7) / 8 == (n + 3) / 4 + Overrun(n, singles)
  {
    var a := 2 * n + 6;
    assert a == 8 * (a / 8) + a % 8;
    DivUnique(a + singles, 8, a / 8 + Overrun(n, singles));
    assert a / 8 == (n + 3) / 4;
  }

  /** The documented size is kept exactly if both length prefixes and the overrun fit into six bytes. For fewer than 253
      hashes they do. */
  lemma SizeAsDocumentedIff(H: (Hash, Hash) -> Hash, txids: seq<Hash>, mask: seq<bool>)
    requires 0 < |mask| == |txids|
    ensures 0 < Width(|mask|, Height(|mask|))
    ensures
      var t, singles := Build(H, txids, mask), Singles(mask, Height(|mask|), 0);
      var n := |t.vHash|;
      var over := Overrun(n, singles);
      && (SerializedSize(t) <= DocumentedSize(n)
          <==> CompactSizeLength(n) + CompactSizeLength((n + 3) / 4 + over) + over <= 6)
      && (n < 253 && Height(|mask|) <= 33 ==> SerializedSize(t) <= DocumentedSize(n))
  {
    hide Pow2, Width, TraverseAndBuild, Singles, Overrun;
    var height := Height(|txids|);
    RootInside(|txids|, height);
    HashesPerLeaf(H, txids, mask, height, 0);
    BitsPerHash(H, txids, mask, height, 0);
    SinglesPerLevel(mask, height, 0);
    var n, singles := |Build(H, txids, mask).vHash|, Singles(mask, height, 0);
    FlagBytes(n, singles);
    OverrunBound(n, singles);
  }

  lemma OverrunBound(n: nat, singles: nat)
    ensures singles <= 33 ==> Overrun(n, singles) <= 4
  {
  }

  // ---------------------------------------------------------------- one more than a power of two, all selected

  ghost predicate AllSelected(mask: seq<bool>) {
    forall i | 0 <= i < |mask| :: mask[i]
  }

  lemma {:induction false} WidthOneMore(k: nat, height: nat)
    requires height <= k + 1
    ensures Width(Pow2(k) + 1, height) == if height <= k then Pow2(k - height) + 1 else 1
  {
    hide Pow2, Width;
    if height == 0 {
      WidthZero(Pow2(k) + 1);
    } else {
      WidthOneMore(k, height - 1);
      WidthHalves(Pow2(k) + 1, height - 1);
      if height <= k { Pow2Step(k - height); } else { Pow2Zero(); }
    }
  }

  lemma {:induction false} HeightOneMore(k: nat, height: nat)
    requires height <= k + 1
    ensures HeightFrom(Pow2(k) + 1, height) == k + 1
    decreases k + 1 - height
  {
    hide Pow2, Width;
    WidthOneMore(k, height);
    if height <= k { HeightOneMore(k, height + 1); }
  }

  lemma AllParents(mask: seq<bool>, height: nat, pos: nat)
    requires AllSelected(mask) && pos < Width(|mask|, height)
    ensures ParentOfMatch(mask, height, pos)
  {
    hide Width, Pow2;
    Inside(|mask|, height, pos);
  }

  /** If everything is selected, every transaction is sent. */
  lemma {:induction false} HashPerLeaf(H: (Hash, Hash) -> Hash, txids: seq<Hash>, mask: seq<bool>, height: nat, pos: nat)
    requires AllSelected(mask) && |mask| == |txids| && pos < Width(|txids|, height)
    ensures pos * Pow2(height) + |TraverseAndBuild(H, txids, mask, height, pos).hashes|
         == Min(|txids|, (pos + 1) * Pow2(height))
    decreases height
  {
    hide Pow2, Width, ParentOfMatch, CalcHash;
    AllParents(mask, height, pos);
    Inside(|txids|, height, pos);
    if height == 0 {
      Pow2Zero();
    } else {
      Children(|txids|, height, pos);
      Halves(pos, height);
      HashPerLeaf(H, txids, mask, height - 1, 2 * pos);
      if 2 * pos + 1 < Width(|txids|, height - 1) {
        HashPerLeaf(H, txids, mask, height - 1, 2 * pos + 1);
        Inside(|txids|, height - 1, 2 * pos + 1);
      } else {
        Beyond(|txids|, height - 1, 2 * pos + 1);
      }
    }
  }

  /** The last transaction is alone in its subtree on every level. */
  lemma {:induction false} LastAlone(mask: seq<bool>, k: nat, height: nat)
    requires AllSelected(mask) && |mask| == Pow2(k) + 1 && height <= k
    ensures Pow2(k - height) < Width(|mask|, height) && Singles(mask, height, Pow2(k - height)) == height
  {
    hide Pow2, Width, ParentOfMatch;
    WidthOneMore(k, height);
    if height > 0 {
      var pos := Pow2(k - height);
      AllParents(mask, height, pos);
      WidthOneMore(k, height - 1);
      Pow2Step(k - height);
      LastAlone(mask, k, height - 1);
    }
  }

  lemma OneMoreAlone(mask: seq<bool>, k: nat)
    requires AllSelected(mask) && |mask| == Pow2(k) + 1
    ensures Height(|mask|) == k + 1 && Width(|mask|, k + 1) == 1 && Singles(mask, k + 1, 0) == k
  {
    hide Pow2, Width, ParentOfMatch;
    HeightOneMore(k, 0);
    WidthOneMore(k, k + 1);
    WidthOneMore(k, k);
    Pow2Zero();
    AllParents(mask, k + 1, 0);
    Children(|mask|, k + 1, 0);
    LastAlone(mask, k, k);
    SinglesPerLevel(mask, k, 0);
  }

  lemma OneMoreHashes(H: (Hash, Hash) -> Hash, txids: seq<Hash>, mask: seq<bool>, k: nat)
    requires AllSelected(mask) && |mask| == |txids| == Pow2(k) + 1
    ensures |Build(H, txids, mask).vHash| == |txids|
  {
    hide Pow2, Width, TraverseAndBuild;
    OneMoreAlone(mask, k);
    HashPerLeaf(H, txids, mask, k + 1, 0);
    Beyond(|txids|, k + 1, 1);
  }

  lemma LargePower(k: nat)
    requires k >= 10
    ensures Pow2(k) >= 1024 && Pow2(k) % 8 == 0
  {
    if k == 10 {
      assert Pow2(5) == 32;
      Pow2Add(5, 5);
    } else {
      LargePower(k - 1);
      Pow2Step(k - 1);
    }
  }

  /** From 1025 transactions on, whenever there is one more than a power of two and all are selected, the message is longer
      than documented. */
  lemma SizeExceedsDocumented(H: (Hash, Hash) -> Hash, txids: seq<Hash>, mask: seq<bool>, k: nat)
    requires AllSelected(mask) && |mask| == |txids| == Pow2(k) + 1 && k >= 10
    ensures SerializedSize(Build(H, txids, mask)) > DocumentedSize(|txids|)
  {
    hide *;
    LargePower(k);
    OneMoreAlone(mask, k);
    OneMoreHashes(H, txids, mask, k);
    SizeAsDocumentedIff(H, txids, mask);
    TooLong(|txids|, k);
  }

  lemma TooLong(n: nat, singles: nat)
    requires n >= 1025 && n % 8 == 1 && singles >= 10
    ensures
      var over := Overrun(n, singles);
      CompactSizeLength(n) + CompactSizeLength((n + 3) / 4 + over) + over > 6
  {
    ModUnique(2 * n + 6, 8, 2 * (n / 8) + 1, 0);
    var over := Overrun(n, singles);
    assert over >= 1;
    hide Overrun;
    assert (n + 3) / 4 + over >= 253;
  }

  /** 1025 transactions: 33068 bytes, one more than documented. */
  lemma FirstExcess(H: (Hash, Hash) -> Hash, txids: seq<Hash>, mask: seq<bool>)
    requires AllSelected(mask) && |mask| == |txids| == 1025
    ensures SerializedSize(Build(H, txids, mask)) == 33068 && DocumentedSize(1025) == 33067
  {
    hide Width, Singles, TraverseAndBuild;
    assert Pow2(5) == 32;
    Pow2Add(5, 5);
    OneMoreAlone(mask, 10);
    OneMoreHashes(H, txids, mask, 10);
    RootInside(1025, 11);
    BitsPerHash(H, txids, mask, 11, 0);
  }
}
