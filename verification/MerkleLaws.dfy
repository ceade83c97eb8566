/** Which partial Merkle trees are refused, and that the root is the one the consensus rules compute level by level. */
module MerkleLaws {
  import opened Basics
  import opened Powers
  import opened MerkleTree

  // ---------------------------------------------------------------- refused for their sizes

  /** No transactions, more than 66666, more hashes than transactions, or fewer bits than hashes. */
  lemma RefusedSizes(H: (Hash, Hash) -> Hash, t: Partial)
    requires t.nTransactions == 0 || t.nTransactions > 66666 || |t.vHash| > t.nTransactions || |t.vBits| < |t.vHash|
    ensures ExtractedRoot(H, t) == NO_HASH
  {
    hide TraverseAndExtract;
  }

  /** What is there beyond what is read makes no difference to what is read. */
  lemma {:induction false} ReadsPrefix(H: (Hash, Hash) -> Hash, t: Partial, bits: seq<bool>, hashes: seq<Hash>,
                                       height: nat, pos: nat, b: nat, n: nat)
    requires !TraverseAndExtract(H, t, height, pos, b, n).bad
    ensures
      var more := Partial(t.nTransactions, t.vBits + bits, t.vHash + hashes);
      TraverseAndExtract(H, more, height, pos, b, n) == TraverseAndExtract(H, t, height, pos, b, n)
    decreases height
  {
    hide Width;
    if height > 0 && t.vBits[b] {
      ReadsPrefix(H, t, bits, hashes, height - 1, 2 * pos, b + 1, n);
      var l := TraverseAndExtract(H, t, height - 1, 2 * pos, b + 1, n);
      if 2 * pos + 1 < Width(t.nTransactions, height - 1) {
        ReadsPrefix(H, t, bits, hashes, height - 1, 2 * pos + 1, l.bits, l.hashes);
      }
    }
  }

  /** Hashes left over, or bits that do not just fill the last byte, make an accepted tree a refused one. */
  lemma LeftOver(H: (Hash, Hash) -> Hash, t: Partial, bits: seq<bool>, hashes: seq<Hash>)
    requires ExtractedRoot(H, t) != NO_HASH && (hashes != [] || |bits| >= 8)
    ensures ExtractedRoot(H, Partial(t.nTransactions, t.vBits + bits, t.vHash + hashes)) == NO_HASH
  {
    hide TraverseAndExtract;
    ReadsPrefix(H, t, bits, hashes, Height(t.nTransactions), 0, 0, 0);
  }

  /** Nothing is accepted without its last hash. */
  lemma CutShort(H: (Hash, Hash) -> Hash, t: Partial)
    requires ExtractedRoot(H, t) != NO_HASH && |t.vHash| > 0
    ensures ExtractedRoot(H, t.(vHash := t.vHash[..|t.vHash| - 1])) == NO_HASH
  {
    hide TraverseAndExtract;
    var cut, last := t.(vHash := t.vHash[..|t.vHash| - 1]), [t.vHash[|t.vHash| - 1]];
    assert cut.vBits + [] == t.vBits && cut.vHash + last == t.vHash;
    if ExtractedRoot(H, cut) != NO_HASH { LeftOver(H, cut, [], last); }
  }

  // ---------------------------------------------------------------- level by level

  /** Neighbours are hashed in pairs; a last one without a neighbour is hashed with itself. */
  function NextLevel(H: (Hash, Hash) -> Hash, s: seq<Hash>): (r: seq<Hash>)
    ensures |r| == (|s| + 1) / 2
  {
    seq((|s| + 1) / 2, i requires 0 <= i < (|s| + 1) / 2 => H(s[2 * i], if 2 * i + 1 < |s| then s[2 * i + 1] else s[2 * i]))
  }

  function RootByLevels(H: (Hash, Hash) -> Hash, s: seq<Hash>): Hash
    requires |s| > 0
    decreases |s|
  {
    if |s| == 1 then s[0] else RootByLevels(H, NextLevel(H, s))
  }

  function Level(H: (Hash, Hash) -> Hash, txids: seq<Hash>, height: nat): (r: seq<Hash>)
    ensures |r| == Width(|txids|, height)
  {
    seq(Width(|txids|, height), pos requires 0 <= pos < Width(|txids|, height) => CalcHash(H, txids, height, pos))
  }

  lemma InnerHash(H: (Hash, Hash) -> Hash, txids: seq<Hash>, height: nat, pos: nat)
    requires pos < Width(|txids|, height + 1)
    ensures 2 * pos < Width(|txids|, height)
    ensures
      var left := CalcHash(H, txids, height, 2 * pos);
      CalcHash(H, txids, height + 1, pos)
        == H(left, if 2 * pos + 1 < Width(|txids|, height) then CalcHash(H, txids, height, 2 * pos + 1) else left)
  {
    hide Width;
    Children(|txids|, height + 1, pos);
  }

  lemma LevelAbove(H: (Hash, Hash) -> Hash, txids: seq<Hash>, height: nat)
    ensures NextLevel(H, Level(H, txids, height)) == Level(H, txids, height + 1)
  {
    hide Width, CalcHash;
    WidthHalves(|txids|, height);
    var s, up := Level(H, txids, height), Level(H, txids, height + 1);
    forall pos: nat | pos < |up| ensures NextLevel(H, s)[pos] == up[pos] {
      InnerHash(H, txids, height, pos);
      assert s[2 * pos] == CalcHash(H, txids, height, 2 * pos);
    }
  }

  lemma {:induction false} RootAbove(H: (Hash, Hash) -> Hash, txids: seq<Hash>, height: nat)
    requires |txids| > 0
    ensures Width(|txids|, height) > 0 && Width(|txids|, HeightFrom(|txids|, height)) > 0
    ensures RootByLevels(H, Level(H, txids, height)) == CalcHash(H, txids, HeightFrom(|txids|, height), 0)
    decreases Width(|txids|, height)
  {
    hide Width, CalcHash;
    RootInside(|txids|, height);
    RootInside(|txids|, HeightFrom(|txids|, height));
    WidthHalves(|txids|, height);
    if Width(|txids|, height) > 1 {
      LevelAbove(H, txids, height);
      RootAbove(H, txids, height + 1);
    }
  }

  /** The recursive hash of the whole tree is the root. */
  lemma RootIs(H: (Hash, Hash) -> Hash, txids: seq<Hash>)
    requires |txids| > 0
    ensures MerkleRoot(H, txids) == RootByLevels(H, txids)
  {
    hide Width;
    RootAbove(H, txids, 0);
    WidthZero(|txids|);
    assert Level(H, txids, 0) == txids;
  }
}
