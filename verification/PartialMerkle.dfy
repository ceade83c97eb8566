/** The partial Merkle tree object: its traversals, and the packing of flag bits into bytes. */
module PartialMerkle {
  import opened Basics
  import opened Bits8
  import opened Powers
  import opened MerkleTree
  import opened MerkleProof

  // ---------------------------------------------------------------- flag bits in bytes

  /** The bytes hold the bits in order, and then zeros. */
  ghost predicate Packs(bytes: seq<Byte>, bits: seq<bool>) {
    && |bytes| == (|bits| + 7) / 8
    && forall p: nat | p < 8 * |bytes| :: FlagAt(bytes, p) == (p < |bits| && bits[p])
  }

  ghost predicate Unpacks(bits: seq<bool>, bytes: seq<Byte>) {
    && |bits| == 8 * |bytes|
    && forall p: nat | p < |bits| :: bits[p] == FlagAt(bytes, p)
  }

  method BitsToBytes(bits: seq<bool>) returns (ret: seq<Byte>)
    ensures Packs(ret, bits)
  {
    hide BitOf;
    var a := new Byte[(|bits| + 7) / 8](_ => 0);
    assert forall p: nat | p < 8 * a.Length :: a[..][p / 8] == 0;
    forall p: nat | p < 8 * a.Length ensures !FlagAt(a[..], p) { NoBit(p % 8); }
    for p := 0 to |bits|
      invariant forall q: nat | q < 8 * a.Length :: FlagAt(a[..], q) == (q < p && bits[q])
    {
      if bits[p] {
        ghost var before := a[..];
        a[p / 8] := a[p / 8] | Mask(p % 8);
        FlagSet(before, p, a[..]);
      }
    }
    ret := a[..];
  }

  method BytesToBits(bytes: seq<Byte>) returns (ret: seq<bool>)
    ensures Unpacks(ret, bytes)
  {
    var a := new bool[8 * |bytes|];
    for p := 0 to a.Length
      invariant forall q: nat | q < p :: a[q] == FlagAt(bytes, q)
    {
      a[p] := bytes[p / 8] & Mask(p % 8) != 0;
    }
    ret := a[..];
  }

  /** Flag bits survive the trip through bytes, followed by the zeros that fill the last byte. */
  lemma PackedBits(bits: seq<bool>, bytes: seq<Byte>, back: seq<bool>)
    requires Packs(bytes, bits) && Unpacks(back, bytes)
    ensures back == bits + seq(8 * ((|bits| + 7) / 8) - |bits|, _ => false)
    ensures (|back| + 7) / 8 == (|bits| + 7) / 8
  {
    hide FlagAt;
    assert forall p: nat | p < |back| :: back[p] == (p < |bits| && bits[p]);
  }

  /** From the list of transactions to the receiver: building, packing, unpacking and extracting. */
  lemma Delivered(H: (Hash, Hash) -> Hash, txids: seq<Hash>, mask: seq<bool>, bytes: seq<Byte>, back: seq<bool>)
    requires 0 < |mask| == |txids| <= MAX_BLOCK_WEIGHT / MIN_TRANSACTION_WEIGHT
    requires Distinct(txids) && NoCollision(H, WholeTree(H, txids))
    requires Packs(bytes, Build(H, txids, mask).vBits) && Unpacks(back, bytes)
    ensures
      var received := Build(H, txids, mask).(vBits := back);
      && ExtractedRoot(H, received) == MerkleRoot(H, txids)
      && ReadWhole(H, received).found == Matched(txids, mask, 0, |txids|)
  {
    hide Build, ReadWhole, ExtractedRoot, MerkleRoot, Matched, LookAlike, NoCollision, Distinct, WholeTree, Packs, Unpacks;
    var bits := Build(H, txids, mask).vBits;
    PackedBits(bits, bytes, back);
    DistinctAccepted(H, txids, mask);
    RoundTrip(H, txids, mask, seq(8 * ((|bits| + 7) / 8) - |bits|, _ => false));
  }

  // ---------------------------------------------------------------- the object

  function Txids(found: seq<(Hash, nat)>): seq<Hash> {
    seq(|found|, i requires 0 <= i < |found| => found[i].0)
  }

  function Positions(found: seq<(Hash, nat)>): seq<nat> {
    seq(|found|, i requires 0 <= i < |found| => found[i].1)
  }

  lemma Listed(a: seq<(Hash, nat)>, b: seq<(Hash, nat)>)
    ensures Txids(a + b) == Txids(a) + Txids(b)
    ensures Positions(a + b) == Positions(a) + Positions(b)
  {
  }

  /** What a node that is opened adds, in terms of its children. */
  lemma BuiltInner(H: (Hash, Hash) -> Hash, txids: seq<Hash>, mask: seq<bool>, height: nat, pos: nat,
                   bits: seq<bool>, hashes: seq<Hash>)
    requires |mask| == |txids| && height > 0 && pos < Width(|txids|, height) && ParentOfMatch(mask, height, pos)
    requires 2 * pos < Width(|txids|, height - 1)
    ensures
      var b := MerkleProof.TraverseAndBuild(H, txids, mask, height, pos);
      var l := MerkleProof.TraverseAndBuild(H, txids, mask, height - 1, 2 * pos);
      if 2 * pos + 1 < Width(|txids|, height - 1) then
        var r := MerkleProof.TraverseAndBuild(H, txids, mask, height - 1, 2 * pos + 1);
        bits + b.bits == bits + [true] + l.bits + r.bits && hashes + b.hashes == hashes + l.hashes + r.hashes
      else
        bits + b.bits == bits + [true] + l.bits && hashes + b.hashes == hashes + l.hashes
  {
    hide Width, ParentOfMatch, CalcHash;
  }

  class PartialMerkleTree {
    const H: (Hash, Hash) -> Hash
    var nTransactions: nat
    var vBits: seq<bool>
    var vHash: seq<Hash>
    var fBad: bool

    function Message(): Partial
      reads this
    {
      Partial(nTransactions, vBits, vHash)
    }

    function CalcTreeWidth(height: nat): nat
      reads this
    {
      Width(nTransactions, height)
    }

    method TreeHeight() returns (nHeight: nat)
      ensures nHeight == Height(nTransactions)
    {
      hide Width;
      nHeight := 0;
      while CalcTreeWidth(nHeight) > 1
        invariant HeightFrom(nTransactions, nHeight) == Height(nTransactions)
        decreases Width(nTransactions, nHeight)
      {
        WidthHalves(nTransactions, nHeight);
        nHeight := nHeight + 1;
      }
    }

    method FindMatch(height: nat, pos: nat, vMatch: seq<bool>) returns (fParentOfMatch: bool)
      requires |vMatch| == nTransactions
      ensures fParentOfMatch == ParentOfMatch(vMatch, height, pos)
    {
      hide Pow2;
      fParentOfMatch := false;
      var p, end := pos * Pow2(height), (pos + 1) * Pow2(height);
      while p < end && p < nTransactions
        invariant fParentOfMatch || AnyMatch(vMatch, p, end) <==> ParentOfMatch(vMatch, height, pos)
        decreases end - p
      {
        fParentOfMatch := fParentOfMatch || vMatch[p];
        p := p + 1;
      }
    }

    method TraverseAndBuild(height: nat, pos: nat, vTxid: seq<Hash>, vMatch: seq<bool>)
      requires |vTxid| == |vMatch| == nTransactions && pos < Width(nTransactions, height)
      modifies this
      ensures nTransactions == old(nTransactions) && fBad == old(fBad)
      ensures vBits == old(vBits) + MerkleProof.TraverseAndBuild(H, vTxid, vMatch, height, pos).bits
      ensures vHash == old(vHash) + MerkleProof.TraverseAndBuild(H, vTxid, vMatch, height, pos).hashes
      decreases height
    {
      hide Width, ParentOfMatch, CalcHash;
      var fParentOfMatch := FindMatch(height, pos, vMatch);
      vBits := vBits + [fParentOfMatch];
      if height == 0 || !fParentOfMatch {
        vHash := vHash + [CalcHash(H, vTxid, height, pos)];
      } else {
        Children(nTransactions, height, pos);
        BuiltInner(H, vTxid, vMatch, height, pos, old(vBits), vHash);
        TraverseAndBuild(height - 1, 2 * pos, vTxid, vMatch);
        if 2 * pos + 1 < CalcTreeWidth(height - 1) {
          TraverseAndBuild(height - 1, 2 * pos + 1, vTxid, vMatch);
        }
      }
    }

    /** The counters and the two lists are passed by reference in the source; here they go in and come out. */
    method TraverseAndExtract(height: nat, pos: nat, bits: nat, hashes: nat, matches: seq<Hash>, indices: seq<nat>)
      returns (hash: Hash, nBitsUsed: nat, nHashUsed: nat, vMatch: seq<Hash>, vnIndex: seq<nat>)
      modifies this`fBad
      ensures
        var e := MerkleTree.TraverseAndExtract(H, Message(), height, pos, bits, hashes);
        && hash == e.hash && nBitsUsed == e.bits && nHashUsed == e.hashes
        && vMatch == matches + Txids(e.found) && vnIndex == indices + Positions(e.found)
        && fBad == (old(fBad) || e.bad)
      decreases height, 1
    {
      nBitsUsed, nHashUsed, vMatch, vnIndex := bits, hashes, matches, indices;
      if nBitsUsed >= |vBits| {
        fBad := true;
        return NO_HASH, nBitsUsed, nHashUsed, vMatch, vnIndex;
      }
      var fParentOfMatch := vBits[nBitsUsed];
      nBitsUsed := nBitsUsed + 1;
      if height == 0 || !fParentOfMatch {
        if nHashUsed >= |vHash| {
          fBad := true;
          return NO_HASH, nBitsUsed, nHashUsed, vMatch, vnIndex;
        }
        hash := vHash[nHashUsed];
        nHashUsed := nHashUsed + 1;
        if height == 0 && fParentOfMatch {
          vMatch := vMatch + [hash];
          vnIndex := vnIndex + [pos];
        }
      } else {
        hash, nBitsUsed, nHashUsed, vMatch, vnIndex := ExtractChildren(height, pos, bits, hashes, vMatch, vnIndex);
      }
    }

    /** The last branch of TraverseAndExtract. */
    method ExtractChildren(height: nat, pos: nat, bits: nat, hashes: nat, matches: seq<Hash>, indices: seq<nat>)
      returns (hash: Hash, nBitsUsed: nat, nHashUsed: nat, vMatch: seq<Hash>, vnIndex: seq<nat>)
      requires height > 0 && bits < |vBits| && vBits[bits]
      modifies this`fBad
      ensures
        var e := MerkleTree.TraverseAndExtract(H, Message(), height, pos, bits, hashes);
        && hash == e.hash && nBitsUsed == e.bits && nHashUsed == e.hashes
        && vMatch == matches + Txids(e.found) && vnIndex == indices + Positions(e.found)
        && fBad == (old(fBad) || e.bad)
      decreases height, 0
    {
      hide Width, MerkleTree.TraverseAndExtract, Txids, Positions;
      ReadInner(H, Message(), height, pos, bits, hashes);
      var left, right;
      left, nBitsUsed, nHashUsed, vMatch, vnIndex :=
        TraverseAndExtract(height - 1, 2 * pos, bits + 1, hashes, matches, indices);
      if 2 * pos + 1 < CalcTreeWidth(height - 1) {
        right, nBitsUsed, nHashUsed, vMatch, vnIndex :=
          TraverseAndExtract(height - 1, 2 * pos + 1, nBitsUsed, nHashUsed, vMatch, vnIndex);
        if right == left {
          fBad := true;
        }
        ghost var l := MerkleTree.TraverseAndExtract(H, Message(), height - 1, 2 * pos, bits + 1, hashes);
        Listed(l.found, MerkleTree.TraverseAndExtract(H, Message(), height - 1, 2 * pos + 1, l.bits, l.hashes).found);
      } else {
        right := left;
      }
      hash := H(left, right);
    }

    constructor (H: (Hash, Hash) -> Hash, vTxid: seq<Hash>, vMatch: seq<bool>)
      requires |vTxid| == |vMatch| > 0
      ensures this.H == H && !fBad && Message() == Build(H, vTxid, vMatch)
    {
      this.H := H;
      nTransactions, fBad := |vTxid|, false;
      vBits, vHash := [], [];
      new;
      var nHeight := TreeHeight();
      RootInside(nTransactions, nHeight);
      TraverseAndBuild(nHeight, 0, vTxid, vMatch);
    }

    constructor Empty(H: (Hash, Hash) -> Hash)
      ensures this.H == H && fBad && Message() == Partial(0, [], [])
    {
      this.H := H;
      nTransactions, fBad := 0, true;
      vBits, vHash := [], [];
    }

    method Serialize() returns (n: nat, hashes: seq<Hash>, bytes: seq<Byte>)
      ensures n == nTransactions && hashes == vHash && Packs(bytes, vBits)
    {
      n, hashes := nTransactions, vHash;
      bytes := BitsToBytes(vBits);
    }

    method Unserialize(n: nat, hashes: seq<Hash>, bytes: seq<Byte>)
      modifies this
      ensures nTransactions == n && vHash == hashes && Unpacks(vBits, bytes) && !fBad
    {
      nTransactions, vHash := n, hashes;
      vBits := BytesToBits(bytes);
      fBad := false;
    }

    /** The list of transactions is emptied first; the list of positions is only added to. */
    method ExtractMatches(indices: seq<nat>) returns (root: Hash, vMatch: seq<Hash>, vnIndex: seq<nat>)
      modifies this`fBad
      ensures root == if old(fBad) then NO_HASH else ExtractedRoot(H, Message())
      ensures fBad == (old(fBad) || (Plausible(Message()) && ReadWhole(H, Message()).bad))
      ensures vMatch == if Plausible(Message()) then Txids(ReadWhole(H, Message()).found) else []
      ensures vnIndex == if Plausible(Message()) then indices + Positions(ReadWhole(H, Message()).found) else indices
      ensures |vnIndex| == |vMatch| <==> indices == []
    {
      hide MerkleTree.TraverseAndExtract, Width;
      root, vMatch, vnIndex := NO_HASH, [], indices;
      if nTransactions == 0 {
        return;
      }
      if nTransactions > MAX_BLOCK_WEIGHT / MIN_TRANSACTION_WEIGHT {
        return;
      }
      if |vHash| > nTransactions {
        return;
      }
      if |vBits| < |vHash| {
        return;
      }
      var nHeight := TreeHeight();
      var hash, nBitsUsed, nHashUsed;
      hash, nBitsUsed, nHashUsed, vMatch, vnIndex := TraverseAndExtract(nHeight, 0, 0, 0, vMatch, vnIndex);
      if fBad {
        return;
      }
      if (nBitsUsed + 7) / 8 != (|vBits| + 7) / 8 {
        return;
      }
      if nHashUsed != |vHash| {
        return;
      }
      root := hash;
    }
  }

  /** Extracting twice into the same lists leaves one transaction and two positions. */
  method ExtractTwice(H: (Hash, Hash) -> Hash, txid: Hash) returns (vMatch: seq<Hash>, vnIndex: seq<nat>)
    ensures vMatch == [txid] && vnIndex == [0, 0]
  {
    hide Build, ReadWhole, ExtractedRoot, LookAlike, MerkleRoot;
    var t := new PartialMerkleTree(H, [txid], [true]);
    RoundTrip(H, [txid], [true], []);
    OneTransaction(H, txid);
    var root;
    root, vMatch, vnIndex := t.ExtractMatches([]);
    root, vMatch, vnIndex := t.ExtractMatches(vnIndex);
  }

  lemma OneTransaction(H: (Hash, Hash) -> Hash, txid: Hash)
    ensures Plausible(Build(H, [txid], [true])) && Matched([txid], [true], 0, 1) == [(txid, 0)]
    ensures var t := Build(H, [txid], [true]); t.(vBits := t.vBits + []) == t
  {
    BuildSizes(H, [txid], [true]);
    RootInside(1, Height(1));
    HashesPerLeaf(H, [txid], [true], Height(1), 0);
    assert Build(H, [txid], [true]).vBits + [] == Build(H, [txid], [true]).vBits;
  }
}
