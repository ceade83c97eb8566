/** The rolling Bloom filter object. */
module RollingBloom {
  import opened Bloom
  import opened Powers

  class RollingBloomFilter {
    var hash: Hashing
    var data: array<Word>
    var nEntriesPerGeneration: nat
    var nEntriesThisGeneration: nat
    var nGeneration: nat
    const nHashFuncs: nat

    /** The keys inserted since the last reset. */
    ghost var keys: seq<Key>

    ghost function View(): Filter
      reads this, data
    {
      Filter(data[..], nEntriesPerGeneration, nEntriesThisGeneration, nGeneration, nHashFuncs)
    }

    ghost predicate Valid()
      reads this, data
    {
      Reflects(hash, View(), keys)
    }

    /** The number of hash functions and of bits come from floating-point formulas; here they are given.
        `tweaked` is the hash with a random tweak. Counting in 32 bits leaves some filters without a table or with
        empty generations; nothing can be inserted into these. */
    constructor (nElements: Word32, nHashFuncs: nat, nFilterBits: Word32, tweaked: Hashing)
      ensures Valid() <==> 0 < nElements < 0xffff_ffff && 0 < nFilterBits <= 0xffff_ffff - 63
      ensures Valid() ==> nEntriesPerGeneration == (nElements + 1) / 2 && data.Length == (nFilterBits + 63) / 64 * 2
      ensures fresh(data) && keys == [] && this.nHashFuncs == nHashFuncs && hash == tweaked
    {
      this.nHashFuncs := nHashFuncs;
      nEntriesPerGeneration := (nElements + 1) % 0x1_0000_0000 / 2;
      data := new Word[(nFilterBits + 63) % 0x1_0000_0000 / 64 * 2];
      hash := tweaked;
      nEntriesThisGeneration, nGeneration, keys := 0, 1, [];
      new;
      Reset(tweaked);
    }

    /** A new tweak and an empty filter. */
    method Reset(tweaked: Hashing)
      requires data.Length % 2 == 0
      modifies this, data
      ensures Valid() <==> data.Length > 0 && nEntriesPerGeneration > 0
      ensures keys == [] && hash == tweaked
      ensures data == old(data) && nEntriesPerGeneration == old(nEntriesPerGeneration)
      ensures View() == Bloom.Reset(old(View()))
    {
      ghost var before := View();
      hash := tweaked;
      nEntriesThisGeneration, nGeneration := 0, 1;
      for i := 0 to data.Length
        invariant data == old(data) && hash == tweaked
        invariant forall j | 0 <= j < i :: data[j] == 0
        invariant View() == before.(data := data[..], thisGeneration := 0, generation := 1)
      {
        data[i] := 0;
      }
      keys := [];
      assert data[..] == seq(data.Length, _ => 0 as Word);
      if Shaped(before) { ResetReflects(tweaked, before); }
    }

    /** Wipe the entries that carry the current generation number. */
    method Wipe()
      requires data.Length % 2 == 0
      modifies data
      ensures data[..] == Wiped(old(data[..]), nGeneration, data.Length / 2)
    {
      hide And, Or, Xor, Spread, Survivors, Wiped;
      WipedNone(data[..], nGeneration);
      var mask1, mask2 := Spread(nGeneration % 2 == 1), Spread(nGeneration >= 2);
      var p := 0;
      ghost var n := 0;
      while p < data.Length
        invariant p == 2 * n <= data.Length
        invariant data[..] == Wiped(old(data[..]), nGeneration, n)
      {
        var p1, p2 := data[p], data[p + 1];
        var mask := Or(Xor(p1, mask1), Xor(p2, mask2));
        SurvivorsAre(p1, p2, nGeneration);
        WipedNext(old(data[..]), nGeneration, n);
        data[p] := And(p1, mask);
        data[p + 1] := And(p2, mask);
        p, n := p + 2, n + 1;
      }
    }

    /** Gives the cell of one hash the current generation number. */
    method TagCell(h: Word32)
      requires data.Length > 0 && data.Length % 2 == 0
      modifies data
      ensures data[..] == Tag(old(data[..]), CellOf(h, data.Length), nGeneration)
    {
      hide WithBit;
      var bit := (h % 64) as bv6;
      var pos := FastMod(h, data.Length);
      var even, odd := pos / 2 * 2, pos / 2 * 2 + 1;
      data[even] := WithBit(data[even], bit, nGeneration % 2 == 1);
      data[odd] := WithBit(data[odd], bit, nGeneration >= 2);
    }

    /** The start of a new generation. */
    method Roll()
      requires Shaped(View())
      modifies this`nEntriesThisGeneration, this`nGeneration, data
      ensures View() == Rolled(old(View()))
    {
      hide Wiped;
      nEntriesThisGeneration := 0;
      nGeneration := nGeneration + 1;
      if nGeneration == 4 {
        nGeneration := 1;
      }
      Wipe();
    }

    method TagKey(key: Key)
      requires Shaped(View())
      modifies data
      ensures data[..] == TagAll(hash, old(data[..]), key, nGeneration, nHashFuncs)
    {
      hide Tag, CellOf;
      ghost var d := data[..];
      for n := 0 to nHashFuncs
        invariant data[..] == TagAll(hash, d, key, nGeneration, n)
      {
        var h := hash(n, key);
        TagCell(h);
      }
    }

    method Insert(key: Key)
      requires Valid()
      modifies this, data
      ensures Valid() && keys == old(keys) + [key] && hash == old(hash) && data == old(data)
      ensures View() == Bloom.Insert(hash, old(View()), key)
    {
      hide Reflects, Rolled, TagAll;
      InsertReflects(hash, View(), keys, key);
      ReflectsShape(hash, View(), keys);
      if nEntriesThisGeneration == nEntriesPerGeneration {
        RolledShape(View());
        Roll();
      }
      nEntriesThisGeneration := nEntriesThisGeneration + 1;
      TagKey(key);
      keys := keys + [key];
    }

    /** Whether the cell of one hash is set in any generation. */
    method IsMarked(h: Word32) returns (r: bool)
      requires Shaped(View())
      ensures r <==> At(data[..], CellOf(h, data.Length)) != 0
    {
      hide WordBit, Or;
      var bit := (h % 64) as bv6;
      var pos := FastMod(h, data.Length);
      var p, q := data[pos / 2 * 2], data[pos / 2 * 2 + 1];
      BitOr(p, q, bit);
      r := WordBit(Or(p, q), bit);
    }

    method Contains(key: Key) returns (r: bool)
      requires Valid()
      ensures r == Bloom.Contains(hash, View(), key)
    {
      hide Reflects, At, CellOf;
      ReflectsShape(hash, View(), keys);
      for n := 0 to nHashFuncs
        invariant forall m | 0 <= m < n :: At(data[..], Touch(hash, key, m, data.Length)) != 0
      {
        var h := hash(n, key);
        var marked := IsMarked(h);
        if !marked {
          assert At(data[..], Touch(hash, key, n, data.Length)) == 0;
          return false;
        }
      }
      return true;
    }
  }

  lemma RolledShape(f: Filter)
    requires Shaped(f)
    ensures Shaped(Rolled(f)) && |Rolled(f).data| == |f.data|
    ensures Rolled(f).perGeneration == f.perGeneration && Rolled(f).nHashFuncs == f.nHashFuncs
  {
    hide Wiped;
  }

  lemma WipedNone(data: seq<Word>, g: nat)
    ensures Wiped(data, g, 0) == data
  {
  }

  lemma WipedNext(data: seq<Word>, g: nat, n: nat)
    requires 2 * n + 2 <= |data|
    ensures
      var d := Wiped(data, g, n);
      var mask := Survivors(d[2 * n], d[2 * n + 1], g % 2 == 1, g >= 2);
      Wiped(data, g, n + 1) == d[2 * n := And(d[2 * n], mask)][2 * n + 1 := And(d[2 * n + 1], mask)]
  {
    hide And, Survivors;
  }

  lemma SurvivorsAre(p1: Word, p2: Word, g: nat)
    ensures Survivors(p1, p2, g % 2 == 1, g >= 2) == Or(Xor(p1, Spread(g % 2 == 1)), Xor(p2, Spread(g >= 2)))
  {
    hide And, Or, Xor, Spread;
  }

  lemma ReflectsShape(h: Hashing, f: Filter, keys: seq<Key>)
    requires Reflects(h, f, keys)
    ensures Shaped(f)
  {
  }
}
