/** The rolling Bloom filter on values: what every cell holds, as a function of the keys inserted. */
module Bloom {
  import opened Powers

  type Word = bv64
  type Key = seq<nat>

  /** The hash functions with their tweak. */
  type Hashing = (nat, Key) -> Word32

  const ONES: Word := 0xffff_ffff_ffff_ffff

  // ---------------------------------------------------------------- words

  predicate WordBit(x: Word, b: bv6) {
    (x >> b) & 1 == 1
  }

  function WithBit(x: Word, b: bv6, v: bool): Word {
    (x & !((1 as Word) << b)) | ((if v then 1 else 0 as Word) << b)
  }

  lemma SameBit(x: Word, b: bv6, v: bool)
    ensures WordBit(WithBit(x, b, v), b) == v
  {
  }

  lemma OtherBit(x: Word, b: bv6, v: bool, c: bv6)
    requires c != b
    ensures WordBit(WithBit(x, b, v), c) == WordBit(x, c)
  {
  }

  /** All bits of a word follow one bit of the generation number. */
  function Spread(v: bool): Word {
    if v then ONES else 0
  }

  function And(x: Word, y: Word): Word {
    x & y
  }

  function Or(x: Word, y: Word): Word {
    x | y
  }

  function Xor(x: Word, y: Word): Word {
    x ^ y
  }

  lemma RawAnd(x: Word, y: Word, b: bv6)
    ensures WordBit(x & y, b) == (WordBit(x, b) && WordBit(y, b))
  {
  }

  lemma BitAnd(x: Word, y: Word, b: bv6)
    ensures WordBit(And(x, y), b) == (WordBit(x, b) && WordBit(y, b))
  {
    hide WordBit;
    RawAnd(x, y, b);
  }

  lemma RawOr(x: Word, y: Word, b: bv6)
    ensures WordBit(x | y, b) == (WordBit(x, b) || WordBit(y, b))
  {
  }

  lemma BitOr(x: Word, y: Word, b: bv6)
    ensures WordBit(Or(x, y), b) == (WordBit(x, b) || WordBit(y, b))
  {
    hide WordBit;
    RawOr(x, y, b);
  }

  lemma RawXor(x: Word, y: Word, b: bv6)
    ensures WordBit(x ^ y, b) == (WordBit(x, b) != WordBit(y, b))
  {
  }

  lemma BitXor(x: Word, y: Word, b: bv6)
    ensures WordBit(Xor(x, y), b) == (WordBit(x, b) != WordBit(y, b))
  {
    hide WordBit;
    RawXor(x, y, b);
  }

  lemma BitSpread(v: bool, b: bv6)
    ensures WordBit(Spread(v), b) == v
  {
  }

  /** The mask of the bits that do not belong to a generation. */
  function Survivors(p1: Word, p2: Word, odd: bool, high: bool): Word {
    Or(Xor(p1, Spread(odd)), Xor(p2, Spread(high)))
  }

  lemma SurvivorBit(p1: Word, p2: Word, odd: bool, high: bool, b: bv6)
    ensures WordBit(Survivors(p1, p2, odd, high), b) == (WordBit(p1, b) != odd || WordBit(p2, b) != high)
  {
    hide WordBit, Spread, And, Or, Xor;
    BitOr(Xor(p1, Spread(odd)), Xor(p2, Spread(high)), b);
    BitXor(p1, Spread(odd), b);
    BitXor(p2, Spread(high), b);
    BitSpread(odd, b);
    BitSpread(high, b);
  }

  // ---------------------------------------------------------------- cells

  /** A position in the filter: a pair of words and a bit. */
  datatype Cell = Cell(pair: nat, bit: bv6)

  /** The generation a cell belongs to, or zero. */
  function At(data: seq<Word>, c: Cell): nat
    requires 2 * c.pair + 1 < |data|
  {
    (if WordBit(data[2 * c.pair], c.bit) then 1 else 0) + (if WordBit(data[2 * c.pair + 1], c.bit) then 2 else 0)
  }

  function CellOf(h: Word32, size: nat): (c: Cell)
    requires size > 0 && size % 2 == 0
    ensures 2 * c.pair + 1 < size
  {
    Cell(FastMod(h, size) / 2, (h % 64) as bv6)
  }

  function Tag(data: seq<Word>, c: Cell, g: nat): seq<Word>
    requires 2 * c.pair + 1 < |data|
  {
    data[2 * c.pair := WithBit(data[2 * c.pair], c.bit, g % 2 == 1)]
        [2 * c.pair + 1 := WithBit(data[2 * c.pair + 1], c.bit, g >= 2)]
  }

  lemma Tagged(data: seq<Word>, c: Cell, g: nat, x: Cell)
    requires 2 * c.pair + 1 < |data| && 2 * x.pair + 1 < |data| && 1 <= g <= 3
    ensures At(Tag(data, c, g), x) == if x == c then g else At(data, x)
  {
    hide WordBit, WithBit;
    var p, q := data[2 * c.pair], data[2 * c.pair + 1];
    if x.pair == c.pair {
      if x.bit == c.bit {
        SameBit(p, c.bit, g % 2 == 1);
        SameBit(q, c.bit, g >= 2);
      } else {
        OtherBit(p, c.bit, g % 2 == 1, x.bit);
        OtherBit(q, c.bit, g >= 2, x.bit);
      }
    }
  }

  /** Wiping a generation, a pair of words at a time. */
  function Wiped(data: seq<Word>, g: nat, n: nat): (r: seq<Word>)
    requires 2 * n <= |data|
    ensures |r| == |data|
  {
    if n == 0 then data
    else
      var d := Wiped(data, g, n - 1);
      var p, q := d[2 * n - 2], d[2 * n - 1];
      var mask := Survivors(p, q, g % 2 == 1, g >= 2);
      d[2 * n - 2 := And(p, mask)][2 * n - 1 := And(q, mask)]
  }

  lemma {:induction false} WipedRest(data: seq<Word>, g: nat, n: nat, i: nat)
    requires 2 * n <= i < |data|
    ensures Wiped(data, g, n)[i] == data[i]
  {
    if n > 0 { WipedRest(data, g, n - 1, i); }
  }

  lemma {:induction false} WipedAt(data: seq<Word>, g: nat, n: nat, x: Cell)
    requires 2 * n <= |data| && 2 * x.pair + 1 < |data| && 1 <= g <= 3
    ensures At(Wiped(data, g, n), x) == if x.pair < n && At(data, x) == g then 0 else At(data, x)
  {
    hide WordBit, Survivors, And;
    if n > 0 {
      WipedAt(data, g, n - 1, x);
      if x.pair == n - 1 {
        WipedRest(data, g, n - 1, 2 * n - 2);
        WipedRest(data, g, n - 1, 2 * n - 1);
        var p, q := data[2 * n - 2], data[2 * n - 1];
        var mask := Survivors(p, q, g % 2 == 1, g >= 2);
        SurvivorBit(p, q, g % 2 == 1, g >= 2, x.bit);
        BitAnd(p, mask, x.bit);
        BitAnd(q, mask, x.bit);
      }
    }
  }

  // ---------------------------------------------------------------- the filter

  datatype Filter = Filter(data: seq<Word>, perGeneration: nat, thisGeneration: nat, generation: nat, nHashFuncs: nat)

  ghost predicate Shaped(f: Filter) {
    |f.data| > 0 && |f.data| % 2 == 0 && f.perGeneration > 0
  }

  function Touch(h: Hashing, key: Key, n: nat, size: nat): (c: Cell)
    requires size > 0 && size % 2 == 0
    ensures 2 * c.pair + 1 < size
  {
    CellOf(h(n, key), size)
  }

  /** One of the first `n` hash functions sends the key to the cell. */
  ghost predicate Touches(h: Hashing, key: Key, n: nat, size: nat, c: Cell)
    requires size > 0 && size % 2 == 0
  {
    exists m | 0 <= m < n :: Touch(h, key, m, size) == c
  }

  function TagAll(h: Hashing, data: seq<Word>, key: Key, g: nat, n: nat): (r: seq<Word>)
    requires |data| > 0 && |data| % 2 == 0
    ensures |r| == |data|
  {
    if n == 0 then data else Tag(TagAll(h, data, key, g, n - 1), Touch(h, key, n - 1, |data|), g)
  }

  lemma {:induction false} TaggedAll(h: Hashing, data: seq<Word>, key: Key, g: nat, n: nat, x: Cell)
    requires |data| > 0 && |data| % 2 == 0 && 2 * x.pair + 1 < |data| && 1 <= g <= 3
    ensures At(TagAll(h, data, key, g, n), x) == if Touches(h, key, n, |data|, x) then g else At(data, x)
  {
    hide At, Touch, Tag;
    if n > 0 {
      TaggedAll(h, data, key, g, n - 1, x);
      Tagged(TagAll(h, data, key, g, n - 1), Touch(h, key, n - 1, |data|), g, x);
      TouchesStep(h, key, n, |data|, x);
    }
  }

  lemma TouchesStep(h: Hashing, key: Key, n: nat, size: nat, x: Cell)
    requires size > 0 && size % 2 == 0 && n > 0
    ensures Touches(h, key, n, size, x) <==> Touches(h, key, n - 1, size, x) || Touch(h, key, n - 1, size) == x
  {
    hide Touch;
  }

  function Rolled(f: Filter): Filter
    requires Shaped(f)
  {
    var g := if f.generation + 1 == 4 then 1 else f.generation + 1;
    f.(thisGeneration := 0, generation := g, data := Wiped(f.data, g, |f.data| / 2))
  }

  function Insert(h: Hashing, f: Filter, key: Key): Filter
    requires Shaped(f)
  {
    var r := if f.thisGeneration == f.perGeneration then Rolled(f) else f;
    r.(thisGeneration := r.thisGeneration + 1, data := TagAll(h, r.data, key, r.generation, r.nHashFuncs))
  }

  predicate Contains(h: Hashing, f: Filter, key: Key)
    requires Shaped(f)
  {
    forall n | 0 <= n < f.nHashFuncs :: At(f.data, Touch(h, key, n, |f.data|)) != 0
  }

  function Reset(f: Filter): Filter {
    f.(thisGeneration := 0, generation := 1, data := seq(|f.data|, _ => 0))
  }

  // ---------------------------------------------------------------- history

  /** The last key that touches a cell, or -1. */
  ghost function LastTouch(h: Hashing, keys: seq<Key>, nHashFuncs: nat, size: nat, c: Cell): (r: int)
    requires size > 0 && size % 2 == 0
    ensures -1 <= r < |keys|
  {
    if keys == [] then -1
    else if Touches(h, keys[|keys| - 1], nHashFuncs, size, c) then |keys| - 1
    else LastTouch(h, keys[..|keys| - 1], nHashFuncs, size, c)
  }

  /** The generation that the n-th insertion belongs to, counted from zero. */
  function Epoch(n: nat, perGeneration: nat): nat
    requires perGeneration > 0
  {
    if n == 0 then 0 else (n - 1) / perGeneration
  }

  /** Generations are numbered 1, 2, 3 in turn; a cell keeps its number for the current generation and two more. */
  function TagOf(touch: int, n: nat, perGeneration: nat): nat
    requires perGeneration > 0 && -1 <= touch
  {
    if touch >= 0 && touch / perGeneration + 3 > Epoch(n, perGeneration) then 1 + touch / perGeneration % 3 else 0
  }

  /** The filter holds exactly what the keys inserted since the last reset leave in it. */
  ghost predicate Reflects(h: Hashing, f: Filter, keys: seq<Key>) {
    && Shaped(f)
    && f.generation == 1 + Epoch(|keys|, f.perGeneration) % 3
    && f.thisGeneration == |keys| - Epoch(|keys|, f.perGeneration) * f.perGeneration
    && forall c: Cell | 2 * c.pair + 1 < |f.data| ::
        At(f.data, c) == TagOf(LastTouch(h, keys, f.nHashFuncs, |f.data|, c), |keys|, f.perGeneration)
  }

  lemma ResetReflects(h: Hashing, f: Filter)
    requires Shaped(f)
    ensures Reflects(h, Reset(f), [])
  {
    var z: Word := 0;
    forall b: bv6 ensures !WordBit(z, b) { NoBits(b); }
    hide WordBit;
  }

  lemma NoBits(b: bv6)
    ensures !WordBit(0, b)
  {
  }

  /** Counting generations: the counter is full exactly when the next insertion starts a new one. */
  lemma EpochStep(n: nat, p: nat)
    requires p > 0
    ensures 0 <= n - Epoch(n, p) * p <= p
    ensures n - Epoch(n, p) * p == p ==> Epoch(n + 1, p) == Epoch(n, p) + 1
    ensures n - Epoch(n, p) * p < p ==> Epoch(n + 1, p) == Epoch(n, p)
  {
    var e := Epoch(n, p);
    if n == 0 {
      DivUnique(0, p, 0);
    } else {
      DivBounds(n - 1, p);
      assert (e + 1) * p == e * p + p && (e + 2) * p == e * p + 2 * p;
      if n - e * p == p { DivUnique(n, p, e + 1); } else { DivUnique(n, p, e); }
    }
  }

  lemma TouchEpoch(i: nat, n: nat, p: nat)
    requires p > 0 && i < n
    ensures i / p <= Epoch(n, p)
  {
    DivBounds(i, p);
    DivBounds(n - 1, p);
    if i / p > (n - 1) / p { MulMono((n - 1) / p + 1, i / p, p); }
  }

  /** Wiping the number that comes next removes exactly the tags that are three generations old. */
  lemma WipedTag(touch: int, n: nat, p: nat)
    requires p > 0 && -1 <= touch < n && n - Epoch(n, p) * p == p
    ensures
      var v := TagOf(touch, n, p);
      (if v == 1 + Epoch(n + 1, p) % 3 then 0 else v) == TagOf(touch, n + 1, p)
  {
    hide Epoch;
    EpochStep(n, p);
    if touch >= 0 {
      TouchEpoch(touch, n, p);
      if touch / p + 3 > Epoch(n, p) { ThreeInTurn(touch / p, Epoch(n, p)); }
    }
  }

  lemma ThreeInTurn(t: nat, e: nat)
    requires t <= e < t + 3
    ensures t % 3 == (e + 1) % 3 <==> t == e - 2
  {
  }

  lemma {:induction false} NextTag(h: Hashing, keys: seq<Key>, key: Key, nHashFuncs: nat, size: nat, c: Cell, p: nat)
    requires size > 0 && size % 2 == 0 && p > 0
    ensures LastTouch(h, keys + [key], nHashFuncs, size, c)
         == if Touches(h, key, nHashFuncs, size, c) then |keys| else LastTouch(h, keys, nHashFuncs, size, c)
    ensures Touches(h, key, nHashFuncs, size, c) ==> TagOf(|keys|, |keys| + 1, p) == 1 + Epoch(|keys| + 1, p) % 3
  {
    assert (keys + [key])[..|keys|] == keys;
  }

  lemma RolledReflects(h: Hashing, f: Filter, keys: seq<Key>)
    requires Reflects(h, f, keys) && f.thisGeneration == f.perGeneration
    ensures
      var r := Rolled(f);
      && Shaped(r) && |r.data| == |f.data| && r.perGeneration == f.perGeneration && r.nHashFuncs == f.nHashFuncs
      && r.generation == 1 + Epoch(|keys| + 1, f.perGeneration) % 3
      && forall c: Cell | 2 * c.pair + 1 < |f.data| ::
          At(r.data, c) == TagOf(LastTouch(h, keys, f.nHashFuncs, |f.data|, c), |keys| + 1, f.perGeneration)
  {
    hide At, Wiped, LastTouch, TagOf, Epoch;
    EpochStep(|keys|, f.perGeneration);
    var g := if f.generation + 1 == 4 then 1 else f.generation + 1;
    assert g == 1 + Epoch(|keys| + 1, f.perGeneration) % 3;
    forall c: Cell | 2 * c.pair + 1 < |f.data|
      ensures At(Rolled(f).data, c) == TagOf(LastTouch(h, keys, f.nHashFuncs, |f.data|, c), |keys| + 1, f.perGeneration)
    {
      WipedAt(f.data, g, |f.data| / 2, c);
      WipedTag(LastTouch(h, keys, f.nHashFuncs, |f.data|, c), |keys|, f.perGeneration);
    }
  }

  /** Inserting a key. */
  lemma InsertReflects(h: Hashing, f: Filter, keys: seq<Key>, key: Key)
    requires Reflects(h, f, keys)
    ensures Reflects(h, Insert(h, f, key), keys + [key])
  {
    hide At, LastTouch, TagOf, Epoch, TagAll, Rolled;
    var p, n := f.perGeneration, |keys|;
    EpochStep(n, p);
    var r := if f.thisGeneration == p then Rolled(f) else f;
    if f.thisGeneration == p {
      RolledReflects(h, f, keys);
      RolledFields(f);
    } else {
      SameEpochTags(n, p);
    }
    var d := Insert(h, f, key);
    forall c: Cell | 2 * c.pair + 1 < |d.data|
      ensures At(d.data, c) == TagOf(LastTouch(h, keys + [key], f.nHashFuncs, |d.data|, c), n + 1, p)
    {
      TaggedAll(h, r.data, key, r.generation, r.nHashFuncs, c);
      NextTag(h, keys, key, f.nHashFuncs, |d.data|, c, p);
    }
    NextCount(n, p);
  }

  lemma RolledFields(f: Filter)
    requires Shaped(f)
    ensures Rolled(f).thisGeneration == 0
  {
  }

  lemma SameEpochTags(n: nat, p: nat)
    requires p > 0 && Epoch(n + 1, p) == Epoch(n, p)
    ensures forall touch: int | -1 <= touch :: TagOf(touch, n, p) == TagOf(touch, n + 1, p)
  {
  }

  lemma NextCount(n: nat, p: nat)
    requires p > 0
    ensures n + 1 - Epoch(n + 1, p) * p == if n - Epoch(n, p) * p == p then 1 else n - Epoch(n, p) * p + 1
  {
    hide Epoch;
    EpochStep(n, p);
    assert (Epoch(n, p) + 1) * p == Epoch(n, p) * p + p;
  }

  // ---------------------------------------------------------------- retention

  lemma {:induction false} LastTouchAfter(h: Hashing, keys: seq<Key>, nHashFuncs: nat, size: nat, c: Cell, j: nat)
    requires size > 0 && size % 2 == 0 && j < |keys| && Touches(h, keys[j], nHashFuncs, size, c)
    ensures LastTouch(h, keys, nHashFuncs, size, c) >= j
  {
    if j < |keys| - 1 { LastTouchAfter(h, keys[..|keys| - 1], nHashFuncs, size, c, j); }
  }

  lemma LastTouchIs(h: Hashing, keys: seq<Key>, nHashFuncs: nat, size: nat, c: Cell)
    requires size > 0 && size % 2 == 0 && LastTouch(h, keys, nHashFuncs, size, c) >= 0
    ensures Touches(h, keys[LastTouch(h, keys, nHashFuncs, size, c)], nHashFuncs, size, c)
  {
  }

  /** The insertions that the filter remembers: this generation and the two before it. */
  predicate Recent(f: Filter, n: nat, j: int) {
    0 <= j < n && j + 2 * f.perGeneration + f.thisGeneration >= n
  }

  lemma RecentIff(h: Hashing, f: Filter, keys: seq<Key>, j: nat)
    requires Reflects(h, f, keys) && j < |keys|
    ensures Recent(f, |keys|, j) <==> j / f.perGeneration + 3 > Epoch(|keys|, f.perGeneration)
  {
    hide At, LastTouch, TagOf, Epoch;
    DivBounds(j, f.perGeneration);
    RecentSum(j, j / f.perGeneration, f.perGeneration, Epoch(|keys|, f.perGeneration));
  }

  lemma RecentSum(j: nat, t: int, p: nat, e: int)
    requires t * p <= j < (t + 1) * p
    ensures j + 2 * p >= e * p <==> t + 3 > e
  {
    assert (e - 2) * p == e * p - 2 * p;
    if t + 3 > e { MulMono(e - 2, t, p); } else { MulMono(t + 1, e - 2, p); }
  }

  /** A cell was touched by some remembered insertion. */
  ghost predicate Remembers(h: Hashing, f: Filter, keys: seq<Key>, c: Cell)
    requires Shaped(f)
  {
    exists j | Recent(f, |keys|, j) :: Touches(h, keys[j], f.nHashFuncs, |f.data|, c)
  }

  lemma CellIff(h: Hashing, f: Filter, keys: seq<Key>, c: Cell)
    requires Reflects(h, f, keys) && 2 * c.pair + 1 < |f.data|
    ensures At(f.data, c) != 0 <==> Remembers(h, f, keys, c)
  {
    hide At, LastTouch, Epoch, Touches;
    var last := LastTouch(h, keys, f.nHashFuncs, |f.data|, c);
    if last >= 0 {
      LastTouchIs(h, keys, f.nHashFuncs, |f.data|, c);
      RecentIff(h, f, keys, last);
    }
    if j :| Recent(f, |keys|, j) && Touches(h, keys[j], f.nHashFuncs, |f.data|, c) {
      LastTouchAfter(h, keys, f.nHashFuncs, |f.data|, c, j);
    }
  }

  /** A key is reported exactly when each of its cells was touched by some remembered insertion. */
  lemma ContainsIff(h: Hashing, f: Filter, keys: seq<Key>, key: Key)
    requires Reflects(h, f, keys)
    ensures Contains(h, f, key) <==> forall n | 0 <= n < f.nHashFuncs :: Remembers(h, f, keys, Touch(h, key, n, |f.data|))
  {
    hide At, LastTouch, Epoch, TagOf, Remembers, Touch;
    forall n | 0 <= n < f.nHashFuncs
      ensures At(f.data, Touch(h, key, n, |f.data|)) != 0 <==> Remembers(h, f, keys, Touch(h, key, n, |f.data|))
    {
      CellIff(h, f, keys, Touch(h, key, n, |f.data|));
    }
  }

  /** No remembered key is ever missed, and at least the last nElements insertions are remembered. */
  lemma Retention(h: Hashing, f: Filter, keys: seq<Key>, j: nat, nElements: nat)
    requires Reflects(h, f, keys) && f.perGeneration == (nElements + 1) / 2
    requires j < |keys| && (Recent(f, |keys|, j) || j + nElements >= |keys|)
    ensures Contains(h, f, keys[j])
  {
    hide At, LastTouch, Epoch, TagOf;
    ContainsIff(h, f, keys, keys[j]);
    EpochStep(|keys|, f.perGeneration);
    assert Recent(f, |keys|, j);
    forall n | 0 <= n < f.nHashFuncs ensures Remembers(h, f, keys, Touch(h, keys[j], n, |f.data|)) {
      assert Touches(h, keys[j], f.nHashFuncs, |f.data|, Touch(h, keys[j], n, |f.data|));
    }
  }

  /** Any run of insertions from a fresh filter. */
  ghost function After(h: Hashing, f: Filter, keys: seq<Key>): (r: Filter)
    requires Shaped(f)
    ensures Shaped(r) && r.perGeneration == f.perGeneration
  {
    if keys == [] then Reset(f) else Insert(h, After(h, f, keys[..|keys| - 1]), keys[|keys| - 1])
  }

  lemma {:induction false} RunReflects(h: Hashing, f: Filter, keys: seq<Key>)
    requires Shaped(f)
    ensures Reflects(h, After(h, f, keys), keys)
  {
    hide Reflects, Insert, Reset;
    if keys == [] {
      ResetReflects(h, f);
    } else {
      var n := |keys| - 1;
      RunReflects(h, f, keys[..n]);
      assert keys[..n] + [keys[n]] == keys;
      InsertReflects(h, After(h, f, keys[..n]), keys[..n], keys[n]);
    }
  }
}
