/** The compact form of targets: a sign, a 23-bit mantissa and an exponent of base 256. */
module Compact {
  import opened Powers
  import opened LimbDivision

  const SIGN := 0x800000
  const EXPONENT := 0x1000000

  function Size(c: Word32): nat {
    c / EXPONENT
  }

  function Mantissa(c: Word32): nat {
    c % SIGN
  }

  predicate SignBit(c: Word32) {
    c / SIGN % 2 == 1
  }

  /** mantissa * 256^(exponent-3), towards zero. */
  function Meaning(c: Word32): nat {
    if Size(c) <= 3 then Mantissa(c) / Pow(256, 3 - Size(c)) else Mantissa(c) * Pow(256, Size(c) - 3)
  }

  /** The mantissa as SetCompact leaves it in its local word. */
  function LocalWord(c: Word32): nat {
    if Size(c) <= 3 then Mantissa(c) / Pow(256, 3 - Size(c)) else Mantissa(c)
  }

  predicate Negative(c: Word32) {
    LocalWord(c) != 0 && SignBit(c)
  }

  predicate Overflow(c: Word32) {
    LocalWord(c) != 0 && (Size(c) > 34 || (LocalWord(c) > 0xff && Size(c) > 33) || (LocalWord(c) > 0xffff && Size(c) > 32))
  }

  lemma {:induction false} Pow256(i: nat)
    ensures Pow(256, i) == Pow2(8 * i)
  {
    if i > 0 {
      Pow256(i - 1);
      assert Pow2(8) == 256;
      Pow2Add(8, 8 * (i - 1));
    }
  }

  lemma SmallPowers()
    ensures Pow(256, 0) == 1 && Pow(256, 1) == 256 && Pow(256, 2) == 0x10000 && Pow(256, 3) == 0x1000000
  {
  }

  /** The overflow flag says exactly that the number does not fit in 256 bits. */
  lemma OverflowIff(c: Word32)
    ensures Overflow(c) <==> Meaning(c) >= Pow2(256)
  {
    hide Pow, Pow2;
    var w, s := Mantissa(c), Size(c);
    Pow256(32);
    SmallPowers();
    if s <= 3 {
      PowMono(256, 3, 32);
      QuotientSmall(w, Pow(256, 3 - s));
    } else if s > 34 {
      PowMono(256, 32, s - 3);
      if w > 0 { MulMono(1, w, Pow(256, s - 3)); }
    } else if s > 32 {
      // the power of 256 that the mantissa must reach
      var k := 35 - s;
      PowAdd(256, k, s - 3);
      if w >= Pow(256, k) { MulMono(Pow(256, k), w, Pow(256, s - 3)); } else { MulLess(w, Pow(256, k), Pow(256, s - 3)); }
    } else {
      PowAdd(256, 3, s - 3);
      PowMono(256, s, 32);
      MulLess(w, Pow(256, 3), Pow(256, s - 3));
    }
  }

  lemma MulLess(x: nat, y: nat, p: nat)
    requires x < y && p > 0
    ensures x * p < y * p
  {
    MulMono(x + 1, y, p);
    assert (x + 1) * p == x * p + p;
  }

  lemma QuotientSmall(x: nat, p: nat)
    requires p > 0
    ensures x / p <= x
  {
    DivBounds(x, p);
    if x / p > x { MulMono(x + 1, x / p, p); MulMono(1, p, x); }
  }

  // ---------------------------------------------------------------- byte lengths

  ghost predicate IsByteLength(x: nat, n: nat) {
    x < Pow(256, n) && (n > 0 ==> Pow(256, n - 1) <= x)
  }

  lemma BytesOfBits(x: nat, bits: nat)
    requires IsBitLength(x, bits)
    ensures IsByteLength(x, (bits + 7) / 8)
  {
    hide Pow, Pow2;
    var n := (bits + 7) / 8;
    Pow256(n);
    Pow2Mono(bits, 8 * n);
    if n > 0 {
      Pow256(n - 1);
      Pow2Mono(8 * (n - 1), bits - 1);
    }
  }

  lemma ByteLengthUnique(x: nat, m: nat, n: nat)
    requires IsByteLength(x, m) && IsByteLength(x, n)
    ensures m == n
  {
    hide Pow;
    if m < n { PowMono(256, m, n - 1); }
    if n < m { PowMono(256, n, m - 1); }
  }

  // ---------------------------------------------------------------- encoding

  /** The top three bytes of a number of `n` bytes. */
  function TopBytes(x: nat, n: nat): nat {
    if n <= 3 then x * Pow(256, 3 - n) else x / Pow(256, n - 3)
  }

  /** One byte fewer and one more in the exponent when the mantissa would reach the sign bit. */
  function Encode(x: nat, n: nat): nat {
    var m := TopBytes(x, n);
    if m >= SIGN then (n + 1) * EXPONENT + m / 256 else n * EXPONENT + m
  }

  lemma TopBytesRange(x: nat, n: nat)
    requires IsByteLength(x, n)
    ensures TopBytes(x, n) < 0x1000000
    ensures x > 0 ==> TopBytes(x, n) >= 0x10000
  {
    hide Pow;
    SmallPowers();
    if n <= 3 {
      var p := Pow(256, 3 - n);
      PowAdd(256, n, 3 - n);
      MulLess(x, Pow(256, n), p);
      if n > 0 {
        PowAdd(256, n - 1, 3 - n);
        MulMono(Pow(256, n - 1), x, p);
      }
    } else {
      var p := Pow(256, n - 3);
      PowAdd(256, 3, n - 3);
      PowAdd(256, 2, n - 3);
      DivBounds(x, p);
      if x / p >= 0x1000000 { MulMono(0x1000000, x / p, p); }
      if x / p < 0x10000 { MulMono(x / p + 1, 0x10000, p); }
    }
  }

  lemma OneByteFewer(x: nat, n: nat)
    ensures TopBytes(x, n) / 256 == TopBytes(x, n + 1)
  {
    hide Pow;
    SmallPowers();
    if n < 3 {
      var p := Pow(256, 2 - n);
      PowStep(256, 2 - n);
      assert x * (256 * p) == x * p * 256 by { MulAssoc(x, p, 256); assert 256 * p == p * 256; }
    } else if n == 3 {
      assert x * 1 == x;
    } else {
      PowStep(256, n - 3);
      LimbShifts.DivDiv(x, Pow(256, n - 3), 256);
    }
  }

  /** The fields of an encoded number: both assertions of GetCompact, and a mantissa of full length. */
  lemma EncodedFields(x: nat, n: nat)
    requires IsByteLength(x, n) && x < Pow2(256)
    ensures n <= 32 && Encode(x, n) < 0x1_0000_0000
    ensures Size(Encode(x, n)) == (if TopBytes(x, n) >= SIGN then n + 1 else n)
    ensures Mantissa(Encode(x, n)) == TopBytes(x, Size(Encode(x, n)))
    ensures !SignBit(Encode(x, n))
    ensures x > 0 ==> Mantissa(Encode(x, n)) >= 0x8000
  {
    hide Pow, Pow2, TopBytes;
    Pow256(32);
    if n > 32 { PowMono(256, 32, n - 1); }
    TopBytesRange(x, n);
    OneByteFewer(x, n);
  }

  /** Decoding an encoded number never exceeds it and loses only the bytes below the kept mantissa. */
  lemma DecodeEncoded(x: nat, n: nat)
    requires IsByteLength(x, n) && x < Pow2(256)
    ensures Encode(x, n) < 0x1_0000_0000
    ensures
      var c := Encode(x, n);
      && !Negative(c) && !Overflow(c)
      && (Size(c) <= 3 ==> Meaning(c) == x)
      && (Size(c) > 3 ==> Meaning(c) == x - x % Pow(256, Size(c) - 3))
      && Meaning(c) <= x
  {
    hide Pow, Pow2, Overflow;
    EncodedFields(x, n);
    var c := Encode(x, n);
    var s := Size(c);
    if s <= 3 {
      var p := Pow(256, 3 - s);
      ModUnique(x * p, p, x, 0);
    } else {
      LimbShifts.DivModSum(x, Pow(256, s - 3));
    }
    OverflowIff(c);
  }

  /** The form that GetCompact produces. */
  predicate Canonical(c: Word32) {
    || c == 0
    || (!SignBit(c) && Mantissa(c) >= 0x8000 && (Size(c) <= 3 ==> Mantissa(c) % Pow(256, 3 - Size(c)) == 0))
  }

  lemma EncodedCanonical(x: nat, n: nat)
    requires IsByteLength(x, n) && x < Pow2(256)
    ensures Encode(x, n) < 0x1_0000_0000 && Canonical(Encode(x, n))
  {
    hide Pow, Pow2;
    EncodedFields(x, n);
    var c := Encode(x, n);
    if x == 0 {
      assert n == 0;
      SmallPowers();
    } else if Size(c) <= 3 {
      var p := Pow(256, 3 - Size(c));
      ModUnique(x * p, p, x, 0);
    }
  }

  /** A canonical mantissa of `s` bytes stands for a number of `s` bytes, or of one fewer when its top byte is zero. */
  lemma CanonicalLength(c: Word32)
    requires Canonical(c) && c != 0
    ensures
      var n := if Mantissa(c) >= 0x10000 then Size(c) else Size(c) - 1;
      n >= 0 && IsByteLength(Meaning(c), n) && TopBytes(Meaning(c), n) == (if Mantissa(c) >= 0x10000 then Mantissa(c) else Mantissa(c) * 256)
  {
    hide Pow;
    SmallPowers();
    var w, s := Mantissa(c), Size(c);
    if s > 3 {
      var p := Pow(256, s - 3);
      PowAdd(256, 3, s - 3);
      PowAdd(256, 2, s - 3);
      PowAdd(256, 1, s - 3);
      MulLess(w, 0x1000000, p);
      if w >= 0x10000 {
        MulMono(0x10000, w, p);
        ModUnique(w * p, p, w, 0);
      } else {
        MulLess(w, 0x10000, p);
        MulMono(0x100, w, p);
        if s > 4 {
          PowStep(256, s - 4);
          var q := Pow(256, s - 4);
          assert w * (256 * q) == w * 256 * q by { MulAssoc(w, 256, q); }
          ModUnique(w * p, q, w * 256, 0);
        }
      }
    } else {
      SmallLength(c);
    }
  }

  lemma SmallLength(c: Word32)
    requires Canonical(c) && c != 0 && Size(c) <= 3
    ensures
      var n := if Mantissa(c) >= 0x10000 then Size(c) else Size(c) - 1;
      n >= 0 && IsByteLength(Meaning(c), n) && TopBytes(Meaning(c), n) == (if Mantissa(c) >= 0x10000 then Mantissa(c) else Mantissa(c) * 256)
  {
    SmallPowers();
  }

  /** A canonical number survives decoding and encoding. */
  lemma EncodeDecoded(c: Word32, n: nat)
    requires Canonical(c) && IsByteLength(Meaning(c), n)
    ensures Encode(Meaning(c), n) == c
  {
    hide Pow, TopBytes, Meaning, IsByteLength;
    if c == 0 {
      ZeroMeaning(c, n);
    } else {
      CanonicalLength(c);
      Recompose(c);
      ByteLengthUnique(Meaning(c), n, if Mantissa(c) >= 0x10000 then Size(c) else Size(c) - 1);
    }
  }

  lemma Recompose(c: Word32)
    requires !SignBit(c)
    ensures c == Size(c) * EXPONENT + Mantissa(c)
  {
  }

  lemma ZeroMeaning(c: Word32, n: nat)
    requires c == 0 && IsByteLength(Meaning(c), n)
    ensures Encode(Meaning(c), n) == c
  {
    SmallPowers();
  }

  /** Which compact words are reproduced by decoding and encoding: exactly the canonical ones. */
  lemma CanonicalIff(c: Word32, n: nat)
    requires IsByteLength(Meaning(c), n) && !Overflow(c)
    ensures Encode(Meaning(c), n) == c <==> Canonical(c)
  {
    hide Pow, Pow2, Overflow, Canonical, Meaning;
    OverflowIff(c);
    EncodedCanonical(Meaning(c), n);
    if Canonical(c) { EncodeDecoded(c, n); }
  }

  /** Encoding twice changes nothing more. */
  lemma EncodeIdempotent(x: nat, n: nat, m: nat)
    requires IsByteLength(x, n) && x < Pow2(256)
    requires Encode(x, n) < 0x1_0000_0000 && IsByteLength(Meaning(Encode(x, n)), m)
    ensures Encode(Meaning(Encode(x, n)), m) == Encode(x, n)
  {
    hide Pow, Pow2, Canonical, Meaning, Encode;
    EncodedCanonical(x, n);
    EncodeDecoded(Encode(x, n), m);
  }

  // ---------------------------------------------------------------- block proof

  /** The work that a target stands for. */
  function Proof(c: Word32): nat {
    hide Pow2;
    if Negative(c) || Overflow(c) || Meaning(c) == 0 then 0 else Pow2(256) / (Meaning(c) + 1)
  }

  /** The quotient of 2^256, which does not fit in 256 bits, from one that does. */
  lemma ProofByComplement(m: nat, t: nat)
    requires t + 1 <= m
    ensures (m - 1 - t) / (t + 1) + 1 == m / (t + 1)
  {
    var d := t + 1;
    var q := (m - d) / d;
    DivBounds(m - d, d);
    assert (q + 1) * d == q * d + d && (q + 2) * d == q * d + 2 * d;
    DivUnique(m, d, q + 1);
  }

  /** The largest 256-bit number is not the value of any compact word, so the divisor is never zero. */
  lemma TargetBelowTop(c: Word32)
    requires !Overflow(c)
    ensures Meaning(c) + 1 < Pow2(256)
  {
    hide Pow, Pow2, Overflow;
    OverflowIff(c);
    Pow256(32);
    SmallPowers();
    if Size(c) <= 3 {
      QuotientSmall(Mantissa(c), Pow(256, 3 - Size(c)));
      PowMono(256, 3, 32);
    } else {
      PowStep(256, Size(c) - 4);
      PowStep(256, 31);
      GapOf256(Mantissa(c), Pow(256, Size(c) - 4), Pow(256, 31));
    }
  }

  /** Two multiples of 256 are not next to each other. */
  lemma GapOf256(m: nat, q: nat, b: nat)
    requires m * (256 * q) < 256 * b
    ensures m * (256 * q) + 1 < 256 * b
  {
    MulAssoc(m, q, 256);
    assert 256 * q == q * 256;
  }

  // ---------------------------------------------------------------- examples

  /** Some words and what they mean. */
  lemma Words()
    ensures Meaning(0x01003456) == 0 && Meaning(0x01123456) == 0x12 && Meaning(0x02123456) == 0x1234
    ensures Meaning(0x03123456) == 0x123456 && Meaning(0x04123456) == 0x12345600 && Meaning(0x05009234) == 0x92340000
  {
    SmallPowers();
  }

  /** The sign counts only if what is left of the mantissa is not zero; too large exponents are told. */
  lemma Signs()
    ensures !Negative(0x01803456) && Negative(0x01fedcba) && Meaning(0x01fedcba) == 0x7e
    ensures Negative(0x04923456) && Meaning(0x04923456) == 0x12345600 && !Negative(0x04123456)
    ensures Overflow(0xff123456) && !Overflow(0x20123456)
  {
    SmallPowers();
  }
}
