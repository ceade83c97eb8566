/** 256-bit integers: compact targets and the work of a block. */
module Arith256 {
  import opened Powers
  import opened Limbs
  import opened LimbShifts
  import opened LimbDivision
  import opened ArithUint
  import opened Compact

  lemma Modulus256(x: BaseUint)
    requires x.pn.Length == 8
    ensures x.Modulus() == Pow2(256)
  {
    BasePow2(8);
  }

  method EqualTo(x: BaseUint, b: nat) returns (r: bool)
    requires x.pn.Length >= 2 && b < BASE * BASE
    ensures r <==> x.Value() == b
  {
    hide Val;
    LowAndRest(x.pn[..]);
    var i := x.pn.Length;
    while i > 2
      invariant 2 <= i <= x.pn.Length && forall j | i <= j < x.pn.Length :: x.pn[j] == 0
    {
      i := i - 1;
      if x.pn[i] != 0 {
        HighLimb(x.pn[..], i);
        return false;
      }
    }
    ValZero(x.pn[..][2..]);
    return x.pn[1] == b / BASE && x.pn[0] == b % BASE;
  }

  lemma LowAndRest(s: seq<Limb>)
    requires |s| >= 2
    ensures Val(s) == s[0] + s[1] * BASE + BASE * BASE * Val(s[2..])
  {
    hide Val;
    ValSplit(s, 2);
    ValTwo(s[..2]);
    assert Pow(BASE, 2) == BASE * BASE;
  }

  lemma HighLimb(s: seq<Limb>, i: nat)
    requires 2 <= i < |s| && s[i] != 0
    ensures Val(s) >= BASE * BASE
  {
    hide Val;
    ValSplit(s, i + 1);
    ValNext(s, i);
    PowMono(BASE, 2, i);
    assert Pow(BASE, 2) == BASE * BASE;
    MulMono(1, s[i], Pow(BASE, i));
  }

  method GetLow64(x: BaseUint) returns (r: nat)
    requires x.pn.Length >= 2
    ensures r == x.Value() % (BASE * BASE)
  {
    hide Val;
    LowAndRest(x.pn[..]);
    r := x.pn[0] + x.pn[1] * BASE;
    ModUnique(x.Value(), BASE * BASE, Val(x.pn[..][2..]), r);
  }

  method SetCompact(x: BaseUint, nCompact: Word32) returns (fNegative: bool, fOverflow: bool)
    requires x.pn.Length == 8
    modifies x.pn
    ensures x.Value() == Meaning(nCompact) % Pow2(256)
    ensures fNegative == Negative(nCompact) && fOverflow == Overflow(nCompact)
  {
    hide Pow, Pow2, Val;
    Modulus256(x);
    var nSize := nCompact / EXPONENT;
    var nWord := nCompact % SIGN;
    if nSize <= 3 {
      Pow256(3 - nSize);
      QuotientSmall(nWord, Pow2(8 * (3 - nSize)));
      nWord := nWord / Pow2(8 * (3 - nSize));
      x.AssignU64(nWord);
      Fits256(nWord);
    } else {
      x.AssignU64(nWord);
      Pow256(nSize - 3);
      x.ShiftLeft(8 * (nSize - 3));
    }
    fNegative := nWord != 0 && nCompact / SIGN % 2 != 0;
    fOverflow := nWord != 0 && (nSize > 34 || (nWord > 0xff && nSize > 33) || (nWord > 0xffff && nSize > 32));
  }

  lemma Fits256(w: nat)
    requires w < 0x1000000
    ensures w % Pow2(256) == w
  {
    hide Pow2;
    Pow256(3);
    SmallPowers();
    Pow2Mono(24, 256);
    ModUnique(w, Pow2(256), 0, w);
  }

  /** The encoding of a number with `bytes` bytes. */
  ghost predicate IsCompact(nCompact: nat, v: nat, bytes: nat, fNegative: bool) {
    && IsByteLength(v, bytes) && v < Pow2(256) && Encode(v, bytes) < 0x1_0000_0000
    && var c := Encode(v, bytes); nCompact == c + if fNegative && Mantissa(c) != 0 then SIGN else 0
  }

  method GetCompact(x: BaseUint, fNegative: bool) returns (nCompact: nat)
    requires x.pn.Length == 8
    ensures exists bytes :: IsCompact(nCompact, x.Value(), bytes, fNegative)
  {
    hide Pow, Pow2, Val, Or, IsByteLength, TopBytes, IsBitLength;
    Modulus256(x);
    ValBound(x.pn[..]);
    var bits := x.Bits();
    BytesOfBits(x.Value(), bits);
    var nSize := (bits + 7) / 8;
    ghost var bytes := nSize;
    nCompact := TopThree(x, nSize);
    EncodedFields(x.Value(), nSize);
    TopBytesRange(x.Value(), nSize);
    if nCompact / SIGN % 2 == 1 {
      nCompact := nCompact / 256;
      nSize := nSize + 1;
    }
    assert nCompact < SIGN;
    assert nSize < 256;
    var mantissa := nCompact;
    JoinFields(nCompact, nSize);
    nCompact := Or(nCompact, nSize * EXPONENT);
    nCompact := nCompact + (if fNegative && mantissa != 0 then SIGN else 0);
    assert IsCompact(nCompact, x.Value(), bytes, fNegative);
  }

  /** There is one encoding. */
  lemma CompactUnique(c: nat, d: nat, v: nat, m: nat, n: nat, fNegative: bool)
    requires IsCompact(c, v, m, fNegative) && IsCompact(d, v, n, fNegative)
    ensures c == d
  {
    hide Pow, Pow2, IsByteLength, Encode;
    ByteLengthUnique(v, m, n);
  }

  lemma JoinFields(m: nat, size: nat)
    requires m < EXPONENT
    ensures Or(m, size * EXPONENT) == m + size * EXPONENT
  {
    hide Or;
    assert Pow2(24) == EXPONENT by { Pow256(3); SmallPowers(); }
    OrDisjoint(m, size, 24);
  }

  /** The mantissa before it is checked against the sign bit. */
  method TopThree(x: BaseUint, nSize: nat) returns (nCompact: nat)
    requires x.pn.Length == 8 && IsByteLength(x.Value(), nSize)
    ensures nCompact == TopBytes(x.Value(), nSize)
  {
    hide Pow, Pow2, Val;
    TopBytesRange(x.Value(), nSize);
    if nSize <= 3 {
      var low := GetLow64(x);
      PowMono(256, nSize, 3);
      SmallPowers();
      ModUnique(x.Value(), BASE * BASE, 0, x.Value());
      Pow256(3 - nSize);
      nCompact := low * Pow2(8 * (3 - nSize));
    } else {
      var bn := new BaseUint.Copy(x);
      bn.ShiftRight(8 * (nSize - 3));
      Pow256(nSize - 3);
      nCompact := GetLow64(bn);
      ModUnique(bn.Value(), BASE * BASE, 0, bn.Value());
    }
  }

  /** Work of a block; invalid targets have none. */
  method GetBlockProof(nBits: Word32) returns (r: BaseUint)
    ensures r.pn.Length == 8 && r.Value() == Proof(nBits)
  {
    hide Pow, Pow2, Val, Meaning, Negative, Overflow;
    var bnTarget := new BaseUint(8);
    var fNegative, fOverflow := SetCompact(bnTarget, nBits);
    OverflowIff(nBits);
    ghost var t, m := Meaning(nBits), Pow2(256);
    if !Overflow(nBits) {
      TargetBelowTop(nBits);
      ModUnique(t, m, 0, t);
    }
    var isZero := EqualTo(bnTarget, 0);
    if fNegative || fOverflow || isZero {
      r := new BaseUint(8);
      return;
    }
    Modulus256(bnTarget);
    r := bnTarget.Complement();
    var next := new BaseUint.Copy(bnTarget);
    next.AddAssignU64(1);
    ModUnique(t + 1, m, 0, t + 1);
    var ok := r.DivAssign(next);
    Modulus256(r);
    ProofByComplement(m, t);
    ProofFits(m, t);
    r.AddAssignU64(1);
  }

  lemma ProofFits(m: nat, t: nat)
    requires 0 < t < m
    ensures m / (t + 1) % m == m / (t + 1)
  {
    DivBounds(m, t + 1);
    assert m / (t + 1) * 2 <= m / (t + 1) * (t + 1) by { MulMono(2, t + 1, m / (t + 1)); }
    ModUnique(m / (t + 1), m, 0, m / (t + 1));
  }
}
