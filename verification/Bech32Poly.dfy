/** The checksum of Bech32 and Bech32m: a polynomial remainder kept in a 30-bit register. */
module Bech32Poly {
  import opened Powers
  import opened Xors

  type Symbol = x: nat | x < 32

  const REGISTER := 0x4000_0000
  const LOW := 0x200_0000

  /** One of the conditional additions: {2^n}k(x) if bit n of the coefficient that left the register is set. */
  function AddIf(x: nat, on: bool, k: nat): nat {
    if on then Xor(x, k) else x
  }

  /** Multiples of the generator for the coefficient `c0`. */
  function AddMultiples(x: nat, c0: nat): nat {
    var x1 := AddIf(x, Bit(c0, 0), 0x3b6a57b2);
    var x2 := AddIf(x1, Bit(c0, 1), 0x26508e6d);
    var x3 := AddIf(x2, Bit(c0, 2), 0x1ea119fa);
    var x4 := AddIf(x3, Bit(c0, 3), 0x3d4233dd);
    AddIf(x4, Bit(c0, 4), 0x2a1462b3)
  }

  function Step(c: nat, v: Symbol): nat {
    AddMultiples(Xor(c % LOW * 32, v), c / LOW)
  }

  /** The register after a list of symbols. */
  function PolyFrom(c: nat, v: seq<Symbol>): nat {
    if v == [] then c else Step(PolyFrom(c, v[..|v| - 1]), v[|v| - 1])
  }

  function PolyMod(v: seq<Symbol>): nat {
    PolyFrom(1, v)
  }

  lemma PowersOf32()
    ensures Pow2(5) == 32 && Pow2(25) == LOW && Pow2(30) == REGISTER
  {
    assert Pow2(5) == 32;
    Pow2Add(5, 5);
    Pow2Add(10, 10);
    Pow2Add(20, 5);
    Pow2Add(25, 5);
  }

  // ---------------------------------------------------------------- linearity

  lemma AddIfLinear(x: nat, y: nat, p: bool, q: bool, k: nat)
    ensures AddIf(Xor(x, y), p != q, k) == Xor(AddIf(x, p, k), AddIf(y, q, k))
  {
    hide Xor;
    XorFour(x, y, k, k);
    XorZero(k);
    XorZero(Xor(x, y));
    XorAssoc(x, y, k);
    XorAssoc(x, k, y);
    XorComm(y, k);
  }

  lemma AddMultiplesLinear(x: nat, y: nat, a: nat, b: nat)
    ensures AddMultiples(Xor(x, y), Xor(a, b)) == Xor(AddMultiples(x, a), AddMultiples(y, b))
  {
    hide Xor, AddIf, Bit;
    XorBit(a, b, 0);
    XorBit(a, b, 1);
    XorBit(a, b, 2);
    XorBit(a, b, 3);
    XorBit(a, b, 4);
    var x1, y1 := AddIf(x, Bit(a, 0), 0x3b6a57b2), AddIf(y, Bit(b, 0), 0x3b6a57b2);
    var x2, y2 := AddIf(x1, Bit(a, 1), 0x26508e6d), AddIf(y1, Bit(b, 1), 0x26508e6d);
    var x3, y3 := AddIf(x2, Bit(a, 2), 0x1ea119fa), AddIf(y2, Bit(b, 2), 0x1ea119fa);
    var x4, y4 := AddIf(x3, Bit(a, 3), 0x3d4233dd), AddIf(y3, Bit(b, 3), 0x3d4233dd);
    AddIfLinear(x, y, Bit(a, 0), Bit(b, 0), 0x3b6a57b2);
    AddIfLinear(x1, y1, Bit(a, 1), Bit(b, 1), 0x26508e6d);
    AddIfLinear(x2, y2, Bit(a, 2), Bit(b, 2), 0x1ea119fa);
    AddIfLinear(x3, y3, Bit(a, 3), Bit(b, 3), 0x3d4233dd);
    AddIfLinear(x4, y4, Bit(a, 4), Bit(b, 4), 0x2a1462b3);
  }

  /** High and low parts of an exclusive or. */
  lemma XorParts(a: nat, b: nat)
    ensures Xor(a, b) / LOW == Xor(a / LOW, b / LOW) && Xor(a, b) % LOW == Xor(a % LOW, b % LOW)
    ensures Xor(a, b) % LOW * 32 == Xor(a % LOW * 32, b % LOW * 32)
  {
    hide Xor, Pow2;
    PowersOf32();
    var p, r, q, s := a / LOW, a % LOW, b / LOW, b % LOW;
    XorSplit(p, r, q, s, 25);
    XorBelow(r, s, 25);
    ModUnique(Xor(a, b), LOW, Xor(p, q), Xor(r, s));
    XorSplit(r, 0, s, 0, 5);
    XorZero(0);
  }

  lemma SymbolXor(x: Symbol, y: Symbol)
    ensures Xor(x, y) < 32
  {
    PowersOf32();
    XorBelow(x, y, 5);
  }

  lemma StepLinear(a: nat, b: nat, x: Symbol, y: Symbol)
    ensures Xor(x, y) < 32 && Step(Xor(a, b), Xor(x, y)) == Xor(Step(a, x), Step(b, y))
  {
    hide Xor, AddMultiples;
    SymbolXor(x, y);
    XorParts(a, b);
    XorFour(a % LOW * 32, b % LOW * 32, x, y);
    AddMultiplesLinear(Xor(a % LOW * 32, x), Xor(b % LOW * 32, y), a / LOW, b / LOW);
  }

  /** Symbol by symbol. */
  function XorAll(v: seq<Symbol>, w: seq<Symbol>): (r: seq<Symbol>)
    requires |v| == |w|
    ensures |r| == |v|
  {
    if v == [] then []
    else
      var n := |v| - 1;
      SymbolXor(v[n], w[n]);
      XorAll(v[..n], w[..n]) + [Xor(v[n], w[n])]
  }

  lemma XorAllStep(v: seq<Symbol>, w: seq<Symbol>)
    requires |v| == |w| > 0
    ensures
      var n := |v| - 1;
      XorAll(v, w)[..n] == XorAll(v[..n], w[..n]) && XorAll(v, w)[n] == Xor(v[n], w[n])
  {
    hide Xor;
    SymbolXor(v[|v| - 1], w[|v| - 1]);
  }

  /** The checksum is linear over exclusive or. */
  lemma {:induction false} PolyLinear(a: nat, b: nat, v: seq<Symbol>, w: seq<Symbol>)
    requires |v| == |w|
    ensures PolyFrom(Xor(a, b), XorAll(v, w)) == Xor(PolyFrom(a, v), PolyFrom(b, w))
  {
    hide Xor, Step;
    if v != [] {
      var n := |v| - 1;
      PolyLinear(a, b, v[..n], w[..n]);
      XorAllStep(v, w);
      StepLinear(PolyFrom(a, v[..n]), PolyFrom(b, w[..n]), v[n], w[n]);
    }
  }

  /** A difference of two lists changes the remainder by the remainder of the difference alone. */
  lemma PolyAffine(v: seq<Symbol>, w: seq<Symbol>)
    requires |v| == |w|
    ensures PolyMod(XorAll(v, w)) == Xor(PolyMod(v), PolyFrom(0, w))
  {
    XorZero(1);
    PolyLinear(1, 0, v, w);
  }

  // ---------------------------------------------------------------- the register

  lemma AddIfBound(x: nat, on: bool, k: nat)
    requires x < REGISTER && k < REGISTER
    ensures AddIf(x, on, k) < REGISTER
  {
    hide Xor, Pow2;
    PowersOf32();
    XorBelow(x, k, 30);
  }

  lemma StepBound(c: nat, v: Symbol)
    requires c < REGISTER
    ensures Step(c, v) < REGISTER
  {
    hide Xor, Pow2, AddIf, Bit;
    PowersOf32();
    var x, c0 := Xor(c % LOW * 32, v), c / LOW;
    XorBelow(c % LOW * 32, v, 30);
    var x1 := AddIf(x, Bit(c0, 0), 0x3b6a57b2);
    var x2 := AddIf(x1, Bit(c0, 1), 0x26508e6d);
    var x3 := AddIf(x2, Bit(c0, 2), 0x1ea119fa);
    var x4 := AddIf(x3, Bit(c0, 3), 0x3d4233dd);
    AddIfBound(x, Bit(c0, 0), 0x3b6a57b2);
    AddIfBound(x1, Bit(c0, 1), 0x26508e6d);
    AddIfBound(x2, Bit(c0, 2), 0x1ea119fa);
    AddIfBound(x3, Bit(c0, 3), 0x3d4233dd);
    AddIfBound(x4, Bit(c0, 4), 0x2a1462b3);
  }

  lemma {:induction false} PolyBound(c: nat, v: seq<Symbol>)
    requires c < REGISTER
    ensures PolyFrom(c, v) < REGISTER
  {
    hide Step;
    if v != [] {
      PolyBound(c, v[..|v| - 1]);
      StepBound(PolyFrom(c, v[..|v| - 1]), v[|v| - 1]);
    }
  }

  lemma {:induction false} PolyAppend(c: nat, v: seq<Symbol>, w: seq<Symbol>)
    ensures PolyFrom(c, v + w) == PolyFrom(PolyFrom(c, v), w)
  {
    hide Step;
    if w == [] {
      assert v + w == v;
    } else {
      var n := |w| - 1;
      PolyAppend(c, v, w[..n]);
      assert (v + w)[..|v| + n] == v + w[..n];
    }
  }

  // ---------------------------------------------------------------- no information is lost

  lemma NoBits(n: nat)
    ensures !Bit(0, n)
  {
  }

  lemma {:induction false} ShiftedBit(u: nat, k: nat, n: nat)
    requires n < k
    ensures !Bit(u * Pow2(k), n)
    decreases n
  {
    hide Bit;
    HalfSum(u, 0, Pow2(k - 1));
    if n == 0 {
      LastBit(u * Pow2(k));
    } else {
      BitStep(u * Pow2(k), n);
      ShiftedBit(u, k - 1, n - 1);
    }
  }

  lemma LastBit(x: nat)
    ensures Bit(x, 0) == (x % 2 == 1)
  {
    assert Pow2(0) == 1;
  }

  lemma AddIfBit(x: nat, on: bool, k: nat, n: nat)
    ensures Bit(AddIf(x, on, k), n) == (Bit(x, n) != (on && Bit(k, n)))
  {
    hide Xor, Bit;
    XorBit(x, k, n);
  }

  /** One of the low five bits after a step, from the bits of the coefficient that left. */
  lemma StepBit(c: nat, n: nat)
    requires n < 5
    ensures
      var c0 := c / LOW;
      Bit(Step(c, 0), n) ==
        (((((Bit(c0, 0) && Bit(0x3b6a57b2, n)) != (Bit(c0, 1) && Bit(0x26508e6d, n)))
          != (Bit(c0, 2) && Bit(0x1ea119fa, n))) != (Bit(c0, 3) && Bit(0x3d4233dd, n)))
          != (Bit(c0, 4) && Bit(0x2a1462b3, n)))
  {
    hide Xor, Bit, AddIf, Pow2;
    var c0 := c / LOW;
    var x := Xor(c % LOW * 32, 0);
    XorZero(c % LOW * 32);
    PowersOf32();
    ShiftedBit(c % LOW, 5, n);
    NoBits(n);
    var x1 := AddIf(x, Bit(c0, 0), 0x3b6a57b2);
    var x2 := AddIf(x1, Bit(c0, 1), 0x26508e6d);
    var x3 := AddIf(x2, Bit(c0, 2), 0x1ea119fa);
    var x4 := AddIf(x3, Bit(c0, 3), 0x3d4233dd);
    AddIfBit(x, Bit(c0, 0), 0x3b6a57b2, n);
    AddIfBit(x1, Bit(c0, 1), 0x26508e6d, n);
    AddIfBit(x2, Bit(c0, 2), 0x1ea119fa, n);
    AddIfBit(x3, Bit(c0, 3), 0x3d4233dd, n);
    AddIfBit(x4, Bit(c0, 4), 0x2a1462b3, n);
  }

  /** The last coefficients of the five multiples of the generator. */
  lemma GeneratorBits()
    ensures !Bit(0x3b6a57b2, 0) && Bit(0x26508e6d, 0) && !Bit(0x1ea119fa, 0) && Bit(0x3d4233dd, 0) && Bit(0x2a1462b3, 0)
    ensures Bit(0x3b6a57b2, 1) && !Bit(0x26508e6d, 1) && Bit(0x1ea119fa, 1) && !Bit(0x3d4233dd, 1) && Bit(0x2a1462b3, 1)
    ensures !Bit(0x3b6a57b2, 2) && Bit(0x26508e6d, 2) && !Bit(0x1ea119fa, 2) && Bit(0x3d4233dd, 2) && !Bit(0x2a1462b3, 2)
    ensures !Bit(0x3b6a57b2, 3) && Bit(0x26508e6d, 3) && Bit(0x1ea119fa, 3) && Bit(0x3d4233dd, 3) && !Bit(0x2a1462b3, 3)
    ensures Bit(0x3b6a57b2, 4) && !Bit(0x26508e6d, 4) && Bit(0x1ea119fa, 4) && Bit(0x3d4233dd, 4) && Bit(0x2a1462b3, 4)
  {
    assert Pow2(0) == 1 && Pow2(1) == 2 && Pow2(2) == 4 && Pow2(3) == 8 && Pow2(4) == 16;
  }

  lemma FiveBits(c: nat)
    requires c < 32 && !Bit(c, 0) && !Bit(c, 1) && !Bit(c, 2) && !Bit(c, 3) && !Bit(c, 4)
    ensures c == 0
  {
    assert Pow2(0) == 1 && Pow2(1) == 2 && Pow2(2) == 4 && Pow2(3) == 8 && Pow2(4) == 16;
  }

  lemma StepNonzero(c: nat)
    requires 0 < c < REGISTER
    ensures Step(c, 0) != 0
  {
    if Step(c, 0) == 0 {
      hide Xor, Bit, Step;
      GeneratorBits();
      StepBit(c, 0);
      StepBit(c, 1);
      StepBit(c, 2);
      StepBit(c, 3);
      StepBit(c, 4);
      NoBits(0);
      NoBits(1);
      NoBits(2);
      NoBits(3);
      NoBits(4);
      FiveBits(c / LOW);
      StepSmall(c, 0);
    }
  }

  /** As long as no coefficient leaves the register, a step only appends. */
  lemma StepSmall(c: nat, v: Symbol)
    requires c < LOW
    ensures Step(c, v) == c * 32 + v
  {
    hide Xor, Bit;
    NoBits(0);
    NoBits(1);
    NoBits(2);
    NoBits(3);
    NoBits(4);
    PowersOf32();
    XorSplit(c, 0, 0, v, 5);
    XorZero(c);
    XorZero(v);
  }

  lemma StepInjective(a: nat, b: nat, v: Symbol)
    requires a < REGISTER && b < REGISTER && a != b
    ensures Step(a, v) != Step(b, v)
  {
    hide Xor, Step, Pow2;
    PowersOf32();
    XorBelow(a, b, 30);
    XorCancel(a, b);
    XorZero(v);
    StepLinear(a, b, v, v);
    StepNonzero(Xor(a, b));
    XorZero(Step(a, v));
  }

  /** Different registers stay different. */
  lemma {:induction false} PolyInjective(a: nat, b: nat, v: seq<Symbol>)
    requires a < REGISTER && b < REGISTER && a != b
    ensures PolyFrom(a, v) != PolyFrom(b, v)
  {
    hide Step;
    if v != [] {
      var n := |v| - 1;
      PolyInjective(a, b, v[..n]);
      PolyBound(a, v[..n]);
      PolyBound(b, v[..n]);
      StepInjective(PolyFrom(a, v[..n]), PolyFrom(b, v[..n]), v[n]);
    }
  }

  // ---------------------------------------------------------------- six symbols

  function Pack(s: seq<Symbol>): nat {
    if s == [] then 0 else Pack(s[..|s| - 1]) * 32 + s[|s| - 1]
  }

  function Digits(x: nat, n: nat): (r: seq<Symbol>)
    ensures |r| == n
  {
    if n == 0 then [] else Digits(x / 32, n - 1) + [x % 32]
  }

  lemma {:induction false} PackBound(s: seq<Symbol>)
    ensures Pack(s) < Pow(32, |s|)
  {
    if s != [] { PackBound(s[..|s| - 1]); }
  }

  lemma {:induction false} DigitsPack(s: seq<Symbol>)
    ensures Digits(Pack(s), |s|) == s
  {
    if s != [] { DigitsPack(s[..|s| - 1]); }
  }

  lemma {:induction false} PackDigits(x: nat, n: nat)
    requires x < Pow(32, n)
    ensures Pack(Digits(x, n)) == x
    decreases n
  {
    if n > 0 {
      PackDigits(x / 32, n - 1);
      assert Digits(x, n)[..n - 1] == Digits(x / 32, n - 1);
    }
  }

  /** Each symbol is a 5-bit group of the number. */
  lemma {:induction false} DigitAt(x: nat, n: nat, i: nat)
    requires i < n
    ensures Digits(x, n)[i] == x / Pow(32, n - 1 - i) % 32
    decreases n
  {
    if i < n - 1 {
      DigitAt(x / 32, n - 1, i);
      PowStep(32, n - 2 - i);
      DivShift(x, Pow(32, n - 2 - i));
    }
  }

  lemma DivShift(x: nat, p: nat)
    requires p > 0
    ensures x / (32 * p) == x / 32 / p
  {
    var d := x / 32 / p;
    DivBounds(x / 32, p);
    assert d * (32 * p) == 32 * (d * p) && (d + 1) * (32 * p) == 32 * ((d + 1) * p);
    DivUnique(x, 32 * p, d);
  }

  lemma Pow32()
    ensures Pow(32, 5) == LOW && Pow(32, 6) == REGISTER
  {
    assert Pow(32, 3) == 32768;
    PowAdd(32, 3, 2);
    PowAdd(32, 3, 3);
  }

  /** From an empty register, up to six symbols are only packed. */
  lemma {:induction false} PolyPacks(s: seq<Symbol>)
    requires |s| <= 6
    ensures PolyFrom(0, s) == Pack(s)
  {
    hide Step, Pow;
    if s != [] {
      var n := |s| - 1;
      PolyPacks(s[..n]);
      PackBound(s[..n]);
      Pow32();
      PowMono(32, n, 5);
      StepSmall(Pack(s[..n]), s[n]);
    }
  }

  // ---------------------------------------------------------------- checksums

  const ZEROS: seq<Symbol> := [0, 0, 0, 0, 0, 0]

  /** The six symbols that make the remainder of `e` followed by them equal to `target`. */
  function Checksum(e: seq<Symbol>, target: nat): (r: seq<Symbol>)
    ensures |r| == 6
  {
    Digits(Xor(PolyMod(e + ZEROS), target), 6)
  }

  lemma {:induction false} XorZeros(z: seq<Symbol>, s: seq<Symbol>)
    requires |z| == |s| && forall i | 0 <= i < |z| :: z[i] == 0
    ensures XorAll(z, s) == s
  {
    hide Xor;
    if s != [] {
      var n := |s| - 1;
      XorZeros(z[..n], s[..n]);
      XorZero(s[n]);
    }
  }

  /** Six symbols at the end are added to the remainder of six zeros. */
  lemma PolyTail(e: seq<Symbol>, s: seq<Symbol>)
    requires |s| == 6
    ensures PolyMod(e + s) == Xor(PolyMod(e + ZEROS), Pack(s))
  {
    hide Step, Xor;
    var c := PolyMod(e);
    PolyAppend(1, e, s);
    PolyAppend(1, e, ZEROS);
    XorZeros(ZEROS, s);
    XorZero(c);
    PolyLinear(c, 0, ZEROS, s);
    PolyPacks(s);
  }

  /** Exactly one checksum verifies: the one that is created. */
  lemma ChecksumIff(e: seq<Symbol>, target: nat, s: seq<Symbol>)
    requires |s| == 6 && target < REGISTER
    ensures PolyMod(e + s) == target <==> s == Checksum(e, target)
  {
    hide Step, Xor, Pow, Pow2, PolyFrom;
    var z := PolyMod(e + ZEROS);
    PolyTail(e, s);
    PolyBound(1, e + ZEROS);
    PowersOf32();
    Pow32();
    XorBelow(z, target, 30);
    PackDigits(Xor(z, target), 6);
    DigitsPack(s);
    XorCancel(z, target);
    XorCancel(Pack(s), z);
    XorComm(z, Pack(s));
    XorComm(z, target);
    XorCancel(target, z);
  }

  /** Changing symbols within a window of six never goes unnoticed, whatever the length. */
  lemma BurstDetected(before: seq<Symbol>, v: seq<Symbol>, w: seq<Symbol>, after: seq<Symbol>)
    requires |v| == |w| <= 6 && v != w
    ensures PolyMod(before + v + after) != PolyMod(before + w + after)
  {
    hide Step, Xor, PolyFrom;
    var c := PolyMod(before);
    PolyBound(1, before);
    PolyAppend(1, before + v, after);
    PolyAppend(1, before + w, after);
    PolyAppend(1, before, v);
    PolyAppend(1, before, w);
    PolyBound(c, v);
    PolyBound(c, w);
    WindowDiffers(c, v, w);
    PolyInjective(PolyFrom(c, v), PolyFrom(c, w), after);
  }

  lemma WindowDiffers(c: nat, v: seq<Symbol>, w: seq<Symbol>)
    requires |v| == |w| <= 6 && v != w
    ensures PolyFrom(c, v) != PolyFrom(c, w)
  {
    hide Step, Xor, PolyFrom;
    XorZero(c);
    XorZero(PolyFrom(c, v));
    PolyLinear(c, c, v, w);
    PolyPacks(XorAll(v, w));
    if Pack(XorAll(v, w)) == 0 { XorAllZero(v, w); }
  }

  lemma {:induction false} XorAllZero(v: seq<Symbol>, w: seq<Symbol>)
    requires |v| == |w| && Pack(XorAll(v, w)) == 0
    ensures v == w
  {
    hide Xor, XorAll;
    if v != [] {
      var n := |v| - 1;
      XorAllStep(v, w);
      XorAllZero(v[..n], w[..n]);
      XorCancel(v[n], w[n]);
      assert v == v[..n] + [v[n]] && w == w[..n] + [w[n]];
    }
  }

  /** In particular, lists that differ in exactly one symbol have different remainders. */
  lemma SingleErrorDetected(v: seq<Symbol>, i: nat, x: Symbol)
    requires i < |v| && v[i] != x
    ensures PolyMod(v) != PolyMod(v[i := x])
  {
    hide PolyFrom;
    var before, after := v[..i], v[i + 1..];
    assert v == before + [v[i]] + after && v[i := x] == before + [x] + after;
    assert [v[i]][0] != [x][0];
    BurstDetected(before, [v[i]], [x], after);
  }
}
