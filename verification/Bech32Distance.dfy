/** How many errors the Bech32 checksum detects. The generator vanishes at three consecutive powers a^24, a^25 and a^26 of
    an element of the field with 1024 elements, so the code is a BCH code of distance at least 4. */
module Bech32Distance {
  import opened Powers
  import opened Xors
  import opened Bech32Poly
  import opened Bech32
  import F = Field1024

  type Elem = F.Elem

  // ---------------------------------------------------------------- symbols in the larger field

  predicate Odd(x: nat) {
    x % 2 == 1
  }

  /** A symbol as an element of the larger field: 2 becomes a root of y^5 + y^3 + 1. */
  function Embed(s: Symbol): Elem {
    F.Add(F.Add(F.Add(F.Add(F.Sel(Odd(s), 1), F.Sel(Odd(s / 2), 0xe)), F.Sel(Odd(s / 4), 0x54)),
                F.Sel(Odd(s / 8), 0x358)), F.Sel(Odd(s / 16), 0xbf))
  }

  lemma SelXor(p: bool, q: bool, x: Elem)
    ensures F.Sel(p != q, x) == F.Add(F.Sel(p, x), F.Sel(q, x))
  {
  }

  /** Adding one coefficient after another. */
  lemma AddMore(x: Elem, y: Elem, p: bool, q: bool, c: Elem)
    ensures F.Add(F.Add(x, y), F.Sel(p != q, c)) == F.Add(F.Add(x, F.Sel(p, c)), F.Add(y, F.Sel(q, c)))
  {
    hide F.Add, F.Sel;
    SelXor(p, q, c);
    F.AddSwap(x, y, F.Sel(p, c), F.Sel(q, c));
  }

  lemma XorOdd(s: nat, t: nat)
    ensures Odd(Xor(s, t)) == (Odd(s) != Odd(t))
    ensures Xor(s, t) / 2 == Xor(s / 2, t / 2)
  {
    XorHalf(s, t);
  }

  lemma QuarterDiv(s: nat)
    ensures s / 4 == s / 2 / 2 && s / 8 == s / 2 / 2 / 2 && s / 16 == s / 2 / 2 / 2 / 2
  {
  }

  lemma EmbedLinear(s: Symbol, t: Symbol)
    ensures Xor(s, t) < 32 && Embed(Xor(s, t)) == F.Add(Embed(s), Embed(t))
  {
    hide F.Add, F.Sel, Xor, Odd;
    SymbolXor(s, t);
    var u := Xor(s, t);
    QuarterDiv(s);
    QuarterDiv(t);
    QuarterDiv(u);
    XorOdd(s, t);
    XorOdd(s / 2, t / 2);
    XorOdd(s / 2 / 2, t / 2 / 2);
    XorOdd(s / 2 / 2 / 2, t / 2 / 2 / 2);
    XorOdd(s / 2 / 2 / 2 / 2, t / 2 / 2 / 2 / 2);
    SelXor(Odd(s), Odd(t), 1);
    var s1, t1 := F.Sel(Odd(s), 1), F.Sel(Odd(t), 1);
    var s2, t2 := F.Add(s1, F.Sel(Odd(s / 2), 0xe)), F.Add(t1, F.Sel(Odd(t / 2), 0xe));
    var s3, t3 := F.Add(s2, F.Sel(Odd(s / 4), 0x54)), F.Add(t2, F.Sel(Odd(t / 4), 0x54));
    var s4, t4 := F.Add(s3, F.Sel(Odd(s / 8), 0x358)), F.Add(t3, F.Sel(Odd(t / 8), 0x358));
    AddMore(s1, t1, Odd(s / 2), Odd(t / 2), 0xe);
    AddMore(s2, t2, Odd(s / 4), Odd(t / 4), 0x54);
    AddMore(s3, t3, Odd(s / 8), Odd(t / 8), 0x358);
    AddMore(s4, t4, Odd(s / 16), Odd(t / 16), 0xbf);
  }

  /** The five coefficients are independent. */
  lemma Independent(b0: bool, b1: bool, b2: bool, b3: bool, b4: bool)
    requires F.Add(F.Add(F.Add(F.Add(F.Sel(b0, 1), F.Sel(b1, 0xe)), F.Sel(b2, 0x54)), F.Sel(b3, 0x358)), F.Sel(b4, 0xbf)) == 0
    ensures !b0 && !b1 && !b2 && !b3 && !b4
  {
  }

  lemma EmbedInjective(s: Symbol, t: Symbol)
    ensures F.Add(Embed(s), Embed(t)) == 0 <==> s == t
  {
    hide F.Add, F.Sel, Xor;
    EmbedLinear(s, t);
    F.AddCancel(Embed(s), Embed(t));
    var u := Xor(s, t);
    if Embed(u) == 0 {
      Independent(Odd(u), Odd(u / 2), Odd(u / 4), Odd(u / 8), Odd(u / 16));
      XorCancel(s, t);
    }
  }

  // ---------------------------------------------------------------- registers as polynomials

  /** The polynomial with the symbols of `v` as coefficients, at a^e. */
  function Eval(e: nat, v: nat): Elem {
    if v == 0 then 0 else F.Add(F.Shifts(e, Eval(e, v / 32)), Embed(v % 32))
  }

  lemma EmbedZero()
    ensures Embed(0) == 0
  {
  }

  /** One symbol more. */
  lemma EvalNext(e: nat, x: nat, d: Symbol)
    ensures Eval(e, x * 32 + d) == F.Add(F.Shifts(e, Eval(e, x)), Embed(d))
  {
    hide Embed, F.Add, F.Shifts;
    if x * 32 + d == 0 {
      EmbedZero();
      F.AddSelf(0);
      ShiftsZero(e);
    }
  }

  lemma ShiftsZero(n: nat)
    ensures F.Shifts(n, 0) == 0
  {
    hide F.Add, F.Shifts;
    F.ShiftsLinear(n, 0, 0);
    F.AddSelf(0);
    F.AddSelf(F.Shifts(n, 0));
  }

  lemma XorSymbols(a: nat, b: nat)
    ensures Xor(a % 32, b % 32) < 32 && Xor(a, b) == Xor(a / 32, b / 32) * 32 + Xor(a % 32, b % 32)
  {
    hide Xor, Pow2;
    PowersOf32();
    XorSplit(a / 32, a % 32, b / 32, b % 32, 5);
    SymbolXor(a % 32, b % 32);
  }

  lemma {:induction false} EvalLinear(e: nat, a: nat, b: nat)
    ensures Eval(e, Xor(a, b)) == F.Add(Eval(e, a), Eval(e, b))
    decreases a + b
  {
    hide Embed, F.Add, F.Shifts, Xor;
    if a + b == 0 {
      XorZero(0);
      F.AddSelf(0);
    } else {
      EvalLinear(e, a / 32, b / 32);
      XorSymbols(a, b);
      EmbedLinear(a % 32, b % 32);
      EvalNext(e, Xor(a / 32, b / 32), Xor(a % 32, b % 32));
      EvalNext(e, a / 32, a % 32);
      EvalNext(e, b / 32, b % 32);
      var u, v := Eval(e, a / 32), Eval(e, b / 32);
      F.ShiftsLinear(e, u, v);
      F.AddSwap(F.Shifts(e, u), F.Shifts(e, v), Embed(a % 32), Embed(b % 32));
    }
  }

  // ---------------------------------------------------------------- the generator

  /** A polynomial of degree six, at the element `r`. */
  function AtElement(r: Elem, c6: Elem, c5: Elem, c4: Elem, c3: Elem, c2: Elem, c1: Elem, c0: Elem): Elem {
    var x5 := F.Add(F.Product(r, c6), c5);
    var x4 := F.Add(F.Product(r, x5), c4);
    var x3 := F.Add(F.Product(r, x4), c3);
    var x2 := F.Add(F.Product(r, x3), c2);
    var x1 := F.Add(F.Product(r, x2), c1);
    F.Add(F.Product(r, x1), c0)
  }

  function Seven(d6: Symbol, d5: Symbol, d4: Symbol, d3: Symbol, d2: Symbol, d1: Symbol, d0: Symbol): nat {
    (((((d6 * 32 + d5) * 32 + d4) * 32 + d3) * 32 + d2) * 32 + d1) * 32 + d0
  }

  lemma SevenSymbols(e: nat, d6: Symbol, d5: Symbol, d4: Symbol, d3: Symbol, d2: Symbol, d1: Symbol, d0: Symbol)
    ensures Eval(e, Seven(d6, d5, d4, d3, d2, d1, d0))
         == AtElement(F.Power(e), Embed(d6), Embed(d5), Embed(d4), Embed(d3), Embed(d2), Embed(d1), Embed(d0))
  {
    hide Embed, F.Add, F.Shifts, F.Product, F.Power, Eval;
    EvalSymbol(e, d6);
    var v5 := d6 * 32 + d5;
    var v4 := v5 * 32 + d4;
    var v3 := v4 * 32 + d3;
    var v2 := v3 * 32 + d2;
    var v1 := v2 * 32 + d1;
    EvalProduct(e, d6, d5);
    EvalProduct(e, v5, d4);
    EvalProduct(e, v4, d3);
    EvalProduct(e, v3, d2);
    EvalProduct(e, v2, d1);
    EvalProduct(e, v1, d0);
  }

  lemma EvalProduct(e: nat, x: nat, d: Symbol)
    ensures Eval(e, x * 32 + d) == F.Add(F.Product(F.Power(e), Eval(e, x)), Embed(d))
  {
    hide Embed, F.Add, F.Shifts, F.Product, F.Power, Eval;
    EvalNext(e, x, d);
    F.ShiftsIsMul(e, Eval(e, x));
  }

  lemma EvalSymbol(e: nat, d: Symbol)
    ensures Eval(e, d) == Embed(d)
  {
    hide Embed, F.Add, F.Shifts;
    EvalNext(e, 0, d);
    ShiftsZero(e);
    F.AddSelf(Embed(d));
  }

  lemma EmbedLow()
    ensures Embed(1) == 0x1 && Embed(2) == 0xe && Embed(3) == 0xf && Embed(4) == 0x54
    ensures Embed(5) == 0x55 && Embed(6) == 0x5a && Embed(8) == 0x358 && Embed(10) == 0x356
    ensures Embed(12) == 0x30c && Embed(13) == 0x30d && Embed(15) == 0x303
  {
  }

  lemma EmbedHigh()
    ensures Embed(16) == 0xbf && Embed(18) == 0xb1 && Embed(19) == 0xb0 && Embed(20) == 0xeb
    ensures Embed(21) == 0xea && Embed(22) == 0xe5 && Embed(24) == 0x3e7 && Embed(26) == 0x3e9
    ensures Embed(29) == 0x3b2 && Embed(30) == 0x3bd
  {
  }

  lemma ProductSwap(r: Elem, k: Elem, x: Elem, c: Elem)
    ensures F.Add(F.Product(r, F.Product(k, x)), F.Product(k, c)) == F.Product(k, F.Add(F.Product(r, x), c))
  {
    hide F.Add, F.Product, F.Mul;
    F.ProductIs(k, x);
    F.ProductIs(r, x);
    F.ProductIs(k, c);
    F.ProductIs(r, F.Mul(k, x));
    F.ProductIs(k, F.Add(F.Mul(r, x), c));
    F.MulAssociates(r, k, x);
    F.MulAssociates(k, r, x);
    F.MulComm(r, k);
    F.MulLinear(k, F.Mul(r, x), c);
  }

  /** Multiplying all coefficients multiplies the value. */
  lemma Scaled(r: Elem, k: Elem, c6: Elem, c5: Elem, c4: Elem, c3: Elem, c2: Elem, c1: Elem, c0: Elem)
    ensures AtElement(r, F.Product(k, c6), F.Product(k, c5), F.Product(k, c4), F.Product(k, c3), F.Product(k, c2),
                      F.Product(k, c1), F.Product(k, c0)) == F.Product(k, AtElement(r, c6, c5, c4, c3, c2, c1, c0))
  {
    hide F.Add, F.Product;
    var x5 := F.Add(F.Product(r, c6), c5);
    var x4 := F.Add(F.Product(r, x5), c4);
    var x3 := F.Add(F.Product(r, x4), c3);
    var x2 := F.Add(F.Product(r, x3), c2);
    var x1 := F.Add(F.Product(r, x2), c1);
    ProductSwap(r, k, c6, c5);
    ProductSwap(r, k, x5, c4);
    ProductSwap(r, k, x4, c3);
    ProductSwap(r, k, x3, c2);
    ProductSwap(r, k, x2, c1);
    ProductSwap(r, k, x1, c0);
  }

  lemma RootAt24()
    ensures AtElement(0x3f0, 0x1, 0x3b2, 0xe5, 0xeb, 0xea, 0x3b2, 0xb1) == 0
  {
  }

  lemma RootAt25()
    ensures AtElement(0x2c3, 0x1, 0x3b2, 0xe5, 0xeb, 0xea, 0x3b2, 0xb1) == 0
  {
  }

  lemma RootAt26()
    ensures AtElement(0xa5, 0x1, 0x3b2, 0xe5, 0xeb, 0xea, 0x3b2, 0xb1) == 0
  {
  }

  lemma Times2()
    ensures F.Product(0xe, 0x1) == 0xe && F.Product(0xe, 0x3b2) == 0xb0 && F.Product(0xe, 0xe5) == 0x55
    ensures F.Product(0xe, 0xeb) == 0x1 && F.Product(0xe, 0xea) == 0xf && F.Product(0xe, 0xb1) == 0x30d
  {
  }

  lemma Times4()
    ensures F.Product(0x54, 0x1) == 0x54 && F.Product(0x54, 0x3b2) == 0x303 && F.Product(0x54, 0xe5) == 0x356
    ensures F.Product(0x54, 0xeb) == 0xe && F.Product(0x54, 0xea) == 0x5a && F.Product(0x54, 0xb1) == 0x3e9
  {
  }

  lemma Times8()
    ensures F.Product(0x358, 0x1) == 0x358 && F.Product(0x358, 0x3b2) == 0x3bd && F.Product(0x358, 0xe5) == 0xeb
    ensures F.Product(0x358, 0xeb) == 0x54 && F.Product(0x358, 0xea) == 0x30c && F.Product(0x358, 0xb1) == 0x3b2
  {
  }

  lemma Times16()
    ensures F.Product(0xbf, 0x1) == 0xbf && F.Product(0xbf, 0x3b2) == 0xea && F.Product(0xbf, 0xe5) == 0x1
    ensures F.Product(0xbf, 0xeb) == 0x358 && F.Product(0xbf, 0xea) == 0x3e7 && F.Product(0xbf, 0xb1) == 0xb0
  {
  }

  /** The generator and its multiples by 2, 4, 8 and 16 vanish at `r`. */
  ghost predicate Vanishes(r: Elem) {
    && AtElement(r, 0x1, 0x3b2, 0xe5, 0xeb, 0xea, 0x3b2, 0xb1) == 0
    && AtElement(r, 0xe, 0xb0, 0x55, 0x1, 0xf, 0xb0, 0x30d) == 0
    && AtElement(r, 0x54, 0x303, 0x356, 0xe, 0x5a, 0x303, 0x3e9) == 0
    && AtElement(r, 0x358, 0x3bd, 0xeb, 0x54, 0x30c, 0x3bd, 0x3b2) == 0
    && AtElement(r, 0xbf, 0xea, 0x1, 0x358, 0x3e7, 0xea, 0xb0) == 0
  }

  /** It is enough that the generator does. */
  lemma MultiplesVanish(r: Elem)
    requires AtElement(r, 0x1, 0x3b2, 0xe5, 0xeb, 0xea, 0x3b2, 0xb1) == 0
    ensures Vanishes(r)
  {
    hide AtElement, F.Product, F.Mul;
    Times2();
    Times4();
    Times8();
    Times16();
    Scaled(r, 0xe, 0x1, 0x3b2, 0xe5, 0xeb, 0xea, 0x3b2, 0xb1);
    ProductZero(0xe);
    Scaled(r, 0x54, 0x1, 0x3b2, 0xe5, 0xeb, 0xea, 0x3b2, 0xb1);
    ProductZero(0x54);
    Scaled(r, 0x358, 0x1, 0x3b2, 0xe5, 0xeb, 0xea, 0x3b2, 0xb1);
    ProductZero(0x358);
    Scaled(r, 0xbf, 0x1, 0x3b2, 0xe5, 0xeb, 0xea, 0x3b2, 0xb1);
    ProductZero(0xbf);
  }

  lemma ProductZero(k: Elem)
    ensures F.Product(k, 0) == 0
  {
    hide F.Product, F.Mul, F.Add;
    F.ProductIs(k, 0);
    F.MulLinear(k, 0, 0);
  }

  // ---------------------------------------------------------------- a step multiplies by x

  lemma NoShift(z: Elem)
    ensures F.Shifts(0, z) == z
  {
  }

  lemma {:induction false} EvalTop(e: nat, x: nat, k: nat)
    ensures Eval(e, x * Pow(32, k)) == F.Shifts(e * k, Eval(e, x))
  {
    hide Eval, F.Shifts, F.Add, Pow;
    if k == 0 {
      PowZero(32);
      NoShift(Eval(e, x));
    } else {
      EvalTop(e, x, k - 1);
      PowStep(32, k - 1);
      var y := x * Pow(32, k - 1);
      assert x * Pow(32, k) == y * 32;
      EvalNext(e, y, 0);
      EmbedZero();
      F.AddSelf(F.Shifts(e, Eval(e, y)));
      F.ShiftsAdd(e, e * (k - 1), Eval(e, x));
      assert e + e * (k - 1) == e * k;
    }
  }

  /** A symbol above the register, and the register. */
  lemma EvalAbove(e: nat, d: Symbol, g: nat)
    requires g < REGISTER
    ensures Eval(e, d * REGISTER + g) == F.Add(F.Shifts(e * 6, Embed(d)), Eval(e, g))
  {
    hide Eval, Embed, F.Shifts, F.Add, Xor, Pow, Pow2;
    PowersOf32();
    Pow32();
    XorSplit(d, 0, 0, g, 30);
    XorZero(d);
    XorZero(g);
    EvalLinear(e, d * REGISTER, g);
    EvalTop(e, d, 6);
    EvalSymbol(e, d);
  }

  /** The five multiples in terms of x^6. */
  ghost predicate Reduces(e: nat) {
    && Eval(e, 0x3b6a57b2) == F.Shifts(e * 6, 1)
    && Eval(e, 0x26508e6d) == F.Shifts(e * 6, 0xe)
    && Eval(e, 0x1ea119fa) == F.Shifts(e * 6, 0x54)
    && Eval(e, 0x3d4233dd) == F.Shifts(e * 6, 0x358)
    && Eval(e, 0x2a1462b3) == F.Shifts(e * 6, 0xbf)
  }

  lemma ReducesAt(e: nat)
    requires Vanishes(F.Power(e))
    ensures Reduces(e)
  {
    hide Eval, Embed, F.Shifts, F.Add, F.Power, AtElement;
    EmbedLow();
    EmbedHigh();
    SevenSymbols(e, 1, 29, 22, 20, 21, 29, 18);
    EvalAbove(e, 1, 0x3b6a57b2);
    F.AddCancel(F.Shifts(e * 6, Embed(1)), Eval(e, 0x3b6a57b2));
    SevenSymbols(e, 2, 19, 5, 1, 3, 19, 13);
    EvalAbove(e, 2, 0x26508e6d);
    F.AddCancel(F.Shifts(e * 6, Embed(2)), Eval(e, 0x26508e6d));
    SevenSymbols(e, 4, 15, 10, 2, 6, 15, 26);
    EvalAbove(e, 4, 0x1ea119fa);
    F.AddCancel(F.Shifts(e * 6, Embed(4)), Eval(e, 0x1ea119fa));
    SevenSymbols(e, 8, 30, 20, 4, 12, 30, 29);
    EvalAbove(e, 8, 0x3d4233dd);
    F.AddCancel(F.Shifts(e * 6, Embed(8)), Eval(e, 0x3d4233dd));
    SevenSymbols(e, 16, 21, 1, 8, 24, 21, 19);
    EvalAbove(e, 16, 0x2a1462b3);
    F.AddCancel(F.Shifts(e * 6, Embed(16)), Eval(e, 0x2a1462b3));
  }

  predicate IsRoot(e: nat) {
    24 <= e <= 26
  }

  /** The generator has three consecutive powers of `a` as roots. */
  lemma Roots(e: nat)
    requires IsRoot(e)
    ensures Reduces(e)
  {
    hide Vanishes, AtElement, Reduces, F.Product, F.Shifts;
    F.SomePowers();
    F.ShiftsAdd(1, 24, 1);
    F.ShiftsAdd(1, 25, 1);
    NextRoots();
    RootAt24();
    RootAt25();
    RootAt26();
    MultiplesVanish(F.Power(e));
    ReducesAt(e);
  }

  lemma NextRoots()
    ensures F.Shifts(1, 0x3f0) == 0x2c3 && F.Shifts(1, 0x2c3) == 0xa5
  {
    assert F.Shifts(0, 0x3f0) == 0x3f0 && F.Shifts(0, 0x2c3) == 0x2c3;
  }

  lemma EvalAddIf(e: nat, x: nat, on: bool, k: nat)
    ensures Eval(e, AddIf(x, on, k)) == F.Add(Eval(e, x), F.Sel(on, Eval(e, k)))
  {
    hide Eval, F.Add, Xor;
    EvalLinear(e, x, k);
    F.AddSelf(Eval(e, x));
  }

  lemma ShiftsSel(n: nat, on: bool, x: Elem)
    ensures F.Shifts(n, F.Sel(on, x)) == F.Sel(on, F.Shifts(n, x))
  {
    hide F.Shifts;
    ShiftsZero(n);
  }

  /** Sums of the first coefficients, multiplied. */
  lemma ShiftsMore(n: nat, x: Elem, on: bool, c: Elem)
    ensures F.Shifts(n, F.Add(x, F.Sel(on, c))) == F.Add(F.Shifts(n, x), F.Sel(on, F.Shifts(n, c)))
  {
    hide F.Shifts, F.Add, F.Sel;
    F.ShiftsLinear(n, x, F.Sel(on, c));
    ShiftsSel(n, on, c);
  }

  lemma BitsAreOdd(s: nat)
    ensures Bit(s, 0) == Odd(s) && Bit(s, 1) == Odd(s / 2) && Bit(s, 2) == Odd(s / 4) && Bit(s, 3) == Odd(s / 8)
    ensures Bit(s, 4) == Odd(s / 16)
  {
    assert Pow2(0) == 1 && Pow2(1) == 2 && Pow2(2) == 4 && Pow2(3) == 8 && Pow2(4) == 16;
  }

  /** What leaves the register comes back multiplied by x^6. */
  lemma EvalMultiples(e: nat, x: nat, c0: Symbol)
    requires Reduces(e)
    ensures Eval(e, AddMultiples(x, c0)) == F.Add(Eval(e, x), F.Shifts(e * 6, Embed(c0)))
  {
    hide Eval, F.Add, F.Sel, F.Shifts, Bit, Odd, AddIf;
    BitsAreOdd(c0);
    var n, b0, b1, b2, b3, b4 := e * 6, Odd(c0), Odd(c0 / 2), Odd(c0 / 4), Odd(c0 / 8), Odd(c0 / 16);
    var x1 := AddIf(x, b0, 0x3b6a57b2);
    var x2 := AddIf(x1, b1, 0x26508e6d);
    var x3 := AddIf(x2, b2, 0x1ea119fa);
    var x4 := AddIf(x3, b3, 0x3d4233dd);
    EvalAddIf(e, x, b0, 0x3b6a57b2);
    EvalAddIf(e, x1, b1, 0x26508e6d);
    EvalAddIf(e, x2, b2, 0x1ea119fa);
    EvalAddIf(e, x3, b3, 0x3d4233dd);
    EvalAddIf(e, x4, b4, 0x2a1462b3);
    var s1 := F.Sel(b0, 1);
    var s2 := F.Add(s1, F.Sel(b1, 0xe));
    var s3 := F.Add(s2, F.Sel(b2, 0x54));
    var s4 := F.Add(s3, F.Sel(b3, 0x358));
    ShiftsSel(n, b0, 1);
    ShiftsMore(n, s1, b1, 0xe);
    ShiftsMore(n, s2, b2, 0x54);
    ShiftsMore(n, s3, b3, 0x358);
    ShiftsMore(n, s4, b4, 0xbf);
    var y := Eval(e, x);
    F.AddAssoc(y, F.Shifts(n, s1), F.Sel(b1, F.Shifts(n, 0xe)));
    F.AddAssoc(y, F.Shifts(n, s2), F.Sel(b2, F.Shifts(n, 0x54)));
    F.AddAssoc(y, F.Shifts(n, s3), F.Sel(b3, F.Shifts(n, 0x358)));
    F.AddAssoc(y, F.Shifts(n, s4), F.Sel(b4, F.Shifts(n, 0xbf)));
  }

  /** The top symbol of the register, and the rest. */
  lemma EvalRegister(e: nat, c: nat)
    requires c < REGISTER
    ensures Eval(e, c) == F.Add(F.Shifts(e * 5, Embed(c / LOW)), Eval(e, c % LOW))
  {
    hide Eval, Embed, F.Shifts, F.Add, Xor, Pow, Pow2;
    var d, g := c / LOW, c % LOW;
    PowersOf32();
    Pow32();
    XorSplit(d, 0, 0, g, 25);
    XorZero(d);
    XorZero(g);
    EvalLinear(e, d * LOW, g);
    EvalTop(e, d, 5);
    EvalSymbol(e, d);
  }

  /** A step multiplies the polynomial by x and adds the symbol. */
  lemma EvalStep(e: nat, c: nat, v: Symbol)
    requires IsRoot(e) && c < REGISTER
    ensures Eval(e, Step(c, v)) == F.Add(F.Shifts(e, Eval(e, c)), Embed(v))
  {
    hide Eval, Embed, F.Shifts, F.Add, Xor, AddMultiples, Reduces, IsRoot, Pow2;
    var d, g := c / LOW, c % LOW;
    PowersOf32();
    Roots(e);
    XorSplit(g, 0, 0, v, 5);
    XorZero(g);
    XorZero(v);
    EvalMultiples(e, g * 32 + v, d);
    EvalNext(e, g, v);
    EvalRegister(e, c);
    var top, low := F.Shifts(e * 5, Embed(d)), Eval(e, g);
    F.ShiftsLinear(e, top, low);
    F.ShiftsAdd(e, e * 5, Embed(d));
    F.AddAssoc(F.Shifts(e * 6, Embed(d)), F.Shifts(e, low), Embed(v));
    F.AddAssoc(F.Add(F.Shifts(e, low), Embed(v)), F.Shifts(e * 6, Embed(d)), 0);
  }

  // ---------------------------------------------------------------- errors

  /** How far apart two registers are, at a^e. */
  function Gap(e: nat, a: nat, b: nat): Elem {
    F.Add(Eval(e, a), Eval(e, b))
  }

  lemma GapStep(e: nat, a: nat, b: nat, x: Symbol, y: Symbol)
    requires IsRoot(e) && a < REGISTER && b < REGISTER
    ensures Gap(e, Step(a, x), Step(b, y)) == F.Add(F.Shifts(e, Gap(e, a, b)), F.Add(Embed(x), Embed(y)))
  {
    hide Eval, Embed, F.Shifts, F.Add, Step, IsRoot;
    EvalStep(e, a, x);
    EvalStep(e, b, y);
    F.ShiftsLinear(e, Eval(e, a), Eval(e, b));
    F.AddSwap(F.Shifts(e, Eval(e, a)), Embed(x), F.Shifts(e, Eval(e, b)), Embed(y));
  }

  /** Multiplication by (a^e)^n. */
  function Carry(e: nat, n: nat, z: Elem): Elem {
    F.Shifts(e * n, z)
  }

  /** Equal symbols keep the gap, but for a power of a^e. */
  lemma {:induction false} GapCarries(e: nat, a: nat, b: nat, s: seq<Symbol>)
    requires IsRoot(e) && a < REGISTER && b < REGISTER
    ensures Gap(e, PolyFrom(a, s), PolyFrom(b, s)) == Carry(e, |s|, Gap(e, a, b))
  {
    hide Eval, Embed, F.Shift, F.Add, Step, Gap, IsRoot;
    if s == [] {
      assert F.Shifts(0, Gap(e, a, b)) == Gap(e, a, b);
    } else {
      var n := |s| - 1;
      GapCarries(e, a, b, s[..n]);
      var u, v := PolyFrom(a, s[..n]), PolyFrom(b, s[..n]);
      PolyBound(a, s[..n]);
      PolyBound(b, s[..n]);
      GapStep(e, u, v, s[n], s[n]);
      F.AddSelf(Embed(s[n]));
      F.AddSelf(F.Shifts(e, Gap(e, u, v)));
      F.ShiftsAdd(e, e * n, Gap(e, a, b));
      assert e + e * n == e * |s|;
    }
  }

  // ---------------------------------------------------------------- three equations

  /** (a^n + 1) z */
  function Turn(n: nat, z: Elem): Elem {
    F.Add(F.Shifts(n, z), z)
  }

  lemma TurnTwice(n: nat, z: Elem)
    ensures Turn(n, Turn(n, z)) == Turn(2 * n, z)
  {
    hide F.Shifts, F.Add;
    var y := F.Shifts(n, z);
    F.ShiftsLinear(n, y, z);
    F.ShiftsAdd(n, n, z);
    F.AddAssoc(F.Shifts(n, y), y, F.Add(y, z));
    F.AddAssoc(y, y, z);
    F.AddSelf(y);
    F.AddSelf(z);
  }

  lemma TurnZero(n: nat, z: Elem)
    requires 0 < n < 1023 && Turn(n, z) == 0
    ensures z == 0
  {
    hide F.Shifts, F.Add;
    F.AddCancel(F.Shifts(n, z), z);
    F.NoReturn(n, z);
  }

  /** a^n y1 + a^m y2 + y3 == 0 and y1 + y2 + y3 == 0 */
  lemma Difference(n: nat, m: nat, y1: Elem, y2: Elem, y3: Elem)
    requires F.Add(F.Add(y1, y2), y3) == 0 && F.Add(F.Add(F.Shifts(n, y1), F.Shifts(m, y2)), y3) == 0
    ensures Turn(n, y1) == Turn(m, y2)
  {
    hide F.Shifts, F.Add;
    var u, v := F.Shifts(n, y1), F.Shifts(m, y2);
    F.AddCancel(F.Add(y1, y2), y3);
    F.AddCancel(F.Add(u, v), y3);
    F.AddCancel(F.Add(u, v), F.Add(y1, y2));
    F.AddSwap(u, v, y1, y2);
    F.AddCancel(Turn(n, y1), Turn(m, y2));
  }

  lemma SameTurn(n: nat, m: nat, w: Elem)
    requires m < n && n - m < 1023 && Turn(n, w) == Turn(m, w)
    ensures w == 0
  {
    hide F.Shifts, F.Add;
    var u, v := F.Shifts(n, w), F.Shifts(m, w);
    F.AddCancel(F.Add(u, w), F.Add(v, w));
    F.AddSwap(u, w, v, w);
    F.AddSelf(w);
    F.AddSelf(F.Add(u, v));
    F.AddCancel(u, v);
    F.ShiftsAdd(m, n - m, w);
    F.ShiftsCancel(m, F.Shifts(n - m, w), w);
    F.NoReturn(n - m, w);
  }

  /** Three terms that vanish at three consecutive powers are all 0. */
  lemma ThreeEquations(n: nat, m: nat, y1: Elem, y2: Elem, y3: Elem)
    requires 0 < m < n < 1023
    requires F.Add(F.Add(y1, y2), y3) == 0
    requires F.Add(F.Add(F.Shifts(n, y1), F.Shifts(m, y2)), y3) == 0
    requires F.Add(F.Add(F.Shifts(2 * n, y1), F.Shifts(2 * m, y2)), y3) == 0
    ensures y1 == 0 && y2 == 0 && y3 == 0
  {
    hide F.Shifts, F.Add, Turn;
    Difference(n, m, y1, y2, y3);
    Difference(2 * n, 2 * m, y1, y2, y3);
    TurnTwice(n, y1);
    TurnTwice(m, y2);
    SameTurn(n, m, Turn(n, y1));
    TurnZero(n, y1);
    TurnZero(m, y2);
    F.AddSelf(0);
    F.AddSelf(y3);
  }

  // ---------------------------------------------------------------- up to three wrong symbols

  /** A symbol that may be wrong, and symbols that are right. */
  lemma GapSegment(e: nat, a: nat, b: nat, x: Symbol, y: Symbol, s: seq<Symbol>)
    requires IsRoot(e) && a < REGISTER && b < REGISTER
    ensures Gap(e, PolyFrom(a, [x] + s), PolyFrom(b, [y] + s))
         == Carry(e, |s|, F.Add(F.Shifts(e, Gap(e, a, b)), F.Add(Embed(x), Embed(y))))
  {
    hide Embed, F.Shifts, F.Add, Step, Gap, PolyFrom, IsRoot, Carry;
    PolyAppend(a, [x], s);
    PolyAppend(b, [y], s);
    OneSymbol(a, x);
    OneSymbol(b, y);
    PolyBound(a, [x]);
    PolyBound(b, [y]);
    GapCarries(e, PolyFrom(a, [x]), PolyFrom(b, [y]), s);
    GapStep(e, a, b, x, y);
  }

  lemma OneSymbol(c: nat, x: Symbol)
    ensures PolyFrom(c, [x]) == Step(c, x)
  {
    hide Step;
    assert [x][..0] == [];
    assert PolyFrom(c, []) == c;
  }

  lemma CarryMore(e: nat, n: nat, z: Elem)
    ensures F.Shifts(e, Carry(e, n, z)) == Carry(e, n + 1, z)
  {
    hide F.Shifts;
    F.ShiftsAdd(e, e * n, z);
    assert e + e * n == e * (n + 1);
  }

  lemma CarryLinear(e: nat, n: nat, x: Elem, y: Elem)
    ensures Carry(e, n, F.Add(x, y)) == F.Add(Carry(e, n, x), Carry(e, n, y))
  {
    hide F.Shifts, F.Add;
    F.ShiftsLinear(e * n, x, y);
  }

  lemma CarryTwice(e: nat, n: nat, m: nat, z: Elem)
    ensures Carry(e, n, Carry(e, m, z)) == Carry(e, n + m, z)
  {
    hide F.Shifts;
    F.ShiftsAdd(e * n, e * m, z);
    assert e * n + e * m == e * (n + m);
  }

  lemma GapOfTwo(e: nat, c: nat, x: Symbol, x': Symbol, s: seq<Symbol>, y: Symbol, y': Symbol, t: seq<Symbol>)
    requires IsRoot(e) && c < REGISTER
    ensures
      var a, b := PolyFrom(PolyFrom(c, [x] + s), [y] + t), PolyFrom(PolyFrom(c, [x'] + s), [y'] + t);
      Gap(e, a, b) == Carry(e, |t|, F.Add(Carry(e, |s| + 1, F.Add(Embed(x), Embed(x'))), F.Add(Embed(y), Embed(y'))))
  {
    hide Embed, F.Shifts, F.Add, Gap, PolyFrom, IsRoot, Carry;
    var f := F.Add(Embed(x), Embed(x'));
    PolyBound(c, [x] + s);
    PolyBound(c, [x'] + s);
    GapSegment(e, c, c, x, x', s);
    NoGap(e, c);
    F.AddSelf(f);
    CarryMore(e, |s|, f);
    GapSegment(e, PolyFrom(c, [x] + s), PolyFrom(c, [x'] + s), y, y', t);
  }

  /** The differences of three symbols, each multiplied by its own power of x, at a^e. */
  function Syndrome(e: nat, n: nat, m: nat, f: Elem, g: Elem, h: Elem): Elem {
    F.Add(F.Add(Carry(e, n, f), Carry(e, m, g)), h)
  }

  lemma GapOfThree(e: nat, c: nat, x: Symbol, x': Symbol, s: seq<Symbol>, y: Symbol, y': Symbol, t: seq<Symbol>,
                   z: Symbol, z': Symbol, u: seq<Symbol>)
    requires IsRoot(e) && c < REGISTER
    ensures
      var a := PolyFrom(PolyFrom(PolyFrom(c, [x] + s), [y] + t), [z] + u);
      var b := PolyFrom(PolyFrom(PolyFrom(c, [x'] + s), [y'] + t), [z'] + u);
      var n, m := |t| + 1 + (|s| + 1), |t| + 1;
      Gap(e, a, b) == Carry(e, |u|, Syndrome(e, n, m, F.Add(Embed(x), Embed(x')), F.Add(Embed(y), Embed(y')),
                                              F.Add(Embed(z), Embed(z'))))
  {
    hide Embed, F.Shifts, F.Add, Gap, PolyFrom, IsRoot, Carry;
    var f, g := F.Add(Embed(x), Embed(x')), F.Add(Embed(y), Embed(y'));
    var a1, b1 := PolyFrom(c, [x] + s), PolyFrom(c, [x'] + s);
    PolyBound(c, [x] + s);
    PolyBound(c, [x'] + s);
    PolyBound(a1, [y] + t);
    PolyBound(b1, [y'] + t);
    GapOfTwo(e, c, x, x', s, y, y', t);
    GapSegment(e, PolyFrom(a1, [y] + t), PolyFrom(b1, [y'] + t), z, z', u);
    CarryMore(e, |t|, F.Add(Carry(e, |s| + 1, f), g));
    CarryLinear(e, |t| + 1, Carry(e, |s| + 1, f), g);
    CarryTwice(e, |t| + 1, |s| + 1, f);
  }

  lemma NoGap(e: nat, c: nat)
    ensures Gap(e, c, c) == 0 && F.Shifts(e, 0) == 0
  {
    hide Eval, F.Shifts;
    F.AddSelf(Eval(e, c));
    ShiftsZero(e);
  }

  lemma SyndromesZero(n: nat, m: nat, f: Elem, g: Elem, h: Elem)
    requires 0 < m < n < 1023
    requires Syndrome(24, n, m, f, g, h) == 0 && Syndrome(25, n, m, f, g, h) == 0 && Syndrome(26, n, m, f, g, h) == 0
    ensures f == 0 && g == 0 && h == 0
  {
    hide F.Shifts, F.Add;
    F.ShiftsAdd(n, 24 * n, f);
    F.ShiftsAdd(2 * n, 24 * n, f);
    F.ShiftsAdd(m, 24 * m, g);
    F.ShiftsAdd(2 * m, 24 * m, g);
    ThreeEquations(n, m, F.Shifts(24 * n, f), F.Shifts(24 * m, g), h);
    ShiftsZero(24 * n);
    ShiftsZero(24 * m);
    F.ShiftsCancel(24 * n, f, 0);
    F.ShiftsCancel(24 * m, g, 0);
  }

  /** Up to three wrong symbols within a window of 1023 never go unnoticed, whatever the length. */
  lemma ThreeErrorsDetected(before: seq<Symbol>, x: Symbol, x': Symbol, s: seq<Symbol>, y: Symbol, y': Symbol, t: seq<Symbol>,
                            z: Symbol, z': Symbol, after: seq<Symbol>)
    requires |s| + |t| + 3 <= 1023 && (x != x' || y != y' || z != z')
    ensures PolyMod(before + ([x] + s) + ([y] + t) + ([z] + after)) != PolyMod(before + ([x'] + s) + ([y'] + t) + ([z'] + after))
  {
    hide Embed, F.Shifts, F.Add, Gap, PolyFrom, Syndrome;
    var c, n, m := PolyMod(before), |t| + 1 + (|s| + 1), |t| + 1;
    PolyBound(1, before);
    var f, g, h := F.Add(Embed(x), Embed(x')), F.Add(Embed(y), Embed(y')), F.Add(Embed(z), Embed(z'));
    InParts(before, [x] + s, [y] + t, [z] + after);
    InParts(before, [x'] + s, [y'] + t, [z'] + after);
    var a := PolyFrom(PolyFrom(PolyFrom(c, [x] + s), [y] + t), [z] + after);
    var b := PolyFrom(PolyFrom(PolyFrom(c, [x'] + s), [y'] + t), [z'] + after);
    if a == b {
      forall e: nat | IsRoot(e) ensures Syndrome(e, n, m, f, g, h) == 0 {
        GapOfThree(e, c, x, x', s, y, y', t, z, z', after);
        NoGap(e, a);
        ShiftsZero(e * |after|);
        F.ShiftsCancel(e * |after|, Syndrome(e, n, m, f, g, h), 0);
      }
      SyndromesZero(n, m, f, g, h);
      EmbedInjective(x, x');
      EmbedInjective(y, y');
      EmbedInjective(z, z');
    }
  }

  lemma InParts(before: seq<Symbol>, s: seq<Symbol>, t: seq<Symbol>, u: seq<Symbol>)
    ensures PolyMod(before + s + t + u) == PolyFrom(PolyFrom(PolyFrom(PolyMod(before), s), t), u)
  {
    hide PolyFrom;
    PolyAppend(1, before + s + t, u);
    PolyAppend(1, before + s, t);
    PolyAppend(1, before, s);
  }

  /** The lists agree everywhere else. */
  ghost predicate AgreeBut<T>(v: seq<T>, w: seq<T>, p: nat, q: nat, r: nat) {
    |v| == |w| && forall i | 0 <= i < |v| && i != p && i != q && i != r :: v[i] == w[i]
  }

  lemma ThreeInOrder(v: seq<Symbol>, w: seq<Symbol>, p: nat, q: nat, r: nat)
    requires p < q < r < |v| && r - p < 1023 && AgreeBut(v, w, p, q, r) && v != w
    ensures PolyMod(v) != PolyMod(w)
  {
    hide PolyFrom;
    var before, s, t, after := v[..p], v[p + 1..q], v[q + 1..r], v[r + 1..];
    assert w[..p] == before && w[p + 1..q] == s && w[q + 1..r] == t && w[r + 1..] == after;
    InFour(v, p, q, r);
    InFour(w, p, q, r);
    ThreeErrorsDetected(before, v[p], w[p], s, v[q], w[q], t, v[r], w[r], after);
  }

  lemma InFour(v: seq<Symbol>, p: nat, q: nat, r: nat)
    requires p < q < r < |v|
    ensures v == v[..p] + ([v[p]] + v[p + 1..q]) + ([v[q]] + v[q + 1..r]) + ([v[r]] + v[r + 1..])
  {
    assert v[..q] == v[..p] + ([v[p]] + v[p + 1..q]);
    assert v[..r] == v[..q] + ([v[q]] + v[q + 1..r]);
  }

  lemma InOrder(p: nat, q: nat, r: nat, n: nat) returns (a: nat, b: nat, c: nat)
    requires p < n && q < n && r < n && n >= 3
    ensures a < b < c < n
    ensures (p == a || p == b || p == c) && (q == a || q == b || q == c) && (r == a || r == b || r == c)
  {
    var q' := if q != p then q else if p != 0 && r != 0 then 0 else if p != 1 && r != 1 then 1 else 2;
    var r' := if r != p && r != q' then r else if p != 0 && q' != 0 then 0 else if p != 1 && q' != 1 then 1 else 2;
    var x, y := if p < q' then p else q', if p < q' then q' else p;
    if r' < x { return r', x, y; } else if r' < y { return x, r', y; } else { return x, y, r'; }
  }

  /** Lists of at most 1023 symbols that differ in up to three have different remainders. */
  lemma ThreeWrong(v: seq<Symbol>, w: seq<Symbol>, p: nat, q: nat, r: nat)
    requires p < |v| && q < |v| && r < |v| && 3 <= |v| <= 1023 && AgreeBut(v, w, p, q, r) && v != w
    ensures PolyMod(v) != PolyMod(w)
  {
    hide PolyFrom;
    var a, b, c := InOrder(p, q, r, |v|);
    ThreeInOrder(v, w, a, b, c);
  }

  // ---------------------------------------------------------------- strings

  /** Everything after the separator. */
  function Payload(d: Decoded): seq<Symbol>
    requires d.Decoded? && Bytes(d.hrp)
  {
    d.data + CreateChecksum(d.encoding, d.hrp, d.data)
  }

  lemma PayloadOf(s: string)
    requires Decode(s).Decoded?
    ensures
      var d := Decode(s);
      && Bytes(d.hrp) && |d.hrp| + 1 + |Payload(d)| == |s| <= 90 && |Payload(d)| >= 6
      && Lower(s) == d.hrp + "1" + Chars(Payload(d))
      && PolyMod(ExpandHRP(d.hrp) + Payload(d)) == Constant(d.encoding)
  {
    hide PolyFrom, CreateChecksum, ExpandHRP, Decode, Chars, Lower;
    var d := Decode(s);
    EncodeDecoded(s);
    ChecksumLength(d.encoding, d.hrp, d.data);
    LowerLength(s);
    CharsLength(Payload(d));
    PayloadVerifies(d.encoding, d.hrp, d.data);
  }

  lemma LowerLength(s: string)
    ensures |Lower(s)| == |s|
  {
  }

  lemma CharsLength(v: seq<Symbol>)
    ensures |Chars(v)| == |v|
  {
  }

  lemma PayloadVerifies(e: Encoding, hrp: string, data: seq<Symbol>)
    requires Bytes(hrp)
    ensures PolyMod(ExpandHRP(hrp) + (data + CreateChecksum(e, hrp, data))) == Constant(e)
  {
    hide PolyFrom, ExpandHRP, Checksum;
    var x, check := ExpandHRP(hrp), CreateChecksum(e, hrp, data);
    assert x + (data + check) == x + data + check;
    ChecksumIff(x + data, Constant(e), check);
  }

  lemma SymbolsAgree(v: seq<Symbol>, w: seq<Symbol>, i: nat)
    requires |v| == |w| && i < |v| && Chars(v)[i] == Chars(w)[i]
    ensures v[i] == w[i]
  {
    hide CharOf, Rev;
    RevOfChar(v[i]);
    RevOfChar(w[i]);
  }

  lemma CharAt(hrp: string, v: seq<Symbol>, i: nat)
    requires i < |v|
    ensures |Chars(v)| == |v| && (hrp + "1" + Chars(v))[|hrp| + 1 + i] == Chars(v)[i]
  {
    hide CharOf;
  }

  /** Two valid strings of the same kind, with the same prefix and length, that agree but for three characters are the
      same up to case: up to three wrong characters after the prefix are always detected. */
  lemma ThreeWrongCharacters(s: string, t: string, p: nat, q: nat, r: nat)
    requires Decode(s).Decoded? && Decode(t).Decoded?
    requires Decode(s).encoding == Decode(t).encoding && Decode(s).hrp == Decode(t).hrp
    requires p < |s| && q < |s| && r < |s| && AgreeBut(Lower(s), Lower(t), p, q, r)
    ensures Lower(s) == Lower(t)
  {
    hide Decode, PolyFrom, ExpandHRP, Chars, Lower, Payload, CharOf;
    var d, e := Decode(s), Decode(t);
    PayloadOf(s);
    PayloadOf(t);
    LowerLength(s);
    LowerLength(t);
    var hrp, v, w := d.hrp, Payload(d), Payload(e);
    var base := |hrp| + 1;
    var p', q', r' := if p < base then 0 else p - base, if q < base then 0 else q - base, if r < base then 0 else r - base;
    forall i | 0 <= i < |v| && i != p' && i != q' && i != r' ensures v[i] == w[i] {
      CharAt(hrp, v, i);
      CharAt(hrp, w, i);
      assert Lower(s)[base + i] == Lower(t)[base + i];
      SymbolsAgree(v, w, i);
    }
    if v != w { PayloadsDiffer(hrp, v, w, p', q', r'); }
  }

  lemma PayloadsDiffer(hrp: string, v: seq<Symbol>, w: seq<Symbol>, p: nat, q: nat, r: nat)
    requires Bytes(hrp) && |hrp| + 1 + |v| <= 90 && 6 <= |v| && AgreeBut(v, w, p, q, r) && v != w
    requires p < |v| && q < |v| && r < |v|
    ensures PolyMod(ExpandHRP(hrp) + v) != PolyMod(ExpandHRP(hrp) + w)
  {
    hide PolyFrom;
    var x := ExpandHRP(hrp);
    var i :| 0 <= i < |v| && v[i] != w[i];
    assert (x + v)[|x| + i] != (x + w)[|x| + i];
    ThreeWrong(x + v, x + w, |x| + p, |x| + q, |x| + r);
  }
}
