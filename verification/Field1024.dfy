/** The field with 1024 elements: polynomials in `a` over the field with two, modulo a^10 + a^8 + a^5 + a + 1. The element
    `a` is written 2, and its powers are all the elements but 0. */
module Field1024 {
  import opened Powers

  type Elem = bv10

  function Add(x: Elem, y: Elem): Elem {
    x ^ y
  }

  /** Multiplication by `a`. */
  function Shift(b: Elem): Elem {
    var top := b >> 9;
    (b << 1) ^ (top << 8) ^ (top << 5) ^ (top << 1) ^ top
  }

  function Sel(on: bool, b: Elem): Elem {
    if on then b else 0
  }

  /** The element `a` to the power `i`, for i below 10. */
  function Unit(i: nat): Elem
    requires i < 10
  {
    match i
    case 0 => 1
    case 1 => 2
    case 2 => 4
    case 3 => 8
    case 4 => 16
    case 5 => 32
    case 6 => 64
    case 7 => 128
    case 8 => 256
    case _ => 512
  }

  predicate Contains(a: Elem, u: Elem) {
    a & u != 0
  }

  predicate Has(a: Elem, i: nat)
    requires i < 10
  {
    Contains(a, Unit(i))
  }

  /** Multiplication by `a` to the power `n`. */
  function Shifts(n: nat, b: Elem): Elem {
    if n == 0 then b else Shift(Shifts(n - 1, b))
  }

  /** The product, as far as the lowest `n` coefficients of the first factor go. */
  function MulBelow(a: Elem, b: Elem, n: nat): Elem
    requires n <= 10
  {
    if n == 0 then 0 else Add(MulBelow(a, b, n - 1), Sel(Has(a, n - 1), Shifts(n - 1, b)))
  }

  function Mul(a: Elem, b: Elem): Elem {
    MulBelow(a, b, 10)
  }

  // ---------------------------------------------------------------- addition

  lemma AddSelf(x: Elem)
    ensures Add(x, 0) == x && Add(0, x) == x && Add(x, x) == 0
  {
  }

  lemma AddCancel(x: Elem, y: Elem)
    ensures Add(x, y) == 0 <==> x == y
  {
  }

  lemma AddAssoc(x: Elem, y: Elem, z: Elem)
    ensures Add(Add(x, y), z) == Add(x, Add(y, z)) && Add(x, y) == Add(y, x)
  {
  }

  lemma AddSwap(p: Elem, q: Elem, x: Elem, y: Elem)
    ensures Add(Add(p, q), Add(x, y)) == Add(Add(p, x), Add(q, y))
  {
    hide Add;
    AddAssoc(p, q, Add(x, y));
    AddAssoc(q, x, y);
    AddAssoc(x, q, y);
    AddAssoc(p, x, Add(q, y));
  }

  // ---------------------------------------------------------------- multiplication is linear

  lemma ShiftLinear(x: Elem, y: Elem)
    ensures Shift(Add(x, y)) == Add(Shift(x), Shift(y)) && Shift(0) == 0
  {
  }

  lemma {:induction false} ShiftsLinear(n: nat, x: Elem, y: Elem)
    ensures Shifts(n, Add(x, y)) == Add(Shifts(n, x), Shifts(n, y))
  {
    hide Shift, Add;
    if n > 0 {
      ShiftsLinear(n - 1, x, y);
      ShiftLinear(Shifts(n - 1, x), Shifts(n - 1, y));
    }
  }

  lemma {:induction false} ShiftsAdd(m: nat, n: nat, b: Elem)
    ensures Shifts(m, Shifts(n, b)) == Shifts(m + n, b)
  {
    hide Shift;
    if m > 0 { ShiftsAdd(m - 1, n, b); }
  }

  lemma SelLinear(on: bool, x: Elem, y: Elem)
    ensures Sel(on, Add(x, y)) == Add(Sel(on, x), Sel(on, y))
    ensures Shift(Sel(on, x)) == Sel(on, Shift(x))
  {
    hide Shift, Add;
    AddSelf(0);
    ShiftLinear(0, 0);
  }

  lemma {:induction false} MulBelowLinear(a: Elem, x: Elem, y: Elem, n: nat)
    requires n <= 10
    ensures MulBelow(a, Add(x, y), n) == Add(MulBelow(a, x, n), MulBelow(a, y, n))
  {
    hide Has, Shifts, Sel, Add;
    if n == 0 {
      AddSelf(0);
    } else {
      MulBelowLinear(a, x, y, n - 1);
      ShiftsLinear(n - 1, x, y);
      var on, u, v := Has(a, n - 1), Shifts(n - 1, x), Shifts(n - 1, y);
      SelLinear(on, u, v);
      AddSwap(MulBelow(a, x, n - 1), MulBelow(a, y, n - 1), Sel(on, u), Sel(on, v));
    }
  }

  /** The distributive law. */
  lemma MulLinear(a: Elem, x: Elem, y: Elem)
    ensures Mul(a, Add(x, y)) == Add(Mul(a, x), Mul(a, y)) && Mul(a, 0) == 0
  {
    hide MulBelow, Add;
    MulBelowLinear(a, x, y, 10);
    MulBelowLinear(a, 0, 0, 10);
    AddSelf(0);
    AddSelf(Mul(a, 0));
  }

  lemma {:induction false} MulBelowShift(a: Elem, b: Elem, n: nat)
    requires n <= 10
    ensures MulBelow(a, Shift(b), n) == Shift(MulBelow(a, b, n))
  {
    hide Has, Shift, Sel, Add, Shifts;
    if n == 0 {
      ShiftLinear(0, 0);
    } else {
      MulBelowShift(a, b, n - 1);
      ShiftInside(n - 1, b);
      SelLinear(Has(a, n - 1), Shifts(n - 1, b), 0);
      ShiftLinear(MulBelow(a, b, n - 1), Sel(Has(a, n - 1), Shifts(n - 1, b)));
    }
  }

  lemma {:induction false} ShiftInside(n: nat, b: Elem)
    ensures Shifts(n, Shift(b)) == Shift(Shifts(n, b))
  {
    hide Shift;
    if n > 0 { ShiftInside(n - 1, b); }
  }

  lemma {:induction false} MulShifts(a: Elem, n: nat, b: Elem)
    ensures Mul(a, Shifts(n, b)) == Shifts(n, Mul(a, b))
  {
    hide Shift, MulBelow;
    if n > 0 {
      MulShifts(a, n - 1, b);
      MulBelowShift(a, Shifts(n - 1, b), 10);
    }
  }

  // ---------------------------------------------------------------- it is commutative and associative

  /** The element with the lowest `n` coefficients of `a`. */
  function Below(a: Elem, n: nat): Elem
    requires n <= 10
  {
    if n == 0 then 0 else Add(Below(a, n - 1), Sel(Has(a, n - 1), Unit(n - 1)))
  }

  lemma {:induction false} UnitsAreShifts(i: nat)
    requires i < 10
    ensures Shifts(i, 1) == Unit(i)
  {
    if i > 0 { UnitsAreShifts(i - 1); }
  }

  /** The lowest `n` coefficients. */
  function Mask(n: nat): Elem
    requires n <= 10
  {
    match n
    case 0 => 0
    case 1 => 1
    case 2 => 3
    case 3 => 7
    case 4 => 15
    case 5 => 31
    case 6 => 63
    case 7 => 127
    case 8 => 255
    case 9 => 511
    case _ => 1023
  }

  lemma Masked(a: Elem, low: Elem, u: Elem)
    requires low & u == 0
    ensures (a & low) ^ (a & u) == a & (low | u)
  {
  }

  lemma MaskStep(n: nat)
    requires n < 10
    ensures Mask(n) & Unit(n) == 0 && Mask(n) | Unit(n) == Mask(n + 1)
  {
  }

  lemma SelBit(a: Elem, i: nat)
    requires i < 10
    ensures Sel(Has(a, i), Unit(i)) == a & Unit(i)
  {
  }

  lemma {:induction false} BelowIsMask(a: Elem, n: nat)
    requires n <= 10
    ensures Below(a, n) == a & Mask(n)
  {
    hide Mask, Unit, Sel, Has;
    if n == 0 {
      NoMask(a);
    } else {
      BelowIsMask(a, n - 1);
      SelBit(a, n - 1);
      MaskStep(n - 1);
      Masked(a, Mask(n - 1), Unit(n - 1));
    }
  }

  lemma NoMask(a: Elem)
    ensures a & Mask(0) == 0 && a & Mask(10) == a
  {
  }

  lemma {:induction false} MulBelowOne(a: Elem, n: nat)
    requires n <= 10
    ensures MulBelow(a, 1, n) == Below(a, n)
  {
    hide Shifts, Has, Unit, Add, Sel;
    if n > 0 {
      MulBelowOne(a, n - 1);
      UnitsAreShifts(n - 1);
    }
  }

  lemma BelowAll(a: Elem)
    ensures Below(a, 10) == a
  {
    hide Below, Mask;
    BelowIsMask(a, 10);
    NoMask(a);
  }

  lemma MulOne(a: Elem)
    ensures Mul(a, 1) == a
  {
    hide MulBelow, Below;
    MulBelowOne(a, 10);
    BelowAll(a);
  }

  lemma {:induction false} MulBelowComm(a: Elem, b: Elem, n: nat)
    requires n <= 10
    ensures Mul(b, Below(a, n)) == MulBelow(a, b, n)
  {
    hide Has, Shifts, Mul, Unit, Add;
    if n == 0 {
      MulLinear(b, 0, 0);
    } else {
      MulBelowComm(a, b, n - 1);
      MulLinear(b, Below(a, n - 1), Sel(Has(a, n - 1), Unit(n - 1)));
      UnitsAreShifts(n - 1);
      MulShifts(b, n - 1, 1);
      MulOne(b);
    }
  }

  lemma MulComm(a: Elem, b: Elem)
    ensures Mul(a, b) == Mul(b, a)
  {
    hide MulBelow, Below;
    MulBelowComm(a, b, 10);
    BelowAll(a);
  }

  lemma {:induction false} MulBelowAssoc(a: Elem, b: Elem, c: Elem, n: nat)
    requires n <= 10
    ensures Mul(c, MulBelow(a, b, n)) == MulBelow(a, Mul(c, b), n)
  {
    hide Has, Shifts, Mul, Add;
    if n == 0 {
      MulLinear(c, 0, 0);
    } else {
      MulBelowAssoc(a, b, c, n - 1);
      MulLinear(c, MulBelow(a, b, n - 1), Sel(Has(a, n - 1), Shifts(n - 1, b)));
      MulShifts(c, n - 1, b);
    }
  }

  lemma MulAssociates(a: Elem, b: Elem, c: Elem)
    ensures Mul(Mul(a, b), c) == Mul(a, Mul(b, c))
  {
    hide MulBelow;
    MulBelowAssoc(a, b, c, 10);
    MulComm(c, Mul(a, b));
    MulComm(c, b);
  }

  // ---------------------------------------------------------------- computing

  /** The product, written out. */
  function Product(a: Elem, b: Elem): Elem {
    var b1 := Shift(b);
    var b2 := Shift(b1);
    var b3 := Shift(b2);
    var b4 := Shift(b3);
    var b5 := Shift(b4);
    var b6 := Shift(b5);
    var b7 := Shift(b6);
    var b8 := Shift(b7);
    var b9 := Shift(b8);
    var s0 := Add(0, Sel(Contains(a, 1), b));
    var s1 := Add(s0, Sel(Contains(a, 2), b1));
    var s2 := Add(s1, Sel(Contains(a, 4), b2));
    var s3 := Add(s2, Sel(Contains(a, 8), b3));
    var s4 := Add(s3, Sel(Contains(a, 16), b4));
    var s5 := Add(s4, Sel(Contains(a, 32), b5));
    var s6 := Add(s5, Sel(Contains(a, 64), b6));
    var s7 := Add(s6, Sel(Contains(a, 128), b7));
    var s8 := Add(s7, Sel(Contains(a, 256), b8));
    Add(s8, Sel(Contains(a, 512), b9))
  }

  lemma NextTerm(a: Elem, b: Elem, n: nat)
    requires n < 10
    ensures MulBelow(a, b, n + 1) == Add(MulBelow(a, b, n), Sel(Contains(a, Unit(n)), Shifts(n, b)))
    ensures MulBelow(a, b, 0) == 0 && Shifts(0, b) == b && Shifts(n + 1, b) == Shift(Shifts(n, b))
  {
  }

  lemma ProductIs(a: Elem, b: Elem)
    ensures Product(a, b) == Mul(a, b)
  {
    hide Shift, Sel, Add, Contains, MulBelow, Shifts;
    NextTerm(a, b, 0);
    NextTerm(a, b, 1);
    NextTerm(a, b, 2);
    NextTerm(a, b, 3);
    NextTerm(a, b, 4);
    NextTerm(a, b, 5);
    NextTerm(a, b, 6);
    NextTerm(a, b, 7);
    NextTerm(a, b, 8);
    NextTerm(a, b, 9);
  }

  // ---------------------------------------------------------------- powers of `a`

  function Power(n: nat): Elem {
    Shifts(n, 1)
  }

  /** Multiplying by a power of `a`. */
  lemma ShiftsIsMul(n: nat, b: Elem)
    ensures Shifts(n, b) == Mul(Power(n), b) == Product(Power(n), b)
  {
    hide Shifts, Mul, Product;
    MulShifts(b, n, 1);
    MulOne(b);
    MulComm(Power(n), b);
    ProductIs(Power(n), b);
  }

  lemma PowerSum(m: nat, n: nat)
    ensures Power(m + n) == Product(Power(m), Power(n))
  {
    hide Shifts, Mul, Product;
    ShiftsAdd(m, n, 1);
    ShiftsIsMul(m, Power(n));
  }

  lemma PowerProducts()
    ensures Product(0x100, 0x100) == 0x119 && Product(0x119, 0x100) == 0x3f0
    ensures Product(0x3f0, 0x80) == 0x2c && Product(0x3f0, 0x200) == 0xb0
    ensures Product(0x2c, 0x2c) == 0x173 && Product(0x173, 0x2c) == 0x36a
    ensures Product(0x173, 0x173) == 0x90 && Product(0x90, 0x90) == 0x29f && Product(0x29f, 0x36a) == 0x36
    ensures Product(0x36, 0x36) == 0x37 && Product(0x37, 0x36) == 1
  {
  }

  lemma SomePowers()
    ensures Power(24) == 0x3f0 && Power(33) == 0xb0 && Power(93) == 0x36a && Power(341) == 0x36 && Power(1023) == 1
  {
    hide Shifts, Power, Product;
    PowerProducts();
    PowerUnits();
    PowerSum(8, 8);
    PowerSum(16, 8);
    PowerSum(24, 7);
    PowerSum(24, 9);
    PowerSum(31, 31);
    PowerSum(62, 31);
    PowerSum(62, 62);
    PowerSum(124, 124);
    PowerSum(248, 93);
    PowerSum(341, 341);
    PowerSum(682, 341);
  }

  lemma PowerUnits()
    ensures Power(7) == 0x80 && Power(8) == 0x100 && Power(9) == 0x200
  {
    hide Shifts;
    UnitsAreShifts(7);
    UnitsAreShifts(8);
    UnitsAreShifts(9);
  }

  // ---------------------------------------------------------------- no element but 0 comes back early

  /** If `inverse` is the inverse of a^n + 1, multiplying by a^n moves every element but 0. */
  lemma Moved(n: nat, inverse: Elem, z: Elem)
    requires Mul(inverse, Add(Power(n), 1)) == 1 && Shifts(n, z) == z
    ensures z == 0
  {
    hide Shifts, Mul, Add;
    var u := Add(Power(n), 1);
    ShiftsIsMul(n, z);
    MulLinear(z, Power(n), 1);
    MulComm(z, Power(n));
    MulOne(z);
    AddSelf(z);
    MulComm(z, u);
    MulAssociates(inverse, u, z);
    MulComm(1, z);
    MulLinear(inverse, 0, 0);
  }

  lemma Inverses()
    ensures Product(0xbe, Add(0xb0, 1)) == 1 && Product(0xd3, Add(0x36a, 1)) == 1 && Product(0x36, Add(0x36, 1)) == 1
  {
  }

  lemma MovedByThree(z: Elem)
    requires Shifts(33, z) == z || Shifts(93, z) == z || Shifts(341, z) == z
    ensures z == 0
  {
    hide Shifts, Power, Mul, Product, Add;
    SomePowers();
    Inverses();
    ProductIs(0xbe, Add(0xb0, 1));
    ProductIs(0xd3, Add(0x36a, 1));
    ProductIs(0x36, Add(0x36, 1));
    if Shifts(33, z) == z { Moved(33, 0xbe, z); }
    if Shifts(93, z) == z { Moved(93, 0xd3, z); }
    if Shifts(341, z) == z { Moved(341, 0x36, z); }
  }

  lemma FullCircle(z: Elem)
    ensures Shifts(1023, z) == z
  {
    hide Shifts, Power, Mul, Product;
    SomePowers();
    ShiftsIsMul(1023, z);
    MulComm(1, z);
    MulOne(z);
  }

  lemma {:induction false} Repeated(n: nat, k: nat, z: Elem)
    requires Shifts(n, z) == z
    ensures Shifts(n * k, z) == z
  {
    hide Shift;
    if k > 0 {
      Repeated(n, k - 1, z);
      ShiftsAdd(n, n * (k - 1), z);
      assert n + n * (k - 1) == n * k;
    }
  }

  /** Euclid's algorithm: what comes back after i * m and after j * m steps comes back after gcd(i, j) * m. */
  lemma {:induction false} CommonReturn(m: nat, i: nat, j: nat, z: Elem) returns (g: nat)
    requires i > 0 && Shifts(m * i, z) == z && Shifts(m * j, z) == z
    ensures g > 0 && i % g == 0 && j % g == 0 && Shifts(m * g, z) == z
    decreases i
  {
    hide Shifts;
    var q, r := j / i, j % i;
    assert j == i * q + r;
    if r == 0 {
      g := i;
    } else {
      Repeated(m * i, q, z);
      ShiftsAdd(m * r, m * i * q, z);
      assert m * r + m * i * q == m * j by { assert m * (i * q + r) == m * i * q + m * r; }
      g := CommonReturn(m, r, i, z);
      DividesSum(i, q, r, g);
    }
  }

  lemma DividesSum(i: nat, q: nat, r: nat, g: nat)
    requires g > 0 && i % g == 0 && r % g == 0
    ensures (i * q + r) % g == 0
  {
    var x, y := i / g, r / g;
    assert i * q + r == (x * q + y) * g by { assert i == x * g && r == y * g; }
    ModUnique(i * q + r, g, x * q + y, 0);
  }

  /** 3, 11 and 31 have no divisors. */
  lemma Primes(p: nat, g: nat)
    requires (p == 3 || p == 11 || p == 31) && g > 0 && p % g == 0
    ensures g == 1 || g == p
  {
    var q := p / g;
    assert p == g * q;
    if g >= 6 {
      if q >= 6 { MulMono(6, g, q); }
    }
  }

  lemma PrimeReturn(p: nat, m: nat, d: nat, z: Elem)
    requires (p == 3 || p == 11 || p == 31) && m * p == 1023 && d % p != 0 && Shifts(d, z) == z
    ensures Shifts(m, z) == z
  {
    hide Shifts;
    FullCircle(z);
    Repeated(d, m, z);
    assert d * m == m * d;
    var g := CommonReturn(m, p, d, z);
    Primes(p, g);
  }

  /** Multiplying by a^d moves every element but 0, for every d from 1 to 1022. */
  lemma NoReturn(d: nat, z: Elem)
    requires 0 < d < 1023 && Shifts(d, z) == z
    ensures z == 0
  {
    hide Shifts;
    if d % 31 != 0 {
      PrimeReturn(31, 33, d, z);
    } else if d % 11 != 0 {
      PrimeReturn(11, 93, d, z);
    } else {
      assert d % 3 != 0;
      PrimeReturn(3, 341, d, z);
    }
    MovedByThree(z);
  }

  /** Multiplying by a power of `a` loses nothing. */
  lemma ShiftsCancel(n: nat, x: Elem, y: Elem)
    requires Shifts(n, x) == Shifts(n, y)
    ensures x == y
  {
    hide Shifts;
    ShiftsAdd(1022 * n, n, x);
    ShiftsAdd(1022 * n, n, y);
    FullCircle(x);
    FullCircle(y);
    Repeated(1023, n, x);
    Repeated(1023, n, y);
  }
}
