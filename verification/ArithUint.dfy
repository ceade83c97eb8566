/** Fixed-width unsigned integers: the limb loops, each proved against the integers modulo 2^BITS. */
module ArithUint {
  import opened Powers
  import opened Limbs
  import opened LimbShifts
  import opened LimbDivision

  // ---------------------------------------------------------------- carries

  /** One limb of a carry loop: `d` comes in, `digit` stays and `next` is carried on. */
  lemma CarryStep(v: nat, carry: nat, p: nat, x: nat, d: nat, digit: nat, next: nat)
    requires v + carry * p == x && carry + d == next * BASE + digit
    ensures v + digit * p + next * (BASE * p) == x + d * p
  {
    assert (next * BASE + digit) * p == next * (BASE * p) + digit * p by { MulAssoc(next, BASE, p); }
    assert (carry + d) * p == carry * p + d * p;
  }

  lemma CarryEnd(s: seq<Limb>, carry: nat, x: nat)
    requires Val(s) + carry * Pow(BASE, |s|) == x
    ensures Val(s) == x % Pow(BASE, |s|)
  {
    hide Val;
    ValBound(s);
    ModUnique(x, Pow(BASE, |s|), carry, Val(s));
  }

  lemma AddStep(v: nat, carry: nat, p: nat, xs: nat, ys: nat, x: nat, y: nat, digit: nat, next: nat)
    requires v + carry * p == xs + ys && carry + x + y == next * BASE + digit
    ensures v + digit * p + next * (BASE * p) == (xs + x * p) + (ys + y * p)
  {
    CarryStep(v, carry, p, xs + ys, x + y, digit, next);
    assert (x + y) * p == x * p + y * p;
  }

  lemma AddLimb(s: seq<Limb>, x: seq<Limb>, y: seq<Limb>, carry: nat, digit: Limb, next: nat)
    requires |s| < |x| == |y|
    requires Val(s) + carry * Pow(BASE, |s|) == Val(x[..|s|]) + Val(y[..|s|])
    requires carry + x[|s|] + y[|s|] == next * BASE + digit
    ensures Val(s + [digit]) + next * Pow(BASE, |s| + 1) == Val(x[..|s| + 1]) + Val(y[..|s| + 1])
  {
    hide Pow, Val;
    var i := |s|;
    AddStep(Val(s), carry, Pow(BASE, i), Val(x[..i]), Val(y[..i]), x[i], y[i], digit, next);
    ValPush(s, digit);
    ValNext(x, i);
    ValNext(y, i);
    PowStep(BASE, i);
  }

  /** The limbs `s` with the carry are `b` times as many limbs of `x`. */
  ghost predicate Scaled(s: seq<Limb>, carry: nat, x: seq<Limb>, b: nat) {
    |s| <= |x| && Val(s) + carry * Pow(BASE, |s|) == b * Val(x[..|s|])
  }

  lemma ScaleLimb(s: seq<Limb>, carry: nat, x: seq<Limb>, b: Limb, n: nat)
    requires Scaled(s, carry, x, b) && |s| < |x| && carry < BASE && n == carry + b * x[|s|]
    ensures n < BASE * BASE && n / BASE < BASE
    ensures Scaled(s + [n % BASE], n / BASE, x, b)
  {
    hide Pow, Val;
    var i := |s|;
    ProductFits(carry, 0, b, x[i]);
    ScaleStep(Val(s), carry, Pow(BASE, i), Val(x[..i]), x[i], b, n % BASE, n / BASE);
    ValPush(s, n % BASE);
    ValNext(x, i);
    PowStep(BASE, i);
  }

  lemma ScaleStart(x: seq<Limb>, b: nat)
    ensures Scaled([], 0, x, b)
  {
    ValWhole(x);
  }

  lemma ScaleEnd(s: seq<Limb>, carry: nat, x: seq<Limb>, b: nat)
    requires Scaled(s, carry, x, b) && |s| == |x|
    ensures Val(s) == Val(x) * b % Pow(BASE, |x|)
  {
    hide Pow, Val;
    ValWhole(x);
    CarryEnd(s, carry, b * Val(x));
  }

  lemma ScaleStep(v: nat, carry: nat, p: nat, xs: nat, x: nat, b: nat, digit: nat, next: nat)
    requires v + carry * p == b * xs && carry + b * x == next * BASE + digit
    ensures v + digit * p + next * (BASE * p) == b * (xs + x * p)
  {
    CarryStep(v, carry, p, b * xs, b * x, digit, next);
    Distribute(b, xs, x, p);
    assert b * x * p == x * (b * p) by { MulAssoc(b, x, p); MulAssoc(x, b, p); }
  }

  /** Two limbs and a carry fit in 64 bits. */
  lemma ProductFits(carry: nat, x: nat, a: nat, b: nat)
    requires carry < BASE && x < BASE && a < BASE && b < BASE
    ensures carry + x + a * b < BASE * BASE
    ensures (carry + x + a * b) / BASE < BASE
  {
    MulMono(a, BASE - 1, b);
    assert (BASE - 1) * b <= (BASE - 1) * (BASE - 1);
  }

  // ---------------------------------------------------------------- schoolbook multiplication

  /** A row of the product: the limbs `s` with the carry are those of `a` plus `d` times `i` limbs of `y`, shifted by `j`. */
  ghost predicate Row(s: seq<Limb>, carry: nat, a: seq<Limb>, d: nat, j: nat, y: seq<Limb>, i: nat) {
    && |s| == i + j <= |a| && i <= |y|
    && Val(s) + carry * Pow(BASE, i + j) == Val(a[..i + j]) + d * (Pow(BASE, j) * Val(y[..i]))
  }

  lemma RowStart(a: seq<Limb>, d: nat, j: nat, y: seq<Limb>)
    requires j <= |a|
    ensures Row(a[..j], 0, a, d, j, y, 0)
  {
    hide Pow;
    ValWhole(y);
  }

  lemma RowLimb(s: seq<Limb>, carry: nat, a: seq<Limb>, d: Limb, j: nat, y: seq<Limb>, i: nat, n: nat)
    requires Row(s, carry, a, d, j, y, i) && i + j < |a| == |y| && carry < BASE && n == carry + a[i + j] + d * y[i]
    ensures n < BASE * BASE && n / BASE < BASE
    ensures Row(s + [n % BASE], n / BASE, a, d, j, y, i + 1)
  {
    hide Pow, Val;
    var k, p := i + j, Pow(BASE, i + j);
    ProductFits(carry, a[k], d, y[i]);
    CarryStep(Val(s), carry, p, Val(a[..k]) + d * (Pow(BASE, j) * Val(y[..i])), a[k] + d * y[i], n % BASE, n / BASE);
    ValPush(s, n % BASE);
    ValNext(a, k);
    ValNext(y, i);
    PowStep(BASE, k);
    PowAdd(BASE, j, i);
    RowProduct(a[k], d, y[i], p, Pow(BASE, j), Pow(BASE, i), Val(y[..i]));
  }

  lemma RowProduct(a: nat, d: nat, y: nat, p: nat, pj: nat, pi: nat, v: nat)
    requires p == pj * pi
    ensures (a + d * y) * p + d * (pj * v) == a * p + d * (pj * (v + y * pi))
  {
    Distribute(pj, v, y, pi);
    assert d * (pj * v + y * p) == d * (pj * v) + d * (y * p);
    MulAssoc(d, y, p);
    assert (a + d * y) * p == a * p + d * y * p;
  }

  ghost predicate Exceeds(x: nat, v: nat, c: nat, m: nat) {
    v + c * m == x
  }

  /** The limbs are the product of `j` limbs of `x` with `y`, up to a multiple of the modulus. */
  ghost predicate Product(s: seq<Limb>, x: seq<Limb>, y: seq<Limb>, j: nat) {
    |s| == |x| == |y| && j <= |x| && exists c: nat :: Exceeds(Val(x[..j]) * Val(y), Val(s), c, Pow(BASE, |s|))
  }

  lemma ProductStart(s: seq<Limb>, x: seq<Limb>, y: seq<Limb>)
    requires |s| == |x| == |y| && Val(s) == 0
    ensures Product(s, x, y, 0)
  {
    ValWhole(x);
    assert Exceeds(Val(x[..0]) * Val(y), Val(s), 0, Pow(BASE, |s|));
  }

  lemma RowEnd(s: seq<Limb>, carry: nat, a: seq<Limb>, x: seq<Limb>, y: seq<Limb>, j: nat)
    requires Product(a, x, y, j) && j < |x| && Row(s, carry, a, x[j], j, y, |x| - j)
    ensures Product(s, x, y, j + 1)
  {
    hide Pow, Val, Exceeds, Row;
    var c: nat :| Exceeds(Val(x[..j]) * Val(y), Val(a), c, Pow(BASE, |x|));
    var c' := RowEndBy(s, carry, a, x, y, j, c);
  }

  lemma RowEndBy(s: seq<Limb>, carry: nat, a: seq<Limb>, x: seq<Limb>, y: seq<Limb>, j: nat, c: nat) returns (c': nat)
    requires |a| == |x| == |y| && j < |x| && Row(s, carry, a, x[j], j, y, |x| - j)
    requires Exceeds(Val(x[..j]) * Val(y), Val(a), c, Pow(BASE, |x|))
    ensures |s| == |x| && Exceeds(Val(x[..j + 1]) * Val(y), Val(s), c', Pow(BASE, |x|))
  {
    hide Pow, Val, Exceeds;
    var w := |x|;
    ValWhole(a);
    ValNext(x, j);
    ValSplit(y, w - j);
    PowAdd(BASE, j, w - j);
    RowSum(Val(s), carry, Val(a), c, Val(x[..j]), Val(x[..j + 1]), x[j], Pow(BASE, j), Pow(BASE, w - j), Pow(BASE, w),
           Val(y[..w - j]), Val(y[w - j..]), Val(y));
    c' := c + carry + x[j] * Val(y[w - j..]);
  }

  lemma RowSum(s: nat, carry: nat, a: nat, c: nat, x: nat, x': nat, d: nat, pj: nat, pi: nat, m: nat, low: nat, high: nat, y: nat)
    requires x' == x + d * pj && m == pj * pi && y == low + pi * high
    requires s + carry * m == a + d * (pj * low) && Exceeds(x * y, a, c, m)
    ensures Exceeds(x' * y, s, c + carry + d * high, m)
  {
    CutOff(d, pj, pi, low, high);
    MulSum(x, d * pj, y);
    MulAssoc(d, pj, y);
    MulSum(c + carry, d * high, m);
    MulSum(c, carry, m);
  }

  lemma MulSum(a: nat, b: nat, c: nat)
    ensures (a + b) * c == a * c + b * c
  {
  }

  /** The limbs that fall off the top contribute a multiple of the modulus. */
  lemma CutOff(d: nat, pj: nat, pi: nat, low: nat, high: nat)
    ensures d * (pj * (low + pi * high)) == d * (pj * low) + d * high * (pj * pi)
  {
    Distribute(pj, low, high, pi);
    assert d * (pj * low + high * (pj * pi)) == d * (pj * low) + d * (high * (pj * pi));
    MulAssoc(d, high, pj * pi);
  }

  lemma ProductEnd(s: seq<Limb>, x: seq<Limb>, y: seq<Limb>)
    requires Product(s, x, y, |x|)
    ensures Val(s) == Val(x) * Val(y) % Pow(BASE, |x|)
  {
    hide Pow, Val, Exceeds;
    ValWhole(x);
    var c: nat :| Exceeds(Val(x[..|x|]) * Val(y), Val(s), c, Pow(BASE, |s|));
    ExceedsMod(s, c, Val(x) * Val(y));
  }

  lemma ExceedsMod(s: seq<Limb>, c: nat, x: nat)
    requires Exceeds(x, Val(s), c, Pow(BASE, |s|))
    ensures Val(s) == x % Pow(BASE, |s|)
  {
    CarryEnd(s, c, x);
  }

  // ---------------------------------------------------------------- complement, steps

  lemma ComplementLimb(s: seq<Limb>, x: seq<Limb>)
    requires |s| < |x| && Val(s) + Val(x[..|s|]) == Pow(BASE, |s|) - 1
    ensures Val(s + [BASE - 1 - x[|s|]]) + Val(x[..|s| + 1]) == Pow(BASE, |s| + 1) - 1
  {
    hide Pow, Val;
    var i := |s|;
    var p := Pow(BASE, i);
    ValPush(s, BASE - 1 - x[i]);
    ValNext(x, i);
    PowStep(BASE, i);
    assert (BASE - 1 - x[i]) * p + x[i] * p == (BASE - 1) * p == BASE * p - p;
  }

  /** Wrapping a limb to zero is a carry to the next place. */
  lemma IncrementLimb(s: seq<Limb>, i: nat, total: nat)
    requires i < |s| && Val(s) + Pow(BASE, i) == total
    ensures s[i] < BASE - 1 ==> Val(s[i := s[i] + 1]) == total
    ensures s[i] == BASE - 1 ==> Val(s[i := 0]) + Pow(BASE, i + 1) == total
  {
    hide Val;
    if s[i] < BASE - 1 {
      ValUpdate(s, i, s[i] + 1);
    } else {
      ValUpdate(s, i, 0);
    }
  }

  lemma DecrementLimb(s: seq<Limb>, i: nat, total: int)
    requires i < |s| && Val(s) == total + Pow(BASE, i)
    ensures s[i] > 0 ==> Val(s[i := s[i] - 1]) == total
    ensures s[i] == 0 ==> Val(s[i := BASE - 1]) == total + Pow(BASE, i + 1)
  {
    hide Val;
    if s[i] > 0 {
      ValUpdate(s, i, s[i] - 1);
      assert (s[i] - 1 - s[i]) * Pow(BASE, i) == 0 - Pow(BASE, i);
    } else {
      ValUpdate(s, i, BASE - 1);
      assert (BASE - 1) * Pow(BASE, i) == BASE * Pow(BASE, i) - Pow(BASE, i);
    }
  }

  class BaseUint {
    const pn: array<Limb>

    ghost function Value(): nat
      reads pn
    {
      Val(pn[..])
    }

    ghost function Modulus(): nat {
      Pow(BASE, pn.Length)
    }

    constructor (width: nat)
      ensures pn.Length == width && fresh(pn) && Value() == 0
    {
      pn := new Limb[width](_ => 0);
      new;
      ValZero(pn[..]);
    }

    constructor Copy(b: BaseUint)
      ensures pn.Length == b.pn.Length && fresh(pn) && pn[..] == b.pn[..]
    {
      pn := new Limb[b.pn.Length](i requires 0 <= i < b.pn.Length reads b.pn => b.pn[i]);
    }

    /** Plain assignment, limb by limb. */
    method Assign(b: BaseUint)
      requires b.pn.Length == pn.Length
      modifies pn
      ensures pn[..] == old(b.pn[..])
    {
      for i := 0 to pn.Length
        invariant pn[..i] == old(b.pn[..i])
        invariant forall j | i <= j < pn.Length :: b.pn[j] == old(b.pn[j])
      {
        pn[i] := b.pn[i];
        assert pn[..i + 1] == pn[..i] + [pn[i]];
        assert old(b.pn[..i + 1]) == old(b.pn[..i]) + [old(b.pn[i])];
      }
      assert pn[..] == pn[..pn.Length] && old(b.pn[..]) == old(b.pn[..pn.Length]);
    }

    /** Assignment of a 64-bit number. */
    method AssignU64(b: nat)
      requires b < BASE * BASE && pn.Length >= 2
      modifies pn
      ensures Value() == b
      ensures pn[0] == b % BASE && pn[1] == b / BASE && forall i | 2 <= i < pn.Length :: pn[i] == 0
    {
      pn[0] := b % BASE;
      pn[1] := b / BASE;
      for i := 2 to pn.Length
        invariant pn[0] == b % BASE && pn[1] == b / BASE
        invariant forall j | 2 <= j < i :: pn[j] == 0
      {
        pn[i] := 0;
      }
      ValSplit(pn[..], 2);
      ValZero(pn[..][2..]);
      ValTwo(pn[..][..2]);
    }

    method AddAssign(b: BaseUint)
      requires b.pn.Length == pn.Length
      modifies pn
      ensures Value() == (old(Value()) + old(b.Value())) % Modulus()
    {
      hide Pow, Val;
      ghost var x, y := pn[..], b.pn[..];
      var carry: nat := 0;
      ValWhole(x);
      ValWhole(y);
      ValWhole(pn[..]);
      for i := 0 to pn.Length
        invariant carry <= 1
        invariant forall j | i <= j < pn.Length :: pn[j] == x[j] && b.pn[j] == y[j]
        invariant Val(pn[..i]) + carry * Pow(BASE, i) == Val(x[..i]) + Val(y[..i])
      {
        ghost var before := pn[..i];
        var n := carry + pn[i] + b.pn[i];
        AddLimb(before, x, y, carry, n % BASE, n / BASE);
        pn[i] := n % BASE;
        assert pn[..i + 1] == before + [n % BASE];
        carry := n / BASE;
      }
      assert pn[..] == pn[..pn.Length];
      CarryEnd(pn[..], carry, Val(x) + Val(y));
    }

    method MulAssignU32(b32: Limb)
      modifies pn
      ensures Value() == old(Value()) * b32 % Modulus()
    {
      hide Pow, Val, Scaled;
      ghost var x := pn[..];
      var carry: nat := 0;
      ScaleStart(x, b32);
      assert pn[..0] == [];
      for i := 0 to pn.Length
        invariant carry < BASE
        invariant forall j | i <= j < pn.Length :: pn[j] == x[j]
        invariant Scaled(pn[..i], carry, x, b32)
      {
        ghost var before := pn[..i];
        var n := carry + b32 * pn[i];
        ScaleLimb(before, carry, x, b32, n);
        pn[i] := n % BASE;
        assert pn[..i + 1] == before + [n % BASE];
        carry := n / BASE;
      }
      assert pn[..] == pn[..pn.Length];
      ScaleEnd(pn[..], carry, x, b32);
    }

    /** One pass of the inner loop: `a` gains `d` times `b`, shifted by `j` limbs. */
    method AddRow(a: array<Limb>, d: Limb, j: nat, b: BaseUint) returns (carry: nat)
      requires a.Length == b.pn.Length && j < a.Length && a != b.pn
      modifies a
      ensures Row(a[..], carry, old(a[..]), d, j, b.pn[..], a.Length - j)
    {
      hide Row;
      ghost var before := a[..];
      carry := 0;
      RowStart(before, d, j, b.pn[..]);
      for i := 0 to a.Length - j
        invariant carry < BASE
        invariant forall k | i + j <= k < a.Length :: a[k] == before[k]
        invariant Row(a[..i + j], carry, before, d, j, b.pn[..], i)
      {
        ghost var s := a[..i + j];
        var n := carry + a[i + j] + d * b.pn[i];
        RowLimb(s, carry, before, d, j, b.pn[..], i, n);
        a[i + j] := n % BASE;
        assert a[..i + j + 1] == s + [n % BASE];
        carry := n / BASE;
      }
      assert a[..] == a[..a.Length];
    }

    method MulAssign(b: BaseUint)
      requires b.pn.Length == pn.Length
      modifies pn
      ensures Value() == old(Value()) * old(b.Value()) % Modulus()
    {
      hide Row, Product, Val;
      ghost var x, y := pn[..], b.pn[..];
      var a := new BaseUint(pn.Length);
      ProductStart(a.pn[..], x, y);
      for j := 0 to pn.Length
        invariant pn[..] == x && b.pn[..] == y
        invariant Product(a.pn[..], x, y, j)
      {
        ghost var before := a.pn[..];
        var carry := AddRow(a.pn, pn[j], j, b);
        RowEnd(a.pn[..], carry, before, x, y, j);
      }
      ProductEnd(a.pn[..], x, y);
      Assign(a);
    }

    method Complement() returns (ret: BaseUint)
      ensures fresh(ret) && fresh(ret.pn) && ret.pn.Length == pn.Length
      ensures ret.Value() == Modulus() - 1 - Value()
    {
      hide Pow, Val;
      ret := new BaseUint(pn.Length);
      ghost var x := pn[..];
      ValWhole(x);
      PowZero(BASE);
      NoLimbs();
      assert ret.pn[..0] == [];
      for i := 0 to pn.Length
        invariant pn[..] == x
        invariant Val(ret.pn[..i]) + Val(x[..i]) == Pow(BASE, i) - 1
      {
        ghost var s := ret.pn[..i];
        ComplementLimb(s, x);
        ret.pn[i] := BASE - 1 - pn[i];
        assert ret.pn[..i + 1] == s + [BASE - 1 - x[i]];
      }
      assert ret.pn[..] == ret.pn[..pn.Length];
    }

    method Increment()
      modifies pn
      ensures Value() == (old(Value()) + 1) % Modulus()
    {
      hide Pow, Val;
      ghost var total := Value() + 1;
      PowZero(BASE);
      var i := 0;
      while i < pn.Length
        invariant i <= pn.Length && Val(pn[..]) + Pow(BASE, i) == total
      {
        ghost var s := pn[..];
        IncrementLimb(s, i, total);
        var x := (pn[i] + 1) % BASE;
        pn[i] := x;
        assert pn[..] == s[i := x];
        if x != 0 {
          CarryEnd(pn[..], 0, total);
          return;
        }
        i := i + 1;
      }
      CarryEnd(pn[..], 1, total);
    }

    method Decrement()
      modifies pn
      ensures Value() == (old(Value()) - 1) % Modulus()
    {
      hide Pow, Val;
      ghost var total := Value() - 1;
      PowZero(BASE);
      var i := 0;
      while i < pn.Length
        invariant i <= pn.Length && Val(pn[..]) == total + Pow(BASE, i)
      {
        ghost var s := pn[..];
        DecrementLimb(s, i, total);
        var x := if pn[i] == 0 then BASE - 1 else pn[i] - 1;
        pn[i] := x;
        assert pn[..] == s[i := x];
        if x != BASE - 1 {
          ValBound(pn[..]);
          ModUnique(total, Modulus(), 0, total);
          return;
        }
        i := i + 1;
      }
      ValBound(pn[..]);
      ModUnique(total, Modulus(), -1, Val(pn[..]));
    }

    method Negate() returns (ret: BaseUint)
      ensures fresh(ret) && fresh(ret.pn) && ret.pn.Length == pn.Length
      ensures ret.Value() == (Modulus() - Value()) % Modulus()
    {
      hide Pow, Val;
      ret := Complement();
      ret.Increment();
    }

    method SubAssign(b: BaseUint)
      requires b.pn.Length == pn.Length
      modifies pn
      ensures Value() == (old(Value()) - old(b.Value())) % Modulus()
    {
      hide Pow, Val;
      ghost var x, y, m := Value(), b.Value(), Modulus();
      ValBound(b.pn[..]);
      var minus := b.Negate();
      AddAssign(minus);
      ModMinus(x, y, m);
    }

    method AddAssignU64(b64: nat)
      requires b64 < BASE * BASE && pn.Length >= 2
      modifies pn
      ensures Value() == (old(Value()) + b64) % Modulus()
    {
      hide Pow, Val;
      var b := new BaseUint(pn.Length);
      b.AssignU64(b64);
      AddAssign(b);
    }

    method SubAssignU64(b64: nat)
      requires b64 < BASE * BASE && pn.Length >= 2
      modifies pn
      ensures Value() == (old(Value()) - b64) % Modulus()
    {
      hide Pow, Val;
      var b := new BaseUint(pn.Length);
      b.AssignU64(b64);
      SubAssign(b);
    }

    method CompareTo(b: BaseUint) returns (r: int)
      requires b.pn.Length == pn.Length
      ensures r == if Value() < b.Value() then -1 else if Value() > b.Value() then 1 else 0
    {
      hide Val;
      var i := pn.Length;
      while i > 0
        invariant 0 <= i <= pn.Length
        invariant pn[i..] == b.pn[i..]
      {
        i := i - 1;
        if pn[i] < b.pn[i] {
          CompareAt(pn[..], b.pn[..], i);
          return -1;
        }
        if pn[i] > b.pn[i] {
          CompareAt(b.pn[..], pn[..], i);
          return 1;
        }
        assert pn[i..] == [pn[i]] + pn[i + 1..];
        assert b.pn[i..] == [b.pn[i]] + b.pn[i + 1..];
      }
      assert pn[..] == pn[0..] && b.pn[..] == b.pn[0..];
      return 0;
    }

    /** All limbs to zero. */
    method Clear()
      modifies pn
      ensures forall j | 0 <= j < pn.Length :: pn[j] == 0
    {
      for i := 0 to pn.Length
        invariant forall j | 0 <= j < i :: pn[j] == 0
      {
        pn[i] := 0;
      }
    }

    method ShiftLeft(shift: nat)
      modifies pn
      ensures Value() == old(Value()) * Pow2(shift) % Modulus()
    {
      hide Pow, Pow2, Val, Or, LeftHigh, LeftLow;
      var a := new BaseUint.Copy(this);
      ghost var x := pn[..];
      Clear();
      var k, s := shift / 32, shift % 32;
      for i := 0 to pn.Length
        invariant a.pn[..] == x
        invariant forall j | 0 <= j < pn.Length ::
          pn[j] == if j < i + k then ShiftedLeft(x, k, s, j)
                   else if j == i + k && i > 0 then LeftHigh(x[i - 1], s)
                   else 0
      {
        LeftNext(x, k, s, i);
        if i + k + 1 < pn.Length && s != 0 {
          pn[i + k + 1] := Or(pn[i + k + 1], LeftHigh(a.pn[i], s));
        }
        if i + k < pn.Length {
          pn[i + k] := Or(pn[i + k], LeftLow(a.pn[i], s));
        }
      }
      LeftValue(pn[..], x, k, s);
    }

    method ShiftRight(shift: nat)
      modifies pn
      ensures Value() == old(Value()) / Pow2(shift)
    {
      hide Pow, Pow2, Val, Or, RightHigh, RightLow;
      var a := new BaseUint.Copy(this);
      ghost var x := pn[..];
      Clear();
      var k, s := shift / 32, shift % 32;
      for i := 0 to pn.Length
        invariant a.pn[..] == x
        invariant forall j | 0 <= j < pn.Length ::
          pn[j] == if j + k + 1 < i then ShiftedRight(x, k, s, j)
                   else if j + k + 1 == i then RightLow(x[i - 1], s)
                   else 0
      {
        RightNext(x, k, s, i);
        if i - k - 1 >= 0 && s != 0 {
          pn[i - k - 1] := Or(pn[i - k - 1], RightHigh(a.pn[i], s));
        }
        if i - k >= 0 {
          pn[i - k] := Or(pn[i - k], RightLow(a.pn[i], s));
        }
      }
      RightValue(pn[..], x, k, s);
    }

    method Bits() returns (r: nat)
      ensures IsBitLength(Value(), r)
    {
      hide Pow2, Val, Bit;
      Pow2Of32();
      var pos := pn.Length;
      while pos > 0
        invariant 0 <= pos <= pn.Length
        invariant forall j | pos <= j < pn.Length :: pn[j] == 0
      {
        pos := pos - 1;
        if pn[pos] != 0 {
          var nbits := 31;
          while nbits > 0
            invariant 0 <= nbits <= 31 && pn[pos] < Pow2(nbits + 1)
          {
            TopBit(pn[pos], nbits);
            if Bit(pn[pos], nbits) {
              TopLimb(pn[..], pos, nbits);
              return 32 * pos + nbits + 1;
            }
            nbits := nbits - 1;
          }
          Pow2Zero();
          TopLimb(pn[..], pos, 0);
          return 32 * pos + 1;
        }
      }
      ValZero(pn[..]);
      Pow2Zero();
      return 0;
    }

    /** Division; the quotient is cleared before a zero divisor is refused. */
    method DivAssign(b: BaseUint) returns (ok: bool)
      requires b.pn.Length == pn.Length
      modifies pn
      ensures ok <==> old(b.Value()) != 0
      ensures Value() == if ok then old(Value()) / old(b.Value()) else 0
    {
      hide Pow, Pow2, Val, Or, Aligned, Dividing, IsBitLength;
      ghost var n, d := Value(), b.Value();
      var div := new BaseUint.Copy(b);
      var num := new BaseUint.Copy(this);
      Clear();
      ValZero(pn[..]);
      var numBits := num.Bits();
      var divBits := div.Bits();
      ZeroBits(d, divBits);
      if divBits == 0 {
        return false;
      }
      if divBits > numBits {
        BitLengthOrder(n, numBits, d, divBits);
        DivUnique(n, d, 0);
        return true;
      }
      var shift: int := numBits - divBits;
      DividingStart(n, d, numBits, divBits);
      BitsInside(n, numBits, num.pn[..]);
      AlignedFits(d * Pow2(shift), numBits, pn.Length);
      div.ShiftLeft(shift);
      NothingSet(pn[..], shift + 1);
      while shift >= 0
        invariant -1 <= shift < 32 * pn.Length && div.pn != pn && num.pn != pn && num.pn != div.pn
        invariant fresh(div.pn) && fresh(num.pn) && div.pn.Length == num.pn.Length == pn.Length
        invariant Dividing(n, d, Value(), num.Value(), shift)
        invariant Aligned(pn[..], shift + 1)
        invariant shift >= 0 ==> div.Value() == d * Pow2(shift)
      {
        DividingStep(n, d, Value(), num.Value(), shift);
        AlignedLess(pn[..], shift);
        var order := num.CompareTo(div);
        if order >= 0 {
          Reduce(num, div);
          SetQuotientBit(shift);
        }
        if shift > 0 { HalfShift(d, shift); }
        div.ShiftRight(1);
        shift := shift - 1;
      }
      DividingEnd(n, d, Value(), num.Value());
      ok := true;
    }

    /** A subtraction that does not wrap. */
    static method Reduce(num: BaseUint, div: BaseUint)
      requires num.pn.Length == div.pn.Length && num.pn != div.pn && div.Value() <= num.Value()
      modifies num.pn
      ensures num.Value() == old(num.Value()) - div.Value()
    {
      hide Pow, Val;
      ValBound(num.pn[..]);
      ModUnique(num.Value() - div.Value(), num.Modulus(), 0, num.Value() - div.Value());
      num.SubAssign(div);
    }

    method SetQuotientBit(shift: nat)
      requires shift / 32 < pn.Length && Aligned(pn[..], shift + 1)
      modifies pn
      ensures Value() == old(Value()) + Pow2(shift) && Aligned(pn[..], shift)
    {
      hide Pow, Pow2, Val, Or, Aligned;
      ghost var s := pn[..];
      SetBit(s, shift);
      pn[shift / 32] := Or(pn[shift / 32], Pow2(shift % 32));
      assert pn[..] == s[shift / 32 := s[shift / 32] + Pow2(shift % 32)];
    }
  }

  lemma ValTwo(s: seq<Limb>)
    requires |s| == 2
    ensures Val(s) == s[0] + s[1] * BASE
  {
    ValNext(s, 0);
    ValNext(s, 1);
    ValWhole(s);
    PowZero(BASE);
    PowStep(BASE, 0);
  }

  lemma ModMinus(x: nat, y: nat, m: nat)
    requires m > 0 && y < m
    ensures (x + (m - y) % m) % m == (x - y) % m
  {
    var q, r := (x - y) / m, (x - y) % m;
    assert x - y == q * m + r;
    if y == 0 {
      ModUnique(m, m, 1, 0);
    } else {
      ModUnique(m - y, m, 0, m - y);
      assert (q + 1) * m == q * m + m;
      ModUnique(x + (m - y), m, q + 1, r);
    }
  }

  /** The two writes that one limb causes. */
  lemma LeftNext(x: seq<Limb>, k: nat, s: nat, i: nat)
    requires s < 32 && i < |x|
    ensures s == 0 ==> LeftHigh(x[i], s) == 0
    ensures Or(0, LeftHigh(x[i], s)) == LeftHigh(x[i], s)
    ensures i + k < |x| ==> Or(if i > 0 then LeftHigh(x[i - 1], s) else 0, LeftLow(x[i], s)) == ShiftedLeft(x, k, s, i + k)
  {
    hide Pow2, Or;
    OrZero(LeftHigh(x[i], s));
    if i > 0 { LeftJoin(x[i], x[i - 1], s); } else { OrZero(LeftLow(x[i], s)); }
  }

  lemma RightNext(x: seq<Limb>, k: nat, s: nat, i: nat)
    requires s < 32 && i < |x|
    ensures Or(0, RightLow(x[i], s)) == RightLow(x[i], s)
    ensures i >= k + 1 && s != 0 ==>
      Or(RightLow(x[i - 1], s), RightHigh(x[i], s)) == ShiftedRight(x, k, s, i - k - 1)
    ensures i >= k + 1 && s == 0 ==> RightLow(x[i - 1], s) == ShiftedRight(x, k, s, i - k - 1)
    ensures i >= k && i + 1 == |x| ==> ShiftedRight(x, k, s, i - k) == RightLow(x[i], s)
  {
    hide Pow2, Or;
    OrZero(RightLow(x[i], s));
    if i >= k + 1 { RightJoin(x[i - 1], x[i], s); }
  }

  lemma ZeroBits(v: nat, r: nat)
    requires IsBitLength(v, r)
    ensures r == 0 <==> v == 0
  {
    Pow2Zero();
  }

  lemma BitsInside(v: nat, r: nat, s: seq<Limb>)
    requires IsBitLength(v, r) && v == Val(s)
    ensures r <= 32 * |s|
  {
    hide Val, Pow, Pow2;
    ValBound(s);
    BasePow2(|s|);
    BitLengthBound(v, r, 32 * |s|);
  }

  lemma AlignedFits(v: nat, bits: nat, width: nat)
    requires v < Pow2(bits) && bits <= 32 * width
    ensures v % Pow(BASE, width) == v
  {
    hide Pow, Pow2;
    Pow2Mono(bits, 32 * width);
    BasePow2(width);
    ModUnique(v, Pow(BASE, width), 0, v);
  }
}
