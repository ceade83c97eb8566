/** Exclusive or of natural numbers. */
module Xors {
  import opened Powers

  function Xor(x: nat, y: nat): nat
    decreases x + y
  {
    if x == 0 && y == 0 then 0 else (if x % 2 != y % 2 then 1 else 0) + 2 * Xor(x / 2, y / 2)
  }

  lemma XorHalf(x: nat, y: nat)
    ensures Xor(x, y) / 2 == Xor(x / 2, y / 2)
    ensures Xor(x, y) % 2 == if x % 2 != y % 2 then 1 else 0
  {
  }

  lemma {:induction false} XorZero(x: nat)
    ensures Xor(x, 0) == x && Xor(0, x) == x && Xor(x, x) == 0
  {
    if x > 0 { XorZero(x / 2); }
  }

  lemma {:induction false} XorComm(x: nat, y: nat)
    ensures Xor(x, y) == Xor(y, x)
    decreases x + y
  {
    if x + y > 0 { XorComm(x / 2, y / 2); }
  }

  /** Numbers are equal when their halves and last bits are. */
  lemma HalfEqual(x: nat, y: nat)
    requires x / 2 == y / 2 && x % 2 == y % 2
    ensures x == y
  {
  }

  lemma {:induction false} XorAssoc(x: nat, y: nat, z: nat)
    ensures Xor(Xor(x, y), z) == Xor(x, Xor(y, z))
    decreases x + y + z
  {
    hide Xor;
    if x + y + z == 0 {
      XorZero(0);
    } else {
      XorAssoc(x / 2, y / 2, z / 2);
      XorHalf(x, y);
      XorHalf(y, z);
      XorHalf(Xor(x, y), z);
      XorHalf(x, Xor(y, z));
      HalfEqual(Xor(Xor(x, y), z), Xor(x, Xor(y, z)));
    }
  }

  lemma XorFour(a: nat, b: nat, x: nat, y: nat)
    ensures Xor(Xor(a, b), Xor(x, y)) == Xor(Xor(a, x), Xor(b, y))
  {
    hide Xor;
    calc {
      Xor(Xor(a, b), Xor(x, y));
      { XorAssoc(a, b, Xor(x, y)); }
      Xor(a, Xor(b, Xor(x, y)));
      { XorAssoc(b, x, y); XorComm(b, x); XorAssoc(x, b, y); }
      Xor(a, Xor(x, Xor(b, y)));
      { XorAssoc(a, x, Xor(b, y)); }
      Xor(Xor(a, x), Xor(b, y));
    }
  }

  lemma XorCancel(a: nat, b: nat)
    ensures Xor(Xor(a, b), b) == a
    ensures Xor(a, b) == 0 ==> a == b
  {
    hide Xor;
    XorAssoc(a, b, b);
    XorZero(b);
    XorZero(a);
  }

  lemma {:induction false} XorBelow(x: nat, y: nat, k: nat)
    requires x < Pow2(k) && y < Pow2(k)
    ensures Xor(x, y) < Pow2(k)
    decreases k
  {
    hide Xor;
    if k == 0 {
      XorZero(0);
    } else {
      XorBelow(x / 2, y / 2, k - 1);
      XorHalf(x, y);
    }
  }

  /** The low `k` bits and the rest do not mix. */
  lemma {:induction false} XorSplit(p: nat, r: nat, q: nat, s: nat, k: nat)
    requires r < Pow2(k) && s < Pow2(k)
    ensures Xor(p * Pow2(k) + r, q * Pow2(k) + s) == Xor(p, q) * Pow2(k) + Xor(r, s)
    decreases k
  {
    hide Xor;
    if k == 0 {
      XorZero(0);
    } else {
      var h := Pow2(k - 1);
      XorSplit(p, r / 2, q, s / 2, k - 1);
      var x, y := p * Pow2(k) + r, q * Pow2(k) + s;
      HalfSum(p, r, h);
      HalfSum(q, s, h);
      HalfSum(Xor(p, q), Xor(r, s), h);
      XorHalf(x, y);
      XorHalf(r, s);
      HalfEqual(Xor(x, y), Xor(p, q) * Pow2(k) + Xor(r, s));
    }
  }

  lemma HalfSum(p: nat, r: nat, h: nat)
    ensures (p * (2 * h) + r) / 2 == p * h + r / 2
    ensures (p * (2 * h) + r) % 2 == r % 2
  {
    var m := p * h;
    assert p * (2 * h) == 2 * m;
  }

  lemma {:induction false} XorBit(x: nat, y: nat, n: nat)
    ensures Bit(Xor(x, y), n) == (Bit(x, n) != Bit(y, n))
    decreases n
  {
    hide Xor;
    XorHalf(x, y);
    if n == 0 {
      assert Pow2(0) == 1;
    } else {
      XorBit(x / 2, y / 2, n - 1);
      BitStep(x, n);
      BitStep(y, n);
      BitStep(Xor(x, y), n);
    }
  }

  lemma BitStep(x: nat, n: nat)
    requires n > 0
    ensures Bit(x, n) == Bit(x / 2, n - 1)
  {
    DivTwice(x, Pow2(n - 1));
  }

  lemma DivTwice(x: nat, p: nat)
    requires p > 0
    ensures x / (2 * p) == x / 2 / p
  {
    var d := x / 2 / p;
    DivBounds(x / 2, p);
    assert d * (2 * p) == 2 * (d * p) && (d + 1) * (2 * p) == 2 * ((d + 1) * p);
    DivUnique(x, 2 * p, d);
  }
}
