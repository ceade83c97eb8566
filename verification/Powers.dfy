/** Powers and the division facts that the arithmetic below rests on. */
module Powers {
  type Word32 = x: nat | x < 0x1_0000_0000

  function Pow(b: nat, e: nat): (r: nat)
    ensures b > 0 ==> r > 0
  {
    if e == 0 then 1 else b * Pow(b, e - 1)
  }

  function Pow2(n: nat): (r: nat)
    ensures r >= 1
  {
    if n == 0 then 1 else 2 * Pow2(n - 1)
  }

  lemma MulAssoc(x: int, y: int, z: int)
    ensures x * (y * z) == x * y * z
  {
  }

  lemma PowZero(b: nat)
    ensures Pow(b, 0) == 1
  {
  }

  lemma PowStep(b: nat, e: nat)
    ensures Pow(b, e + 1) == b * Pow(b, e)
  {
  }

  lemma {:induction false} PowAdd(b: nat, m: nat, n: nat)
    ensures Pow(b, m + n) == Pow(b, m) * Pow(b, n)
  {
    if m > 0 {
      PowAdd(b, m - 1, n);
      MulAssoc(b, Pow(b, m - 1), Pow(b, n));
    }
  }

  lemma {:induction false} PowMono(b: nat, m: nat, n: nat)
    requires b > 0 && m <= n
    ensures Pow(b, m) <= Pow(b, n)
    decreases n - m
  {
    if m < n {
      PowMono(b, m + 1, n);
      MulMono(1, b, Pow(b, m));
    }
  }

  /** The quotient is the only number that fits. */
  lemma DivUnique(a: int, b: int, q: int)
    requires b > 0 && q * b <= a < (q + 1) * b
    ensures a / b == q
  {
    var r := a - q * b;
    assert a == q * b + r && 0 <= r < b;
    if a / b > q { MulMono(q + 1, a / b, b); }
    if a / b < q { MulMono(a / b + 1, q, b); }
  }

  lemma MulMono(x: int, y: int, b: int)
    requires x <= y && b >= 0
    ensures x * b <= y * b
  {
  }

  lemma DivBounds(a: int, b: int)
    requires b > 0
    ensures (a / b) * b <= a < (a / b + 1) * b
  {
  }

  /** A quotient is at most the number divided, and less if the divisor is not one. */
  lemma DivSmaller(x: nat, p: nat)
    requires p > 0
    ensures 0 <= x / p <= x
    ensures p > 1 && x > 0 ==> x / p < x
  {
    var q := x / p;
    DivBounds(x, p);
    assert q >= 0;
    Shrinking(q, p, x);
  }

  lemma Shrinking(q: nat, p: nat, x: nat)
    requires p > 0 && q * p <= x
    ensures q <= x
    ensures p > 1 && x > 0 ==> q < x
  {
    MulMono(1, p, q);
    if p > 1 { MulMono(2, p, q); }
  }

  lemma Pow2Zero()
    ensures Pow2(0) == 1
  {
  }

  lemma Pow2Step(n: nat)
    ensures Pow2(n + 1) == 2 * Pow2(n)
  {
  }

  lemma {:induction false} Pow2Add(m: nat, n: nat)
    ensures Pow2(m + n) == Pow2(m) * Pow2(n)
  {
    if m > 0 {
      Pow2Add(m - 1, n);
      MulAssoc(2, Pow2(m - 1), Pow2(n));
    }
  }

  lemma {:induction false} Pow2Mono(m: nat, n: nat)
    requires m <= n
    ensures Pow2(m) <= Pow2(n)
    decreases n - m
  {
    if m < n { Pow2Mono(m + 1, n); }
  }

  /** The remainder is the only number that fits. */
  lemma ModUnique(a: int, b: int, q: int, r: int)
    requires b > 0 && 0 <= r < b && a == q * b + r
    ensures a % b == r && a / b == q
  {
    assert (q + 1) * b == q * b + b;
    DivUnique(a, b, q);
    assert (a / b) * b + a % b == a;
  }

  /** A bit of the binary representation. */
  predicate Bit(x: nat, n: nat) {
    x / Pow2(n) % 2 == 1
  }

  /** A 32-bit number as a fraction of `n`: the cheap replacement of a remainder. */
  function FastMod(x: Word32, n: nat): (r: nat)
    requires n > 0
    ensures r < n
  {
    FastModBelow(x, n);
    x * n / 0x1_0000_0000
  }

  lemma FastModBelow(x: Word32, n: nat)
    requires n > 0
    ensures 0 <= x * n / 0x1_0000_0000 < n
  {
    MulMono(x, 0xffff_ffff, n);
  }

  /** Every result stands for an equal share of the 32-bit numbers. */
  lemma FastModIff(x: Word32, n: nat, k: nat)
    requires n > 0
    ensures FastMod(x, n) == k <==> k * 0x1_0000_0000 <= x * n < (k + 1) * 0x1_0000_0000
  {
    DivBounds(x * n, 0x1_0000_0000);
    if k * 0x1_0000_0000 <= x * n < (k + 1) * 0x1_0000_0000 { DivUnique(x * n, 0x1_0000_0000, k); }
  }
}
