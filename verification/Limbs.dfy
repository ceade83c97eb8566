/** Numbers written in limbs of 32 bits, least significant first. */
module Limbs {
  import opened Powers

  const BASE := 0x1_0000_0000

  type Limb = x: nat | x < BASE

  /** The number that a list of limbs stands for. */
  function Val(s: seq<Limb>): nat {
    if s == [] then 0 else Val(s[..|s| - 1]) + s[|s| - 1] * Pow(BASE, |s| - 1)
  }

  lemma NoLimbs()
    ensures Val([]) == 0
  {
  }

  lemma ValPush(s: seq<Limb>, x: Limb)
    ensures Val(s + [x]) == Val(s) + x * Pow(BASE, |s|)
  {
    assert (s + [x])[..|s|] == s;
  }

  lemma ValNext(s: seq<Limb>, i: nat)
    requires i < |s|
    ensures Val(s[..i + 1]) == Val(s[..i]) + s[i] * Pow(BASE, i)
  {
    assert s[..i + 1] == s[..i] + [s[i]];
    ValPush(s[..i], s[i]);
  }

  lemma ValWhole(s: seq<Limb>)
    ensures Val(s[..0]) == 0
    ensures Val(s[..|s|]) == Val(s)
  {
    assert s[..|s|] == s;
  }

  lemma {:induction false} ValBound(s: seq<Limb>)
    ensures Val(s) < Pow(BASE, |s|)
  {
    if s != [] {
      var n := |s| - 1;
      ValBound(s[..n]);
      MulMono(s[n], BASE - 1, Pow(BASE, n));
      PowStep(BASE, n);
    }
  }

  lemma {:induction false} ValZero(s: seq<Limb>)
    requires forall i | 0 <= i < |s| :: s[i] == 0
    ensures Val(s) == 0
  {
    if s != [] { ValZero(s[..|s| - 1]); }
  }

  lemma {:induction false} ValSplit(s: seq<Limb>, k: nat)
    requires k <= |s|
    ensures Val(s) == Val(s[..k]) + Pow(BASE, k) * Val(s[k..])
    decreases |s|
  {
    hide Pow, Val;
    if k == |s| {
      assert s[..k] == s && s[k..] == [];
      NoLimbs();
    } else {
      var n := |s| - 1;
      var front, last := s[..n], s[n];
      ValSplit(front, k);
      assert front[..k] == s[..k];
      ValNext(s, n);
      assert s[..n + 1] == s;
      assert s[k..] == front[k..] + [last];
      ValPush(front[k..], last);
      PowAdd(BASE, k, n - k);
      Distribute(Pow(BASE, k), Val(front[k..]), last, Pow(BASE, n - k));
    }
  }

  lemma Distribute(p: nat, v: nat, x: nat, q: nat)
    ensures p * (v + x * q) == p * v + x * (p * q)
  {
    MulAssoc(x, p, q);
    MulAssoc(p, x, q);
  }

  /** Only equal limbs give equal numbers. */
  lemma CompareAt(s: seq<Limb>, t: seq<Limb>, i: nat)
    requires |s| == |t| && i < |s| && s[i] < t[i] && s[i + 1..] == t[i + 1..]
    ensures Val(s) < Val(t)
  {
    hide Pow, Val;
    ValSplit(s, i + 1);
    ValSplit(t, i + 1);
    ValNext(s, i);
    ValNext(t, i);
    ValBound(s[..i]);
    CompareSum(Val(s[..i]), Val(t[..i]), s[i], t[i], Pow(BASE, i), Pow(BASE, i + 1) * Val(s[i + 1..]));
  }

  lemma CompareSum(a: nat, b: nat, x: nat, y: nat, p: nat, rest: nat)
    requires a < p && x < y
    ensures a + x * p + rest < b + y * p + rest
  {
    MulMono(x + 1, y, p);
    assert (x + 1) * p == x * p + p;
  }

  lemma ValUpdate(s: seq<Limb>, i: nat, x: Limb)
    requires i < |s|
    ensures Val(s[i := x]) == Val(s) + (x - s[i]) * Pow(BASE, i)
  {
    var t := s[i := x];
    ValSplit(s, i + 1);
    ValSplit(t, i + 1);
    assert t[i + 1..] == s[i + 1..];
    ValNext(s, i);
    ValNext(t, i);
    assert t[..i] == s[..i];
    assert (x - s[i]) * Pow(BASE, i) == x * Pow(BASE, i) - s[i] * Pow(BASE, i);
  }

  // ---------------------------------------------------------------- bitwise or

  function Or(x: nat, y: nat): nat
    decreases x + y
  {
    if x == 0 && y == 0 then 0
    else (if x % 2 == 1 || y % 2 == 1 then 1 else 0) + 2 * Or(x / 2, y / 2)
  }

  lemma {:induction false} OrZero(x: nat)
    ensures Or(0, x) == x && Or(x, 0) == x
  {
    if x > 0 { OrZero(x / 2); }
  }

  /** Numbers without a common bit: the low `k` bits belong to one, the rest to the other. */
  lemma {:induction false} OrDisjoint(x: nat, y: nat, k: nat)
    requires x < Pow2(k)
    ensures Or(x, y * Pow2(k)) == x + y * Pow2(k) == Or(y * Pow2(k), x)
    decreases k
  {
    hide Or;
    if k == 0 {
      OrZero(y);
    } else {
      var p := Pow2(k - 1);
      assert y * Pow2(k) == 2 * (y * p) by { MulAssoc(y, 2, p); MulAssoc(2, y, p); }
      OrDisjoint(x / 2, y, k - 1);
      OrStep(x, y * p);
    }
  }

  lemma OrStep(x: nat, z: nat)
    ensures Or(x, 2 * z) == x % 2 + 2 * Or(x / 2, z)
    ensures Or(2 * z, x) == x % 2 + 2 * Or(z, x / 2)
  {
    hide Or;
    assert 2 * z / 2 == z && 2 * z % 2 == 0;
    if x == 0 && z == 0 {
      OrZero(0);
    } else {
      OrUnfold(x, 2 * z);
      OrUnfold(2 * z, x);
    }
  }

  lemma OrUnfold(x: nat, y: nat)
    requires x != 0 || y != 0
    ensures Or(x, y) == (if x % 2 == 1 || y % 2 == 1 then 1 else 0) + 2 * Or(x / 2, y / 2)
  {
  }
}
