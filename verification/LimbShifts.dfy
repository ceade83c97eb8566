/** Shifting numbers written in limbs: what each limb of the result is, and the number they make. */
module LimbShifts {
  import opened Powers
  import opened Limbs

  lemma Pow2Of32()
    ensures Pow2(32) == BASE
  {
    assert Pow2(8) == 256;
    Pow2Add(8, 8);
    Pow2Add(16, 16);
  }

  lemma {:induction false} BasePow2(i: nat)
    ensures Pow(BASE, i) == Pow2(32 * i)
  {
    if i > 0 {
      BasePow2(i - 1);
      Pow2Of32();
      Pow2Add(32, 32 * (i - 1));
    }
  }

  lemma DivMulMod(x: nat, p: nat, q: nat)
    requires p > 0 && q > 0
    ensures x * p / (p * q) == x / q
    ensures x * p % (p * q) == x % q * p
    ensures x % q * p < p * q
  {
    var d, r := x / q, x % q;
    assert x == d * q + r;
    assert x * p == d * (p * q) + r * p by { MulAssoc(d, q, p); assert (d * q + r) * p == d * q * p + r * p; }
    assert r * p < q * p by { assert (r + 1) * p == r * p + p; MulMono(r + 1, q, p); }
    ModUnique(x * p, p * q, d, r * p);
  }

  // ---------------------------------------------------------------- left

  /** What stays in the limb and what moves up when a limb is shifted left by `s` bits. */
  function LeftLow(x: Limb, s: nat): Limb
    requires s < 32
  {
    x * Pow2(s) % BASE
  }

  function LeftHigh(x: Limb, s: nat): (r: Limb)
    requires s < 32
  {
    if s == 0 then 0
    else
      DivSmaller(x, Pow2(32 - s));
      x / Pow2(32 - s)
  }

  lemma LeftParts(x: Limb, s: nat)
    requires s < 32
    ensures x * Pow2(s) == LeftHigh(x, s) * BASE + LeftLow(x, s)
    ensures LeftHigh(x, s) < Pow2(s)
    ensures LeftLow(x, s) == x % Pow2(32 - s) * Pow2(s)
  {
    hide Pow2;
    var p, q := Pow2(s), Pow2(32 - s);
    Pow2Of32();
    Pow2Add(s, 32 - s);
    Pow2Zero();
    DivMulMod(x, p, q);
    DivBounds(x * p, p * q);
    QuotientBelow(x, p, q);
  }

  lemma QuotientBelow(x: nat, p: nat, q: nat)
    requires q > 0 && x < p * q
    ensures x / q < p
  {
    DivBounds(x, q);
    if x / q >= p { MulMono(p, x / q, q); }
  }

  /** Both parts meet in one limb without a common bit. */
  lemma LeftJoin(x: Limb, y: Limb, s: nat)
    requires s < 32
    ensures LeftHigh(y, s) + LeftLow(x, s) < BASE
    ensures Or(LeftHigh(y, s), LeftLow(x, s)) == LeftHigh(y, s) + LeftLow(x, s)
  {
    hide LeftHigh, LeftLow, Pow2, Or;
    LeftParts(x, s);
    LeftParts(y, s);
    var p, q := Pow2(s), Pow2(32 - s);
    var r := x % q;
    OrDisjoint(LeftHigh(y, s), r, s);
    Pow2Of32();
    Pow2Add(s, 32 - s);
    Fits(LeftHigh(y, s), r, p, q);
  }

  lemma Fits(h: nat, r: nat, p: nat, q: nat)
    requires h < p && r < q
    ensures h + r * p < p * q
  {
    MulMono(r + 1, q, p);
    assert (r + 1) * p == r * p + p;
  }

  function ShiftedLeft(a: seq<Limb>, k: nat, s: nat, j: nat): Limb
    requires s < 32 && j < |a|
  {
    if j < k then 0
    else if j == k then LeftLow(a[0], s)
    else
      LeftJoin(a[j - k], a[j - k - 1], s);
      LeftHigh(a[j - k - 1], s) + LeftLow(a[j - k], s)
  }

  ghost predicate IsLeft(r: seq<Limb>, a: seq<Limb>, k: nat, s: nat) {
    s < 32 && |r| == |a| && forall j | 0 <= j < |a| :: r[j] == ShiftedLeft(a, k, s, j)
  }

  /** The limbs so far, with what the last one passes up, are the shifted prefix. */
  ghost predicate LeftUpTo(r: seq<Limb>, a: seq<Limb>, k: nat, s: nat, m: nat)
    requires IsLeft(r, a, k, s) && m + k <= |a|
  {
    Val(r[..m + k]) + (if m == 0 then 0 else LeftHigh(a[m - 1], s)) * Pow(BASE, m + k) == Val(a[..m]) * (Pow2(s) * Pow(BASE, k))
  }

  lemma {:induction false} LeftPrefix(r: seq<Limb>, a: seq<Limb>, k: nat, s: nat, m: nat)
    requires IsLeft(r, a, k, s) && m + k <= |a|
    ensures LeftUpTo(r, a, k, s, m)
    decreases m
  {
    if m == 0 {
      LeftPrefixNone(r, a, k, s);
    } else {
      LeftPrefix(r, a, k, s, m - 1);
      hide LeftUpTo;
      LeftPrefixNext(r, a, k, s, m - 1);
    }
  }

  lemma LeftPrefixNone(r: seq<Limb>, a: seq<Limb>, k: nat, s: nat)
    requires IsLeft(r, a, k, s) && k <= |a|
    ensures LeftUpTo(r, a, k, s, 0)
  {
    hide Pow, Pow2, Val, LeftHigh, LeftLow;
    ValWhole(a);
    assert forall j | 0 <= j < k :: r[..k][j] == r[j] == 0;
    ValZero(r[..k]);
  }

  lemma LeftPrefixNext(r: seq<Limb>, a: seq<Limb>, k: nat, s: nat, m: nat)
    requires IsLeft(r, a, k, s) && m + 1 + k <= |a| && LeftUpTo(r, a, k, s, m)
    ensures LeftUpTo(r, a, k, s, m + 1)
  {
    hide Pow, Pow2, Val, LeftHigh, LeftLow;
    var j := m + k;
    var x, p := a[m], Pow(BASE, j);
    var y := if m == 0 then 0 else LeftHigh(a[m - 1], s);
    assert r[j] == y + LeftLow(x, s);
    ValNext(r, j);
    ValNext(a, m);
    LeftParts(x, s);
    PowStep(BASE, j);
    PowAdd(BASE, k, m);
    LeftSum(Val(r[..j]), Val(r[..j + 1]), y, p, Pow(BASE, j + 1), Val(a[..m]), Val(a[..m + 1]), Pow2(s), Pow(BASE, k), Pow(BASE, m),
            x, LeftHigh(x, s), LeftLow(x, s));
  }

  lemma LeftSum(v: nat, v': nat, y: nat, p: nat, p': nat, a: nat, a': nat, ps: nat, pk: nat, pm: nat, x: nat, high: nat, low: nat)
    requires v + y * p == a * (ps * pk) && p == pk * pm && x * ps == high * BASE + low
    requires v' == v + (y + low) * p && p' == BASE * p && a' == a + x * pm
    ensures v' + high * p' == a' * (ps * pk)
  {
    assert (a + x * pm) * (ps * pk) == a * (ps * pk) + x * pm * (ps * pk);
    assert x * pm * (ps * pk) == x * ps * p by { Shuffle(x, pm, ps, pk); }
    assert (high * BASE + low) * p == high * (BASE * p) + low * p by { MulAssoc(high, BASE, p); }
    assert (y + low) * p == y * p + low * p;
  }

  lemma Shuffle(a: nat, b: nat, c: nat, d: nat)
    ensures a * b * (c * d) == a * c * (d * b)
  {
    calc {
      a * b * (c * d);
      { MulAssoc(a, b, c * d); MulAssoc(b, c, d); }
      a * (b * c * d);
      { assert b * c * d == c * (d * b) by { MulAssoc(c, b, d); assert b * c == c * b; assert b * d == d * b; } }
      a * (c * (d * b));
      { MulAssoc(a, c, d * b); }
      a * c * (d * b);
    }
  }

  lemma LeftValue(r: seq<Limb>, a: seq<Limb>, k: nat, s: nat)
    requires IsLeft(r, a, k, s)
    ensures Val(r) == Val(a) * Pow2(32 * k + s) % Pow(BASE, |a|)
  {
    hide Pow, Pow2, Val;
    var w := |a|;
    var M := Pow(BASE, w);
    Pow2Add(32 * k, s);
    BasePow2(k);
    ValBound(r);
    if k >= w {
      ValZero(r);
      PowAdd(BASE, w, k - w);
      var c := Val(a) * (Pow(BASE, k - w) * Pow2(s));
      assert Val(a) * (M * Pow(BASE, k - w) * Pow2(s)) == c * M by { Factor(Val(a), M, Pow(BASE, k - w), Pow2(s)); }
      ModUnique(c * M, M, c, 0);
    } else {
      var m := w - k;
      LeftPrefix(r, a, k, s, m);
      ValWhole(r);
      ValSplit(a, m);
      PowAdd(BASE, m, k);
      var high, up := Val(a[m..]), LeftHigh(a[m - 1], s);
      LeftTotal(Val(r), up, Val(a[..m]), Pow2(s), Pow(BASE, k), Pow(BASE, m), high);
      ModUnique(Val(a) * (Pow(BASE, k) * Pow2(s)), M, up + high * Pow2(s), Val(r));
    }
  }

  lemma Factor(a: nat, m: nat, p: nat, q: nat)
    ensures a * (m * p * q) == a * (p * q) * m
  {
    MulAssoc(m, p, q);
    MulAssoc(a, p * q, m);
  }

  lemma LeftTotal(r: nat, up: nat, low: nat, ps: nat, pk: nat, pm: nat, high: nat)
    requires r + up * (pm * pk) == low * (ps * pk)
    ensures (low + pm * high) * (pk * ps) == (up + high * ps) * (pm * pk) + r
  {
    assert (low + pm * high) * (pk * ps) == low * (pk * ps) + pm * high * (pk * ps);
    assert pk * ps == ps * pk;
    assert pm * high * (pk * ps) == high * ps * (pm * pk) by {
      assert pm * high == high * pm;
      Shuffle(high, pm, ps, pk);
      assert pk * pm == pm * pk;
    }
    assert (up + high * ps) * (pm * pk) == up * (pm * pk) + high * ps * (pm * pk);
  }

  // ---------------------------------------------------------------- right

  function RightLow(x: Limb, s: nat): Limb
    requires s < 32
  {
    DivSmaller(x, Pow2(s));
    x / Pow2(s)
  }

  /** What a limb passes down when it is shifted right by `s` bits. */
  function RightHigh(x: Limb, s: nat): Limb
    requires s < 32
  {
    if s == 0 then 0 else x * Pow2(32 - s) % BASE
  }

  lemma RightParts(x: Limb, s: nat)
    requires s < 32
    ensures x == RightLow(x, s) * Pow2(s) + x % Pow2(s)
    ensures RightLow(x, s) < Pow2(32 - s)
    ensures RightHigh(x, s) == x % Pow2(s) * Pow2(32 - s)
  {
    hide Pow2;
    var p, q := Pow2(32 - s), Pow2(s);
    Pow2Of32();
    Pow2Add(32 - s, s);
    Pow2Zero();
    DivModSum(x, q);
    QuotientBelow(x, p, q);
    DivMulMod(x, p, q);
  }

  lemma DivModSum(x: nat, q: nat)
    requires q > 0
    ensures x == x / q * q + x % q
  {
  }

  lemma RightJoin(x: Limb, y: Limb, s: nat)
    requires s < 32
    ensures RightLow(x, s) + RightHigh(y, s) < BASE
    ensures Or(RightLow(x, s), RightHigh(y, s)) == RightLow(x, s) + RightHigh(y, s)
  {
    hide RightHigh, RightLow, Pow2, Or;
    RightParts(x, s);
    RightParts(y, s);
    var p, q := Pow2(32 - s), Pow2(s);
    var r := y % q;
    OrDisjoint(RightLow(x, s), r, 32 - s);
    Pow2Of32();
    Pow2Add(32 - s, s);
    Fits(RightLow(x, s), r, p, q);
  }

  function ShiftedRight(a: seq<Limb>, k: nat, s: nat, j: nat): Limb
    requires s < 32 && j < |a|
  {
    if j + k >= |a| then 0
    else if j + k + 1 == |a| then RightLow(a[j + k], s)
    else
      RightJoin(a[j + k], a[j + k + 1], s);
      RightLow(a[j + k], s) + RightHigh(a[j + k + 1], s)
  }

  ghost predicate IsRight(r: seq<Limb>, a: seq<Limb>, k: nat, s: nat) {
    s < 32 && |r| == |a| && forall j | 0 <= j < |a| :: r[j] == ShiftedRight(a, k, s, j)
  }

  /** The bits of a limb that leave it at the bottom. */
  function Dropped(a: seq<Limb>, i: nat, s: nat): nat {
    if i < |a| then a[i] % Pow2(s) else 0
  }

  lemma {:induction false} RightPrefix(r: seq<Limb>, a: seq<Limb>, k: nat, s: nat, m: nat)
    requires IsRight(r, a, k, s) && m + k <= |a|
    ensures Val(r[..m]) * Pow2(s) + Dropped(a, k, s) == Val(a[k..k + m]) + Dropped(a, k + m, s) * Pow(BASE, m)
    decreases m
  {
    hide Pow, Pow2, Val, RightHigh, RightLow;
    if m == 0 {
      ValWhole(r);
      ValWhole(a[k..k]);
      PowZero(BASE);
    } else {
      RightPrefix(r, a, k, s, m - 1);
      var x, p := a[k + m - 1], Pow(BASE, m - 1);
      ValNext(r, m - 1);
      assert a[k..k + m] == a[k..k + m - 1] + [x];
      ValPush(a[k..k + m - 1], x);
      PowStep(BASE, m - 1);
      RightParts(x, s);
      Pow2Of32();
      Pow2Add(32 - s, s);
      if k + m < |a| { RightParts(a[k + m], s); }
      RightSum(Val(r[..m - 1]), Val(a[k..k + m - 1]), Dropped(a, k, s), x, r[m - 1], RightLow(x, s), x % Pow2(s),
               Dropped(a, k + m, s), Pow2(s), Pow2(32 - s), p);
    }
  }

  lemma RightSum(v: nat, u: nat, first: nat, x: nat, limb: nat, low: nat, drop: nat, next: nat, ps: nat, pt: nat, p: nat)
    requires v * ps + first == u + drop * p && x == low * ps + drop && pt * ps == BASE && limb == low + next * pt
    ensures (v + limb * p) * ps + first == u + x * p + next * (BASE * p)
  {
    assert (v + limb * p) * ps == v * ps + limb * ps * p by {
      assert (v + limb * p) * ps == v * ps + limb * p * ps;
      MulAssoc(limb, p, ps);
      MulAssoc(limb, ps, p);
      assert p * ps == ps * p;
    }
    assert limb * ps == low * ps + next * BASE by {
      assert (low + next * pt) * ps == low * ps + next * pt * ps;
      MulAssoc(next, pt, ps);
    }
    assert (low * ps + next * BASE) * p == low * ps * p + next * (BASE * p) by { MulAssoc(next, BASE, p); }
    assert (low * ps + drop) * p == low * ps * p + drop * p;
  }

  lemma DivDiv(x: nat, p: nat, q: nat)
    requires p > 0 && q > 0
    ensures x / (p * q) == x / p / q
  {
    var d := x / p / q;
    DivBounds(x, p);
    DivBounds(x / p, q);
    assert d * (p * q) == d * q * p by { MulAssoc(d, q, p); assert p * q == q * p; }
    MulMono(d * q, x / p, p);
    assert (d + 1) * (p * q) == (d + 1) * q * p by { MulAssoc(d + 1, q, p); assert p * q == q * p; }
    MulMono(x / p + 1, (d + 1) * q, p);
    DivUnique(x, p * q, d);
  }

  lemma RightValue(r: seq<Limb>, a: seq<Limb>, k: nat, s: nat)
    requires IsRight(r, a, k, s)
    ensures Val(r) == Val(a) / Pow2(32 * k + s)
  {
    hide Pow, Pow2, Val;
    var w := |a|;
    Pow2Add(32 * k, s);
    BasePow2(k);
    ValBound(a);
    if k >= w {
      ValZero(r);
      PowMono(BASE, w, k);
      MulMono(1, Pow2(s), Pow2(32 * k));
      DivUnique(Val(a), Pow2(32 * k) * Pow2(s), 0);
    } else {
      var m := w - k;
      RightPrefix(r, a, k, s, m);
      assert a[k..k + m] == a[k..];
      ValSplit(r, m);
      assert forall j | m <= j < w :: r[j] == 0;
      ValZero(r[m..]);
      ValSplit(a, k);
      ValBound(a[..k]);
      var d := Dropped(a, k, s);
      ModUnique(Val(a[k..]), Pow2(s), Val(r), d);
      ModUnique(Val(a), Pow(BASE, k), Val(a[k..]), Val(a[..k]));
      DivDiv(Val(a), Pow2(32 * k), Pow2(s));
    }
  }
}
