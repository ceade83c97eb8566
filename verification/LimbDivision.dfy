/** What shift-and-subtract division rests on: bit lengths, single bits and the loop's invariant. */
module LimbDivision {
  import opened Powers
  import opened Limbs
  import opened LimbShifts

  // ---------------------------------------------------------------- bit lengths

  /** The position of the highest bit set plus one, or zero. */
  ghost predicate IsBitLength(v: nat, r: nat) {
    v < Pow2(r) && (r > 0 ==> Pow2(r - 1) <= v)
  }

  lemma TopBit(x: nat, n: nat)
    requires x < Pow2(n + 1)
    ensures Bit(x, n) <==> Pow2(n) <= x
  {
    var p := Pow2(n);
    if x < p { DivUnique(x, p, 0); } else { DivUnique(x, p, 1); }
  }

  lemma TopLimb(s: seq<Limb>, pos: nat, n: nat)
    requires pos < |s| && (forall j | pos < j < |s| :: s[j] == 0) && Pow2(n) <= s[pos] < Pow2(n + 1)
    ensures IsBitLength(Val(s), 32 * pos + n + 1)
  {
    hide Pow, Pow2, Val;
    ValSplit(s, pos + 1);
    ValZero(s[pos + 1..]);
    ValNext(s, pos);
    ValBound(s[..pos]);
    BasePow2(pos);
    var p, x: nat := Pow2(32 * pos), s[pos];
    Pow2Add(n, 32 * pos);
    Pow2Add(n + 1, 32 * pos);
    MulMono(Pow2(n), x, p);
    MulMono(x + 1, Pow2(n + 1), p);
    assert (x + 1) * p == x * p + p;
  }

  lemma {:induction false} BitLengthOrder(v: nat, a: nat, w: nat, b: nat)
    requires IsBitLength(v, a) && IsBitLength(w, b) && a < b
    ensures v < w
  {
    hide Pow2;
    Pow2Mono(a, b - 1);
  }

  lemma BitLengthBound(v: nat, r: nat, n: nat)
    requires IsBitLength(v, r) && v < Pow2(n)
    ensures r <= n
  {
    hide Pow2;
    if r > n { Pow2Mono(n, r - 1); }
  }

  // ---------------------------------------------------------------- setting a bit

  /** The `t` lowest bits are clear. */
  ghost predicate Aligned(s: seq<Limb>, t: nat) {
    && (forall j: nat | j < |s| && 32 * (j + 1) <= t :: s[j] == 0)
    && (t / 32 < |s| ==> s[t / 32] % Pow2(t % 32) == 0)
  }

  lemma NothingSet(s: seq<Limb>, t: nat)
    requires forall j | 0 <= j < |s| :: s[j] == 0
    ensures Aligned(s, t)
  {
    hide Pow2;
    ZeroMod(Pow2(t % 32));
  }

  lemma ZeroMod(p: nat)
    requires p > 0
    ensures 0 % p == 0
  {
  }

  /** The limb where bit `t` goes has no bit at or below it. */
  lemma AlignedLimb(s: seq<Limb>, t: nat)
    requires Aligned(s, t + 1) && t / 32 < |s|
    ensures s[t / 32] % Pow2(t % 32 + 1) == 0
  {
    hide Pow2;
    if t % 32 == 31 { ZeroMod(Pow2(32)); }
  }

  lemma ModHalf(x: nat, r: nat)
    requires x % Pow2(r + 1) == 0
    ensures x % Pow2(r) == 0 && (x + Pow2(r)) % Pow2(r) == 0
  {
    var p, y := Pow2(r), x / Pow2(r + 1);
    DivModSum(x, 2 * p);
    assert x == 2 * y * p by { MulAssoc(y, 2, p); }
    ModUnique(x, p, 2 * y, 0);
    assert (2 * y + 1) * p == 2 * y * p + p;
    ModUnique(x + p, p, 2 * y + 1, 0);
  }

  lemma AlignedLess(s: seq<Limb>, t: nat)
    requires Aligned(s, t + 1)
    ensures Aligned(s, t)
  {
    hide Pow2;
    if t / 32 < |s| {
      AlignedLimb(s, t);
      ModHalf(s[t / 32], t % 32);
    }
  }

  lemma OrBit(x: Limb, r: nat)
    requires r < 32 && x % Pow2(r + 1) == 0
    ensures x + Pow2(r) < BASE && Or(x, Pow2(r)) == x + Pow2(r)
  {
    hide Pow2, Or;
    var p, y := Pow2(r + 1), x / Pow2(r + 1);
    DivModSum(x, p);
    Pow2Step(r);
    OrDisjoint(Pow2(r), y, r + 1);
    Pow2Of32();
    Pow2Add(r + 1, 31 - r);
    QuotientBelow(x, Pow2(31 - r), p);
    Fits(Pow2(r), y, p, Pow2(31 - r));
  }

  lemma SetBit(s: seq<Limb>, t: nat)
    requires Aligned(s, t + 1) && t / 32 < |s|
    ensures s[t / 32] + Pow2(t % 32) < BASE && Or(s[t / 32], Pow2(t % 32)) == s[t / 32] + Pow2(t % 32)
    ensures Val(s[t / 32 := s[t / 32] + Pow2(t % 32)]) == Val(s) + Pow2(t)
    ensures Aligned(s[t / 32 := s[t / 32] + Pow2(t % 32)], t)
  {
    hide Pow, Pow2, Or, Val;
    var j, r := t / 32, t % 32;
    AlignedLimb(s, t);
    OrBit(s[j], r);
    ValUpdate(s, j, s[j] + Pow2(r));
    BasePow2(j);
    Pow2Add(r, 32 * j);
    ModHalf(s[j], r);
  }

  // ---------------------------------------------------------------- the loop

  /** Before the step for bit `shift`: what is left of `n` is below the divisor shifted one further. */
  ghost predicate Dividing(n: nat, d: nat, q: nat, num: nat, shift: int) {
    shift >= -1 && num + d * q == n && num < d * Pow2(shift + 1)
  }

  lemma DividingStep(n: nat, d: nat, q: nat, num: nat, shift: nat)
    requires Dividing(n, d, q, num, shift)
    ensures num >= d * Pow2(shift) ==> Dividing(n, d, q + Pow2(shift), num - d * Pow2(shift), shift - 1)
    ensures num < d * Pow2(shift) ==> Dividing(n, d, q, num, shift - 1)
  {
    hide Pow2;
    Pow2Step(shift);
    var p := Pow2(shift);
    assert d * (2 * p) == 2 * (d * p);
    assert d * (q + p) == d * q + d * p;
  }

  lemma DividingEnd(n: nat, d: nat, q: nat, num: nat)
    requires Dividing(n, d, q, num, -1)
    ensures d > 0 && q == n / d && num == n % d
  {
    assert Pow2(0) == 1;
    ModUnique(n, d, q, num);
  }

  /** Aligning the divisor with the dividend. */
  lemma DividingStart(n: nat, d: nat, nBits: nat, dBits: nat)
    requires IsBitLength(n, nBits) && IsBitLength(d, dBits) && 0 < dBits <= nBits
    ensures Dividing(n, d, 0, n, nBits - dBits)
    ensures d * Pow2(nBits - dBits) < Pow2(nBits)
  {
    hide Pow2;
    var s := nBits - dBits;
    Pow2Add(dBits - 1, s + 1);
    MulMono(Pow2(dBits - 1), d, Pow2(s + 1));
    Pow2Add(dBits, s);
    MulMono(d + 1, Pow2(dBits), Pow2(s));
    assert (d + 1) * Pow2(s) == d * Pow2(s) + Pow2(s);
  }

  lemma HalfShift(d: nat, shift: nat)
    requires shift > 0
    ensures d * Pow2(shift) / Pow2(1) == d * Pow2(shift - 1)
  {
    var v := d * Pow2(shift - 1);
    assert d * (2 * Pow2(shift - 1)) == 2 * v;
    assert Pow2(1) == 2;
  }
}
