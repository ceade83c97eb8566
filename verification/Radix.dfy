/** Numbers in base 58 and base 256, and how many digits of one suffice for the other. */
module Radix {
  import opened Powers

  ghost predicate Digits(s: seq<nat>, base: nat) {
    forall i | 0 <= i < |s| :: s[i] < base
  }

  /** The number that a list of digits stands for, most significant first. */
  function Value(s: seq<nat>, base: nat): nat {
    if s == [] then 0 else Value(s[..|s| - 1], base) * base + s[|s| - 1]
  }

  /** The digits of a number, without leading zeros. */
  function ToBase(v: nat, base: nat): seq<nat>
    requires base > 1
    decreases v
  {
    if v == 0 then []
    else
      DivSmaller(v, base);
      ToBase(v / base, base) + [v % base]
  }

  lemma {:induction false} ToBaseDigits(v: nat, base: nat)
    requires base > 1
    ensures Digits(ToBase(v, base), base)
    decreases v
  {
    if v > 0 {
      DivSmaller(v, base);
      ToBaseDigits(v / base, base);
    }
  }

  lemma {:induction false} ValueToBase(v: nat, base: nat)
    requires base > 1
    ensures Value(ToBase(v, base), base) == v
    decreases v
  {
    if v > 0 {
      DivSmaller(v, base);
      ValueToBase(v / base, base);
      var s := ToBase(v, base);
      assert s[..|s| - 1] == ToBase(v / base, base);
      DivMod(v, base);
    }
  }

  lemma DivMod(v: nat, base: nat)
    requires base > 0
    ensures v / base * base + v % base == v
  {
  }

  lemma {:induction false} ValueBound(s: seq<nat>, base: nat)
    requires Digits(s, base) && base > 0
    ensures Value(s, base) < Pow(base, |s|)
  {
    if s != [] {
      var n := |s| - 1;
      ValueBound(s[..n], base);
      MulMono(Value(s[..n], base) + 1, Pow(base, n), base);
      assert (Value(s[..n], base) + 1) * base == Value(s[..n], base) * base + base;
      PowStep(base, n);
    }
  }

  /** Without a leading zero the value needs all its digits. */
  lemma {:induction false} ValueLeast(s: seq<nat>, base: nat)
    requires Digits(s, base) && base > 0 && s != [] && s[0] > 0
    ensures Value(s, base) >= Pow(base, |s| - 1)
  {
    if |s| > 1 {
      var n := |s| - 1;
      ValueLeast(s[..n], base);
      MulMono(Pow(base, n - 1), Value(s[..n], base), base);
      PowStep(base, n - 1);
    }
  }

  /** A list of digits that is no longer than needed is the digits of its value. */
  lemma {:induction false} Minimal(s: seq<nat>, base: nat)
    requires Digits(s, base) && base > 1 && (s != [] ==> Value(s, base) >= Pow(base, |s| - 1))
    ensures ToBase(Value(s, base), base) == s
  {
    if s != [] {
      var n := |s| - 1;
      var v, front := Value(s, base), Value(s[..n], base);
      ModUnique(v, base, front, s[n]);
      if n > 0 {
        PowStep(base, n - 1);
        assert (front + 1) * base == front * base + base;
        if front < Pow(base, n - 1) { MulMono(front + 1, Pow(base, n - 1), base); }
      }
      Minimal(s[..n], base);
      assert v > 0 by { if n > 0 { PowPositive(base, n); } }
    }
  }

  /** So is one without a leading zero. */
  lemma Significant(s: seq<nat>, base: nat)
    requires Digits(s, base) && base > 1 && (s != [] ==> s[0] > 0)
    ensures ToBase(Value(s, base), base) == s
  {
    if s != [] { ValueLeast(s, base); }
    Minimal(s, base);
  }

  lemma PowPositive(base: nat, n: nat)
    requires base > 0
    ensures Pow(base, n) > 0
  {
  }

  // ---------------------------------------------------------------- room

  /** The buffer sizes that the codec allots. */
  function Room58(n: nat): nat {
    n * 138 / 100 + 1
  }

  function Room256(n: nat): nat {
    n * 733 / 1000 + 1
  }

  lemma MulLe(a: nat, b: nat, c: nat, d: nat)
    requires a <= b && c <= d
    ensures a * c <= b * d
  {
    MulMono(a, b, c);
    MulMono(c, d, b);
  }

  lemma Powers256()
    ensures Pow(256, 0) == 1
    ensures Pow(256, 1) == 256
    ensures Pow(256, 2) == 65536
    ensures Pow(256, 3) == 16777216
    ensures Pow(256, 4) == 4294967296
    ensures Pow(256, 5) == 1099511627776
    ensures Pow(256, 6) == 281474976710656
    ensures Pow(256, 7) == 72057594037927936
    ensures Pow(256, 8) == 18446744073709551616
    ensures Pow(256, 9) == 4722366482869645213696
    ensures Pow(256, 10) == 1208925819614629174706176
    ensures Pow(256, 11) == 309485009821345068724781056
  {
    hide Pow;
    PowZero(256);
    PowStep(256, 0);
    PowStep(256, 1);
    PowStep(256, 2);
    PowStep(256, 3);
    PowStep(256, 4);
    PowStep(256, 5);
    PowStep(256, 6);
    PowStep(256, 7);
    PowStep(256, 8);
    PowStep(256, 9);
    PowStep(256, 10);
  }

  lemma Powers58()
    ensures Pow(58, 0) == 1
    ensures Pow(58, 1) == 58
    ensures Pow(58, 2) == 3364
    ensures Pow(58, 3) == 195112
    ensures Pow(58, 4) == 11316496
    ensures Pow(58, 5) == 656356768
    ensures Pow(58, 6) == 38068692544
    ensures Pow(58, 7) == 2207984167552
    ensures Pow(58, 8) == 128063081718016
    ensures Pow(58, 9) == 7427658739644928
    ensures Pow(58, 10) == 430804206899405824
    ensures Pow(58, 11) == 24986644000165537792
    ensures Pow(58, 12) == 1449225352009601191936
    ensures Pow(58, 13) == 84055070416556869132288
    ensures Pow(58, 14) == 4875194084160298409672704
    ensures Pow(58, 15) == 282761256881297307761016832
  {
    hide Pow;
    PowZero(58);
    PowStep(58, 0);
    PowStep(58, 1);
    PowStep(58, 2);
    PowStep(58, 3);
    PowStep(58, 4);
    PowStep(58, 5);
    PowStep(58, 6);
    PowStep(58, 7);
    PowStep(58, 8);
    PowStep(58, 9);
    PowStep(58, 10);
    PowStep(58, 11);
    PowStep(58, 12);
    PowStep(58, 13);
    PowStep(58, 14);
  }

  /** The two comparisons that the sizes rest on. */
  lemma EightBytes()
    ensures Pow(256, 8) <= Pow(58, 11)
  {
    hide Pow;
    Powers256();
    Powers58();
  }

  lemma SeventyOneCharacters()
    ensures Pow(58, 71) <= Pow(256, 52)
  {
    hide Pow;
    Powers256();
    Powers58();
    PowAdd(58, 15, 15);
    PowAdd(58, 30, 30);
    PowAdd(58, 60, 11);
    PowAdd(256, 11, 11);
    PowAdd(256, 22, 22);
    PowAdd(256, 44, 8);
    assert Pow(58, 71) == 159730386663078066345306447337161584696769904898410078913243029577507397293846405390982563136983769384625594118558891106107392;
    assert Pow(256, 52) == 169230328010303641331690318856389386196071598838855992136870091590247882556495704531248437872567112920983350278405979725889536;
  }

  lemma FewBytes(n: nat)
    requires n < 8
    ensures Pow(256, n) <= Pow(58, Room58(n))
  {
    hide Pow;
    Powers256();
    Powers58();
  }

  /** Any number of `n` bytes fits in the base-58 buffer. */
  lemma {:induction false} BytesFit(n: nat)
    ensures Pow(256, n) <= Pow(58, Room58(n))
  {
    hide Pow;
    if n < 8 {
      FewBytes(n);
    } else {
      BytesFit(n - 8);
      EightBytes();
      PowAdd(256, 8, n - 8);
      PowAdd(58, 11, Room58(n - 8));
      MulLe(Pow(256, 8), Pow(58, 11), Pow(256, n - 8), Pow(58, Room58(n - 8)));
      PowMono(58, 11 + Room58(n - 8), Room58(n));
    }
  }

  lemma FewCharacters(n: nat)
    requires n < 15
    ensures Pow(58, n) <= Pow(256, Room256(n))
  {
    hide Pow;
    Powers256();
    Powers58();
  }

  lemma FifteenCharacters()
    ensures Pow(58, 15) <= Pow(256, 11)
  {
    hide Pow;
    Powers256();
    Powers58();
  }

  lemma PartOfFifteen(s: nat)
    requires 1 <= s < 15
    ensures 63 <= 733 * s % 1000
  {
    if s < 5 { assert s == 1 || s == 2 || s == 3 || s == 4; }
    else if s < 10 { assert s == 5 || s == 6 || s == 7 || s == 8 || s == 9; }
    else { assert s == 10 || s == 11 || s == 12 || s == 13 || s == 14; }
  }

  /** In the room for up to four times fifteen characters and some, each fifteen take eleven bytes. */
  lemma RoomOf(a: nat, s: nat)
    requires a <= 4 && s < 15
    ensures s > 0 ==> Room256(15 * a + s) == 11 * a + Room256(s)
    ensures s == 0 && a > 0 ==> Room256(15 * a) == 11 * a
  {
    if s > 0 {
      PartOfFifteen(s);
      ModUnique((15 * a + s) * 733, 1000, 11 * a + 733 * s / 1000, 733 * s % 1000 - 5 * a);
    } else if a > 0 {
      ModUnique(15 * a * 733, 1000, 11 * a - 1, 1000 - 5 * a);
    }
  }

  lemma RoomForFifteen(n: nat)
    requires 15 <= n < 71
    ensures if n % 15 == 0 then Room256(n) == 11 * (n / 15) else Room256(n) >= Room256(n - 15) + 11
  {
    hide Room256;
    var a, s := n / 15, n % 15;
    assert n == 15 * a + s && 15 * (a - 1) + s == n - 15;
    RoomOf(a, s);
    RoomOf(a - 1, s);
  }

  /** Fifteen characters and eleven bytes more. */
  lemma FifteenMore(n: nat, k: nat)
    requires Pow(58, n) <= Pow(256, k)
    ensures Pow(58, n + 15) <= Pow(256, k + 11)
  {
    hide Pow;
    FifteenCharacters();
    PowAdd(58, n, 15);
    PowAdd(256, k, 11);
    MulLe(Pow(58, n), Pow(256, k), Pow(58, 15), Pow(256, 11));
  }

  lemma {:induction false} SomeCharacters(n: nat)
    requires n < 71
    ensures Pow(58, n) <= Pow(256, Room256(n))
    ensures n % 15 == 0 ==> Pow(58, n) <= Pow(256, 11 * (n / 15))
  {
    hide Pow, Room256;
    if n < 15 {
      FewCharacters(n);
      PowZero(58);
      PowZero(256);
    } else {
      SomeCharacters(n - 15);
      RoomForFifteen(n);
      if n % 15 == 0 {
        FifteenMore(n - 15, 11 * (n / 15) - 11);
      } else {
        FifteenMore(n - 15, Room256(n - 15));
        PowMono(256, Room256(n - 15) + 11, Room256(n));
      }
    }
  }

  /** Any number of `n` base-58 digits fits in the byte buffer. */
  lemma {:induction false} CharactersFit(n: nat)
    ensures Pow(58, n) <= Pow(256, Room256(n))
  {
    hide Pow;
    if n < 71 {
      SomeCharacters(n);
    } else {
      CharactersFit(n - 71);
      SeventyOneCharacters();
      PowAdd(58, 71, n - 71);
      PowAdd(256, 52, Room256(n - 71));
      MulLe(Pow(58, 71), Pow(256, 52), Pow(58, n - 71), Pow(256, Room256(n - 71)));
      PowMono(256, 52 + Room256(n - 71), Room256(n));
    }
  }
}
