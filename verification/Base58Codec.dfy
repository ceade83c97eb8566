/** The Base58 loops: fixed buffers that always suffice. */
module Base58Codec {
  import opened Basics
  import opened Powers
  import opened Radix
  import opened Base58

  // ---------------------------------------------------------------- the buffer

  /** The buffer holds a number in its last `length` places, as many as it needs, and zeros before. */
  ghost predicate Holds(buf: seq<nat>, base: nat, length: nat, v: nat) {
    && base > 1 && length <= |buf| && Digits(buf, base)
    && (forall j | 0 <= j < |buf| - length :: buf[j] == 0)
    && Value(buf, base) == v
    && (length > 0 ==> Pow(base, length - 1) <= v)
  }

  lemma {:induction false} ValueAppend(a: seq<nat>, b: seq<nat>, base: nat)
    ensures Value(a + b, base) == Value(a, base) * Pow(base, |b|) + Value(b, base)
    decreases |b|
  {
    if b == [] {
      assert a + b == a;
      assert Pow(base, 0) == 1;
    } else {
      var n := |b| - 1;
      assert (a + b)[..|a| + n] == a + b[..n];
      ValueAppend(a, b[..n], base);
      PowStep(base, n);
      AppendSum(Value(a, base), Pow(base, n), base, Value(b[..n], base), b[n]);
    }
  }

  lemma AppendSum(a: nat, p: nat, base: nat, v: nat, x: nat)
    ensures (a * p + v) * base + x == a * (base * p) + (v * base + x)
  {
    assert (a * p + v) * base == a * p * base + v * base;
    assert a * p * base == a * (base * p) by { MulAssoc(a, p, base); assert p * base == base * p; }
  }

  lemma {:induction false} ValueZeros(s: seq<nat>, base: nat)
    requires forall i | 0 <= i < |s| :: s[i] == 0
    ensures Value(s, base) == 0
  {
    if s != [] { ValueZeros(s[..|s| - 1], base); }
  }

  /** Leading zeros do not count. */
  lemma ValueSuffix(s: seq<nat>, k: nat, base: nat)
    requires k <= |s| && forall i | 0 <= i < k :: s[i] == 0
    ensures Value(s[k..], base) == Value(s, base)
  {
    assert s == s[..k] + s[k..];
    ValueAppend(s[..k], s[k..], base);
    ValueZeros(s[..k], base);
  }

  lemma HeldDigits(buf: seq<nat>, base: nat, length: nat, v: nat)
    requires Holds(buf, base, length, v)
    ensures buf[|buf| - length..] == ToBase(v, base)
  {
    hide Pow, Value;
    ValueSuffix(buf, |buf| - length, base);
    Minimal(buf[|buf| - length..], base);
  }

  // ---------------------------------------------------------------- one carry pass

  /** How far the pass has come: `i` places from the end are done and `carry` goes on. */
  ghost predicate Passing(buf: seq<nat>, was: seq<nat>, base: nat, mult: nat, digit: nat, i: nat, carry: nat) {
    && i <= |buf| == |was| && buf[..|buf| - i] == was[..|buf| - i] && Digits(buf, base)
    && Value(buf[|buf| - i..], base) + carry * Pow(base, i) == mult * Value(was[|buf| - i..], base) + digit
  }

  lemma PassStart(buf: seq<nat>, base: nat, mult: nat, digit: nat)
    requires Digits(buf, base)
    ensures Passing(buf, buf, base, mult, digit, 0, digit)
  {
    PowZero(base);
  }

  lemma PassNext(buf: seq<nat>, was: seq<nat>, base: nat, mult: nat, digit: nat, i: nat, carry: nat, x: nat)
    requires base > 0 && Passing(buf, was, base, mult, digit, i, carry) && i < |buf|
    requires x == carry + mult * buf[|buf| - 1 - i]
    ensures Passing(buf[|buf| - 1 - i := x % base], was, base, mult, digit, i + 1, x / base)
  {
    hide Pow, Value;
    var k := |buf| - 1 - i;
    assert buf[..|buf| - i][k] == was[..|buf| - i][k];
    var next := buf[k := x % base];
    assert next[k..] == [x % base] + buf[k + 1..];
    assert was[k..] == [was[k]] + was[k + 1..];
    assert next[..k] == was[..k] by { assert buf[..k] == buf[..|buf| - i][..k] && was[..k] == was[..|buf| - i][..k]; }
    ValueAppend([x % base], buf[k + 1..], base);
    ValueAppend([was[k]], was[k + 1..], base);
    ValueOne(x % base, base);
    ValueOne(was[k], base);
    PowStep(base, i);
    DivMod(x, base);
    ModBelow(x, base);
    PassSum(Value(buf[k + 1..], base), carry, Pow(base, i), mult, Value(was[k + 1..], base), digit, was[k], x % base, x / base, base);
  }

  lemma ModBelow(x: nat, base: nat)
    requires base > 0
    ensures x % base < base
  {
  }

  lemma ValueOne(x: nat, base: nat)
    ensures Value([x], base) == x
  {
    assert [x][..0] == [];
  }

  lemma PassSum(v: nat, carry: nat, p: nat, mult: nat, w: nat, digit: nat, d: nat, low: nat, high: nat, base: nat)
    requires v + carry * p == mult * w + digit && carry + mult * d == high * base + low
    ensures low * p + v + high * (base * p) == mult * (d * p + w) + digit
  {
    assert (high * base + low) * p == high * (base * p) + low * p by { MulAssoc(high, base, p); }
    assert (carry + mult * d) * p == carry * p + mult * (d * p) by { MulAssoc(mult, d, p); }
    assert mult * (d * p + w) == mult * (d * p) + mult * w;
  }

  /** A pass that has gone through all places in use, and has nothing left to carry. */
  lemma PassEnd(buf: seq<nat>, was: seq<nat>, base: nat, mult: nat, digit: nat, i: nat, length: nat)
    requires Passing(buf, was, base, mult, digit, i, 0) && length <= i && length <= |was|
    requires forall j | 0 <= j < |was| - length :: was[j] == 0
    ensures Value(buf, base) == mult * Value(was, base) + digit
    ensures forall j | 0 <= j < |buf| - i :: buf[j] == 0
  {
    hide Pow, Value;
    var k := |buf| - i;
    forall j | 0 <= j < k ensures buf[j] == 0 && was[j] == 0 { assert buf[..k][j] == was[..k][j]; }
    ValueSuffix(buf, k, base);
    ValueSuffix(was, k, base);
  }

  /** With room for the result, nothing is left to carry at the front. */
  lemma PassFits(buf: seq<nat>, was: seq<nat>, base: nat, mult: nat, digit: nat, carry: nat)
    requires Passing(buf, was, base, mult, digit, |buf|, carry) && mult * Value(was, base) + digit < Pow(base, |buf|)
    ensures carry == 0
  {
    hide Pow, Value;
    assert was[0..] == was;
    if carry > 0 { MulMono(1, carry, Pow(base, |buf|)); }
  }

  /** The carry that forced another place shows that the place is needed. */
  lemma PassNeeds(buf: seq<nat>, was: seq<nat>, base: nat, mult: nat, digit: nat, i: nat, carry: nat, length: nat)
    requires Passing(buf, was, base, mult, digit, i, carry) && carry > 0 && length <= i && length <= |was|
    requires forall j | 0 <= j < |was| - length :: was[j] == 0
    ensures mult * Value(was, base) + digit >= Pow(base, i)
  {
    hide Pow, Value;
    ValueSuffix(was, |was| - i, base);
    MulMono(1, carry, Pow(base, i));
  }

  /** Multiplies the number in the buffer and adds a digit, in place. */
  method MulAdd(buf: array<nat>, base: nat, mult: nat, digit: nat, length: nat, ghost v: nat) returns (newLength: nat)
    requires Holds(buf[..], base, length, v) && mult >= 1 && mult * v + digit < Pow(base, buf.Length)
    modifies buf
    ensures Holds(buf[..], base, newLength, mult * v + digit)
  {
    hide Pow, Value, Passing;
    ghost var was := buf[..];
    var carry, i := digit, 0;
    PassStart(was, base, mult, digit);
    while (carry != 0 || i < length) && i < buf.Length
      invariant 0 <= carry && 0 <= i <= buf.Length
      invariant Passing(buf[..], was, base, mult, digit, i, carry)
      invariant i > length ==> Pow(base, i - 1) <= mult * v + digit
      decreases buf.Length - i
    {
      ghost var before := buf[..];
      var k := buf.Length - 1 - i;
      if i >= length { PassNeeds(before, was, base, mult, digit, i, carry, length); }
      carry := carry + mult * buf[k];
      PassNext(before, was, base, mult, digit, i, carry - mult * before[k], carry);
      buf[k] := carry % base;
      carry := carry / base;
      assert buf[..] == before[k := buf[k]];
      i := i + 1;
    }
    if i == buf.Length { PassFits(buf[..], was, base, mult, digit, carry); }
    assert carry == 0;
    PassEnd(buf[..], was, base, mult, digit, i, length);
    newLength := i;
    PassDigits(buf[..], was, base, mult, digit, i, carry);
    assert length > 0 ==> Pow(base, length - 1) <= mult * v + digit by { MulMono(1, mult, v); }
  }

  lemma PassDigits(buf: seq<nat>, was: seq<nat>, base: nat, mult: nat, digit: nat, i: nat, carry: nat)
    requires Passing(buf, was, base, mult, digit, i, carry)
    ensures Digits(buf, base)
  {
  }

  // ---------------------------------------------------------------- encoding

  lemma FreshBuffer(buf: seq<nat>, base: nat)
    requires base > 1 && forall j | 0 <= j < |buf| :: buf[j] == 0
    ensures Holds(buf, base, 0, 0)
  {
    ValueZeros(buf, base);
  }

  /** One more digit of the input still fits. */
  lemma Room(s: seq<nat>, k: nat, from: nat, to: nat, size: nat)
    requires k < |s| && Digits(s, from) && from > 0 && Pow(from, |s|) <= Pow(to, size)
    ensures Value(s[..k + 1], from) == from * Value(s[..k], from) + s[k] < Pow(to, size)
  {
    hide Pow;
    assert s[..k + 1][..k] == s[..k];
    ValueBound(s[..k + 1], from);
    PowMono(from, k + 1, |s|);
  }

  method CountZeroes(input: seq<Byte>) returns (zeroes: nat)
    ensures zeroes == Zeroes(input)
  {
    zeroes := 0;
    while zeroes < |input| && input[zeroes] == 0
      invariant zeroes <= |input| && forall i | 0 <= i < zeroes :: input[i] == 0
    {
      zeroes := zeroes + 1;
    }
    ZeroesAre(input, zeroes);
  }

  /** The bytes after the leading zeros, in a base-58 buffer. */
  method ToBuffer58(input: seq<Byte>) returns (b58: array<nat>, length: nat)
    ensures fresh(b58) && Holds(b58[..], 58, length, Value(input, 256))
  {
    hide Pow, Value, Holds;
    var size := |input| * 138 / 100 + 1;
    b58 := new nat[size](_ => 0);
    length := 0;
    BytesFit(|input|);
    ByteDigits(input);
    FreshBuffer(b58[..], 58);
    NoValue(256);
    assert input[..0] == [];
    for k := 0 to |input|
      invariant fresh(b58) && b58.Length == size
      invariant Holds(b58[..], 58, length, Value(input[..k], 256))
    {
      Room(input, k, 256, 58, size);
      length := MulAdd(b58, 58, 256, input[k], length, Value(input[..k], 256));
    }
    assert input[..|input|] == input;
  }

  lemma NoValue(base: nat)
    ensures Value([], base) == 0
  {
  }

  method EncodeBase58(input: seq<Byte>) returns (str: string)
    ensures str == Encode(input)
  {
    hide Pow, Value, Holds, ToBase, CharOf;
    var zeroes := CountZeroes(input);
    var b58, length := ToBuffer58(input[zeroes..]);
    ghost var v := Value(input[zeroes..], 256);
    HoldsLength(b58[..], 58, length, v);
    var it := b58.Length - length;
    while it != b58.Length && b58[it] == 0
      invariant b58.Length - length <= it <= b58.Length
      invariant forall j | b58.Length - length <= j < it :: b58[j] == 0
      decreases b58.Length - it
    {
      it := it + 1;
    }
    NoLeadingZero(b58[..], length, v, it);
    ToBaseDigits(v, 58);
    ghost var digits := b58[it..];
    str := seq(zeroes, _ => '1');
    ghost var start := it;
    while it != b58.Length
      invariant start <= it <= b58.Length && b58[start..] == digits
      invariant Digits(digits[..it - start], 58) && str == seq(zeroes, _ => '1') + Chars(digits[..it - start])
      decreases b58.Length - it
    {
      assert b58[it] == digits[it - start];
      str := str + [CharOf(b58[it])];
      it := it + 1;
    }
    assert digits[..|digits|] == digits;
  }

  /** The place counted as the first holds a non-zero digit, so there is nothing to skip. */
  lemma NoLeadingZero(buf: seq<nat>, length: nat, v: nat, it: nat)
    requires Holds(buf, 58, length, v) && |buf| - length <= it <= |buf|
    requires forall j | |buf| - length <= j < it :: buf[j] == 0
    ensures it == |buf| - length && buf[it..] == ToBase(v, 58)
  {
    hide Pow, Value, ToBase;
    HeldDigits(buf, 58, length, v);
    EmptyDigits(v, 58);
    if v > 0 { LeadingDigit(v, 58); }
    assert length > 0 ==> buf[|buf| - length..][0] == buf[|buf| - length];
  }

  lemma HoldsLength(buf: seq<nat>, base: nat, length: nat, v: nat)
    requires Holds(buf, base, length, v)
    ensures length <= |buf|
  {
  }

  // ---------------------------------------------------------------- decoding

  /** The digits of a word, in a byte buffer with room for `room` characters; stops at a wrong character or at the limit. */
  method ToBuffer256(word: string, room: nat, zeroes: nat, maxLen: int) returns (ok: bool, b256: array<nat>, length: nat)
    requires |word| <= room
    ensures fresh(b256) && length <= b256.Length
    ensures ok ==> AllDigits(word) && Holds(b256[..], 256, length, Value(Revs(word), 58))
    ensures ok ==> word == [] || length + zeroes <= maxLen
    ensures !ok ==> !AllDigits(word) || (word != [] && |ToBase(Value(Revs(word), 58), 256)| + zeroes > maxLen)
  {
    hide Pow, Value, Holds, Rev, ToBase;
    var size := room * 733 / 1000 + 1;
    b256 := new nat[size](_ => 0);
    length := 0;
    FreshBuffer(b256[..], 256);
    NoValue(58);
    assert word[..0] == [];
    for k := 0 to |word|
      invariant fresh(b256) && b256.Length == size && length <= size
      invariant AllDigits(word[..k]) && Holds(b256[..], 256, length, Value(Revs(word[..k]), 58))
      invariant k > 0 ==> length + zeroes <= maxLen
    {
      var carry := Rev(word[k]);
      if carry == -1 {
        return false, b256, length;
      }
      ghost var before := Revs(word[..k]);
      assert AllDigits(word[..k + 1]) && Revs(word[..k + 1]) == before + [carry as nat];
      RoomForWord(before, carry, room, size);
      length := MulAdd(b256, 256, 58, carry, length, Value(before, 58));
      HoldsLength(b256[..], 256, length, Value(before + [carry as nat], 58));
      if length + zeroes > maxLen {
        ghost var longer := Revs(word[..k + 1]);
        HeldDigits(b256[..], 256, length, Value(longer, 58));
        if AllDigits(word) { LongerWord(word, k + 1); }
        return false, b256, length;
      }
    }
    assert word[..|word|] == word;
    ok := true;
  }

  lemma RoomForWord(before: seq<nat>, carry: nat, room: nat, size: nat)
    requires Digits(before, 58) && carry < 58 && |before| < room && size == Room256(room)
    ensures Value(before + [carry], 58) == 58 * Value(before, 58) + carry < Pow(256, size)
  {
    hide Pow;
    CharactersFit(room);
    var s := before + [carry];
    assert s[..|before|] == before;
    ValueBound(s, 58);
    PowMono(58, |s|, room);
  }

  /** More digits never make a shorter number. */
  lemma LongerWord(word: string, k: nat)
    requires k <= |word| && AllDigits(word) && AllDigits(word[..k])
    ensures |ToBase(Value(Revs(word), 58), 256)| >= |ToBase(Value(Revs(word[..k]), 58), 256)|
  {
    hide ToBase, Value, Pow;
    var a, b := Revs(word[..k]), Revs(word[k..]);
    assert Revs(word) == a + b;
    ValueAppend(a, b, 58);
    PowPositive(58, |b|);
    MulMono(1, Pow(58, |b|), Value(a, 58));
    LongerNumber(Value(a, 58), Value(a + b, 58), 256);
  }

  lemma {:induction false} LongerNumber(v: nat, w: nat, base: nat)
    requires base > 1 && v <= w
    ensures |ToBase(v, base)| <= |ToBase(w, base)|
    decreases w
  {
    if v > 0 {
      DivSmaller(w, base);
      DivBounds(v, base);
      DivBounds(w, base);
      if v / base > w / base { MulMono(w / base + 1, v / base, base); }
      LongerNumber(v / base, w / base, base);
    }
  }

  method SkipSpaces(s: string, from: nat) returns (p: nat)
    requires from <= |s|
    ensures p == SpacesFrom(s, from)
  {
    p := from;
    while p < |s| && IsSpace(s[p])
      invariant from <= p <= |s| && SpacesFrom(s, p) == SpacesFrom(s, from)
    {
      p := p + 1;
    }
  }

  method FindWordEnd(s: string, from: nat) returns (p: nat)
    requires from <= |s|
    ensures p == WordFrom(s, from)
  {
    p := from;
    while p < |s| && !IsSpace(s[p])
      invariant from <= p <= |s| && WordFrom(s, p) == WordFrom(s, from)
    {
      p := p + 1;
    }
  }

  /** Leading ones, up to the limit. */
  method CountOnes(s: string, from: nat, maxLen: int) returns (ok: bool, p: nat)
    requires from <= |s|
    ensures ok <==> OnesFrom(s, from) == from || OnesFrom(s, from) - from <= maxLen
    ensures ok ==> p == OnesFrom(s, from)
  {
    p := from;
    while p < |s| && s[p] == '1'
      invariant from <= p <= |s| && OnesFrom(s, p) == OnesFrom(s, from)
      invariant p > from ==> p - from <= maxLen
    {
      p := p + 1;
      if p - from > maxLen {
        return false, p;
      }
    }
    ok := true;
  }

  method DecodeBase58(s: string, maxLen: int) returns (ok: bool, vch: seq<Byte>)
    ensures Decode(s, maxLen) == if ok then Some(vch) else None
  {
    hide Pow, Value, Holds, Rev, ToBase, AllDigits, SpacesFrom, OnesFrom, WordFrom, IsSpace, Revs;
    vch := [];
    if '\0' in s {
      return false, vch;
    }
    var lead := SkipSpaces(s, 0);
    var first, length, b256;
    ok, first := CountOnes(s, lead, maxLen);
    if !ok {
      return;
    }
    var zeroes := first - lead;
    var end := FindWordEnd(s, first);
    ok, b256, length := ToBuffer256(s[first..end], |s| - first, zeroes, maxLen);
    if !ok {
      return;
    }
    ghost var v := Value(Revs(s[first..end]), 58);
    var rest := SkipSpaces(s, end);
    if rest != |s| {
      return false, vch;
    }
    HeldDigits(b256[..], 256, length, v);
    ToBaseDigits(v, 256);
    vch := seq(zeroes, _ => 0);
    var it := b256.Length - length;
    ghost var start, digits := it, b256[it..];
    while it != b256.Length
      invariant start <= it <= b256.Length && b256[start..] == digits
      invariant vch == seq(zeroes, _ => 0) + digits[..it - start]
      decreases b256.Length - it
    {
      assert b256[it] == digits[it - start];
      vch := vch + [b256[it]];
      it := it + 1;
    }
    assert digits[..|digits|] == digits;
  }
}
