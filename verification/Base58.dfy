/** Base58 text on values: leading zeros as '1', the rest as a number. */
module Base58 {
  import opened Basics
  import opened Radix
  import opened Powers

  type Byte = x: nat | x < 256

  // ---------------------------------------------------------------- characters

  /** Alphanumeric characters in order, without 0, I, O and l. */
  function CharOf(d: nat): char
    requires d < 58
  {
    if d < 9 then ('1' as int + d) as char
    else if d < 17 then ('A' as int + d - 9) as char
    else if d < 22 then ('J' as int + d - 17) as char
    else if d < 33 then ('P' as int + d - 22) as char
    else if d < 44 then ('a' as int + d - 33) as char
    else ('m' as int + d - 44) as char
  }

  /** The digit of a character, or -1. */
  function Rev(c: char): (r: int)
    ensures -1 <= r < 58
  {
    if '1' <= c <= '9' then c as int - '1' as int
    else if 'A' <= c <= 'H' then c as int - 'A' as int + 9
    else if 'J' <= c <= 'N' then c as int - 'J' as int + 17
    else if 'P' <= c <= 'Z' then c as int - 'P' as int + 22
    else if 'a' <= c <= 'k' then c as int - 'a' as int + 33
    else if 'm' <= c <= 'z' then c as int - 'm' as int + 44
    else -1
  }

  lemma RevOfChar(d: nat)
    requires d < 58
    ensures Rev(CharOf(d)) == d && !IsSpace(CharOf(d)) && CharOf(d) != '\0' && (CharOf(d) == '1' <==> d == 0)
  {
  }

  lemma CharOfRev(c: char)
    requires Rev(c) != -1
    ensures CharOf(Rev(c)) == c && !IsSpace(c) && c != '\0' && (c == '1' <==> Rev(c) == 0)
  {
  }

  predicate IsSpace(c: char) {
    c == ' ' || c as int == 12 || c == '\n' || c == '\r' || c == '\t' || c as int == 11
  }

  function Chars(s: seq<nat>): (r: string)
    requires Digits(s, 58)
    ensures |r| == |s| && forall i | 0 <= i < |s| :: r[i] == CharOf(s[i])
  {
    seq(|s|, i requires 0 <= i < |s| => CharOf(s[i]))
  }

  predicate AllDigits(s: string) {
    forall i | 0 <= i < |s| :: Rev(s[i]) != -1
  }

  function Revs(s: string): (r: seq<nat>)
    requires AllDigits(s)
    ensures |r| == |s| && forall i | 0 <= i < |s| :: r[i] == Rev(s[i])
  {
    seq<nat>(|s|, i requires 0 <= i < |s| => Rev(s[i]))
  }

  // ---------------------------------------------------------------- encoding

  /** How many zero bytes lead. */
  function Zeroes(b: seq<nat>): (r: nat)
    ensures r <= |b| && (forall i | 0 <= i < r :: b[i] == 0) && (r < |b| ==> b[r] != 0)
  {
    if b != [] && b[0] == 0 then 1 + Zeroes(b[1..]) else 0
  }

  function Encode(b: seq<Byte>): string {
    var z := Zeroes(b);
    ToBaseDigits(Value(b[z..], 256), 58);
    seq(z, _ => '1') + Chars(ToBase(Value(b[z..], 256), 58))
  }

  // ---------------------------------------------------------------- decoding

  /** How many characters satisfy the test from a position on. */
  function SpacesFrom(s: string, i: nat): (r: nat)
    requires i <= |s|
    ensures i <= r <= |s| && (forall k | i <= k < r :: IsSpace(s[k])) && (r < |s| ==> !IsSpace(s[r]))
    decreases |s| - i
  {
    if i < |s| && IsSpace(s[i]) then SpacesFrom(s, i + 1) else i
  }

  function OnesFrom(s: string, i: nat): (r: nat)
    requires i <= |s|
    ensures i <= r <= |s| && (forall k | i <= k < r :: s[k] == '1') && (r < |s| ==> s[r] != '1')
    decreases |s| - i
  {
    if i < |s| && s[i] == '1' then OnesFrom(s, i + 1) else i
  }

  function WordFrom(s: string, i: nat): (r: nat)
    requires i <= |s|
    ensures i <= r <= |s| && (forall k | i <= k < r :: !IsSpace(s[k])) && (r < |s| ==> IsSpace(s[r]))
    decreases |s| - i
  {
    if i < |s| && !IsSpace(s[i]) then WordFrom(s, i + 1) else i
  }

  /** As many zero bytes as there are ones, and the bytes of the number; refused when there are too many. */
  function Assemble(ones: nat, digits: seq<nat>, maxLen: int): Option<seq<Byte>> {
    var v := Value(digits, 58);
    ToBaseDigits(v, 256);
    var bytes := ToBase(v, 256);
    if ones > 0 && ones > maxLen then None
    else if digits != [] && |bytes| + ones > maxLen then None
    else Some(seq(ones, _ => 0) + bytes)
  }

  /** Leading spaces, ones, digits, trailing spaces and nothing more. */
  function Decode(s: string, maxLen: int): Option<seq<Byte>> {
    if '\0' in s then None
    else
      var lead := SpacesFrom(s, 0);
      var first := OnesFrom(s, lead);
      var end := WordFrom(s, first);
      if !AllDigits(s[first..end]) || SpacesFrom(s, end) < |s| then None
      else Assemble(first - lead, Revs(s[first..end]), maxLen)
  }

  // ---------------------------------------------------------------- round trips

  lemma EncodedShape(b: seq<Byte>)
    ensures
      var s, z := Encode(b), Zeroes(b);
      var digits := ToBase(Value(b[z..], 256), 58);
      && Digits(digits, 58) && |s| == z + |digits| && AllDigits(s) && s[z..] == Chars(digits)
      && SpacesFrom(s, 0) == 0 && OnesFrom(s, 0) == z && WordFrom(s, z) == |s| && SpacesFrom(s, |s|) == |s|
      && '\0' !in s
  {
    var z := Zeroes(b);
    var v := Value(b[z..], 256);
    var digits, s := ToBase(v, 58), Encode(b);
    hide CharOf, Rev, IsSpace;
    ToBaseDigits(v, 58);
    assert |s| == z + |digits|;
    forall i | 0 <= i < |s| ensures Rev(s[i]) != -1 && !IsSpace(s[i]) && s[i] != '\0' {
      if i < z { RevOfChar(0); OneIsZero(); } else { RevOfChar(digits[i - z]); }
    }
    if digits != [] {
      LeadingDigit(v, 58);
      RevOfChar(digits[0]);
      assert s[z] == CharOf(digits[0]);
    }
    OnesAre(s, 0, z);
    WordIs(s, z);
  }

  lemma OneIsZero()
    ensures CharOf(0) == '1'
  {
  }

  lemma {:induction false} LeadingDigit(v: nat, base: nat)
    requires base > 1 && v > 0
    ensures ToBase(v, base) != [] && ToBase(v, base)[0] > 0
    decreases v
  {
    DivSmaller(v, base);
    if v / base > 0 { LeadingDigit(v / base, base); } else { DivMod(v, base); }
  }

  lemma {:induction false} OnesAre(s: string, i: nat, z: nat)
    requires i <= z <= |s| && (forall k | i <= k < z :: s[k] == '1') && (z < |s| ==> s[z] != '1')
    ensures OnesFrom(s, i) == z
    decreases z - i
  {
    if i < z { OnesAre(s, i + 1, z); }
  }

  lemma {:induction false} WordIs(s: string, i: nat)
    requires i <= |s| && forall k | i <= k < |s| :: !IsSpace(s[k])
    ensures WordFrom(s, i) == |s|
    decreases |s| - i
  {
    if i < |s| { WordIs(s, i + 1); }
  }

  lemma RevsChars(d: seq<nat>)
    requires Digits(d, 58)
    ensures AllDigits(Chars(d)) && Revs(Chars(d)) == d
  {
    hide CharOf, Rev;
    forall i | 0 <= i < |d| ensures Rev(CharOf(d[i])) == d[i] { RevOfChar(d[i]); }
  }

  lemma ByteDigits(b: seq<Byte>)
    ensures Digits(b, 256)
  {
  }

  /** A text without spaces. */
  lemma DecodeWord(s: string, z: nat, digits: seq<nat>, maxLen: int)
    requires '\0' !in s && SpacesFrom(s, 0) == 0 && OnesFrom(s, 0) == z && WordFrom(s, z) == |s| && SpacesFrom(s, |s|) == |s|
    requires Digits(digits, 58) && s[z..] == Chars(digits)
    ensures Decode(s, maxLen) == Assemble(z, digits, maxLen)
  {
    hide Assemble, AllDigits, Revs, Chars, Digits;
    RevsChars(digits);
    assert s[z..|s|] == s[z..];
  }

  lemma DecodeEncoded(b: seq<Byte>, maxLen: int)
    ensures Decode(Encode(b), maxLen) == Assemble(Zeroes(b), ToBase(Value(b[Zeroes(b)..], 256), 58), maxLen)
  {
    hide Encode, Decode, Zeroes, ToBase, Chars, AllDigits, Assemble, Digits, Value;
    EncodedShape(b);
    DecodeWord(Encode(b), Zeroes(b), ToBase(Value(b[Zeroes(b)..], 256), 58), maxLen);
  }

  /** Decoding undoes encoding exactly when the limit allows as many bytes; an empty result passes any limit. */
  lemma RoundTripIff(b: seq<Byte>, maxLen: int)
    ensures Decode(Encode(b), maxLen) == if |b| <= maxLen || b == [] then Some(b) else None
  {
    hide Encode, Decode, Zeroes, ToBase, Value;
    var z := Zeroes(b);
    var v := Value(b[z..], 256);
    DecodeEncoded(b, maxLen);
    ValueToBase(v, 58);
    Significant(b[Zeroes(b)..], 256);
    ZeroPrefix(b);
    EmptyDigits(v, 58);
    EmptyDigits(v, 256);
  }

  /** What is accepted is within the limit or empty, */
  lemma AcceptedWithin(s: string, maxLen: int)
    requires Decode(s, maxLen).Some?
    ensures |Decode(s, maxLen).value| <= maxLen || Decode(s, maxLen).value == []
  {
    EmptyDigits(0, 256);
  }

  /** and the empty result passes every limit. */
  lemma EmptyAccepted(maxLen: int)
    ensures Decode("", maxLen) == Some([])
  {
    var s := "";
    assert SpacesFrom(s, 0) == 0 && OnesFrom(s, 0) == 0 && WordFrom(s, 0) == 0;
    assert Revs(s[0..0]) == [] && SpacesFrom(s, 0) == |s|;
    EmptyDigits(0, 256);
    assert seq(0, _ => 0) + ToBase(0, 256) == [];
  }

  lemma ZeroPrefix(b: seq<Byte>)
    ensures seq(Zeroes(b), _ => 0) + b[Zeroes(b)..] == b
  {
  }

  lemma EmptyDigits(v: nat, base: nat)
    requires base > 1
    ensures ToBase(v, base) == [] <==> v == 0
  {
  }

  /** The text between the spaces. */
  function Trimmed(s: string): string {
    var lead := SpacesFrom(s, 0);
    s[lead..WordFrom(s, lead)]
  }

  /** Encoding what was assembled gives back the ones and the digits. */
  lemma EncodeAssembled(ones: nat, digits: seq<nat>, maxLen: int)
    requires Assemble(ones, digits, maxLen).Some? && Digits(digits, 58) && ToBase(Value(digits, 58), 58) == digits
    ensures Encode(Assemble(ones, digits, maxLen).value) == seq(ones, _ => '1') + Chars(digits)
  {
    hide Zeroes, Chars, ToBase, Value, Digits;
    var v := Value(digits, 58);
    var b := Assemble(ones, digits, maxLen).value;
    DecodedZeroes(v, ones);
    ValueToBase(v, 256);
    assert b[ones..] == ToBase(v, 256);
  }

  /** Encoding undoes decoding, up to the spaces around. */
  lemma EncodeDecoded(s: string, maxLen: int)
    requires Decode(s, maxLen).Some?
    ensures Encode(Decode(s, maxLen).value) == Trimmed(s)
  {
    hide CharOf, Rev, IsSpace, Encode, Assemble, AllDigits, ToBase, Value;
    var lead := SpacesFrom(s, 0);
    var first := OnesFrom(s, lead);
    var end := WordFrom(s, first);
    BodyDigits(s, first, end);
    EncodeAssembled(first - lead, Revs(s[first..end]), maxLen);
    CharsRevs(s[first..end]);
    WordFromOnes(s, lead, first);
    assert s[lead..end] == s[lead..first] + s[first..end];
    assert s[lead..first] == seq(first - lead, _ => '1');
  }

  lemma CharsRevs(s: string)
    requires AllDigits(s)
    ensures Digits(Revs(s), 58) && Chars(Revs(s)) == s
  {
    hide CharOf, Rev;
    forall i | 0 <= i < |s| ensures CharOf(Rev(s[i])) == s[i] { CharOfRev(s[i]); }
  }

  /** The digits after the ones have no leading zero. */
  lemma BodyDigits(s: string, first: nat, end: nat)
    requires first <= end <= |s| && (first < |s| ==> s[first] != '1') && AllDigits(s[first..end])
    ensures Digits(Revs(s[first..end]), 58)
    ensures ToBase(Value(Revs(s[first..end]), 58), 58) == Revs(s[first..end])
  {
    hide CharOf;
    var d := Revs(s[first..end]);
    if d != [] {
      CharOfRev(s[first]);
      assert s[first..end][0] == s[first];
    }
    Significant(d, 58);
  }

  lemma DecodedZeroes(v: nat, z: nat)
    ensures Digits(ToBase(v, 256), 256)
    ensures Zeroes(seq(z, _ => 0) + ToBase(v, 256)) == z
  {
    ToBaseDigits(v, 256);
    if v > 0 { LeadingDigit(v, 256); }
    var b := seq(z, _ => 0) + ToBase(v, 256);
    ZeroesAre(b, z);
  }

  lemma {:induction false} ZeroesAre(b: seq<nat>, z: nat)
    requires z <= |b| && (forall i | 0 <= i < z :: b[i] == 0) && (z < |b| ==> b[z] != 0)
    ensures Zeroes(b) == z
    decreases |b|
  {
    if z > 0 { ZeroesAre(b[1..], z - 1); }
  }

  lemma {:induction false} WordFromOnes(s: string, i: nat, first: nat)
    requires i <= first <= |s| && forall k | i <= k < first :: s[k] == '1'
    ensures WordFrom(s, i) == WordFrom(s, first)
    decreases first - i
  {
    if i < first {
      NotSpace();
      WordFromOnes(s, i + 1, first);
    }
  }

  lemma NotSpace()
    ensures !IsSpace('1')
  {
  }

  // ---------------------------------------------------------------- with a checksum

  const INT_MAX := 0x7fff_ffff

  /** The first four bytes of a hash. */
  type Check = (seq<Byte>) -> (Byte, Byte, Byte, Byte)

  function CheckBytes(check: Check, b: seq<Byte>): seq<Byte> {
    var h := check(b);
    [h.0, h.1, h.2, h.3]
  }

  function EncodeCheck(check: Check, b: seq<Byte>): string {
    Encode(b + CheckBytes(check, b))
  }

  /** The limit with room for the checksum, without overflow. */
  function WithCheck(maxLen: int): int {
    if maxLen > INT_MAX - 4 then INT_MAX else maxLen + 4
  }

  function DecodeCheck(check: Check, s: string, maxLen: int): Option<seq<Byte>> {
    var d := Decode(s, WithCheck(maxLen));
    if d.None? || |d.value| < 4 then None
    else
      var n := |d.value| - 4;
      if CheckBytes(check, d.value[..n]) != d.value[n..] then None else Some(d.value[..n])
  }

  lemma CheckRoundTripIff(check: Check, b: seq<Byte>, maxLen: int)
    ensures DecodeCheck(check, EncodeCheck(check, b), maxLen) == if |b| + 4 <= WithCheck(maxLen) then Some(b) else None
  {
    hide Encode, Decode;
    var whole := b + CheckBytes(check, b);
    assert whole[..|b|] == b && whole[|b|..] == CheckBytes(check, b);
    RoundTripIff(whole, WithCheck(maxLen));
  }

  lemma CheckedText(check: Check, s: string, maxLen: int)
    requires DecodeCheck(check, s, maxLen).Some?
    ensures EncodeCheck(check, DecodeCheck(check, s, maxLen).value) == Trimmed(s)
  {
    hide Encode, Decode, Trimmed;
    var d := Decode(s, WithCheck(maxLen)).value;
    assert d == d[..|d| - 4] + d[|d| - 4..];
    EncodeDecoded(s, WithCheck(maxLen));
  }

  // ---------------------------------------------------------------- the alphabet and two texts

  const ALPHABET := "123456789" + "ABCDEFGHJKLMNPQRSTUVWXYZ" + "abcdefghijkmnopqrstuvwxyz"

  lemma Alphabet0(d: nat)
    requires 0 <= d < 9
    ensures CharOf(d) == ALPHABET[d]
  {
    assert ALPHABET[0] == '1' && ALPHABET[1] == '2' && ALPHABET[2] == '3' && ALPHABET[3] == '4';
    assert ALPHABET[4] == '5' && ALPHABET[5] == '6' && ALPHABET[6] == '7' && ALPHABET[7] == '8' && ALPHABET[8] == '9';
  }

  lemma Alphabet1(d: nat)
    requires 9 <= d < 17
    ensures CharOf(d) == ALPHABET[d]
  {
    assert ALPHABET[9] == 'A' && ALPHABET[10] == 'B' && ALPHABET[11] == 'C' && ALPHABET[12] == 'D';
    assert ALPHABET[13] == 'E' && ALPHABET[14] == 'F' && ALPHABET[15] == 'G' && ALPHABET[16] == 'H';
  }

  lemma Alphabet2(d: nat)
    requires 17 <= d < 22
    ensures CharOf(d) == ALPHABET[d]
  {
  }

  lemma Alphabet3(d: nat)
    requires 22 <= d < 33
    ensures CharOf(d) == ALPHABET[d]
  {
  }

  lemma Alphabet4(d: nat)
    requires 33 <= d < 44
    ensures CharOf(d) == ALPHABET[d]
  {
  }

  lemma Alphabet5(d: nat)
    requires 44 <= d < 58
    ensures CharOf(d) == ALPHABET[d]
  {
  }

  /** The characters in the order of their digits. */
  lemma Alphabet(d: nat)
    requires d < 58
    ensures CharOf(d) == ALPHABET[d]
  {
    hide CharOf;
    if d < 9 {
      Alphabet0(d);
    } else if d < 17 {
      Alphabet1(d);
    } else if d < 22 {
      Alphabet2(d);
    } else if d < 33 {
      Alphabet3(d);
    } else if d < 44 {
      Alphabet4(d);
    } else {
      Alphabet5(d);
    }
  }

  /** Spaces are the blank and the five control characters from tab to carriage return. */
  lemma Spaces(c: char)
    ensures IsSpace(c) <==> c as int == 32 || 9 <= c as int <= 13
  {
  }

  lemma DigitsOf(v: nat, d: nat, rest: nat)
    requires v == rest * 58 + d && d < 58 && v > 0
    ensures ToBase(v, 58) == ToBase(rest, 58) + [d]
  {
    ModUnique(v, 58, rest, d);
  }

  /** The texts for one byte 0x61 and three bytes 0x62. */
  lemma Texts()
    ensures Encode([0x61]) == "2g" && Encode([0x62, 0x62, 0x62]) == "a3gV"
  {
    hide CharOf, Zeroes, Value, ToBase;
    Alphabet(1);
    Alphabet(39);
    Alphabet(33);
    Alphabet(2);
    Alphabet(28);
    OneByte();
    ThreeBytes();
    assert Encode([0x61]) == [CharOf(1), CharOf(39)];
    assert Encode([0x62, 0x62, 0x62]) == [CharOf(33), CharOf(2), CharOf(39), CharOf(28)];
  }

  lemma OneByte()
    ensures Zeroes([0x61]) == 0 && Value([0x61][0..], 256) == 97 && ToBase(97, 58) == [1, 39]
  {
    assert [0x61][0..] == [0x61] && [0x61][..0] == [];
    DigitsOf(97, 39, 1);
    DigitsOf(1, 1, 0);
  }

  lemma ThreeBytes()
    ensures Zeroes([0x62, 0x62, 0x62]) == 0 && Value([0x62, 0x62, 0x62][0..], 256) == 0x626262
    ensures ToBase(0x626262, 58) == [33, 2, 39, 28]
  {
    var b: seq<nat> := [0x62, 0x62, 0x62];
    var c: seq<nat> := [0x62, 0x62];
    var d: seq<nat> := [0x62];
    assert b[0..] == b && b[..2] == c && c[..1] == d && d[..0] == [];
    assert Value(d, 256) == 0x62 && Value(c, 256) == 0x6262;
    DigitsOf(0x626262, 28, 111167);
    DigitsOf(111167, 39, 1916);
    DigitsOf(1916, 2, 33);
    DigitsOf(33, 33, 0);
  }
}
