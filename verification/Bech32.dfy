/** Bech32 and Bech32m strings (BIP 173, BIP 350) on values. */
module Bech32 {
  import opened Bech32Poly

  datatype Encoding = BECH32 | BECH32M
  datatype Decoded = Invalid | Decoded(encoding: Encoding, hrp: string, data: seq<Symbol>)

  function Constant(e: Encoding): nat {
    if e == BECH32 then 1 else 0x2bc830a3
  }

  // ---------------------------------------------------------------- characters

  /** The character of a symbol. */
  function CharOf(v: Symbol): char {
    match v
    case 0 => 'q'
    case 1 => 'p'
    case 2 => 'z'
    case 3 => 'r'
    case 4 => 'y'
    case 5 => '9'
    case 6 => 'x'
    case 7 => '8'
    case 8 => 'g'
    case 9 => 'f'
    case 10 => '2'
    case 11 => 't'
    case 12 => 'v'
    case 13 => 'd'
    case 14 => 'w'
    case 15 => '0'
    case 16 => 's'
    case 17 => '3'
    case 18 => 'j'
    case 19 => 'n'
    case 20 => '5'
    case 21 => '4'
    case 22 => 'k'
    case 23 => 'h'
    case 24 => 'c'
    case 25 => 'e'
    case 26 => '6'
    case 27 => 'm'
    case 28 => 'u'
    case 29 => 'a'
    case 30 => '7'
    case _ => 'l'
  }

  /** The symbol of a character in either case, or -1. */
  function Rev(c: char): (r: int)
    ensures -1 <= r < 32
  {
    match c
    case 'q' | 'Q' => 0
    case 'p' | 'P' => 1
    case 'z' | 'Z' => 2
    case 'r' | 'R' => 3
    case 'y' | 'Y' => 4
    case '9' => 5
    case 'x' | 'X' => 6
    case '8' => 7
    case 'g' | 'G' => 8
    case 'f' | 'F' => 9
    case '2' => 10
    case 't' | 'T' => 11
    case 'v' | 'V' => 12
    case 'd' | 'D' => 13
    case 'w' | 'W' => 14
    case '0' => 15
    case 's' | 'S' => 16
    case '3' => 17
    case 'j' | 'J' => 18
    case 'n' | 'N' => 19
    case '5' => 20
    case '4' => 21
    case 'k' | 'K' => 22
    case 'h' | 'H' => 23
    case 'c' | 'C' => 24
    case 'e' | 'E' => 25
    case '6' => 26
    case 'm' | 'M' => 27
    case 'u' | 'U' => 28
    case 'a' | 'A' => 29
    case '7' => 30
    case 'l' | 'L' => 31
    case _ => -1
  }

  predicate IsUpper(c: char) {
    'A' <= c <= 'Z'
  }

  predicate IsLower(c: char) {
    'a' <= c <= 'z'
  }

  predicate Printable(c: char) {
    33 <= c as int <= 126
  }

  function LowerCase(c: char): char {
    if IsUpper(c) then ((c as int - 'A' as int) + 'a' as int) as char else c
  }

  lemma RevOfLow(v: Symbol)
    requires v < 16
    ensures Rev(CharOf(v)) == v
  {
  }

  lemma RevOfHigh(v: Symbol)
    requires v >= 16
    ensures Rev(CharOf(v)) == v
  {
  }

  lemma RevOfChar(v: Symbol)
    ensures Rev(CharOf(v)) == v
  {
    hide Rev, CharOf;
    if v < 16 { RevOfLow(v); } else { RevOfHigh(v); }
  }

  lemma CharRange(v: Symbol)
    ensures CharOf(v) != '1' && !IsUpper(CharOf(v)) && Printable(CharOf(v))
  {
  }

  lemma CharOfRev(c: char)
    requires Rev(c) != -1
    ensures CharOf(Rev(c)) == LowerCase(c) && c != '1'
  {
  }

  function Chars(s: seq<Symbol>): (r: string)
    ensures |r| == |s| && forall i | 0 <= i < |s| :: r[i] == CharOf(s[i])
  {
    seq(|s|, i requires 0 <= i < |s| => CharOf(s[i]))
  }

  function Lower(s: string): (r: string)
    ensures |r| == |s| && forall i | 0 <= i < |s| :: r[i] == LowerCase(s[i])
  {
    seq(|s|, i requires 0 <= i < |s| => LowerCase(s[i]))
  }

  // ---------------------------------------------------------------- checksums

  predicate Bytes(s: string) {
    forall i | 0 <= i < |s| :: s[i] as int < 256
  }

  /** High bits of each character, a zero, and the low bits. */
  function ExpandHRP(hrp: string): seq<Symbol>
    requires Bytes(hrp)
  {
    seq<Symbol>(|hrp|, i requires 0 <= i < |hrp| => hrp[i] as int / 32) + [0]
    + seq<Symbol>(|hrp|, i requires 0 <= i < |hrp| => hrp[i] as int % 32)
  }

  function VerifyChecksum(hrp: string, values: seq<Symbol>): (r: Decoded)
    requires Bytes(hrp) && |values| >= 6
  {
    var check := PolyMod(ExpandHRP(hrp) + values);
    if check == Constant(BECH32) then Decoded(BECH32, hrp, values[..|values| - 6])
    else if check == Constant(BECH32M) then Decoded(BECH32M, hrp, values[..|values| - 6])
    else Invalid
  }

  function CreateChecksum(e: Encoding, hrp: string, values: seq<Symbol>): seq<Symbol>
    requires Bytes(hrp)
  {
    Checksum(ExpandHRP(hrp) + values, Constant(e))
  }

  /** Values verify exactly when they end in the checksum of the ones before. */
  lemma VerifyIff(e: Encoding, hrp: string, values: seq<Symbol>)
    requires Bytes(hrp) && |values| >= 6
    ensures
      var n := |values| - 6;
      VerifyChecksum(hrp, values) == Decoded(e, hrp, values[..n]) <==> values[n..] == CreateChecksum(e, hrp, values[..n])
  {
    hide PolyFrom, Checksum, ExpandHRP;
    var n := |values| - 6;
    var x := ExpandHRP(hrp);
    assert x + values == x + values[..n] + values[n..];
    ChecksumIff(x + values[..n], Constant(e), values[n..]);
  }

  // ---------------------------------------------------------------- encoding

  predicate NoUpper(s: string) {
    forall i | 0 <= i < |s| :: !IsUpper(s[i])
  }

  function Encode(e: Encoding, hrp: string, values: seq<Symbol>): string
    requires Bytes(hrp)
  {
    hrp + "1" + Chars(values + CreateChecksum(e, hrp, values))
  }

  // ---------------------------------------------------------------- decoding

  predicate AllPrintable(s: string) {
    forall i | 0 <= i < |s| :: Printable(s[i])
  }

  predicate MixedCase(s: string) {
    (exists i | 0 <= i < |s| :: IsLower(s[i])) && (exists i | 0 <= i < |s| :: IsUpper(s[i]))
  }

  /** The last separator, or -1. */
  function LastOne(s: string): (r: int)
    ensures -1 <= r < |s|
    ensures r >= 0 ==> s[r] == '1'
    ensures forall i | r < i < |s| :: s[i] != '1'
  {
    if s == "" then -1 else if s[|s| - 1] == '1' then |s| - 1 else LastOne(s[..|s| - 1])
  }

  predicate AllInCharset(s: string) {
    forall i | 0 <= i < |s| :: Rev(s[i]) != -1
  }

  function Values(s: string): (r: seq<Symbol>)
    requires AllInCharset(s)
    ensures |r| == |s| && forall i | 0 <= i < |s| :: r[i] == Rev(s[i])
  {
    seq<Symbol>(|s|, i requires 0 <= i < |s| => Rev(s[i]))
  }

  lemma LowerBytes(s: string)
    requires AllPrintable(s)
    ensures AllPrintable(Lower(s)) && Bytes(Lower(s)) && NoUpper(Lower(s))
  {
  }

  function Decode(s: string): Decoded {
    if !AllPrintable(s) || MixedCase(s) then Invalid
    else
      var pos := LastOne(s);
      if |s| > 90 || pos == -1 || pos == 0 || pos + 7 > |s| then Invalid
      else if !AllInCharset(s[pos + 1..]) then Invalid
      else
        LowerBytes(s[..pos]);
        VerifyChecksum(Lower(s[..pos]), Values(s[pos + 1..]))
  }

  // ---------------------------------------------------------------- round trips

  /** What a decodable string allows. */
  predicate Fits(hrp: string, values: seq<Symbol>) {
    |hrp| >= 1 && AllPrintable(hrp) && |hrp| + 1 + |values| + 6 <= 90
  }

  lemma EncodedShape(e: Encoding, hrp: string, values: seq<Symbol>)
    requires Bytes(hrp) && NoUpper(hrp)
    ensures
      var s := Encode(e, hrp, values);
      && |s| == |hrp| + 1 + |values| + 6 && LastOne(s) == |hrp|
      && s[..|hrp|] == hrp && s[|hrp| + 1..] == Chars(values + CreateChecksum(e, hrp, values))
      && !MixedCase(s) && (AllPrintable(s) <==> AllPrintable(hrp))
  {
    hide CharOf, CreateChecksum;
    var v := values + CreateChecksum(e, hrp, values);
    ChecksumLength(e, hrp, values);
    var s := Encode(e, hrp, values);
    forall i | 0 <= i < |v| ensures v[i] < 32 && CharOf(v[i]) != '1' && !IsUpper(CharOf(v[i])) && Printable(CharOf(v[i])) {
      CharRange(v[i]);
    }
    assert forall i | |hrp| < i < |s| :: s[i] == CharOf(v[i - |hrp| - 1]);
    assert s[|hrp|] == '1';
    assert forall i | 0 <= i < |s| :: !IsUpper(s[i]);
    if AllPrintable(s) {
      forall i | 0 <= i < |hrp| ensures Printable(hrp[i]) { assert s[i] == hrp[i]; }
    }
  }

  lemma ChecksumLength(e: Encoding, hrp: string, values: seq<Symbol>)
    requires Bytes(hrp)
    ensures |CreateChecksum(e, hrp, values)| == 6
  {
    hide Checksum, ExpandHRP;
  }

  lemma CharsBack(v: seq<Symbol>)
    ensures AllInCharset(Chars(v)) && Values(Chars(v)) == v
  {
    hide CharOf, Rev;
    forall i | 0 <= i < |v| ensures Rev(CharOf(v[i])) == v[i] { RevOfChar(v[i]); }
  }

  lemma LowerSame(s: string)
    requires NoUpper(s)
    ensures Lower(s) == s
  {
  }

  /** Decoding undoes encoding exactly for what fits: a non-empty printable prefix and at most 90 characters. */
  lemma RoundTripIff(e: Encoding, hrp: string, values: seq<Symbol>)
    requires Bytes(hrp) && NoUpper(hrp)
    ensures Decode(Encode(e, hrp, values)) == Decoded(e, hrp, values) <==> Fits(hrp, values)
  {
    hide CreateChecksum, Chars, Values, AllPrintable, MixedCase, AllInCharset, VerifyChecksum, LastOne, NoUpper, Encode;
    var v := values + CreateChecksum(e, hrp, values);
    ChecksumLength(e, hrp, values);
    EncodedShape(e, hrp, values);
    CharsBack(v);
    LowerSame(hrp);
    assert v[..|v| - 6] == values && v[|v| - 6..] == CreateChecksum(e, hrp, values);
    VerifyIff(e, hrp, v);
  }

  lemma CharsOfValues(s: string)
    requires AllInCharset(s)
    ensures Chars(Values(s)) == Lower(s)
  {
    hide CharOf, Rev, LowerCase;
    forall i | 0 <= i < |s| ensures CharOf(Rev(s[i])) == LowerCase(s[i]) { CharOfRev(s[i]); }
  }

  /** Encoding undoes decoding, up to case. */
  lemma EncodeDecoded(s: string)
    requires Decode(s).Decoded?
    ensures
      var d := Decode(s);
      Bytes(d.hrp) && NoUpper(d.hrp) && Fits(d.hrp, d.data) && Encode(d.encoding, d.hrp, d.data) == Lower(s)
  {
    hide CreateChecksum, CharOf, Rev, LowerCase, MixedCase, AllInCharset, LastOne, VerifyChecksum;
    var pos, d := LastOne(s), Decode(s);
    var values := Values(s[pos + 1..]);
    PrintablePrefix(s, pos);
    LowerBytes(s[..pos]);
    VerifyFields(Lower(s[..pos]), values);
    VerifyIff(d.encoding, d.hrp, values);
    CharsOfValues(s[pos + 1..]);
    assert values == d.data + CreateChecksum(d.encoding, d.hrp, d.data);
    LowerSplit(s, pos);
  }

  lemma PrintablePrefix(s: string, n: nat)
    requires AllPrintable(s) && n <= |s|
    ensures AllPrintable(s[..n])
  {
  }

  lemma VerifyFields(hrp: string, values: seq<Symbol>)
    requires Bytes(hrp) && |values| >= 6
    ensures var d := VerifyChecksum(hrp, values);
      d.Decoded? ==> d.hrp == hrp && d.data == values[..|values| - 6]
  {
    hide PolyFrom, ExpandHRP;
  }

  lemma LowerSplit(s: string, pos: nat)
    requires pos < |s| && s[pos] == '1'
    ensures Lower(s) == Lower(s[..pos]) + "1" + Lower(s[pos + 1..])
  {
  }
}
