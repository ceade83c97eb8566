/** The loops of the Bech32 codec. */
module Bech32Codec {
  import opened Powers
  import opened Xors
  import opened Bech32Poly
  import opened Bech32

  method ComputePolyMod(v: seq<Symbol>) returns (c: nat)
    ensures c == PolyMod(v)
  {
    hide Xor, Bit;
    c := 1;
    for i := 0 to |v|
      invariant c == PolyFrom(1, v[..i])
    {
      assert v[..i + 1][..i] == v[..i];
      var c0 := c / LOW;
      c := Xor(c % LOW * 32, v[i]);
      if Bit(c0, 0) { c := Xor(c, 0x3b6a57b2); }
      if Bit(c0, 1) { c := Xor(c, 0x26508e6d); }
      if Bit(c0, 2) { c := Xor(c, 0x1ea119fa); }
      if Bit(c0, 3) { c := Xor(c, 0x3d4233dd); }
      if Bit(c0, 4) { c := Xor(c, 0x2a1462b3); }
    }
    assert v[..|v|] == v;
  }

  method Expand(hrp: string) returns (r: seq<Symbol>)
    requires Bytes(hrp)
    ensures r == ExpandHRP(hrp)
  {
    var ret := new Symbol[|hrp| * 2 + 1];
    for i := 0 to |hrp|
      invariant forall j | 0 <= j < i :: ret[j] == hrp[j] as int / 32 && ret[j + |hrp| + 1] == hrp[j] as int % 32
    {
      ret[i] := hrp[i] as int / 32;
      ret[i + |hrp| + 1] := hrp[i] as int % 32;
    }
    ret[|hrp|] := 0;
    r := ret[..];
  }

  method MakeChecksum(e: Encoding, hrp: string, values: seq<Symbol>) returns (r: seq<Symbol>)
    requires Bytes(hrp)
    ensures r == CreateChecksum(e, hrp, values)
  {
    hide PolyFrom, Xor, Pow;
    var enc := Expand(hrp);
    enc := enc + values + ZEROS;
    var check := ComputePolyMod(enc);
    var mod := Xor(check, Constant(e));
    var ret := new Symbol[6];
    for i := 0 to 6
      invariant forall j | 0 <= j < i :: ret[j] == Digits(mod, 6)[j]
    {
      DigitAt(mod, 6, i);
      ret[i] := mod / Pow(32, 5 - i) % 32;
    }
    r := ret[..];
  }

  method EncodeString(e: Encoding, hrp: string, values: seq<Symbol>) returns (ret: string)
    requires Bytes(hrp) && NoUpper(hrp)
    ensures ret == Encode(e, hrp, values)
  {
    hide CreateChecksum, CharOf;
    var checksum := MakeChecksum(e, hrp, values);
    var combined := values + checksum;
    ret := hrp + "1";
    for i := 0 to |combined|
      invariant ret == hrp + "1" + Chars(combined[..i])
    {
      ret := ret + [CharOf(combined[i])];
      assert Chars(combined[..i + 1]) == Chars(combined[..i]) + [CharOf(combined[i])];
    }
    assert combined[..|combined|] == combined;
  }

  /** The scan for characters out of range and for mixed case. */
  method CheckCharacters(s: string) returns (ok: bool)
    ensures ok <==> AllPrintable(s) && !MixedCase(s)
  {
    var lower, upper := false, false;
    for i := 0 to |s|
      invariant forall j | 0 <= j < i :: Printable(s[j])
      invariant lower <==> exists j | 0 <= j < i :: IsLower(s[j])
      invariant upper <==> exists j | 0 <= j < i :: IsUpper(s[j])
    {
      if IsLower(s[i]) {
        lower := true;
      } else if IsUpper(s[i]) {
        upper := true;
      } else if !Printable(s[i]) {
        return false;
      }
    }
    return !(lower && upper);
  }

  method FindLastOne(s: string) returns (pos: int)
    ensures pos == LastOne(s)
  {
    pos := |s| - 1;
    assert s[..|s|] == s;
    while pos >= 0
      invariant -1 <= pos < |s| && LastOne(s[..pos + 1]) == LastOne(s)
      decreases pos
    {
      if s[pos] == '1' {
        return;
      }
      assert s[..pos + 1][..pos] == s[..pos];
      pos := pos - 1;
    }
  }

  method ReadValues(s: string) returns (ok: bool, values: seq<Symbol>)
    ensures ok <==> AllInCharset(s)
    ensures ok ==> values == Values(s)
  {
    hide Rev;
    values := [];
    for i := 0 to |s|
      invariant |values| == i && forall j | 0 <= j < i :: Rev(s[j]) != -1 && values[j] == Rev(s[j])
    {
      var rev := Rev(s[i]);
      if rev == -1 {
        return false, values;
      }
      values := values + [rev];
    }
    ok := true;
  }

  method LowerString(s: string) returns (r: string)
    ensures r == Lower(s)
  {
    hide LowerCase;
    r := "";
    for i := 0 to |s|
      invariant r == Lower(s[..i])
    {
      r := r + [LowerCase(s[i])];
    }
    assert s[..|s|] == s;
  }

  method DecodeString(s: string) returns (r: Decoded)
    ensures r == Decode(s)
  {
    hide PolyFrom, AllPrintable, MixedCase, LastOne, AllInCharset, Values, Lower, ExpandHRP;
    var ok := CheckCharacters(s);
    if !ok {
      return Invalid;
    }
    var pos := FindLastOne(s);
    if |s| > 90 || pos == -1 || pos == 0 || pos + 7 > |s| {
      return Invalid;
    }
    var values;
    ok, values := ReadValues(s[pos + 1..]);
    if !ok {
      return Invalid;
    }
    var hrp := LowerString(s[..pos]);
    PrintablePrefix(s, pos);
    LowerBytes(s[..pos]);
    var expanded := Expand(hrp);
    var check := ComputePolyMod(expanded + values);
    if check == Constant(BECH32) {
      return Decoded(BECH32, hrp, values[..|values| - 6]);
    }
    if check == Constant(BECH32M) {
      return Decoded(BECH32M, hrp, values[..|values| - 6]);
    }
    return Invalid;
  }
}
