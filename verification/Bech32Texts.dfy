/** The Bech32 alphabet and two of the texts that BIP 173 and BIP 350 give, through a checksum on machine words. */
module Bech32Texts {
  import opened Powers
  import opened Xors
  import opened Bech32Poly
  import opened Bech32

  const ALPHABET := "qpzry9x8gf2tvdw0s3jn54khce6mua7l"

  lemma AlphabetLow(v: Symbol)
    requires v < 16
    ensures CharOf(v) == ALPHABET[v]
  {
  }

  lemma AlphabetHigh(v: Symbol)
    requires v >= 16
    ensures CharOf(v) == ALPHABET[v]
  {
  }

  /** The characters in the order of their symbols. */
  lemma Alphabet(v: Symbol)
    ensures CharOf(v) == ALPHABET[v]
  {
    hide CharOf;
    if v < 16 { AlphabetLow(v); } else { AlphabetHigh(v); }
  }

  // ---------------------------------------------------------------- the register as a machine word

  type Word = bv30

  function Mix(a: Word, b: Word): Word {
    a ^ b
  }

  type Digit = x: nat | x < 2

  /** One of the lowest five bits. */
  function DigitAt(t: Word, u: Word): Digit {
    if t & u != 0 then 1 else 0
  }

  function Join(d0: Digit, d1: Digit, d2: Digit, d3: Digit, d4: Digit): Symbol {
    d0 + 2 * (d1 + 2 * (d2 + 2 * (d3 + 2 * d4)))
  }

  /** The lowest five bits. */
  function Group(t: Word): Symbol {
    Join(DigitAt(t, 1), DigitAt(t, 2), DigitAt(t, 4), DigitAt(t, 8), DigitAt(t, 16))
  }

  function XorDigit(p: Digit, q: Digit): Digit {
    if p != q then 1 else 0
  }

  lemma XorPair(p: Digit, x: nat, q: Digit, y: nat)
    ensures Xor(p + 2 * x, q + 2 * y) == XorDigit(p, q) + 2 * Xor(x, y)
  {
    XorHalf(p + 2 * x, q + 2 * y);
  }

  lemma JoinXor(a0: Digit, a1: Digit, a2: Digit, a3: Digit, a4: Digit, b0: Digit, b1: Digit, b2: Digit, b3: Digit, b4: Digit)
    ensures Xor(Join(a0, a1, a2, a3, a4), Join(b0, b1, b2, b3, b4))
         == Join(XorDigit(a0, b0), XorDigit(a1, b1), XorDigit(a2, b2), XorDigit(a3, b3), XorDigit(a4, b4))
  {
    hide Xor, XorDigit;
    XorPair(a0, a1 + 2 * (a2 + 2 * (a3 + 2 * a4)), b0, b1 + 2 * (b2 + 2 * (b3 + 2 * b4)));
    XorPair(a1, a2 + 2 * (a3 + 2 * a4), b1, b2 + 2 * (b3 + 2 * b4));
    XorPair(a2, a3 + 2 * a4, b2, b3 + 2 * b4);
    XorPair(a3, a4, b3, b4);
    XorPair(a4, 0, b4, 0);
    XorZero(0);
  }

  lemma DigitXor(a: Word, b: Word, u: Word)
    requires u == 1 || u == 2 || u == 4 || u == 8 || u == 16
    ensures DigitAt(Mix(a, b), u) == XorDigit(DigitAt(a, u), DigitAt(b, u))
  {
  }

  lemma GroupXor(a: Word, b: Word)
    ensures Xor(Group(a), Group(b)) == Group(Mix(a, b))
  {
    hide Xor, DigitAt, Mix, XorDigit, Join;
    DigitXor(a, b, 1);
    DigitXor(a, b, 2);
    DigitXor(a, b, 4);
    DigitXor(a, b, 8);
    DigitXor(a, b, 16);
    JoinXor(DigitAt(a, 1), DigitAt(a, 2), DigitAt(a, 4), DigitAt(a, 8), DigitAt(a, 16),
            DigitAt(b, 1), DigitAt(b, 2), DigitAt(b, 4), DigitAt(b, 8), DigitAt(b, 16));
  }

  // ---------------------------------------------------------------- six groups

  /** Without the lowest five bits. */
  function Down(b: Word): Word {
    b >> 5
  }

  function Append(x: nat, d: Symbol): nat {
    x * 32 + d
  }

  function Six(d5: Symbol, d4: Symbol, d3: Symbol, d2: Symbol, d1: Symbol, d0: Symbol): nat {
    Append(Append(Append(Append(Append(d5, d4), d3), d2), d1), d0)
  }

  function Value(b: Word): nat {
    var b1 := Down(b);
    var b2 := Down(b1);
    var b3 := Down(b2);
    var b4 := Down(b3);
    var b5 := Down(b4);
    Six(Group(b5), Group(b4), Group(b3), Group(b2), Group(b1), Group(b))
  }

  lemma SixXor(a5: Symbol, a4: Symbol, a3: Symbol, a2: Symbol, a1: Symbol, a0: Symbol,
               b5: Symbol, b4: Symbol, b3: Symbol, b2: Symbol, b1: Symbol, b0: Symbol)
    ensures Xor(a5, b5) < 32 && Xor(a4, b4) < 32 && Xor(a3, b3) < 32 && Xor(a2, b2) < 32 && Xor(a1, b1) < 32 && Xor(a0, b0) < 32
    ensures Xor(Six(a5, a4, a3, a2, a1, a0), Six(b5, b4, b3, b2, b1, b0))
         == Six(Xor(a5, b5), Xor(a4, b4), Xor(a3, b3), Xor(a2, b2), Xor(a1, b1), Xor(a0, b0))
  {
    hide Xor, Append;
    SymbolXor(a5, b5);
    AppendXor(a5, a4, b5, b4);
    var x4, y4 := Append(a5, a4), Append(b5, b4);
    AppendXor(x4, a3, y4, b3);
    var x3, y3 := Append(x4, a3), Append(y4, b3);
    AppendXor(x3, a2, y3, b2);
    var x2, y2 := Append(x3, a2), Append(y3, b2);
    AppendXor(x2, a1, y2, b1);
    AppendXor(Append(x2, a1), a0, Append(y2, b1), b0);
  }

  lemma AppendXor(x: nat, d: Symbol, y: nat, e: Symbol)
    ensures Xor(d, e) < 32 && Xor(Append(x, d), Append(y, e)) == Append(Xor(x, y), Xor(d, e))
  {
    hide Xor, Pow2;
    PowersOf32();
    SymbolXor(d, e);
    XorSplit(x, d, y, e, 5);
  }

  lemma DownXor(a: Word, b: Word)
    ensures Down(Mix(a, b)) == Mix(Down(a), Down(b))
  {
  }

  lemma ValueXor(a: Word, b: Word)
    ensures Xor(Value(a), Value(b)) == Value(Mix(a, b))
  {
    hide Xor, Group, Mix, Down, Six;
    var a1, b1 := Down(a), Down(b);
    var a2, b2 := Down(a1), Down(b1);
    var a3, b3 := Down(a2), Down(b2);
    var a4, b4 := Down(a3), Down(b3);
    var a5, b5 := Down(a4), Down(b4);
    DownXor(a, b);
    DownXor(a1, b1);
    DownXor(a2, b2);
    DownXor(a3, b3);
    DownXor(a4, b4);
    GroupXor(a, b);
    GroupXor(a1, b1);
    GroupXor(a2, b2);
    GroupXor(a3, b3);
    GroupXor(a4, b4);
    GroupXor(a5, b5);
    SixXor(Group(a5), Group(a4), Group(a3), Group(a2), Group(a1), Group(a),
           Group(b5), Group(b4), Group(b3), Group(b2), Group(b1), Group(b));
  }

  // ---------------------------------------------------------------- a step on words

  function ShiftUp(b: Word): Word {
    b << 5
  }

  function Low(t: Word): Word {
    t & 31
  }

  lemma DownUp(b: Word)
    ensures Low(ShiftUp(b)) == 0 && Low(Down(ShiftUp(b))) == Low(b) && Low(Down(Down(ShiftUp(b)))) == Low(Down(b))
    ensures Low(Down(Down(Down(ShiftUp(b))))) == Low(Down(Down(b)))
    ensures Low(Down(Down(Down(Down(ShiftUp(b)))))) == Low(Down(Down(Down(b))))
    ensures Low(Down(Down(Down(Down(Down(ShiftUp(b))))))) == Low(Down(Down(Down(Down(b)))))
  {
  }

  lemma LowDigit(t: Word, u: Word)
    requires u == 1 || u == 2 || u == 4 || u == 8 || u == 16
    ensures DigitAt(Low(t), u) == DigitAt(t, u)
  {
  }

  lemma LowGroup(t: Word)
    ensures Group(Low(t)) == Group(t)
  {
    hide DigitAt, Low, Join;
    LowDigit(t, 1);
    LowDigit(t, 2);
    LowDigit(t, 4);
    LowDigit(t, 8);
    LowDigit(t, 16);
  }

  lemma GroupZero()
    ensures Group(0) == 0
  {
  }

  /** The register without its top symbol, and one place higher. */
  lemma ValueUp(b: Word)
    ensures Value(ShiftUp(b)) == Value(b) % LOW * 32
    ensures Value(b) / LOW == Group(Down(Down(Down(Down(Down(b))))))
  {
    hide Group, Down, ShiftUp, Low;
    var c := ShiftUp(b);
    DownUp(b);
    GroupZero();
    LowGroup(c);
    LowGroup(Down(c));
    LowGroup(Down(Down(c)));
    LowGroup(Down(Down(Down(c))));
    LowGroup(Down(Down(Down(Down(c)))));
    LowGroup(Down(Down(Down(Down(Down(c))))));
    LowGroup(b);
    LowGroup(Down(b));
    LowGroup(Down(Down(b)));
    LowGroup(Down(Down(Down(b))));
    LowGroup(Down(Down(Down(Down(b)))));
    SixSplit(Group(Down(Down(Down(Down(Down(b)))))), Group(Down(Down(Down(Down(b))))), Group(Down(Down(Down(b)))),
             Group(Down(Down(b))), Group(Down(b)), Group(b));
  }

  lemma SixSplit(d5: Symbol, d4: Symbol, d3: Symbol, d2: Symbol, d1: Symbol, d0: Symbol)
    ensures Six(d5, d4, d3, d2, d1, d0) / LOW == d5 && Six(d5, d4, d3, d2, d1, d0) % LOW * 32 == Six(d4, d3, d2, d1, d0, 0)
  {
    var low := Append(Append(Append(Append(d4, d3), d2), d1), d0);
    assert Six(d5, d4, d3, d2, d1, d0) == d5 * LOW + low && 0 <= low < LOW;
    ModUnique(Six(d5, d4, d3, d2, d1, d0), LOW, d5, low);
  }

  function MixIf(x: Word, on: bool, k: Word): Word {
    if on then Mix(x, k) else x
  }

  function Contains(t: Word, u: Word): bool {
    t & u != 0
  }

  function StepWord(b: Word, v: Word): Word {
    var top := b >> 25;
    var x0 := Mix(ShiftUp(b), v);
    var x1 := MixIf(x0, Contains(top, 1), 0x3b6a57b2);
    var x2 := MixIf(x1, Contains(top, 2), 0x26508e6d);
    var x3 := MixIf(x2, Contains(top, 4), 0x1ea119fa);
    var x4 := MixIf(x3, Contains(top, 8), 0x3d4233dd);
    MixIf(x4, Contains(top, 16), 0x2a1462b3)
  }

  /** A symbol as a word. */
  function Small(s: Symbol): Word {
    match s
    case 0 => 0
    case 1 => 1
    case 2 => 2
    case 3 => 3
    case 4 => 4
    case 5 => 5
    case 6 => 6
    case 7 => 7
    case 8 => 8
    case 9 => 9
    case 10 => 10
    case 11 => 11
    case 12 => 12
    case 13 => 13
    case 14 => 14
    case 15 => 15
    case 16 => 16
    case 17 => 17
    case 18 => 18
    case 19 => 19
    case 20 => 20
    case 21 => 21
    case 22 => 22
    case 23 => 23
    case 24 => 24
    case 25 => 25
    case 26 => 26
    case 27 => 27
    case 28 => 28
    case 29 => 29
    case 30 => 30
    case _ => 31
  }

  lemma SmallLow(s: Symbol)
    requires s < 16
    ensures Group(Small(s)) == s && Down(Small(s)) == 0
  {
  }

  lemma SmallHigh(s: Symbol)
    requires s >= 16
    ensures Group(Small(s)) == s && Down(Small(s)) == 0
  {
  }

  lemma SmallGroup(s: Symbol)
    ensures Group(Small(s)) == s && Down(Small(s)) == 0
  {
    hide Group, Down, Small;
    if s < 16 { SmallLow(s); } else { SmallHigh(s); }
  }

  lemma SmallValue(s: Symbol)
    ensures Value(Small(s)) == s
  {
    hide Group, Small;
    SmallGroup(s);
    GroupZero();
  }

  /** The lowest groups of a word. */
  lemma ValueIs(b: Word, d5: Symbol, d4: Symbol, d3: Symbol, d2: Symbol, d1: Symbol, d0: Symbol)
    requires Low(b) == Small(d0) && Low(Down(b)) == Small(d1) && Low(Down(Down(b))) == Small(d2)
    requires Low(Down(Down(Down(b)))) == Small(d3) && Low(Down(Down(Down(Down(b))))) == Small(d4)
    requires Low(Down(Down(Down(Down(Down(b)))))) == Small(d5)
    ensures Value(b) == Six(d5, d4, d3, d2, d1, d0)
  {
    hide Group, Down, Low, Six, Small;
    LowGroup(b);
    LowGroup(Down(b));
    LowGroup(Down(Down(b)));
    LowGroup(Down(Down(Down(b))));
    LowGroup(Down(Down(Down(Down(b)))));
    LowGroup(Down(Down(Down(Down(Down(b))))));
    SmallGroup(d5);
    SmallGroup(d4);
    SmallGroup(d3);
    SmallGroup(d2);
    SmallGroup(d1);
    SmallGroup(d0);
  }

  lemma Constant1()
    ensures Value(0x3b6a57b2) == 0x3b6a57b2
  {
    hide Value;
    ValueIs(0x3b6a57b2, 29, 22, 20, 21, 29, 18);
  }

  lemma Constant2()
    ensures Value(0x26508e6d) == 0x26508e6d
  {
    hide Value;
    ValueIs(0x26508e6d, 19, 5, 1, 3, 19, 13);
  }

  lemma Constant4()
    ensures Value(0x1ea119fa) == 0x1ea119fa
  {
    hide Value;
    ValueIs(0x1ea119fa, 15, 10, 2, 6, 15, 26);
  }

  lemma Constant8()
    ensures Value(0x3d4233dd) == 0x3d4233dd
  {
    hide Value;
    ValueIs(0x3d4233dd, 30, 20, 4, 12, 30, 29);
  }

  lemma Constant16()
    ensures Value(0x2a1462b3) == 0x2a1462b3
  {
    hide Value;
    ValueIs(0x2a1462b3, 21, 1, 8, 24, 21, 19);
  }

  lemma Constants()
    ensures Value(0x3b6a57b2) == 0x3b6a57b2 && Value(0x26508e6d) == 0x26508e6d && Value(0x1ea119fa) == 0x1ea119fa
    ensures Value(0x3d4233dd) == 0x3d4233dd && Value(0x2a1462b3) == 0x2a1462b3
  {
    hide Value;
    Constant1();
    Constant2();
    Constant4();
    Constant8();
    Constant16();
  }

  lemma TopWord(b: Word)
    ensures Down(Down(Down(Down(Down(b))))) == b >> 25
  {
  }

  lemma JoinBits(d0: Digit, d1: Digit, d2: Digit, d3: Digit, d4: Digit)
    ensures
      var s := Join(d0, d1, d2, d3, d4);
      Bit(s, 0) == (d0 == 1) && Bit(s, 1) == (d1 == 1) && Bit(s, 2) == (d2 == 1) && Bit(s, 3) == (d3 == 1) && Bit(s, 4) == (d4 == 1)
  {
    hide Bit;
    var s1, s2, s3 := d1 + 2 * (d2 + 2 * (d3 + 2 * d4)), d2 + 2 * (d3 + 2 * d4), d3 + 2 * d4;
    var s := d0 + 2 * s1;
    DigitBits(d0, s1, 0);
    DigitBits(d0, s1, 1);
    DigitBits(d0, s1, 2);
    DigitBits(d0, s1, 3);
    DigitBits(d1, s2, 0);
    DigitBits(d1, s2, 1);
    DigitBits(d1, s2, 2);
    DigitBits(d2, s3, 0);
    DigitBits(d2, s3, 1);
    DigitBits(d3, d4, 0);
    DigitBits(d4, 0, 0);
  }

  lemma DigitBits(d: Digit, x: nat, n: nat)
    ensures Bit(d + 2 * x, 0) == (d == 1) && Bit(d + 2 * x, n + 1) == Bit(x, n)
  {
    hide Bit;
    LastBit(d + 2 * x);
    BitStep(d + 2 * x, n + 1);
  }

  lemma GroupBits(t: Word)
    ensures Bit(Group(t), 0) == Contains(t, 1) && Bit(Group(t), 1) == Contains(t, 2) && Bit(Group(t), 2) == Contains(t, 4)
    ensures Bit(Group(t), 3) == Contains(t, 8) && Bit(Group(t), 4) == Contains(t, 16)
  {
    hide Bit, Join;
    JoinBits(DigitAt(t, 1), DigitAt(t, 2), DigitAt(t, 4), DigitAt(t, 8), DigitAt(t, 16));
  }

  lemma ValueMixIf(x: Word, on: bool, k: Word)
    ensures Value(MixIf(x, on, k)) == AddIf(Value(x), on, Value(k))
  {
    hide Xor, Value, Mix;
    ValueXor(x, k);
  }

  /** A step on words is a step. */
  lemma StepIs(b: Word, v: Word, s: Symbol)
    requires Value(v) == s
    ensures Step(Value(b), s) == Value(StepWord(b, v))
  {
    hide Xor, Value, Mix, MixIf, AddIf, Bit, Contains, ShiftUp, Down, Group;
    var top := b >> 25;
    TopWord(b);
    ValueUp(b);
    GroupBits(top);
    Constants();
    ValueXor(ShiftUp(b), v);
    var x0 := Mix(ShiftUp(b), v);
    var x1 := MixIf(x0, Contains(top, 1), 0x3b6a57b2);
    var x2 := MixIf(x1, Contains(top, 2), 0x26508e6d);
    var x3 := MixIf(x2, Contains(top, 4), 0x1ea119fa);
    var x4 := MixIf(x3, Contains(top, 8), 0x3d4233dd);
    ValueMixIf(x0, Contains(top, 1), 0x3b6a57b2);
    ValueMixIf(x1, Contains(top, 2), 0x26508e6d);
    ValueMixIf(x2, Contains(top, 4), 0x1ea119fa);
    ValueMixIf(x3, Contains(top, 8), 0x3d4233dd);
    ValueMixIf(x4, Contains(top, 16), 0x2a1462b3);
  }

  // ---------------------------------------------------------------- several steps

  function ThreeSteps(b: Word, v0: Word, v1: Word, v2: Word): Word {
    StepWord(StepWord(StepWord(b, v0), v1), v2)
  }

  lemma NextStep(b: Word, v: seq<Symbol>, c: nat, s: Symbol)
    requires PolyFrom(c, v) == Value(b)
    ensures PolyFrom(c, v + [s]) == Value(StepWord(b, Small(s)))
  {
    hide Value, StepWord, Small, Step;
    SmallValue(s);
    StepIs(b, Small(s), s);
    assert (v + [s])[..|v|] == v;
  }

  /** Three symbols more. */
  lemma ThreeMore(b: Word, v: seq<Symbol>, c: nat, s0: Symbol, s1: Symbol, s2: Symbol)
    requires PolyFrom(c, v) == Value(b)
    ensures PolyFrom(c, v + [s0, s1, s2]) == Value(ThreeSteps(b, Small(s0), Small(s1), Small(s2)))
  {
    hide Value, StepWord, Small, PolyFrom;
    var b0 := StepWord(b, Small(s0));
    NextStep(b, v, c, s0);
    NextStep(b0, v + [s0], c, s1);
    NextStep(StepWord(b0, Small(s1)), v + [s0] + [s1], c, s2);
    assert v + [s0] + [s1] + [s2] == v + [s0, s1, s2];
  }

  lemma Registers0()
    ensures ThreeSteps(0x1, 3, 3, 3) == 0x8c63
    ensures ThreeSteps(0x8c63, 3, 3, 3) == 0x3d5bdbd1
    ensures ThreeSteps(0x3d5bdbd1, 0, 1, 2) == 0x17456f7b
    ensures ThreeSteps(0x17456f7b, 3, 4, 5) == 0x266635a8
  {
  }

  lemma Registers1()
    ensures ThreeSteps(0x266635a8, 6, 0, 1) == 0x30018ce4
    ensures ThreeSteps(0x30018ce4, 2, 3, 4) == 0x28db67b3
    ensures ThreeSteps(0x28db67b3, 5, 6, 7) == 0x11e88668
    ensures ThreeSteps(0x11e88668, 8, 9, 10) == 0x2e301b62
  {
  }

  lemma Registers2()
    ensures ThreeSteps(0x2e301b62, 11, 12, 13) == 0x212c0d6a
    ensures ThreeSteps(0x212c0d6a, 14, 15, 16) == 0x3311a03e
    ensures ThreeSteps(0x3311a03e, 17, 18, 19) == 0x28166541
    ensures ThreeSteps(0x28166541, 20, 21, 22) == 0xc8c6efb
  {
  }

  lemma Registers3()
    ensures ThreeSteps(0xc8c6efb, 23, 24, 25) == 0x3f0597ac
    ensures ThreeSteps(0x3f0597ac, 26, 27, 28) == 0x9853657
    ensures ThreeSteps(0x9853657, 29, 30, 31) == 0x1a0d3656
    ensures ThreeSteps(0x1a0d3656, 27, 0, 0) == 0x1f82a53f
  {
  }

  lemma Registers4()
    ensures ThreeSteps(0x1f82a53f, 0, 6, 14) == 0x1
    ensures ThreeSteps(0x1, 3, 0, 1) == 0x8c01
    ensures ThreeSteps(0x8c01, 31, 0, 9) == 0x3d6aabbb
    ensures ThreeSteps(0x3d6aabbb, 19, 17, 29) == 0x2bc830a3
  {
  }

  /** The symbols 0 to 31. */
  const ALL_SYMBOLS: seq<Symbol> := seq(32, i requires 0 <= i < 32 => i)

  lemma Abcdef0(v: seq<Symbol>, b: Word) returns (c: Word)
    requires PolyMod(v) == Value(b) && b == 0x1
    ensures PolyMod(v + [3, 3, 3, 3, 3, 3, 0, 1, 2]) == Value(c) && c == 0x17456f7b
  {
    hide Value, StepWord, ThreeSteps, PolyFrom;
    Registers0();
    ThreeMore(b, v, 1, 3, 3, 3);
    var v1, b1 := v + [3, 3, 3], ThreeSteps(b, 3, 3, 3);
    ThreeMore(b1, v1, 1, 3, 3, 3);
    var v2, b2 := v1 + [3, 3, 3], ThreeSteps(b1, 3, 3, 3);
    ThreeMore(b2, v2, 1, 0, 1, 2);
    c := ThreeSteps(b2, 0, 1, 2);
    assert v + [3, 3, 3, 3, 3, 3, 0, 1, 2] == v2 + [0, 1, 2];
  }

  lemma Abcdef1(v: seq<Symbol>, b: Word) returns (c: Word)
    requires PolyMod(v) == Value(b) && b == 0x17456f7b
    ensures PolyMod(v + [3, 4, 5, 6, 0, 1, 2, 3, 4]) == Value(c) && c == 0x28db67b3
  {
    hide Value, StepWord, ThreeSteps, PolyFrom;
    Registers0();
    Registers1();
    ThreeMore(b, v, 1, 3, 4, 5);
    var v1, b1 := v + [3, 4, 5], ThreeSteps(b, 3, 4, 5);
    ThreeMore(b1, v1, 1, 6, 0, 1);
    var v2, b2 := v1 + [6, 0, 1], ThreeSteps(b1, 6, 0, 1);
    ThreeMore(b2, v2, 1, 2, 3, 4);
    c := ThreeSteps(b2, 2, 3, 4);
    assert v + [3, 4, 5, 6, 0, 1, 2, 3, 4] == v2 + [2, 3, 4];
  }

  lemma Abcdef2(v: seq<Symbol>, b: Word) returns (c: Word)
    requires PolyMod(v) == Value(b) && b == 0x28db67b3
    ensures PolyMod(v + [5, 6, 7, 8, 9, 10, 11, 12, 13]) == Value(c) && c == 0x212c0d6a
  {
    hide Value, StepWord, ThreeSteps, PolyFrom;
    Registers1();
    Registers2();
    ThreeMore(b, v, 1, 5, 6, 7);
    var v1, b1 := v + [5, 6, 7], ThreeSteps(b, 5, 6, 7);
    ThreeMore(b1, v1, 1, 8, 9, 10);
    var v2, b2 := v1 + [8, 9, 10], ThreeSteps(b1, 8, 9, 10);
    ThreeMore(b2, v2, 1, 11, 12, 13);
    c := ThreeSteps(b2, 11, 12, 13);
    assert v + [5, 6, 7, 8, 9, 10, 11, 12, 13] == v2 + [11, 12, 13];
  }

  lemma Abcdef3(v: seq<Symbol>, b: Word) returns (c: Word)
    requires PolyMod(v) == Value(b) && b == 0x212c0d6a
    ensures PolyMod(v + [14, 15, 16, 17, 18, 19, 20, 21, 22]) == Value(c) && c == 0xc8c6efb
  {
    hide Value, StepWord, ThreeSteps, PolyFrom;
    Registers2();
    ThreeMore(b, v, 1, 14, 15, 16);
    var v1, b1 := v + [14, 15, 16], ThreeSteps(b, 14, 15, 16);
    ThreeMore(b1, v1, 1, 17, 18, 19);
    var v2, b2 := v1 + [17, 18, 19], ThreeSteps(b1, 17, 18, 19);
    ThreeMore(b2, v2, 1, 20, 21, 22);
    c := ThreeSteps(b2, 20, 21, 22);
    assert v + [14, 15, 16, 17, 18, 19, 20, 21, 22] == v2 + [20, 21, 22];
  }

  lemma Abcdef4(v: seq<Symbol>, b: Word) returns (c: Word)
    requires PolyMod(v) == Value(b) && b == 0xc8c6efb
    ensures PolyMod(v + [23, 24, 25, 26, 27, 28, 29, 30, 31]) == Value(c) && c == 0x1a0d3656
  {
    hide Value, StepWord, ThreeSteps, PolyFrom;
    Registers3();
    ThreeMore(b, v, 1, 23, 24, 25);
    var v1, b1 := v + [23, 24, 25], ThreeSteps(b, 23, 24, 25);
    ThreeMore(b1, v1, 1, 26, 27, 28);
    var v2, b2 := v1 + [26, 27, 28], ThreeSteps(b1, 26, 27, 28);
    ThreeMore(b2, v2, 1, 29, 30, 31);
    c := ThreeSteps(b2, 29, 30, 31);
    assert v + [23, 24, 25, 26, 27, 28, 29, 30, 31] == v2 + [29, 30, 31];
  }

  lemma Abcdef5(v: seq<Symbol>, b: Word) returns (c: Word)
    requires PolyMod(v) == Value(b) && b == 0x1a0d3656
    ensures PolyMod(v + [27, 0, 0, 0, 6, 14]) == Value(c) && c == 0x1
  {
    hide Value, StepWord, ThreeSteps, PolyFrom;
    Registers3();
    Registers4();
    ThreeMore(b, v, 1, 27, 0, 0);
    var v1, b1 := v + [27, 0, 0], ThreeSteps(b, 27, 0, 0);
    ThreeMore(b1, v1, 1, 0, 6, 14);
    c := ThreeSteps(b1, 0, 6, 14);
    assert v + [27, 0, 0, 0, 6, 14] == v1 + [0, 6, 14];
  }

  lemma LqfnRun(v: seq<Symbol>, b: Word) returns (c: Word)
    requires PolyMod(v) == Value(b) && b == 0x1
    ensures PolyMod(v + [3, 0, 1, 31, 0, 9, 19, 17, 29]) == Value(c) && c == 0x2bc830a3
  {
    hide Value, StepWord, ThreeSteps, PolyFrom;
    Registers4();
    ThreeMore(b, v, 1, 3, 0, 1);
    var v1, b1 := v + [3, 0, 1], ThreeSteps(b, 3, 0, 1);
    ThreeMore(b1, v1, 1, 31, 0, 9);
    var v2, b2 := v1 + [31, 0, 9], ThreeSteps(b1, 31, 0, 9);
    ThreeMore(b2, v2, 1, 19, 17, 29);
    c := ThreeSteps(b2, 19, 17, 29);
    assert v + [3, 0, 1, 31, 0, 9, 19, 17, 29] == v2 + [19, 17, 29];
  }

  // ---------------------------------------------------------------- the texts

  lemma NothingRead()
    ensures PolyMod([]) == Value(Small(1)) == 1
  {
    hide Value;
    SmallValue(1);
  }

  lemma AbcdefRun() returns (c: Word)
    ensures PolyMod([] + [3, 3, 3, 3, 3, 3, 0, 1, 2]
      + [3, 4, 5, 6, 0, 1, 2, 3, 4]
      + [5, 6, 7, 8, 9, 10, 11, 12, 13]
      + [14, 15, 16, 17, 18, 19, 20, 21, 22]
      + [23, 24, 25, 26, 27, 28, 29, 30, 31] + [27, 0, 0, 0, 6, 14]) == Value(c) && c == 1
  {
    hide Value, PolyFrom;
    NothingRead();
    var b0 := Abcdef0([], 1);
    var v1 := [] + [3, 3, 3, 3, 3, 3, 0, 1, 2];
    var b1 := Abcdef1(v1, b0);
    var v2 := v1 + [3, 4, 5, 6, 0, 1, 2, 3, 4];
    var b2 := Abcdef2(v2, b1);
    var v3 := v2 + [5, 6, 7, 8, 9, 10, 11, 12, 13];
    var b3 := Abcdef3(v3, b2);
    var v4 := v3 + [14, 15, 16, 17, 18, 19, 20, 21, 22];
    var b4 := Abcdef4(v4, b3);
    c := Abcdef5(v4 + [23, 24, 25, 26, 27, 28, 29, 30, 31], b4);
  }

  lemma AbcdefExpands()
    ensures ExpandHRP("abcdef") == [3, 3, 3, 3, 3, 3, 0, 1, 2, 3, 4, 5, 6]
  {
  }

  lemma AbcdefSum()
    ensures PolyMod(ExpandHRP("abcdef") + ALL_SYMBOLS + [27, 0, 0, 0, 6, 14]) == 1
  {
    hide Value, PolyFrom, ExpandHRP;
    var c := AbcdefRun();
    NothingRead();
    AbcdefExpands();
    assert ExpandHRP("abcdef") + ALL_SYMBOLS + [27, 0, 0, 0, 6, 14]
        == [] + [3, 3, 3, 3, 3, 3, 0, 1, 2]
      + [3, 4, 5, 6, 0, 1, 2, 3, 4]
      + [5, 6, 7, 8, 9, 10, 11, 12, 13]
      + [14, 15, 16, 17, 18, 19, 20, 21, 22]
      + [23, 24, 25, 26, 27, 28, 29, 30, 31] + [27, 0, 0, 0, 6, 14];
  }

  lemma AllChars()
    ensures Chars(ALL_SYMBOLS + [27, 0, 0, 0, 6, 14]) == ALPHABET + "mqqqxw"
  {
    hide CharOf;
    forall v: Symbol ensures CharOf(v) == ALPHABET[v] { Alphabet(v); }
  }

  lemma AbcdefPrefix()
    ensures Bytes("abcdef") && NoUpper("abcdef") && AllPrintable("abcdef")
  {
  }

  lemma AbcdefChecksum()
    requires Bytes("abcdef")
    ensures CreateChecksum(BECH32, "abcdef", ALL_SYMBOLS) == [27, 0, 0, 0, 6, 14]
  {
    hide PolyFrom, ExpandHRP, Checksum, Bytes;
    AbcdefSum();
    ChecksumIff(ExpandHRP("abcdef") + ALL_SYMBOLS, 1, [27, 0, 0, 0, 6, 14]);
  }

  lemma AbcdefEncoded()
    requires Bytes("abcdef")
    ensures Encode(BECH32, "abcdef", ALL_SYMBOLS) == "abcdef1qpzry9x8gf2tvdw0s3jn54khce6mua7lmqqqxw"
  {
    hide CreateChecksum, Chars, Bytes;
    AbcdefChecksum();
    AllChars();
  }

  /** The text with every symbol in order, in BIP 173. */
  lemma AbcdefText()
    ensures Bytes("abcdef") && Encode(BECH32, "abcdef", ALL_SYMBOLS) == "abcdef1qpzry9x8gf2tvdw0s3jn54khce6mua7lmqqqxw"
    ensures Decode("abcdef1qpzry9x8gf2tvdw0s3jn54khce6mua7lmqqqxw") == Decoded(BECH32, "abcdef", ALL_SYMBOLS)
  {
    hide Encode, Decode, Bytes, NoUpper, AllPrintable;
    AbcdefPrefix();
    AbcdefEncoded();
    RoundTripIff(BECH32, "abcdef", ALL_SYMBOLS);
  }

  lemma LqfnSum()
    ensures PolyMod(ExpandHRP("a") + [] + [31, 0, 9, 19, 17, 29]) == 0x2bc830a3
  {
    hide Value, PolyFrom;
    NothingRead();
    var c := LqfnRun([], 1);
    assert ExpandHRP("a") + [] + [31, 0, 9, 19, 17, 29] == [] + [3, 0, 1, 31, 0, 9, 19, 17, 29];
    ConstantM();
  }

  lemma ConstantM()
    ensures Value(0x2bc830a3) == 0x2bc830a3
  {
    hide Value;
    ValueIs(0x2bc830a3, 21, 28, 16, 12, 5, 3);
  }

  lemma LqfnChars()
    ensures Chars([] + [31, 0, 9, 19, 17, 29]) == "lqfn3a"
  {
    hide CharOf;
    forall v: Symbol ensures CharOf(v) == ALPHABET[v] { Alphabet(v); }
  }

  /** The text without data, in BIP 350. */
  lemma EmptyText()
    ensures Encode(BECH32M, "a", []) == "a1lqfn3a" && Decode("a1lqfn3a") == Decoded(BECH32M, "a", [])
  {
    hide PolyFrom, ExpandHRP, Checksum, Chars, Decode;
    LqfnSum();
    LqfnChars();
    ChecksumIff(ExpandHRP("a") + [], 0x2bc830a3, [31, 0, 9, 19, 17, 29]);
    RoundTripIff(BECH32M, "a", []);
  }

  lemma CaseFree0(c: char)
    requires 'A' <= c <= 'F'
    ensures Rev(c) == Rev(LowerCase(c))
  {
  }

  lemma CaseFree1(c: char)
    requires 'G' <= c <= 'L'
    ensures Rev(c) == Rev(LowerCase(c))
  {
  }

  lemma CaseFree2(c: char)
    requires 'M' <= c <= 'R'
    ensures Rev(c) == Rev(LowerCase(c))
  {
  }

  lemma CaseFree3(c: char)
    requires 'S' <= c <= 'Z'
    ensures Rev(c) == Rev(LowerCase(c))
  {
  }

  /** Upper and lower case stand for the same symbols. */
  lemma CaseFree(c: char)
    ensures Rev(c) == Rev(LowerCase(c))
  {
    hide Rev;
    if 'A' <= c <= 'F' {
      CaseFree0(c);
    } else if 'G' <= c <= 'L' {
      CaseFree1(c);
    } else if 'M' <= c <= 'R' {
      CaseFree2(c);
    } else if 'S' <= c <= 'Z' {
      CaseFree3(c);
    }
  }
}
