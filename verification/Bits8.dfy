/** Flags packed eight to a byte, least significant bit first. */
module Bits8 {
  type Byte = bv8

  /** The byte with a single bit set, least significant first. */
  function Mask(k: nat): Byte
    requires k < 8
  {
    match k
    case 0 => 1
    case 1 => 2
    case 2 => 4
    case 3 => 8
    case 4 => 16
    case 5 => 32
    case 6 => 64
    case _ => 128
  }

  predicate BitOf(b: Byte, k: nat)
    requires k < 8
  {
    b & Mask(k) != 0
  }

  lemma BitSet(b: Byte, k: nat, j: nat)
    requires k < 8 && j < 8
    ensures BitOf(b | Mask(k), j) <==> j == k || BitOf(b, j)
  {
  }

  lemma NoBit(j: nat)
    requires j < 8
    ensures !BitOf(0, j)
  {
  }

  predicate FlagAt(bytes: seq<Byte>, p: nat)
    requires p < 8 * |bytes|
  {
    BitOf(bytes[p / 8], p % 8)
  }

  lemma FlagSet(before: seq<Byte>, p: nat, after: seq<Byte>)
    requires p < 8 * |before| && after == before[p / 8 := before[p / 8] | Mask(p % 8)]
    ensures forall q: nat | q < 8 * |before| :: FlagAt(after, q) == (q == p || FlagAt(before, q))
  {
    hide BitOf, Mask;
    forall q: nat | q < 8 * |before| ensures FlagAt(after, q) == (q == p || FlagAt(before, q)) {
      if q / 8 == p / 8 {
        BitSet(before[p / 8], p % 8, q % 8);
        assert q == 8 * (q / 8) + q % 8 && p == 8 * (p / 8) + p % 8;
      }
    }
  }

  lemma BitUnset(b: Byte, k: nat, j: nat)
    requires k < 8 && j < 8
    ensures BitOf(b & !Mask(k), j) <==> j != k && BitOf(b, j)
  {
  }

  lemma EveryBit(j: nat)
    requires j < 8
    ensures BitOf(0xFF, j)
  {
  }

  lemma FlagUnset(before: seq<Byte>, p: nat, after: seq<Byte>)
    requires p < 8 * |before| && after == before[p / 8 := before[p / 8] & !Mask(p % 8)]
    ensures forall q: nat | q < 8 * |before| :: FlagAt(after, q) == (q != p && FlagAt(before, q))
  {
    hide BitOf, Mask;
    forall q: nat | q < 8 * |before| ensures FlagAt(after, q) == (q != p && FlagAt(before, q)) {
      if q / 8 == p / 8 {
        BitUnset(before[p / 8], p % 8, q % 8);
        assert q == 8 * (q / 8) + q % 8 && p == 8 * (p / 8) + p % 8;
      }
    }
  }
}
