/** What a BC7 block decodes to, from the block format alone: without the decoder's tables and arithmetic. */
module Bc7Texels {
  import opened Bits
  import opened BptcTables
  import opened BptcTexels
  import opened Bc7Layout

  // ---------------------------------------------------------------- the mode table

  /** A row of the format's table of modes. */
  datatype Row = Row(subsets: nat, partition: nat, rotation: nat, selection: nat, color: nat, alpha: nat, pbits: nat,
                     index: nat, second: nat)

  const MODES := [
    Row(3, 4, 0, 0, 4, 0, 6, 3, 0), Row(2, 6, 0, 0, 6, 0, 2, 3, 0), Row(3, 6, 0, 0, 5, 0, 0, 2, 0),
    Row(2, 6, 0, 0, 7, 0, 4, 2, 0), Row(1, 0, 2, 1, 5, 6, 0, 2, 3), Row(1, 0, 2, 0, 7, 8, 0, 2, 2),
    Row(1, 0, 0, 0, 7, 7, 2, 4, 0), Row(2, 6, 0, 0, 5, 5, 4, 2, 0)
  ]

  /** The decoder's tests of the mode number give the rows of the table. */
  lemma ModeRows(mode: nat)
    requires mode < 8
    ensures MODES[mode] == Row(Subsets(mode), PartitionBits(mode), RotationBits(mode), SelectionBits(mode), ColorBits(mode),
                               AlphaBits(mode), PBits(mode), IndexBits(mode), SecondIndexBits(mode))
  {
  }

  // ---------------------------------------------------------------- endpoint bytes

  /** Which bit of a value comes in bit i of the byte that repeats it from the top on. */
  function RepeatedFrom(bits: nat, i: nat): nat
    requires 4 <= bits <= 8
  {
    if i + bits >= 8 then i + bits - 8 else i + 2 * bits - 8
  }

  predicate IsRepeated(x: nat, bits: nat, y: nat)
    requires 4 <= bits <= 8
  {
    y <= 255 && forall i: nat | i < 8 :: Bit(y, i) == Bit(x, RepeatedFrom(bits, i))
  }

  lemma BitsOfByte(y: nat, i: nat)
    requires y <= 255 && i >= 8
    ensures !Bit(y, i)
  {
    assert Pow2(8) == 2 * Pow2(7) == 4 * Pow2(6) == 8 * Pow2(5) == 16 * Pow2(4);
    assert Pow2(4) == 2 * Pow2(3) == 4 * Pow2(2) == 8 * Pow2(1) == 16 * Pow2(0);
    HighBitsOff(y, 8, i);
  }

  lemma OneRepeated(x: nat, bits: nat, y: nat, z: nat)
    requires 4 <= bits <= 8 && IsRepeated(x, bits, y) && IsRepeated(x, bits, z)
    ensures y == z
  {
    forall i: nat ensures Bit(y, i) == Bit(z, i) {
      if i >= 8 {
        BitsOfByte(y, i);
        BitsOfByte(z, i);
      }
    }
    SameBits(y, z);
  }

  lemma ExpandBit(x: nat, bits: nat, i: nat)
    requires 5 <= bits <= 8 && x < Pow2(bits) && i < 8
    ensures Bit(Expand(x, bits), i) == Bit(x, RepeatedFrom(bits, i))
  {
    var top := ShiftLeft(x, 8 - bits);
    BitOrBit(top, ShiftRight(top, bits), i);
    ShiftRightBit(top, bits, i);
    ShiftLeftBit(x, 8 - bits, i);
    ShiftLeftBit(x, 8 - bits, i + bits);
    if i + bits >= 8 {
      HighBitsOff(x, bits, i + 2 * bits - 8);
    }
  }

  /** Expansion repeats the bits. */
  lemma ExpandRepeats(x: nat, bits: nat)
    requires 5 <= bits <= 8 && x < Pow2(bits)
    ensures IsRepeated(x, bits, Expand(x, bits))
  {
    ExpandFills(x, bits);
    forall i: nat | i < 8 ensures Bit(Expand(x, bits), i) == Bit(x, RepeatedFrom(bits, i)) {
      ExpandBit(x, bits, i);
    }
  }

  /** The stored channel, a P-bit below it in the modes that have them, repeated to a byte; opaque if there is no alpha. */
  ghost predicate IsEndpoint(block: seq<bool>, mode: nat, e: nat, c: nat, x: int)
    requires mode < 8 && c < 4
  {
    var bits := if c < 3 then MODES[mode].color else MODES[mode].alpha;
    if bits == 0 then x == 255
    else if x < 0 then false
    else if MODES[mode].pbits > 0 then IsRepeated(2 * RawOf(block, mode, e, c) + PBitOf(block, mode, e), bits + 1, x)
    else IsRepeated(RawOf(block, mode, e, c), bits, x)
  }

  lemma EndpointIs(block: seq<bool>, mode: nat, e: nat, c: nat)
    requires mode < 8 && c < 4
    ensures IsEndpoint(block, mode, e, c, EndpointOf(block, mode, e, c))
  {
    ModeRows(mode);
    if c < 3 || AlphaBits(mode) > 0 {
      PrecisionRange(mode, c);
      ExpandRepeats(PreciseOf(block, mode, e, c), Precision(mode, c));
    }
  }

  lemma OneEndpoint(block: seq<bool>, mode: nat, e: nat, c: nat, x: int, y: int)
    requires mode < 8 && c < 4 && IsEndpoint(block, mode, e, c, x) && IsEndpoint(block, mode, e, c, y)
    ensures x == y
  {
    var bits := if c < 3 then MODES[mode].color else MODES[mode].alpha;
    if MODES[mode].pbits > 0 && bits > 0 {
      OneRepeated(2 * RawOf(block, mode, e, c) + PBitOf(block, mode, e), bits + 1, x, y);
    } else if bits > 0 {
      OneRepeated(RawOf(block, mode, e, c), bits, x, y);
    }
  }

  // ---------------------------------------------------------------- texels

  /** The channel that the rotation puts in place c. */
  function Source(rotation: nat, c: nat): nat {
    if rotation == 0 || (c != 3 && c != rotation - 1) then c else if c == 3 then rotation - 1 else 3
  }

  /** The channel goes by the secondary index: alpha in mode 5, alpha or the colours in mode 4. */
  ghost predicate BySecond(block: seq<bool>, mode: nat, d: nat) {
    if mode == 4 then (d == 3 <==> SelectionOf(block, mode) == 0) else mode == 5 && d == 3
  }

  ghost function BitsFor(block: seq<bool>, mode: nat, d: nat): (bits: nat)
    requires mode < 8
    ensures 2 <= bits <= 4
  {
    if BySecond(block, mode, d) then MODES[mode].second else MODES[mode].index
  }

  /** The index of texel k that channel d goes by. */
  ghost function IndexFor(block: seq<bool>, mode: nat, t: Partition, k: nat, d: nat): (i: nat)
    requires mode < 8
    ensures i < IndexLimit(BitsFor(block, mode, d))
  {
    if BySecond(block, mode, d) then IndexOf(block, ONE_SUBSET, SecondStart(mode), MODES[mode].second, k)
    else IndexOf(block, t, IndexStart(mode), MODES[mode].index, k)
  }

  /** Channel d of a texel before rotation: the two endpoints of its subset, mixed as its index says. */
  ghost predicate IsChannel(block: seq<bool>, mode: nat, subset: nat, bits: nat, index: nat, d: nat, x: int)
    requires mode < 8 && d < 4
  {
    var e0, e1 := 2 * subset, 2 * subset + 1;
    exists a, b :: IsEndpoint(block, mode, e0, d, a) && IsEndpoint(block, mode, e1, d, b) && IsMixed(a, b, bits, index, x)
  }

  lemma ChannelIs(block: seq<bool>, mode: nat, t: Partition, k: nat, d: nat)
    requires mode < 8 && k < |t.subsets| && d < 4
    ensures IsChannel(block, mode, t.Subset(k), BitsFor(block, mode, d), IndexFor(block, mode, t, k, d), d,
                      ChannelOf(block, mode, t, k, d))
  {
    var e0, e1 := 2 * t.Subset(k), 2 * t.Subset(k) + 1;
    ModeRows(mode);
    EndpointIs(block, mode, e0, d);
    EndpointIs(block, mode, e1, d);
    MixedIs(EndpointOf(block, mode, e0, d), EndpointOf(block, mode, e1, d), BitsFor(block, mode, d),
            IndexFor(block, mode, t, k, d));
    SelectionWhereStored(block, mode);
  }

  lemma SelectionWhereStored(block: seq<bool>, mode: nat)
    requires mode < 8
    ensures mode != 4 ==> SelectionOf(block, mode) == 0
  {
    assert Pow2(0) == 1;
  }

  lemma EndpointsOf(block: seq<bool>, mode: nat, subset: nat, bits: nat, index: nat, d: nat, x: int) returns (a: int, b: int)
    requires mode < 8 && d < 4 && IsChannel(block, mode, subset, bits, index, d, x)
    ensures IsEndpoint(block, mode, 2 * subset, d, a) && IsEndpoint(block, mode, 2 * subset + 1, d, b)
    ensures IsMixed(a, b, bits, index, x)
  {
    var e0, e1 := 2 * subset, 2 * subset + 1;
    a, b :| IsEndpoint(block, mode, e0, d, a) && IsEndpoint(block, mode, e1, d, b) && IsMixed(a, b, bits, index, x);
  }

  /** That leaves one value only. */
  lemma OneChannel(block: seq<bool>, mode: nat, subset: nat, bits: nat, index: nat, d: nat, x: int, y: int)
    requires mode < 8 && d < 4 && 2 <= bits <= 4 && index < IndexLimit(bits)
    requires IsChannel(block, mode, subset, bits, index, d, x) && IsChannel(block, mode, subset, bits, index, d, y)
    ensures x == y
  {
    var a, b := EndpointsOf(block, mode, subset, bits, index, d, x);
    var a', b' := EndpointsOf(block, mode, subset, bits, index, d, y);
    OneEndpoint(block, mode, 2 * subset, d, a, a');
    OneEndpoint(block, mode, 2 * subset + 1, d, b, b');
    OnlyMixed(a, b, bits, index, x);
    OnlyMixed(a, b, bits, index, y);
  }

  /** What each byte of a block is. */
  lemma DecodedIs(block: seq<bool>, k: nat, c: nat)
    requires |block| == 128 && ModeOf(block) < 8 && k < 16 && c < 4
    ensures var mode := ModeOf(block);
            var t, d := PartitionOf(block, mode), Source(RotationOf(block, mode), c);
            && d < 4
            && IsChannel(block, mode, t.Subset(k), BitsFor(block, mode, d), IndexFor(block, mode, t, k, d), d, Decoded(block, k, c))
  {
    var mode := ModeOf(block);
    ChannelIs(block, mode, PartitionOf(block, mode), k, Source(RotationOf(block, mode), c));
  }

  /** The first index gives the first endpoint of the subset, the last one the second. */
  ghost predicate EndsRight(block: seq<bool>, mode: nat, subset: nat, bits: nat, index: nat, d: nat, x: int)
    requires mode < 8 && d < 4
  {
    && (index == 0 ==> IsEndpoint(block, mode, 2 * subset, d, x))
    && (index == IndexLimit(bits) - 1 ==> IsEndpoint(block, mode, 2 * subset + 1, d, x))
  }

  lemma ChannelEnds(block: seq<bool>, mode: nat, subset: nat, bits: nat, index: nat, d: nat, x: int)
    requires mode < 8 && d < 4 && 2 <= bits <= 4 && index < IndexLimit(bits)
    requires IsChannel(block, mode, subset, bits, index, d, x)
    ensures EndsRight(block, mode, subset, bits, index, d, x)
  {
    var a, b := EndpointsOf(block, mode, subset, bits, index, d, x);
    MixedEnds(a, b, bits, index, x);
  }

  /** So do those of every texel. */
  lemma DecodedEnds(block: seq<bool>, k: nat, c: nat)
    requires |block| == 128 && ModeOf(block) < 8 && k < 16 && c < 4
    ensures var mode := ModeOf(block);
            var t, d := PartitionOf(block, mode), Source(RotationOf(block, mode), c);
            && d < 4
            && EndsRight(block, mode, t.Subset(k), BitsFor(block, mode, d), IndexFor(block, mode, t, k, d), d, Decoded(block, k, c))
  {
    var mode := ModeOf(block);
    var t, d := PartitionOf(block, mode), Source(RotationOf(block, mode), c);
    DecodedIs(block, k, c);
    ChannelEnds(block, mode, t.Subset(k), BitsFor(block, mode, d), IndexFor(block, mode, t, k, d), d, Decoded(block, k, c));
  }

  /** Of two texels of a subset the one with the larger index is never nearer to the first endpoint. */
  lemma DecodedAway(block: seq<bool>, j: nat, k: nat, c: nat) returns (first: int)
    requires |block| == 128 && ModeOf(block) < 8 && j < 16 && k < 16 && c < 4
    requires var mode := ModeOf(block);
             var t, d := PartitionOf(block, mode), Source(RotationOf(block, mode), c);
             t.Subset(j) == t.Subset(k) && IndexFor(block, mode, t, j, d) <= IndexFor(block, mode, t, k, d)
    ensures var mode := ModeOf(block);
            var d := Source(RotationOf(block, mode), c);
            d < 4 && IsEndpoint(block, mode, 2 * PartitionOf(block, mode).Subset(j), d, first)
    ensures InOrder(first, Decoded(block, j, c), Decoded(block, k, c))
  {
    var mode := ModeOf(block);
    var t, d := PartitionOf(block, mode), Source(RotationOf(block, mode), c);
    DecodedIs(block, j, c);
    DecodedIs(block, k, c);
    var bits := BitsFor(block, mode, d);
    var i0, i1 := IndexFor(block, mode, t, j, d), IndexFor(block, mode, t, k, d);
    var a, b := EndpointsOf(block, mode, t.Subset(j), bits, i0, d, Decoded(block, j, c));
    var a', b' := EndpointsOf(block, mode, t.Subset(j), bits, i1, d, Decoded(block, k, c));
    OneEndpoint(block, mode, 2 * t.Subset(j), d, a, a');
    OneEndpoint(block, mode, 2 * t.Subset(j) + 1, d, b, b');
    MixedAway(a, b, bits, i0, i1, Decoded(block, j, c), Decoded(block, k, c));
    first := a;
  }
}
