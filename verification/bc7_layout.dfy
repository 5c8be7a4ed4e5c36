/**
The eight BC7 modes: how their blocks are laid out, and what each part of a block means, read from
where it lies.
 */
module Bc7Layout {
  import opened Bits
  import opened BptcTables
  import opened BptcTexels

  // ---------------------------------------------------------------- the modes

  function Subsets(mode: nat): (n: nat)
    ensures 1 <= n <= 3
  {
    if mode == 0 || mode == 2 then 3 else if mode == 1 || mode == 3 || mode == 7 then 2 else 1
  }

  function Endpoints(mode: nat): nat {
    Subsets(mode) * 2
  }

  function PartitionBits(mode: nat): nat {
    if mode == 0 then 4 else if Subsets(mode) > 1 then 6 else 0
  }

  function RotationBits(mode: nat): nat {
    if mode == 4 || mode == 5 then 2 else 0
  }

  function SelectionBits(mode: nat): nat {
    if mode == 4 then 1 else 0
  }

  function ColorBits(mode: nat): (n: nat)
    requires mode < 8
    ensures 4 <= n <= 7
  {
    [4, 6, 5, 7, 5, 7, 7, 5][mode]
  }

  function AlphaBits(mode: nat): (n: nat)
    requires mode < 8
    ensures n == 0 || 5 <= n <= 8
  {
    [0, 0, 0, 0, 6, 8, 7, 5][mode]
  }

  /** Bits of a channel; alpha is channel 3. */
  function ChannelBits(mode: nat, c: nat): nat
    requires mode < 8
  {
    if c < 3 then ColorBits(mode) else AlphaBits(mode)
  }

  predicate HasPBits(mode: nat) {
    mode == 0 || mode == 1 || mode == 3 || mode == 6 || mode == 7
  }

  /** In mode 1 the two endpoints of a subset share a bit. */
  function PBits(mode: nat): nat {
    if mode == 1 then 2 else if HasPBits(mode) then Endpoints(mode) else 0
  }

  function IndexBits(mode: nat): (n: nat)
    ensures 2 <= n <= 4
  {
    if mode == 0 || mode == 1 then 3 else if mode == 6 then 4 else 2
  }

  function SecondIndexBits(mode: nat): (n: nat)
    ensures n <= 3
  {
    if mode == 4 then 3 else if mode == 5 then 2 else 0
  }

  // ---------------------------------------------------------------- where the parts lie

  function RotationStart(mode: nat): nat {
    mode + 1 + PartitionBits(mode)
  }

  /** Where the values of a channel start, one for each endpoint. */
  function ChannelStart(mode: nat, c: nat): nat
    requires mode < 8
  {
    RotationStart(mode) + RotationBits(mode) + SelectionBits(mode) + c * (Endpoints(mode) * ColorBits(mode))
  }

  function PStart(mode: nat): nat
    requires mode < 8
  {
    ChannelStart(mode, 3) + Endpoints(mode) * AlphaBits(mode)
  }

  function IndexStart(mode: nat): nat
    requires mode < 8
  {
    PStart(mode) + PBits(mode)
  }

  function SecondStart(mode: nat): nat
    requires mode < 8
    ensures IndexStart(mode) <= SecondStart(mode)
  {
    IndexStart(mode) + 16 * IndexBits(mode) - Subsets(mode)
  }

  /** The parts of a block of any mode have 128 bits together. */
  lemma BlockFull(mode: nat)
    requires mode < 8
    ensures SecondStart(mode) + (if SecondIndexBits(mode) > 0 then 16 * SecondIndexBits(mode) - 1 else 0) == 128
  {
  }

  // ---------------------------------------------------------------- what the parts mean

  /** The number of zeros before the first one, at most 8. */
  ghost function LeadingZeros(block: seq<bool>, k: nat): (mode: nat)
    requires |block| == 128
    ensures k <= 8 ==> k <= mode <= 8
    decreases 8 - k
  {
    if k < 8 && !block[k] then LeadingZeros(block, k + 1) else k
  }

  ghost function ModeOf(block: seq<bool>): (mode: nat)
    requires |block| == 128
    ensures mode <= 8
  {
    LeadingZeros(block, 0)
  }

  ghost function PartitionNumber(block: seq<bool>, mode: nat): (p: nat)
    ensures p < 64
  {
    assert Pow2(4) == 2 * Pow2(3) == 4 * Pow2(2) == 8 * Pow2(1) == 16 * Pow2(0);
    assert Pow2(6) == 2 * Pow2(5) == 4 * Pow2(4);
    Field(block, mode + 1, PartitionBits(mode))
  }

  function PartitionFor(subsets: nat, p: nat): Partition {
    if subsets == 1 then ONE_SUBSET else if subsets == 2 then TwoSubsets(p) else ThreeSubsets(p)
  }

  lemma PartitionGood(subsets: nat, p: nat)
    requires 1 <= subsets <= 3 && p < 64
    ensures GoodPartition(PartitionFor(subsets, p), subsets)
  {
    if subsets == 1 {
      OneSubsetGood();
    } else if subsets == 2 {
      TwoSubsetsGood(p);
    } else {
      ThreeSubsetsGood(p);
    }
  }

  ghost function PartitionOf(block: seq<bool>, mode: nat): (t: Partition)
    ensures GoodPartition(t, Subsets(mode))
  {
    PartitionGood(Subsets(mode), PartitionNumber(block, mode));
    PartitionFor(Subsets(mode), PartitionNumber(block, mode))
  }

  ghost function RotationOf(block: seq<bool>, mode: nat): (r: nat)
    ensures r < 4
  {
    assert Pow2(2) == 2 * Pow2(1) == 4 * Pow2(0) == 4;
    Field(block, RotationStart(mode), RotationBits(mode))
  }

  ghost function SelectionOf(block: seq<bool>, mode: nat): (s: nat)
    ensures s < 2
  {
    assert Pow2(1) == 2 * Pow2(0) == 2;
    Field(block, RotationStart(mode) + RotationBits(mode), SelectionBits(mode))
  }

  /** The stored value of a channel of endpoint e. */
  ghost function RawOf(block: seq<bool>, mode: nat, e: nat, c: nat): nat
    requires mode < 8
  {
    Field(block, ChannelStart(mode, c) + e * ChannelBits(mode, c), ChannelBits(mode, c))
  }

  /** The bit below all channels of endpoint e. */
  ghost function PBitOf(block: seq<bool>, mode: nat, e: nat): (p: nat)
    requires mode < 8
    ensures p < 2
  {
    assert Pow2(1) == 2 * Pow2(0) == 2;
    Field(block, PStart(mode) + if mode == 1 then e / 2 else e, 1)
  }

  function Precision(mode: nat, c: nat): nat
    requires mode < 8
  {
    ChannelBits(mode, c) + if HasPBits(mode) then 1 else 0
  }

  ghost function PreciseOf(block: seq<bool>, mode: nat, e: nat, c: nat): (x: nat)
    requires mode < 8
    ensures x < Pow2(Precision(mode, c))
  {
    if HasPBits(mode) then 2 * RawOf(block, mode, e, c) + PBitOf(block, mode, e) else RawOf(block, mode, e, c)
  }

  // ---------------------------------------------------------------- expansion to eight bits

  /** The value moved to the top of a byte, its top bits copied below it. */
  function Expand(x: nat, bits: nat): nat
    requires bits <= 8
  {
    BitOr(ShiftLeft(x, 8 - bits), ShiftRight(ShiftLeft(x, 8 - bits), bits))
  }

  lemma {:induction false} OrIsSum(x: nat, n: nat, y: nat)
    requires y < Pow2(n)
    ensures BitOr(ShiftLeft(x, n), y) == ShiftLeft(x, n) + y
  {
    if n > 0 && ShiftLeft(x, n) > 0 && y > 0 {
      OrIsSum(x, n - 1, y / 2);
      assert ShiftLeft(x, n) / 2 == ShiftLeft(x, n - 1);
    }
  }

  /** For the precisions that occur, expansion in numbers. */
  lemma ExpandIs(x: nat, bits: nat)
    requires 5 <= bits <= 8 && x < Pow2(bits)
    ensures Expand(x, bits) == if bits == 5 then 8 * x + x / 4 else if bits == 6 then 4 * x + x / 16
                               else if bits == 7 then 2 * x + x / 64 else x
  {
    ShiftsBy(x);
    assert Pow2(2) == 2 * Pow2(1) == 4 * Pow2(0) == 4 && Pow2(3) == 2 * Pow2(2);
    assert Pow2(5) == 2 * Pow2(4) == 4 * Pow2(3) && Pow2(6) == 2 * Pow2(5) && Pow2(8) == 2 * Pow2(7) == 4 * Pow2(6);
    var y := ShiftLeft(x, 8 - bits);
    RightShifts(y);
    OrIsSum(x, 8 - bits, ShiftRight(y, bits));
  }

  lemma ShiftsBy(x: nat)
    ensures ShiftLeft(x, 0) == x && ShiftLeft(x, 1) == 2 * x && ShiftLeft(x, 2) == 4 * x && ShiftLeft(x, 3) == 8 * x
  {
    assert ShiftLeft(x, 2) == 2 * ShiftLeft(x, 1);
    assert ShiftLeft(x, 3) == 2 * ShiftLeft(x, 2);
  }

  lemma RightShifts(y: nat)
    ensures ShiftRight(y, 5) == y / 32 && ShiftRight(y, 6) == y / 64 && ShiftRight(y, 7) == y / 128
    ensures ShiftRight(y, 8) == y / 256
  {
    assert ShiftRight(y, 5) == ShiftRight(y / 2 / 2, 3) == ShiftRight(y / 2 / 2 / 2 / 2, 1);
    assert ShiftRight(y, 6) == ShiftRight(y / 2, 5) == ShiftRight(y / 2 / 2 / 2, 3) == ShiftRight(y / 2 / 2 / 2 / 2 / 2, 1);
    assert ShiftRight(y, 7) == ShiftRight(y / 2, 6) == ShiftRight(y / 2 / 2 / 2, 4)
        == ShiftRight(y / 2 / 2 / 2 / 2 / 2, 2);
    assert ShiftRight(y, 8) == ShiftRight(y / 2, 7) == ShiftRight(y / 2 / 2 / 2, 5)
        == ShiftRight(y / 2 / 2 / 2 / 2 / 2, 3) == ShiftRight(y / 2 / 2 / 2 / 2 / 2 / 2 / 2, 1);
  }

  /** Expansion fills a byte, keeps the value in its top bits, and maps the ends to 0 and 255. */
  lemma ExpandFills(x: nat, bits: nat)
    requires 5 <= bits <= 8 && x < Pow2(bits)
    ensures Expand(x, bits) <= 255 && ShiftRight(Expand(x, bits), 8 - bits) == x
    ensures Expand(x, bits) == 0 <==> x == 0
    ensures Expand(x, bits) == 255 <==> x == Pow2(bits) - 1
  {
    ExpandIs(x, bits);
    assert Pow2(5) == 2 * Pow2(4) == 4 * Pow2(3) == 8 * Pow2(2) == 16 * Pow2(1) == 32 * Pow2(0);
    assert Pow2(6) == 2 * Pow2(5) && Pow2(8) == 2 * Pow2(7) == 4 * Pow2(6);
    var y := Expand(x, bits);
    assert ShiftRight(y, 0) == y;
    assert ShiftRight(y, 1) == y / 2;
    assert ShiftRight(y, 2) == ShiftRight(y / 2, 1) == y / 2 / 2;
    assert ShiftRight(y, 3) == ShiftRight(y / 2, 2) == ShiftRight(y / 2 / 2, 1) == y / 2 / 2 / 2;
  }

  lemma PrecisionRange(mode: nat, c: nat)
    requires mode < 8 && c < 4 && (c < 3 || AlphaBits(mode) > 0)
    ensures 5 <= Precision(mode, c) <= 8
  {
  }

  /** A channel of endpoint e, as a byte. */
  ghost function EndpointOf(block: seq<bool>, mode: nat, e: nat, c: nat): (x: nat)
    requires mode < 8 && c < 4
    ensures x <= 255
  {
    if c == 3 && AlphaBits(mode) == 0 then 255
    else
      PrecisionRange(mode, c);
      ExpandFills(PreciseOf(block, mode, e, c), Precision(mode, c));
      Expand(PreciseOf(block, mode, e, c), Precision(mode, c))
  }

  // ---------------------------------------------------------------- texels

  /** The weight of the primary index of texel k, and of the secondary one. */
  ghost function PrimaryWeight(block: seq<bool>, mode: nat, t: Partition, k: nat): (w: nat)
    requires mode < 8
    ensures w <= 64
  {
    Weight(IndexBits(mode), IndexOf(block, t, IndexStart(mode), IndexBits(mode), k))
  }

  ghost function SecondaryWeight(block: seq<bool>, mode: nat, k: nat): (w: nat)
    requires mode < 8 && SecondIndexBits(mode) > 0
    ensures w <= 64
  {
    Weight(SecondIndexBits(mode), IndexOf(block, ONE_SUBSET, SecondStart(mode), SecondIndexBits(mode), k))
  }

  /** Alpha goes by the secondary index and the colours by the primary, or the other way round. */
  ghost function ChannelWeight(block: seq<bool>, mode: nat, t: Partition, k: nat, c: nat): (w: nat)
    requires mode < 8
    ensures w <= 64
  {
    if SecondIndexBits(mode) > 0 && (c == 3) == (SelectionOf(block, mode) == 0)
    then SecondaryWeight(block, mode, k)
    else PrimaryWeight(block, mode, t, k)
  }

  /** Channel c of texel k before rotation, under the given partition. */
  ghost function ChannelOf(block: seq<bool>, mode: nat, t: Partition, k: nat, c: nat): int
    requires mode < 8 && k < |t.subsets| && c < 4
  {
    var s := t.Subset(k);
    Interpolate(EndpointOf(block, mode, 2 * s, c), EndpointOf(block, mode, 2 * s + 1, c), ChannelWeight(block, mode, t, k, c))
  }

  /** The channel that ends up in place c: rotation r > 0 swaps alpha and colour r - 1. */
  function Rotated(r: nat, c: nat): nat {
    if r == 0 then c else if c == 3 then r - 1 else if c == r - 1 then 3 else c
  }

  ghost function TexelOf(block: seq<bool>, mode: nat, t: Partition, k: nat, c: nat): int
    requires mode < 8 && k < |t.subsets| && c < 4
  {
    ChannelOf(block, mode, t, k, Rotated(RotationOf(block, mode), c))
  }

  /** Channel c of texel k, from where its parts lie in the block. */
  ghost function Decoded(block: seq<bool>, k: nat, c: nat): int
    requires |block| == 128 && ModeOf(block) < 8 && k < 16 && c < 4
  {
    TexelOf(block, ModeOf(block), PartitionOf(block, ModeOf(block)), k, c)
  }

  /** Every decoded byte lies between the two endpoint bytes it is interpolated from. */
  lemma TexelBetweenEndpoints(block: seq<bool>, mode: nat, t: Partition, k: nat, c: nat)
    requires mode < 8 && k < |t.subsets| && c < 4
    ensures var d, s := Rotated(RotationOf(block, mode), c), t.Subset(k);
            var a, b := EndpointOf(block, mode, 2 * s, d), EndpointOf(block, mode, 2 * s + 1, d);
            (if a <= b then a <= TexelOf(block, mode, t, k, c) <= b else b <= TexelOf(block, mode, t, k, c) <= a)
            && 0 <= TexelOf(block, mode, t, k, c) <= 255
  {
    var d, s := Rotated(RotationOf(block, mode), c), t.Subset(k);
    InterpolateBetween(EndpointOf(block, mode, 2 * s, d), EndpointOf(block, mode, 2 * s + 1, d),
                       ChannelWeight(block, mode, t, k, d));
  }

  /** Modes without alpha are opaque. */
  lemma OpaqueWithoutAlpha(block: seq<bool>, mode: nat, t: Partition, k: nat)
    requires mode < 8 && k < |t.subsets| && AlphaBits(mode) == 0
    ensures TexelOf(block, mode, t, k, 3) == 255
  {
    assert RotationBits(mode) == 0 && RotationOf(block, mode) == 0;
    InterpolateBetween(255, 255, ChannelWeight(block, mode, t, k, 3));
  }
}
