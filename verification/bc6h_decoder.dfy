/** The BC6H block decoder. */
module Bc6hDecoder {
  import opened Bits
  import opened BitStreams
  import opened BptcTables
  import opened BptcTexels
  import opened Bc6hLayouts
  import opened Bc6hHeader
  import opened Bc6hReader
  import opened Bc6hArithmetic
  import opened Bc6hEndpoints

  // ---------------------------------------------------------------- the indices

  function IndexBits(mode: nat): (n: nat)
    ensures 3 <= n <= 4
  {
    if mode >= 10 then 4 else 3
  }

  // ---------------------------------------------------------------- the texels

  /** The field of the first of the two endpoints for a texel. */
  function LowField(t: Partition, k: nat, channel: nat): nat
    requires k < |t.subsets| && channel < 3
  {
    4 * channel + 2 * t.Subset(k)
  }

  /** Channel c of texel k, from where its parts lie in the block. */
  ghost function TexelHalf(v: seq<int>, block: seq<bool>, t: Partition, at: nat, bits: nat, signed: bool,
                           k: nat, channel: nat): int
    requires |v| == FIELDS && GoodPartition(t, if bits == 4 then 1 else 2) && 3 <= bits <= 4 && k < 16 && channel < 3
  {
    var low := LowField(t, k, channel);
    FinishUnquantize(Interpolate(v[low], v[low + 1], Weight(bits, IndexOf(block, t, at, bits, k))), signed)
  }

  method WriteTexel(v: array<int>, low: nat, weight: nat, signed: bool, pixels: array<int>, k: nat)
    requires v.Length == FIELDS && low <= 2 && weight <= 64 && pixels.Length == 48 && k < 16 && v != pixels
    modifies pixels
    ensures pixels[3 * k + 0] == FinishUnquantize(Interpolate(v[RW + low], v[RW + low + 1], weight), signed)
    ensures pixels[3 * k + 1] == FinishUnquantize(Interpolate(v[GW + low], v[GW + low + 1], weight), signed)
    ensures pixels[3 * k + 2] == FinishUnquantize(Interpolate(v[BW + low], v[BW + low + 1], weight), signed)
    ensures forall i | 0 <= i < 48 && !(3 * k <= i < 3 * k + 3) :: pixels[i] == old(pixels[i])
  {
    pixels[3 * k + 0] := FinishUnquantize(Interpolate(v[RW + low], v[RW + low + 1], weight), signed);
    pixels[3 * k + 1] := FinishUnquantize(Interpolate(v[GW + low], v[GW + low + 1], weight), signed);
    pixels[3 * k + 2] := FinishUnquantize(Interpolate(v[BW + low], v[BW + low + 1], weight), signed);
  }

  /** The first k texels are written. */
  ghost predicate TexelsDone(p: seq<int>, v: seq<int>, block: seq<bool>, t: Partition, at: nat, bits: nat, signed: bool,
                             k: nat)
    requires |v| == FIELDS && GoodPartition(t, if bits == 4 then 1 else 2) && 3 <= bits <= 4 && k <= 16
  {
    && |p| == 48
    && forall j: nat, c: nat | j < k && c < 3 :: p[3 * j + c] == TexelHalf(v, block, t, at, bits, signed, j, c)
  }

  method DecodeTexels(stream: BitStream, v: array<int>, t: Partition, bits: nat, signed: bool, pixels: array<int>)
    requires stream.Valid() && v.Length == FIELDS && pixels.Length == 48 && v != pixels
    requires 3 <= bits <= 4 && GoodPartition(t, if bits == 4 then 1 else 2)
    modifies stream, pixels
    ensures stream.Valid() && stream.consumed == old(stream.consumed) + 16 * bits - t.FixupCount(16)
    ensures TexelsDone(pixels[..], v[..], stream.block, t, old(stream.consumed), bits, signed, 16)
  {
    ghost var at := stream.consumed;
    var k := 0;
    while k < 16
      invariant k <= 16 && stream.Valid() && stream.consumed == IndexAt(t, at, bits, k)
      invariant TexelsDone(pixels[..], v[..], stream.block, t, at, bits, signed, k)
    {
      DecodeTexel(stream, v, t, at, bits, signed, pixels, k);
      k := k + 1;
    }
  }

  method DecodeTexel(stream: BitStream, v: array<int>, t: Partition, ghost at: nat, bits: nat, signed: bool,
                     pixels: array<int>, k: nat)
    requires stream.Valid() && v.Length == FIELDS && pixels.Length == 48 && v != pixels
    requires 3 <= bits <= 4 && GoodPartition(t, if bits == 4 then 1 else 2) && k < 16
    requires stream.consumed == IndexAt(t, at, bits, k)
    requires TexelsDone(pixels[..], v[..], stream.block, t, at, bits, signed, k)
    modifies stream, pixels
    ensures stream.Valid() && stream.consumed == IndexAt(t, at, bits, k + 1)
    ensures TexelsDone(pixels[..], v[..], stream.block, t, at, bits, signed, k + 1)
  {
    ghost var before := pixels[..];
    var index := ReadIndex(stream, t, at, bits, k);
    WriteTexel(v, 2 * t.Subset(k), Weight(bits, index), signed, pixels, k);
    forall j: nat, c: nat | j < k + 1 && c < 3
      ensures pixels[3 * j + c] == TexelHalf(v[..], stream.block, t, at, bits, signed, j, c)
    {
      if j < k {
        assert pixels[3 * j + c] == before[3 * j + c];
      }
    }
  }

  // ---------------------------------------------------------------- the block

  ghost function PartitionOf(mode: nat, f: seq<int>): Partition
    requires |f| == FIELDS && 0 <= f[D]
  {
    if mode >= 10 then ONE_SUBSET else TwoSubsets(f[D])
  }

  lemma PartitionGood(mode: nat, f: seq<int>)
    requires mode < 14 && FieldsFit(f, mode)
    ensures GoodPartition(PartitionOf(mode, f), if IndexBits(mode) == 4 then 1 else 2)
  {
    assert 0 <= f[D] < Pow2(Width(mode, D));
    if mode >= 10 {
      OneSubsetGood();
    } else {
      IndexSizes(4);
      assert Pow2(5) == 2 * Pow2(4);
      TwoSubsetsGood(f[D]);
    }
  }

  lemma UnpackedFits(mode: nat, s: seq<bool>, c: nat)
    requires mode < 14
    ensures FieldsFit(Unpack(Layout(mode), s, c), mode)
  {
    LayoutGood(mode);
    var f := Unpack(Layout(mode), s, c);
    forall t: nat | t < FIELDS ensures 0 <= f[t] < Pow2(Width(mode, t)) {
      UnpackedSmall(Layout(mode), mode, s, c, t);
    }
  }

  ghost function FieldsOf(block: seq<bool>): (f: seq<int>)
    requires ModeOf(ModeCode(block)) < RESERVED
    ensures FieldsFit(f, ModeOf(ModeCode(block)))
  {
    UnpackedFits(ModeOf(ModeCode(block)), block, ModeBits(block));
    Unpack(Layout(ModeOf(ModeCode(block))), block, ModeBits(block))
  }

  /** Where the indices start. */
  function HeaderBits(mode: nat): nat {
    if mode >= 10 then 65 else 82
  }

  /** The partition has the subsets the mode has. */
  predicate Fits(t: Partition, mode: nat) {
    GoodPartition(t, if IndexBits(mode) == 4 then 1 else 2)
  }

  lemma EndpointsLive(mode: nat, t: Partition, k: nat, channel: nat)
    requires Fits(t, mode) && k < 16 && channel < 3
    ensures Live(mode, LowField(t, k, channel)) && Live(mode, LowField(t, k, channel) + 1)
  {
    assert t.Subset(k) < 2;
  }

  /** How much the second endpoint counts in texel k. */
  ghost function TexelWeight(mode: nat, t: Partition, block: seq<bool>, k: nat): (w: nat)
    ensures w <= 64
  {
    Weight(IndexBits(mode), IndexOf(block, t, HeaderBits(mode), IndexBits(mode), k))
  }

  lemma BetweenInRange(a: int, b: int, weight: nat, signed: bool)
    requires weight <= 64 && InRange(a, 16, signed) && InRange(b, 16, signed)
    ensures InRange(Interpolate(a, b, weight), 16, signed)
    ensures a > -0x8000 && b > -0x8000 ==> Interpolate(a, b, weight) > -0x8000
  {
    InterpolateBetween(a, b, weight);
  }

  /** Channel c of texel k under a partition: the two endpoints of its subset, mixed by its index. */
  ghost function TexelMixed(f: seq<int>, mode: nat, t: Partition, block: seq<bool>, signed: bool, k: nat, channel: nat)
    : (x: int)
    requires mode < 14 && FieldsFit(f, mode) && Fits(t, mode) && k < 16 && channel < 3
    ensures InRange(x, 16, signed)
    ensures signed && mode != 13 ==> x > -0x8000
  {
    EndpointsLive(mode, t, k, channel);
    var low, w := LowField(t, k, channel), TexelWeight(mode, t, block, k);
    var a, b := Endpoint(f, mode, signed, low), Endpoint(f, mode, signed, low + 1);
    BetweenInRange(a, b, w, signed);
    Interpolate(a, b, w)
  }

  ghost function TexelValue(f: seq<int>, mode: nat, t: Partition, block: seq<bool>, signed: bool, k: nat, channel: nat): int
    requires mode < 14 && FieldsFit(f, mode) && Fits(t, mode) && k < 16 && channel < 3
  {
    FinishUnquantize(TexelMixed(f, mode, t, block, signed, k, channel), signed)
  }

  /** What a block decodes to, from where its parts lie. */
  ghost function Decoded(block: seq<bool>, signed: bool, k: nat, channel: nat): int
    requires ModeOf(ModeCode(block)) < RESERVED && k < 16 && channel < 3
  {
    var mode, f := ModeOf(ModeCode(block)), FieldsOf(block);
    PartitionGood(mode, f);
    TexelValue(f, mode, PartitionOf(mode, f), block, signed, k, channel)
  }

  method ReadHeader(stream: BitStream, fields: array<int>) returns (mode: nat)
    requires stream.Valid() && stream.consumed == 0
    requires fields.Length == FIELDS && forall t | 0 <= t < FIELDS :: fields[t] == 0
    modifies stream, fields
    ensures stream.Valid() && mode == ModeOf(ModeCode(stream.block))
    ensures mode < RESERVED ==> stream.consumed == HeaderBits(mode) && fields[..] == FieldsOf(stream.block)
  {
    var code := ReadMode(stream);
    mode := ModeOf(code);
    ModesNamed(stream.block);
    if mode < RESERVED {
      HeaderSize(mode);
      ReadFields(stream, mode, fields);
    }
  }

  method DecodeBody(stream: BitStream, mode: nat, fields: array<int>, signed: bool, pixels: array<int>)
    requires stream.Valid() && mode < 14 && stream.consumed == HeaderBits(mode)
    requires fields.Length == FIELDS && pixels.Length == 48 && fields != pixels
    requires FieldsFit(fields[..], mode)
    modifies stream, fields, pixels
    ensures stream.Valid() && stream.consumed == 128
    ensures Fits(PartitionOf(mode, old(fields[..])), mode)
    ensures forall k: nat, c: nat | k < 16 && c < 3 ::
      pixels[3 * k + c] == TexelValue(old(fields[..]), mode, PartitionOf(mode, old(fields[..])), stream.block, signed, k, c)
  {
    ghost var f := fields[..];
    var partition := if mode >= 10 then ONE_SUBSET else TwoSubsets(fields[D]);
    PartitionGood(mode, f);
    DecodeEndpoints(fields, mode, signed);
    DecodeTexels(stream, fields, partition, IndexBits(mode), signed, pixels);
    forall k: nat, c: nat | k < 16 && c < 3
      ensures pixels[3 * k + c] == TexelValue(f, mode, partition, stream.block, signed, k, c)
    {
      TexelIs(f, fields[..], mode, partition, stream.block, signed, k, c);
    }
  }

  lemma TexelIs(f: seq<int>, v: seq<int>, mode: nat, t: Partition, block: seq<bool>, signed: bool, k: nat, channel: nat)
    requires mode < 14 && FieldsFit(f, mode) && Fits(t, mode) && |v| == FIELDS && k < 16 && channel < 3
    requires forall i: nat | Live(mode, i) :: v[i] == Endpoint(f, mode, signed, i)
    ensures TexelHalf(v, block, t, HeaderBits(mode), IndexBits(mode), signed, k, channel)
         == TexelValue(f, mode, t, block, signed, k, channel)
  {
    EndpointsLive(mode, t, k, channel);
  }

  /**
  Decodes a block to 48 half-floats, three per texel. A reserved mode gives zeros; any other block is
  used up to its last bit, and every value is the one its texel, channel and index determine.
   */
  method DecodeBlock(block: seq<bool>, signed: bool) returns (pixels: array<int>, ghost used: nat)
    requires |block| == 128
    ensures pixels.Length == 48
    ensures ModeOf(ModeCode(block)) == RESERVED ==> forall i | 0 <= i < 48 :: pixels[i] == 0
    ensures ModeOf(ModeCode(block)) < RESERVED ==> used == 128
    ensures ModeOf(ModeCode(block)) < RESERVED ==>
              forall k: nat, c: nat | k < 16 && c < 3 :: pixels[3 * k + c] == Decoded(block, signed, k, c)
  {
    pixels := new int[48](_ => 0);
    var fields := new int[FIELDS](_ => 0);
    var stream := new BitStream(block);
    var mode := ReadHeader(stream, fields);
    if mode < RESERVED {
      DecodeBody(stream, mode, fields, signed, pixels);
    }
    used := stream.consumed;
  }

  // ---------------------------------------------------------------- what a block decodes to, in numbers

  /**
  A texel's channel: the two endpoints of its subset, each a stored value scaled to 16 bits, mixed by the
  weight nearest to its index, and that scaled to a half.
   */
  ghost predicate IsTexel(f: seq<int>, mode: nat, signed: bool, subset: nat, index: nat, channel: nat, half: int)
    requires |f| == FIELDS && mode < 14 && channel < 3 && 2 * subset + 1 < Endpoints(mode)
  {
    var t0, t1, bits := 4 * channel + 2 * subset, 4 * channel + 2 * subset + 1, if mode >= 10 then 4 else 3;
    exists a, b :: IsScaled(f, mode, signed, t0, a) && IsScaled(f, mode, signed, t1, b)
                   && IsMixedHalf(a, b, bits, index, signed, half)
  }

  ghost predicate IsMixedHalf(a: int, b: int, bits: nat, index: nat, signed: bool, half: int) {
    exists x :: IsMixed(a, b, bits, index, x) && IsHalf(x, signed, half)
  }

  lemma HalfOfMix(a: int, b: int, bits: nat, index: nat, signed: bool, half: int)
    requires 2 <= bits <= 4 && index < IndexLimit(bits) && IsMixedHalf(a, b, bits, index, signed, half)
    ensures half == FinishUnquantize(Interpolate(a, b, Weight(bits, index)), signed)
  {
    var x :| IsMixed(a, b, bits, index, x) && IsHalf(x, signed, half);
    OnlyMixed(a, b, bits, index, x);
    FinishIs(x, signed);
    OneHalf(x, signed, half, FinishUnquantize(x, signed));
  }

  ghost predicate IsScaled(f: seq<int>, mode: nat, signed: bool, t: nat, a: int)
    requires |f| == FIELDS && mode < 14 && Live(mode, t)
  {
    exists e :: IsEndpoint(f, mode, signed, t, e) && IsUnquantized(e, BaseBits(mode), signed, a)
  }

  lemma OneScaled(f: seq<int>, mode: nat, signed: bool, t: nat, a: int, b: int)
    requires |f| == FIELDS && mode < 14 && Live(mode, t)
    requires IsScaled(f, mode, signed, t, a) && IsScaled(f, mode, signed, t, b)
    ensures a == b
  {
    var e :| IsEndpoint(f, mode, signed, t, e) && IsUnquantized(e, BaseBits(mode), signed, a);
    var e' :| IsEndpoint(f, mode, signed, t, e') && IsUnquantized(e', BaseBits(mode), signed, b);
    OneEndpoint(f, mode, signed, t, e, e');
    OneUnquantized(e, BaseBits(mode), signed, a, b);
  }

  lemma TexelOf(f: seq<int>, mode: nat, signed: bool, subset: nat, index: nat, channel: nat, half: int) returns (a: int, b: int)
    requires |f| == FIELDS && mode < 14 && channel < 3 && 2 * subset + 1 < Endpoints(mode)
    requires IsTexel(f, mode, signed, subset, index, channel, half)
    ensures IsScaled(f, mode, signed, 4 * channel + 2 * subset, a) && IsScaled(f, mode, signed, 4 * channel + 2 * subset + 1, b)
    ensures IsMixedHalf(a, b, if mode >= 10 then 4 else 3, index, signed, half)
  {
    var t0, t1, bits := 4 * channel + 2 * subset, 4 * channel + 2 * subset + 1, if mode >= 10 then 4 else 3;
    a, b :| IsScaled(f, mode, signed, t0, a) && IsScaled(f, mode, signed, t1, b) && IsMixedHalf(a, b, bits, index, signed, half);
  }

  lemma ScaledInRange(f: seq<int>, mode: nat, signed: bool, t: nat, a: int)
    requires |f| == FIELDS && mode < 14 && Live(mode, t) && IsScaled(f, mode, signed, t, a)
    ensures InRange(a, 16, signed)
  {
    var e :| IsEndpoint(f, mode, signed, t, e) && IsUnquantized(e, BaseBits(mode), signed, a);
    UnquantizeIs(e, BaseBits(mode), signed);
    OneUnquantized(e, BaseBits(mode), signed, a, Unquantize(e, BaseBits(mode), signed));
    UnquantizeBounded(e, BaseBits(mode), signed);
  }

  /** That leaves one half only. */
  lemma OneTexel(f: seq<int>, mode: nat, signed: bool, subset: nat, index: nat, channel: nat, half: int, half': int)
    requires |f| == FIELDS && mode < 14 && channel < 3 && 2 * subset + 1 < Endpoints(mode)
    requires index < IndexLimit(IndexBits(mode))
    requires IsTexel(f, mode, signed, subset, index, channel, half) && IsTexel(f, mode, signed, subset, index, channel, half')
    ensures half == half'
  {
    var t, bits := 4 * channel + 2 * subset, if mode >= 10 then 4 else 3;
    var a, b := TexelOf(f, mode, signed, subset, index, channel, half);
    var a', b' := TexelOf(f, mode, signed, subset, index, channel, half');
    OneScaled(f, mode, signed, t, a, a');
    OneScaled(f, mode, signed, t + 1, b, b');
    HalfOfMix(a, b, bits, index, signed, half);
    HalfOfMix(a, b, bits, index, signed, half');
  }

  ghost function TexelIndex(mode: nat, t: Partition, block: seq<bool>, k: nat): (i: nat)
    ensures i < IndexLimit(IndexBits(mode))
  {
    IndexOf(block, t, HeaderBits(mode), IndexBits(mode), k)
  }

  lemma TexelIsMix(f: seq<int>, mode: nat, t: Partition, block: seq<bool>, signed: bool, k: nat, channel: nat)
    requires mode < 14 && FieldsFit(f, mode) && Fits(t, mode) && k < 16 && channel < 3
    ensures t.Subset(k) * 2 + 1 < Endpoints(mode)
    ensures IsTexel(f, mode, signed, t.Subset(k), TexelIndex(mode, t, block, k), channel,
                    TexelValue(f, mode, t, block, signed, k, channel))
  {
    EndpointsLive(mode, t, k, channel);
    var low, w := LowField(t, k, channel), TexelWeight(mode, t, block, k);
    EndpointIs(f, mode, signed, low);
    EndpointIs(f, mode, signed, low + 1);
    MixedHalf(Endpoint(f, mode, signed, low), Endpoint(f, mode, signed, low + 1), IndexBits(mode),
              TexelIndex(mode, t, block, k), signed);
  }

  lemma MixedHalf(a: int, b: int, bits: nat, index: nat, signed: bool)
    requires 2 <= bits <= 4 && index < IndexLimit(bits)
    ensures IsMixedHalf(a, b, bits, index, signed, FinishUnquantize(Interpolate(a, b, Weight(bits, index)), signed))
  {
    var x := Interpolate(a, b, Weight(bits, index));
    MixedIs(a, b, bits, index);
    FinishIs(x, signed);
    assert IsMixed(a, b, bits, index, x) && IsHalf(x, signed, FinishUnquantize(x, signed));
  }

  lemma EndpointIs(f: seq<int>, mode: nat, signed: bool, t: nat)
    requires mode < 14 && FieldsFit(f, mode) && Live(mode, t)
    ensures IsScaled(f, mode, signed, t, Endpoint(f, mode, signed, t))
  {
    AbsoluteIs(f, mode, signed, t);
    UnquantizeIs(Absolute(f, mode, signed, t), BaseBits(mode), signed);
  }

  /** What each value of a block is, without the decoder's functions. */
  lemma DecodedIs(block: seq<bool>, signed: bool, k: nat, channel: nat)
    requires ModeOf(ModeCode(block)) < RESERVED && k < 16 && channel < 3
    ensures var mode, f := ModeOf(ModeCode(block)), FieldsOf(block);
            var t := PartitionOf(mode, f);
            && k < |t.subsets| && t.Subset(k) * 2 + 1 < Endpoints(mode)
            && IsTexel(f, mode, signed, t.Subset(k), TexelIndex(mode, t, block, k), channel, Decoded(block, signed, k, channel))
  {
    var mode, f := ModeOf(ModeCode(block)), FieldsOf(block);
    PartitionGood(mode, f);
    TexelIsMix(f, mode, PartitionOf(mode, f), block, signed, k, channel);
  }

  /** The first index gives the first endpoint of the texel's subset, the last one the second. */
  lemma DecodedEnds(block: seq<bool>, signed: bool, k: nat, channel: nat)
    requires ModeOf(ModeCode(block)) < RESERVED && k < 16 && channel < 3
    ensures var mode, f := ModeOf(ModeCode(block)), FieldsOf(block);
            var t := PartitionOf(mode, f);
            && k < |t.subsets| && t.Subset(k) * 2 + 1 < Endpoints(mode)
            && EndsRight(f, mode, signed, t.Subset(k), TexelIndex(mode, t, block, k), channel, Decoded(block, signed, k, channel))
  {
    var mode, f := ModeOf(ModeCode(block)), FieldsOf(block);
    DecodedIs(block, signed, k, channel);
    var t := PartitionOf(mode, f);
    TexelEnds(f, mode, signed, t.Subset(k), TexelIndex(mode, t, block, k), channel, Decoded(block, signed, k, channel));
  }

  /** The texels lie in one subset, and the second has no smaller index. */
  ghost predicate LaterIndex(block: seq<bool>, j: nat, k: nat)
    requires ModeOf(ModeCode(block)) < RESERVED && j < 16 && k < 16
  {
    var mode, f := ModeOf(ModeCode(block)), FieldsOf(block);
    var t := PartitionOf(mode, f);
    |t.subsets| == 16 && t.Subset(j) == t.Subset(k) && TexelIndex(mode, t, block, j) <= TexelIndex(mode, t, block, k)
  }

  /** Its half is that of the first endpoint of the texel's subset. */
  ghost predicate IsFirstHalf(block: seq<bool>, signed: bool, k: nat, channel: nat, half: int)
    requires ModeOf(ModeCode(block)) < RESERVED && k < 16 && channel < 3
  {
    var mode, f := ModeOf(ModeCode(block)), FieldsOf(block);
    PartitionGood(mode, f);
    IsFirstOf(f, mode, signed, PartitionOf(mode, f), k, channel, half)
  }

  ghost predicate IsFirstOf(f: seq<int>, mode: nat, signed: bool, t: Partition, k: nat, channel: nat, half: int)
    requires mode < 14 && FieldsFit(f, mode) && Fits(t, mode) && k < 16 && channel < 3
  {
    assert t.Subset(k) < if mode >= 10 then 1 else 2;
    IsEndpointHalf(f, mode, signed, 4 * channel + 2 * t.Subset(k), half)
  }

  /** Of two texels of a subset the one with the larger index is never nearer to the first endpoint. */
  lemma DecodedAway(block: seq<bool>, signed: bool, j: nat, k: nat, channel: nat) returns (first: int)
    requires ModeOf(ModeCode(block)) < RESERVED && j < 16 && k < 16 && channel < 3 && LaterIndex(block, j, k)
    ensures IsFirstHalf(block, signed, j, channel, first)
    ensures InOrder(Signed(first), Signed(Decoded(block, signed, j, channel)), Signed(Decoded(block, signed, k, channel)))
  {
    var mode, f := ModeOf(ModeCode(block)), FieldsOf(block);
    PartitionGood(mode, f);
    first := TexelsAway(f, mode, PartitionOf(mode, f), block, signed, j, k, channel);
  }

  lemma TexelsAway(f: seq<int>, mode: nat, t: Partition, block: seq<bool>, signed: bool, j: nat, k: nat, channel: nat)
      returns (first: int)
    requires mode < 14 && FieldsFit(f, mode) && Fits(t, mode) && j < 16 && k < 16 && channel < 3
    requires t.Subset(j) == t.Subset(k) && TexelIndex(mode, t, block, j) <= TexelIndex(mode, t, block, k)
    ensures IsFirstOf(f, mode, signed, t, j, channel, first)
    ensures InOrder(Signed(first), Signed(TexelValue(f, mode, t, block, signed, j, channel)),
                    Signed(TexelValue(f, mode, t, block, signed, k, channel)))
  {
    TexelIsMix(f, mode, t, block, signed, j, channel);
    TexelIsMix(f, mode, t, block, signed, k, channel);
    first := LargerIndexAway(f, mode, signed, t.Subset(j), TexelIndex(mode, t, block, j), TexelIndex(mode, t, block, k), channel,
                             TexelValue(f, mode, t, block, signed, j, channel), TexelValue(f, mode, t, block, signed, k, channel));
  }

  /** The half that an endpoint by itself gives. */
  ghost predicate IsEndpointHalf(f: seq<int>, mode: nat, signed: bool, t: nat, half: int)
    requires |f| == FIELDS && mode < 14 && Live(mode, t)
  {
    exists a :: IsScaled(f, mode, signed, t, a) && IsHalf(a, signed, half)
  }

  /** The first index gives the first endpoint of the subset, the last index the second. */
  ghost predicate EndsRight(f: seq<int>, mode: nat, signed: bool, subset: nat, index: nat, channel: nat, half: int)
    requires |f| == FIELDS && mode < 14 && channel < 3 && 2 * subset + 1 < Endpoints(mode)
  {
    var t := 4 * channel + 2 * subset;
    && (index == 0 ==> IsEndpointHalf(f, mode, signed, t, half))
    && (index == (if mode >= 10 then 15 else 7) ==> IsEndpointHalf(f, mode, signed, t + 1, half))
  }

  lemma EndHalves(a: int, b: int, bits: nat, index: nat, signed: bool, half: int)
    requires 2 <= bits <= 4 && index < IndexLimit(bits) && IsMixedHalf(a, b, bits, index, signed, half)
    ensures index == 0 ==> IsHalf(a, signed, half)
    ensures index == IndexLimit(bits) - 1 ==> IsHalf(b, signed, half)
  {
    var x :| IsMixed(a, b, bits, index, x) && IsHalf(x, signed, half);
    MixedEnds(a, b, bits, index, x);
  }

  lemma TexelEnds(f: seq<int>, mode: nat, signed: bool, subset: nat, index: nat, channel: nat, half: int)
    requires |f| == FIELDS && mode < 14 && channel < 3 && 2 * subset + 1 < Endpoints(mode) && index < IndexLimit(IndexBits(mode))
    requires IsTexel(f, mode, signed, subset, index, channel, half)
    ensures EndsRight(f, mode, signed, subset, index, channel, half)
  {
    var a, b := TexelOf(f, mode, signed, subset, index, channel, half);
    EndHalves(a, b, IndexBits(mode), index, signed, half);
  }

  lemma LargerIndexAway(f: seq<int>, mode: nat, signed: bool, subset: nat, i: nat, j: nat, channel: nat, half: int, half': int)
      returns (first: int)
    requires |f| == FIELDS && mode < 14 && channel < 3 && 2 * subset + 1 < Endpoints(mode)
    requires i <= j < IndexLimit(IndexBits(mode))
    requires IsTexel(f, mode, signed, subset, i, channel, half) && IsTexel(f, mode, signed, subset, j, channel, half')
    ensures IsEndpointHalf(f, mode, signed, 4 * channel + 2 * subset, first)
    ensures InOrder(Signed(first), Signed(half), Signed(half'))
  {
    var t, bits := 4 * channel + 2 * subset, IndexBits(mode);
    var a, b := TexelOf(f, mode, signed, subset, i, channel, half);
    var a', b' := TexelOf(f, mode, signed, subset, j, channel, half');
    OneScaled(f, mode, signed, t, a, a');
    OneScaled(f, mode, signed, t + 1, b, b');
    ScaledInRange(f, mode, signed, t, a);
    ScaledInRange(f, mode, signed, t + 1, b);
    HalvesAway(a, b, bits, i, j, signed, half, half');
    first := FinishUnquantize(a, signed);
    FinishIs(a, signed);
    assert IsEndpointHalf(f, mode, signed, t, first);
  }

  lemma HalvesAway(a: int, b: int, bits: nat, i: nat, j: nat, signed: bool, half: int, half': int)
    requires 2 <= bits <= 4 && i <= j < IndexLimit(bits)
    requires IsMixedHalf(a, b, bits, i, signed, half) && IsMixedHalf(a, b, bits, j, signed, half')
    requires InRange(a, 16, signed) && InRange(b, 16, signed)
    ensures InOrder(Signed(FinishUnquantize(a, signed)), Signed(half), Signed(half'))
  {
    HalfOfMix(a, b, bits, i, signed, half);
    HalfOfMix(a, b, bits, j, signed, half');
    MixedIs(a, b, bits, i);
    MixedIs(a, b, bits, j);
    var x, y := Interpolate(a, b, Weight(bits, i)), Interpolate(a, b, Weight(bits, j));
    MixedAway(a, b, bits, i, j, x, y);
    BetweenInRange(a, b, Weight(bits, i), signed);
    BetweenInRange(a, b, Weight(bits, j), signed);
    HalvesInOrder(a, x, y, signed);
  }

  lemma HalvesInOrder(a: int, x: int, y: int, signed: bool)
    requires InRange(a, 16, signed) && InRange(x, 16, signed) && InRange(y, 16, signed) && InOrder(a, x, y)
    ensures InOrder(Signed(FinishUnquantize(a, signed)), Signed(FinishUnquantize(x, signed)), Signed(FinishUnquantize(y, signed)))
  {
    if a <= x {
      FinishMonotone(a, x, signed);
    } else {
      FinishMonotone(x, a, signed);
    }
    if x <= y {
      FinishMonotone(x, y, signed);
    } else {
      FinishMonotone(y, x, signed);
    }
  }

  // ---------------------------------------------------------------- finiteness

  /** A value is a finite half unless the format is signed and the mixed value the lowest number. */
  lemma TexelFinite(f: seq<int>, mode: nat, t: Partition, block: seq<bool>, signed: bool, k: nat, channel: nat)
    requires mode < 14 && FieldsFit(f, mode) && Fits(t, mode) && k < 16 && channel < 3
    ensures Finite(TexelValue(f, mode, t, block, signed, k, channel))
       <==> !(signed && TexelMixed(f, mode, t, block, signed, k, channel) == -0x8000)
    ensures !signed ==> TexelValue(f, mode, t, block, signed, k, channel) <= 0x7BFF
    ensures mode != 13 ==> Finite(TexelValue(f, mode, t, block, signed, k, channel))
  {
    FinishFinite(TexelMixed(f, mode, t, block, signed, k, channel), signed);
  }

  /** Every decoded value is a finite half, and not negative in the unsigned format; but for mode 13 signed. */
  lemma DecodedFinite(block: seq<bool>, signed: bool, k: nat, channel: nat)
    requires ModeOf(ModeCode(block)) < RESERVED && k < 16 && channel < 3
    requires !(signed && ModeOf(ModeCode(block)) == 13)
    ensures Finite(Decoded(block, signed, k, channel))
    ensures !signed ==> Decoded(block, signed, k, channel) <= 0x7BFF
  {
    var mode, f := ModeOf(ModeCode(block)), FieldsOf(block);
    PartitionGood(mode, f);
    TexelFinite(f, mode, PartitionOf(mode, f), block, signed, k, channel);
  }

  /** The endpoints of mode 13 signed are the decoded numbers themselves: they are not scaled. */
  lemma SixteenBitEndpoint(f: seq<int>, mode: nat, t: nat)
    requires mode == 13 && FieldsFit(f, mode) && Live(mode, t)
    ensures Endpoint(f, mode, true, t) == Absolute(f, mode, true, t)
  {
    AbsoluteInRange(f, mode, true, t);
    assert BaseBits(mode) == 16;
  }

  /** Weighed together the endpoints are less than half a step above the lowest number. */
  predicate NearLowest(a: int, b: int, w: nat) {
    (a + 0x8000) * (64 - w) + (b + 0x8000) * w < 32
  }

  lemma TexelMixedIs(f: seq<int>, mode: nat, t: Partition, block: seq<bool>, k: nat, channel: nat, low: nat)
    requires mode < 14 && FieldsFit(f, mode) && Fits(t, mode) && k < 16 && channel < 3 && low == LowField(t, k, channel)
    ensures Live(mode, low) && Live(mode, low + 1)
    ensures TexelMixed(f, mode, t, block, true, k, channel)
         == Interpolate(Endpoint(f, mode, true, low), Endpoint(f, mode, true, low + 1), TexelWeight(mode, t, block, k))
  {
    EndpointsLive(mode, t, k, channel);
  }

  lemma LowestMixed(x: int, a: int, b: int, w: nat)
    requires w <= 64 && -0x8000 <= a && -0x8000 <= b && x == Interpolate(a, b, w)
    ensures x == -0x8000 <==> NearLowest(a, b, w)
  {
    LowestInterpolated(a, b, w);
  }

  /** When the mixed value is the lowest number, in terms of the endpoints and the weight. */
  lemma MixedLowest(f: seq<int>, mode: nat, t: Partition, block: seq<bool>, k: nat, channel: nat, low: nat)
    requires mode < 14 && FieldsFit(f, mode) && Fits(t, mode) && k < 16 && channel < 3 && low == LowField(t, k, channel)
    ensures Live(mode, low) && Live(mode, low + 1)
    ensures TexelMixed(f, mode, t, block, true, k, channel) == -0x8000
       <==> NearLowest(Endpoint(f, mode, true, low), Endpoint(f, mode, true, low + 1), TexelWeight(mode, t, block, k))
  {
    TexelMixedIs(f, mode, t, block, k, channel, low);
    assert Half(16) == 0x8000 by {
      Pow2Of16And32();
    }
    LowestMixed(TexelMixed(f, mode, t, block, true, k, channel), Endpoint(f, mode, true, low),
                Endpoint(f, mode, true, low + 1), TexelWeight(mode, t, block, k));
  }

  /** The texel's two endpoints and its weight give the lowest number. */
  ghost predicate TexelLowest(f: seq<int>, mode: nat, t: Partition, block: seq<bool>, k: nat, channel: nat)
    requires mode < 14 && FieldsFit(f, mode) && Fits(t, mode) && k < 16 && channel < 3
  {
    EndpointsLive(mode, t, k, channel);
    var low := LowField(t, k, channel);
    NearLowest(Endpoint(f, mode, true, low), Endpoint(f, mode, true, low + 1), TexelWeight(mode, t, block, k))
  }

  ghost predicate LowestTexel(block: seq<bool>, k: nat, channel: nat)
    requires ModeOf(ModeCode(block)) < RESERVED && k < 16 && channel < 3
  {
    var mode, f := ModeOf(ModeCode(block)), FieldsOf(block);
    PartitionGood(mode, f);
    TexelLowest(f, mode, PartitionOf(mode, f), block, k, channel)
  }

  lemma TexelFiniteExactly(f: seq<int>, mode: nat, t: Partition, block: seq<bool>, signed: bool, k: nat, channel: nat)
    requires mode < 14 && FieldsFit(f, mode) && Fits(t, mode) && k < 16 && channel < 3
    ensures Finite(TexelValue(f, mode, t, block, signed, k, channel))
       <==> !(signed && TexelLowest(f, mode, t, block, k, channel))
  {
    TexelFinite(f, mode, t, block, signed, k, channel);
    MixedLowest(f, mode, t, block, k, channel, LowField(t, k, channel));
  }

  /** Exactly which values of a block are no finite halves. */
  lemma DecodedFiniteExactly(block: seq<bool>, signed: bool, k: nat, channel: nat)
    requires ModeOf(ModeCode(block)) < RESERVED && k < 16 && channel < 3
    ensures Finite(Decoded(block, signed, k, channel)) <==> !(signed && LowestTexel(block, k, channel))
  {
    var mode, f := ModeOf(ModeCode(block)), FieldsOf(block);
    PartitionGood(mode, f);
    TexelFiniteExactly(f, mode, PartitionOf(mode, f), block, signed, k, channel);
  }

  /** A red base of -32768 with delta 0 makes red infinite in every texel, whatever the indices. */
  lemma InfiniteRed(f: seq<int>, mode: nat, t: Partition, block: seq<bool>, k: nat)
    requires mode == 13 && FieldsFit(f, mode) && f[RW] == 0x8000 && f[RX] == 0 && Fits(t, mode) && k < 16
    ensures !Finite(TexelValue(f, mode, t, block, true, k, 0))
  {
    var low := LowField(t, k, 0);
    RedOfOneSubset(mode, t, k);
    LowestRedEndpoints(f, mode, low);
    InfiniteIf(f, mode, t, block, k, low);
  }

  lemma InfiniteIf(f: seq<int>, mode: nat, t: Partition, block: seq<bool>, k: nat, low: nat)
    requires mode < 14 && FieldsFit(f, mode) && Fits(t, mode) && k < 16 && low == LowField(t, k, 0)
    requires Live(mode, low) && Endpoint(f, mode, true, low) == -0x8000
    requires Live(mode, low + 1) && Endpoint(f, mode, true, low + 1) == -0x8000
    ensures !Finite(TexelValue(f, mode, t, block, true, k, 0))
  {
    LowestBoth(f, mode, t, block, k, low);
    TexelFinite(f, mode, t, block, true, k, 0);
  }

  lemma LowestBoth(f: seq<int>, mode: nat, t: Partition, block: seq<bool>, k: nat, low: nat)
    requires mode < 14 && FieldsFit(f, mode) && Fits(t, mode) && k < 16 && low == LowField(t, k, 0)
    requires Live(mode, low) && Endpoint(f, mode, true, low) == -0x8000
    requires Live(mode, low + 1) && Endpoint(f, mode, true, low + 1) == -0x8000
    ensures TexelMixed(f, mode, t, block, true, k, 0) == -0x8000
  {
    TexelMixedIs(f, mode, t, block, k, 0, low);
    LowestSame(TexelMixed(f, mode, t, block, true, k, 0), Endpoint(f, mode, true, low), Endpoint(f, mode, true, low + 1),
               TexelWeight(mode, t, block, k));
  }

  lemma RedOfOneSubset(mode: nat, t: Partition, k: nat)
    requires mode == 13 && Fits(t, mode) && k < 16
    ensures LowField(t, k, 0) == RW
  {
  }

  lemma LowestSame(x: int, a: int, b: int, w: nat)
    requires w <= 64 && a == b == -0x8000 && x == Interpolate(a, b, w)
    ensures x == -0x8000
  {
    InterpolateBetween(a, b, w);
  }

  lemma InfiniteRedFits(mode: nat)
    requires mode == 13
    ensures FieldsFit(INFINITE_RED, mode)
  {
    Pow2Of16And32();
  }

  lemma LowestRedEndpoints(f: seq<int>, mode: nat, low: nat)
    requires mode == 13 && FieldsFit(f, mode) && f[RW] == 0x8000 && f[RX] == 0 && low == RW
    ensures Live(mode, low) && Endpoint(f, mode, true, low) == -0x8000
    ensures Live(mode, low + 1) && Endpoint(f, mode, true, low + 1) == -0x8000
  {
    LowestRed(f, mode);
    SixteenBitEndpoint(f, mode, RW);
    SixteenBitEndpoint(f, mode, RX);
  }

  lemma LowestBase()
    ensures ExtendSign(0x8000, 16) == -0x8000 && TransformInverse(0, -0x8000, 16, true) == -0x8000
  {
    Pow2Of16And32();
    ExtendSignWraps(0x8000, 16);
    CongruentIf(0, 0, Pow2(16), 0);
    InverseIs(0, -0x8000, 16, true, -0x8000);
  }

  lemma ZeroDelta()
    ensures ExtendSign(0, 4) == 0
  {
    ExtendSignWraps(0, 4);
    DivisionUnique(Half(4), Pow2(4), 0, Half(4));
  }

  lemma LowestRed(f: seq<int>, mode: nat)
    requires mode == 13 && FieldsFit(f, mode) && f[RW] == 0x8000 && f[RX] == 0
    ensures Absolute(f, mode, true, RW) == -0x8000 && Absolute(f, mode, true, RX) == -0x8000
  {
    assert BaseBits(mode) == 16 && DeltaBits(mode, 0) == 4;
    LowestBase();
    ZeroDelta();
  }

  // ---------------------------------------------------------------- encoding

  lemma FieldsBack(block: seq<bool>, mode: nat, f: seq<nat>)
    requires mode < 14 && |f| == FIELDS && EncodeHeader(mode, f) <= block
    requires forall i | 0 <= i < FIELDS :: f[i] < Pow2(Width(mode, i))
    ensures ModeOf(ModeCode(block)) == mode && FieldsOf(block) == f
  {
    HeaderRoundTrip(mode, f, block);
  }

  /** Every block of mode 13 with that base and delta decodes to infinite red in all its texels. */
  lemma InfiniteRedDecoded(block: seq<bool>, k: nat)
    requires ModeOf(ModeCode(block)) == 13 && FieldsOf(block)[RW] == 0x8000 && FieldsOf(block)[RX] == 0 && k < 16
    ensures !Finite(Decoded(block, true, k, 0))
  {
    var f := FieldsOf(block);
    PartitionGood(13, f);
    InfiniteRed(f, 13, PartitionOf(13, f), block, k);
  }

  const INFINITE_RED: seq<nat> := [0x8000, 0, 0, 0, 0, 0, 0, 0, 0, 0, 0, 0, 0]

  lemma RedRead(block: seq<bool>, mode: nat, f: seq<nat>)
    requires mode < 14 && FieldsFit(f, mode) && EncodeHeader(mode, f) <= block
    ensures ModeOf(ModeCode(block)) == mode && FieldsOf(block)[RW] == f[RW] && FieldsOf(block)[RX] == f[RX]
  {
    FieldsBack(block, mode, f);
  }

  /** There is such a block of 128 bits. */
  lemma SomeInfiniteBlock() returns (block: seq<bool>)
    ensures |block| == 128 && ModeOf(ModeCode(block)) == 13
    ensures forall k: nat | k < 16 :: !Finite(Decoded(block, true, k, 0))
  {
    var header := InfiniteHeader();
    block := header + seq(63, _ => false);
    InfiniteRedFits(13);
    RedRead(block, 13, INFINITE_RED);
    forall k: nat | k < 16 ensures !Finite(Decoded(block, true, k, 0)) {
      InfiniteRedDecoded(block, k);
    }
  }

  lemma InfiniteHeader() returns (header: seq<bool>)
    ensures header == EncodeHeader(13, INFINITE_RED) && |header| == 65
  {
    HeaderSize(13);
    header := EncodeHeader(13, INFINITE_RED);
  }

  /** Every storable choice of endpoints, stored in the header, is what the block decodes to. */
  lemma EndpointsRoundTrip(block: seq<bool>, mode: nat, e: seq<int>, f: seq<nat>, signed: bool, t: nat)
    requires mode < 14 && |f| == FIELDS && Live(mode, t) && Encodes(f, e, mode, signed)
    requires forall i | 0 <= i < FIELDS :: f[i] < Pow2(Width(mode, i))
    requires EncodeHeader(mode, f) <= block
    ensures ModeOf(ModeCode(block)) == mode && FieldsOf(block) == f
    ensures Absolute(f, mode, signed, t) == e[t]
  {
    FieldsBack(block, mode, f);
    EndpointsRecovered(f, e, mode, signed, t);
  }
}
