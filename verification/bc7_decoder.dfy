/** The BC7 block decoder: it reads the block once from front to back. */
module Bc7Decoder {
  import opened Bits
  import opened BitStreams
  import opened BptcTables
  import opened BptcTexels
  import opened Bc7Layout

  // ---------------------------------------------------------------- mode and options

  lemma OneBit(block: seq<bool>, c: nat)
    requires c < |block|
    ensures ValueOf(Taken(block, c, 1)) == if block[c] then 1 else 0
  {
    var s := Taken(block, c, 1);
    assert s[0] == block[c] && s[1..] == [];
  }

  method ReadMode(stream: BitStream) returns (mode: nat)
    requires stream.Valid() && stream.consumed == 0
    modifies stream
    ensures stream.Valid() && mode == ModeOf(stream.block)
    ensures mode < 8 ==> stream.consumed == mode + 1
  {
    mode := 0;
    while mode < 8
      invariant mode <= 8 && stream.Valid() && stream.consumed == mode
      invariant ModeOf(stream.block) == LeadingZeros(stream.block, mode)
    {
      OneBit(stream.block, mode);
      var bit := stream.ReadBit();
      if bit != 0 {
        break;
      }
      mode := mode + 1;
    }
  }

  method ReadOptions(stream: BitStream, mode: nat) returns (partition: nat, rotation: nat, selection: nat)
    requires stream.Valid() && mode < 8 && stream.consumed == mode + 1
    modifies stream
    ensures stream.Valid() && stream.consumed == ChannelStart(mode, 0)
    ensures partition == PartitionNumber(stream.block, mode)
    ensures rotation == RotationOf(stream.block, mode) && selection == SelectionOf(stream.block, mode)
  {
    partition, rotation, selection := 0, 0, 0;
    if mode == 0 || mode == 1 || mode == 2 || mode == 3 || mode == 7 {
      partition := stream.ReadBits(if mode == 0 then 4 else 6);
    }
    if mode == 4 || mode == 5 {
      rotation := stream.ReadBits(2);
      if mode == 4 {
        selection := stream.ReadBit();
      }
    }
  }

  // ---------------------------------------------------------------- endpoints

  /** Channel c of the first count endpoints; bits bits each. */
  method ReadChannel(stream: BitStream, endpoints: array2<nat>, count: nat, c: nat, bits: nat, ghost start: nat)
    requires stream.Valid() && stream.consumed == start
    requires endpoints.Length0 == 6 && endpoints.Length1 == 4 && count <= 6 && c < 4 && 1 <= bits <= 8
    modifies stream, endpoints
    ensures stream.Valid() && stream.consumed == start + count * bits
    ensures forall e: nat, d: nat | e < 6 && d < 4 ::
      endpoints[e, d] == if d == c && e < count then Field(stream.block, start + e * bits, bits) else old(endpoints[e, d])
  {
    var j := 0;
    while j < count
      invariant j <= count && stream.Valid() && stream.consumed == start + j * bits
      invariant forall e: nat, d: nat | e < 6 && d < 4 ::
        endpoints[e, d] == if d == c && e < j then Field(stream.block, start + e * bits, bits) else old(endpoints[e, d])
    {
      assert (j + 1) * bits == j * bits + bits;
      var x := stream.ReadBits(bits);
      endpoints[j, c] := x;
      j := j + 1;
    }
  }

  /** The channel is stored in the block. */
  predicate Stored(mode: nat, c: nat)
    requires mode < 8
  {
    c < 3 || (c == 3 && AlphaBits(mode) > 0)
  }

  lemma ChannelStep(mode: nat, c: nat)
    requires mode < 8
    ensures ChannelStart(mode, c + 1) == ChannelStart(mode, c) + Endpoints(mode) * ColorBits(mode)
  {
    var n := Endpoints(mode) * ColorBits(mode);
    assert (c + 1) * n == c * n + n;
  }

  /** The first c channels are read. */
  ghost predicate ChannelsRead(endpoints: array2<nat>, block: seq<bool>, mode: nat, c: nat)
    requires endpoints.Length0 == 6 && endpoints.Length1 == 4 && mode < 8 && c <= 4
    reads endpoints
  {
    forall e: nat, d: nat | e < Endpoints(mode) && d < c :: endpoints[e, d] == RawOf(block, mode, e, d)
  }

  method ReadNextChannel(stream: BitStream, mode: nat, endpoints: array2<nat>, c: nat)
    requires stream.Valid() && mode < 8 && Stored(mode, c) && stream.consumed == ChannelStart(mode, c)
    requires endpoints.Length0 == 6 && endpoints.Length1 == 4 && ChannelsRead(endpoints, stream.block, mode, c)
    modifies stream, endpoints
    ensures stream.Valid() && stream.consumed == if c < 3 then ChannelStart(mode, c + 1) else PStart(mode)
    ensures ChannelsRead(endpoints, stream.block, mode, c + 1)
  {
    ChannelStep(mode, c);
    ReadChannel(stream, endpoints, Endpoints(mode), c, ChannelBits(mode, c), ChannelStart(mode, c));
  }

  method ReadEndpoints(stream: BitStream, mode: nat, endpoints: array2<nat>)
    requires stream.Valid() && mode < 8 && stream.consumed == ChannelStart(mode, 0)
    requires endpoints.Length0 == 6 && endpoints.Length1 == 4
    modifies stream, endpoints
    ensures stream.Valid() && stream.consumed == PStart(mode)
    ensures forall e: nat, c: nat | e < Endpoints(mode) && Stored(mode, c) :: endpoints[e, c] == RawOf(stream.block, mode, e, c)
  {
    var i := 0;
    while i < 3
      invariant i <= 3 && stream.Valid() && stream.consumed == ChannelStart(mode, i)
      invariant ChannelsRead(endpoints, stream.block, mode, i)
    {
      ReadNextChannel(stream, mode, endpoints, i);
      i := i + 1;
    }
    if AlphaBits(mode) > 0 {
      ReadNextChannel(stream, mode, endpoints, 3);
    }
  }

  method DoubleEndpoints(endpoints: array2<nat>, count: nat)
    requires endpoints.Length0 == 6 && endpoints.Length1 == 4 && count <= 6
    modifies endpoints
    ensures forall e: nat, c: nat | e < count && c < 4 :: endpoints[e, c] == 2 * old(endpoints[e, c])
  {
    var i := 0;
    while i < count
      invariant i <= count
      invariant forall e: nat, c: nat | e < 6 && c < 4 ::
        endpoints[e, c] == if e < i then 2 * old(endpoints[e, c]) else old(endpoints[e, c])
    {
      var j := 0;
      while j < 4
        invariant j <= 4
        invariant forall e: nat, c: nat | e < 6 && c < 4 ::
          endpoints[e, c] == if e < i || (e == i && c < j) then 2 * old(endpoints[e, c]) else old(endpoints[e, c])
      {
        DoubleOrBit(endpoints[i, j], 0);
        endpoints[i, j] := ShiftLeft(endpoints[i, j], 1);
        j := j + 1;
      }
      i := i + 1;
    }
  }

  /** Puts the bit below the first n channels of endpoint e. */
  method OrBit(endpoints: array2<nat>, e: nat, n: nat, bit: nat)
    requires endpoints.Length0 == 6 && endpoints.Length1 == 4 && e < 6 && n <= 4 && bit < 2
    requires forall c: nat | c < 4 :: endpoints[e, c] % 2 == 0
    modifies endpoints
    ensures forall d: nat, c: nat | d < 6 && c < 4 ::
      endpoints[d, c] == old(endpoints[d, c]) + if d == e && c < n then bit else 0
  {
    var k := 0;
    while k < n
      invariant k <= n
      invariant forall d: nat, c: nat | d < 6 && c < 4 ::
        endpoints[d, c] == old(endpoints[d, c]) + if d == e && c < k then bit else 0
    {
      DoubleOrBit(endpoints[e, k] / 2, bit);
      endpoints[e, k] := BitOr(endpoints[e, k], bit);
      k := k + 1;
    }
  }

  method OrSharedBits(stream: BitStream, endpoints: array2<nat>, ghost start: nat)
    requires stream.Valid() && stream.consumed == start
    requires endpoints.Length0 == 6 && endpoints.Length1 == 4
    requires forall e: nat, c: nat | e < 4 && c < 4 :: endpoints[e, c] % 2 == 0
    modifies stream, endpoints
    ensures stream.Valid() && stream.consumed == start + 2
    ensures forall e: nat, c: nat | e < 4 && c < 3 ::
      endpoints[e, c] == old(endpoints[e, c]) + Field(stream.block, start + e / 2, 1)
  {
    var i := stream.ReadBit();
    var j := stream.ReadBit();
    OneBitField(stream.block, start);
    OneBitField(stream.block, start + 1);
    OrBit(endpoints, 0, 3, i);
    OrBit(endpoints, 1, 3, i);
    OrBit(endpoints, 2, 3, j);
    OrBit(endpoints, 3, 3, j);
  }

  lemma OneBitField(block: seq<bool>, start: nat)
    ensures Field(block, start, 1) < 2
  {
    assert Pow2(1) == 2 * Pow2(0) == 2;
  }

  method OrUniqueBits(stream: BitStream, endpoints: array2<nat>, count: nat, ghost start: nat)
    requires stream.Valid() && stream.consumed == start && count <= 6
    requires endpoints.Length0 == 6 && endpoints.Length1 == 4
    requires forall e: nat, c: nat | e < count && c < 4 :: endpoints[e, c] % 2 == 0
    modifies stream, endpoints
    ensures stream.Valid() && stream.consumed == start + count
    ensures forall e: nat, c: nat | e < count && c < 4 ::
      endpoints[e, c] == old(endpoints[e, c]) + Field(stream.block, start + e, 1)
  {
    var i := 0;
    while i < count
      invariant i <= count && stream.Valid() && stream.consumed == start + i
      invariant forall e: nat, c: nat | e < 6 && c < 4 ::
        endpoints[e, c] == old(endpoints[e, c]) + if e < i then Field(stream.block, start + e, 1) else 0
    {
      var j := stream.ReadBit();
      OneBitField(stream.block, start + i);
      OrBit(endpoints, i, 4, j);
      i := i + 1;
    }
  }

  /** Reads the bits below the channels, which were doubled. */
  method OrPBits(stream: BitStream, mode: nat, endpoints: array2<nat>)
    requires stream.Valid() && mode < 8 && HasPBits(mode) && stream.consumed == PStart(mode)
    requires endpoints.Length0 == 6 && endpoints.Length1 == 4
    requires forall e: nat, c: nat | e < Endpoints(mode) && c < 4 :: endpoints[e, c] % 2 == 0
    modifies stream, endpoints
    ensures stream.Valid() && stream.consumed == IndexStart(mode)
    ensures forall e: nat, c: nat | e < Endpoints(mode) && Stored(mode, c) ::
      endpoints[e, c] == old(endpoints[e, c]) + PBitOf(stream.block, mode, e)
  {
    if mode == 1 {
      OrSharedBits(stream, endpoints, PStart(mode));
    } else {
      OrUniqueBits(stream, endpoints, Endpoints(mode), PStart(mode));
    }
  }

  method InsertPBits(stream: BitStream, mode: nat, endpoints: array2<nat>)
    requires stream.Valid() && mode < 8 && stream.consumed == PStart(mode)
    requires endpoints.Length0 == 6 && endpoints.Length1 == 4
    requires forall e: nat, c: nat | e < Endpoints(mode) && Stored(mode, c) :: endpoints[e, c] == RawOf(stream.block, mode, e, c)
    modifies stream, endpoints
    ensures stream.Valid() && stream.consumed == IndexStart(mode)
    ensures forall e: nat, c: nat | e < Endpoints(mode) && Stored(mode, c) ::
      endpoints[e, c] == PreciseOf(stream.block, mode, e, c)
  {
    if HasPBits(mode) {
      DoubleEndpoints(endpoints, Endpoints(mode));
      OrPBits(stream, mode, endpoints);
    }
  }

  /** The channels of endpoint e to bytes; alpha that is not stored becomes some number. */
  method ExpandEndpoint(mode: nat, endpoints: array2<nat>, e: nat)
    requires endpoints.Length0 == 6 && endpoints.Length1 == 4 && mode < 8 && e < 6
    modifies endpoints
    ensures forall d: nat, c: nat | d < 6 && c < 4 && (d != e || Stored(mode, c)) ::
      endpoints[d, c] == if d == e then Expand(old(endpoints[d, c]), Precision(mode, c)) else old(endpoints[d, c])
  {
    var j := Precision(mode, 0);
    var k := 0;
    while k < 3
      invariant k <= 3
      invariant forall d: nat, c: nat | d < 6 && c < 4 ::
        endpoints[d, c] == if d == e && c < k then Expand(old(endpoints[d, c]), Precision(mode, c)) else old(endpoints[d, c])
    {
      endpoints[e, k] := ShiftLeft(endpoints[e, k], 8 - j);
      endpoints[e, k] := BitOr(endpoints[e, k], ShiftRight(endpoints[e, k], j));
      k := k + 1;
    }
    j := Precision(mode, 3);
    endpoints[e, 3] := ShiftLeft(endpoints[e, 3], 8 - j);
    endpoints[e, 3] := BitOr(endpoints[e, 3], ShiftRight(endpoints[e, 3], j));
  }

  method ExpandEndpoints(mode: nat, endpoints: array2<nat>)
    requires endpoints.Length0 == 6 && endpoints.Length1 == 4 && mode < 8
    modifies endpoints
    ensures forall e: nat, c: nat | e < Endpoints(mode) && c < 4 ::
      endpoints[e, c] == if Stored(mode, c) then Expand(old(endpoints[e, c]), Precision(mode, c)) else 255
  {
    var i := 0;
    while i < Endpoints(mode)
      invariant i <= Endpoints(mode)
      invariant forall e: nat, c: nat | e < 6 && c < 4 && (e >= i || Stored(mode, c)) ::
        endpoints[e, c] == if e < i then Expand(old(endpoints[e, c]), Precision(mode, c)) else old(endpoints[e, c])
    {
      ExpandEndpoint(mode, endpoints, i);
      i := i + 1;
    }
    if AlphaBits(mode) == 0 {
      var j := 0;
      while j < Endpoints(mode)
        invariant j <= Endpoints(mode)
        invariant forall e: nat, c: nat | e < Endpoints(mode) && Stored(mode, c) ::
          endpoints[e, c] == Expand(old(endpoints[e, c]), Precision(mode, c))
        invariant forall e: nat | e < j :: endpoints[e, 3] == 255
      {
        endpoints[j, 3] := 0xFF;
        j := j + 1;
      }
    }
  }

  /** The endpoint part of the block, to bytes. */
  method DecodeEndpoints(stream: BitStream, mode: nat, endpoints: array2<nat>)
    requires stream.Valid() && mode < 8 && stream.consumed == ChannelStart(mode, 0)
    requires endpoints.Length0 == 6 && endpoints.Length1 == 4
    modifies stream, endpoints
    ensures stream.Valid() && stream.consumed == IndexStart(mode)
    ensures forall e: nat, c: nat | e < Endpoints(mode) && c < 4 :: endpoints[e, c] == EndpointOf(stream.block, mode, e, c)
  {
    ReadEndpoints(stream, mode, endpoints);
    InsertPBits(stream, mode, endpoints);
    ExpandEndpoints(mode, endpoints);
  }

  // ---------------------------------------------------------------- indices and texels

  method ReadIndices(stream: BitStream, mode: nat, t: Partition, indices: array<nat>)
    requires stream.Valid() && mode < 8 && stream.consumed == IndexStart(mode)
    requires indices.Length == 16 && GoodPartition(t, Subsets(mode))
    modifies stream, indices
    ensures stream.Valid() && stream.consumed == SecondStart(mode)
    ensures forall k: nat | k < 16 :: indices[k] == IndexOf(stream.block, t, IndexStart(mode), IndexBits(mode), k)
  {
    var k := 0;
    while k < 16
      invariant k <= 16 && stream.Valid() && stream.consumed == IndexAt(t, IndexStart(mode), IndexBits(mode), k)
      invariant forall j: nat | j < k :: indices[j] == IndexOf(stream.block, t, IndexStart(mode), IndexBits(mode), j)
    {
      indices[k] := ReadIndex(stream, t, IndexStart(mode), IndexBits(mode), k);
      k := k + 1;
    }
  }

  function Swapped(v: seq<int>, rotation: nat): seq<int>
    requires |v| == 4 && rotation < 4
  {
    match rotation
    case 1 => [v[3], v[1], v[2], v[0]]
    case 2 => [v[0], v[3], v[2], v[1]]
    case 3 => [v[0], v[1], v[3], v[2]]
    case _ => v
  }

  /** Reads the secondary index of the texel, if the mode has one, and weighs colours and alpha. */
  method ReadWeights(stream: BitStream, mode: nat, ghost t: Partition, selection: nat, index: nat, k: nat)
    returns (colorWeight: nat, alphaWeight: nat)
    requires stream.Valid() && mode < 8 && k < 16
    requires selection == SelectionOf(stream.block, mode)
    requires index == IndexOf(stream.block, t, IndexStart(mode), IndexBits(mode), k)
    requires stream.consumed == TexelStart(mode, k)
    modifies stream
    ensures stream.Valid() && stream.consumed == TexelStart(mode, k + 1)
    ensures colorWeight == ChannelWeight(stream.block, mode, t, k, 0)
    ensures alphaWeight == ChannelWeight(stream.block, mode, t, k, 3)
  {
    colorWeight := Weight(IndexBits(mode), index);
    alphaWeight := colorWeight;
    if SecondIndexBits(mode) > 0 {
      var index2 := ReadIndex(stream, ONE_SUBSET, SecondStart(mode), SecondIndexBits(mode), k);
      var secondary := Weight(SecondIndexBits(mode), index2);
      if selection == 0 {
        alphaWeight := secondary;
      } else {
        colorWeight := secondary;
      }
    }
  }

  /** Where the second pass is before texel k. */
  function TexelStart(mode: nat, k: nat): nat
    requires mode < 8
  {
    if SecondIndexBits(mode) > 0 then IndexAt(ONE_SUBSET, SecondStart(mode), SecondIndexBits(mode), k)
    else SecondStart(mode)
  }

  lemma TexelsEnd(mode: nat)
    requires mode < 8
    ensures TexelStart(mode, 0) == SecondStart(mode) && TexelStart(mode, 16) == 128
  {
    BlockFull(mode);
    FixupsCounted(ONE_SUBSET, 16);
  }

  lemma ColorsWeighAlike(block: seq<bool>, mode: nat, t: Partition, k: nat, c: nat)
    requires mode < 8 && c < 3
    ensures ChannelWeight(block, mode, t, k, c) == ChannelWeight(block, mode, t, k, 0)
  {
  }

  /** The rows of endpoints for subset s hold the bytes of the block. */
  ghost predicate Decodes(endpoints: array2<nat>, block: seq<bool>, mode: nat, s: nat)
    requires endpoints.Length0 == 6 && endpoints.Length1 == 4 && mode < 8 && s < 3
    reads endpoints
  {
    forall c: nat | c < 4 :: endpoints[2 * s, c] == EndpointOf(block, mode, 2 * s, c)
                             && endpoints[2 * s + 1, c] == EndpointOf(block, mode, 2 * s + 1, c)
  }

  /** The four channels of a texel, before the swap. */
  method MixChannels(endpoints: array2<nat>, s: nat, colorWeight: nat, alphaWeight: nat) returns (v: seq<int>)
    requires endpoints.Length0 == 6 && endpoints.Length1 == 4 && s < 3
    ensures |v| == 4 && forall c: nat | c < 4 ::
      v[c] == Interpolate(endpoints[2 * s, c], endpoints[2 * s + 1, c], if c == 3 then alphaWeight else colorWeight)
  {
    var r := Interpolate(endpoints[s * 2, 0], endpoints[s * 2 + 1, 0], colorWeight);
    var g := Interpolate(endpoints[s * 2, 1], endpoints[s * 2 + 1, 1], colorWeight);
    var b := Interpolate(endpoints[s * 2, 2], endpoints[s * 2 + 1, 2], colorWeight);
    var a := Interpolate(endpoints[s * 2, 3], endpoints[s * 2 + 1, 3], alphaWeight);
    v := [r, g, b, a];
  }

  lemma ChannelMixed(endpoints: array2<nat>, block: seq<bool>, mode: nat, t: Partition, k: nat, c: nat,
                     colorWeight: nat, alphaWeight: nat)
    requires endpoints.Length0 == 6 && endpoints.Length1 == 4 && mode < 8 && k < |t.subsets| && c < 4
    requires t.Subset(k) < 3 && Decodes(endpoints, block, mode, t.Subset(k))
    requires colorWeight == ChannelWeight(block, mode, t, k, 0) && alphaWeight == ChannelWeight(block, mode, t, k, 3)
    ensures var s := t.Subset(k);
            ChannelOf(block, mode, t, k, c)
            == Interpolate(endpoints[2 * s, c], endpoints[2 * s + 1, c], if c == 3 then alphaWeight else colorWeight)
  {
    if c < 3 {
      ColorsWeighAlike(block, mode, t, k, c);
    }
  }

  /** Swapping alpha with a colour puts in place c the channel that the rotation says. */
  lemma SwappedIs(v: seq<int>, r: nat, c: nat)
    requires |v| == 4 && r < 4 && c < 4
    ensures Swapped(v, r)[c] == v[Rotated(r, c)]
  {
  }

  /** The first k texels are written. */
  ghost predicate TexelsDone(p: seq<int>, block: seq<bool>, mode: nat, t: Partition, k: nat)
    requires mode < 8 && k <= |t.subsets| == 16
  {
    && |p| == 64
    && forall j: nat, c: nat | j < k && c < 4 :: p[4 * j + c] == TexelOf(block, mode, t, j, c)
  }

  lemma OneMoreTexel(p: seq<int>, v: seq<int>, block: seq<bool>, mode: nat, t: Partition, k: nat)
    requires mode < 8 && k < |t.subsets| == 16 && TexelsDone(p, block, mode, t, k)
    requires |v| == 4 && forall c: nat | c < 4 :: v[c] == TexelOf(block, mode, t, k, c)
    ensures TexelsDone(p[..4 * k] + v + p[4 * k + 4..], block, mode, t, k + 1)
  {
    var q := p[..4 * k] + v + p[4 * k + 4..];
    forall j: nat, c: nat | j < k + 1 && c < 4 ensures q[4 * j + c] == TexelOf(block, mode, t, j, c) {
      if j < k {
        assert q[4 * j + c] == p[4 * j + c];
      } else {
        assert q[4 * j + c] == v[c];
      }
    }
  }

  method WriteTexel(pixels: array<int>, k: nat, v: seq<int>)
    requires pixels.Length == 64 && k < 16 && |v| == 4
    modifies pixels
    ensures pixels[..] == old(pixels[..4 * k]) + v + old(pixels[4 * k + 4..])
  {
    pixels[4 * k + 0] := v[0];
    pixels[4 * k + 1] := v[1];
    pixels[4 * k + 2] := v[2];
    pixels[4 * k + 3] := v[3];
  }

  method DecodeTexel(stream: BitStream, mode: nat, endpoints: array2<nat>, t: Partition, rotation: nat, selection: nat,
                     index: nat, k: nat)
    returns (v: seq<int>)
    requires stream.Valid() && mode < 8 && k < |t.subsets| == 16
    requires endpoints.Length0 == 6 && endpoints.Length1 == 4
    requires t.Subset(k) < 3 && Decodes(endpoints, stream.block, mode, t.Subset(k))
    requires rotation == RotationOf(stream.block, mode) && selection == SelectionOf(stream.block, mode)
    requires index == IndexOf(stream.block, t, IndexStart(mode), IndexBits(mode), k)
    requires stream.consumed == TexelStart(mode, k)
    modifies stream
    ensures stream.Valid() && stream.consumed == TexelStart(mode, k + 1)
    ensures |v| == 4 && forall c: nat | c < 4 :: v[c] == TexelOf(stream.block, mode, t, k, c)
  {
    var colorWeight, alphaWeight := ReadWeights(stream, mode, t, selection, index, k);
    var mixed := MixChannels(endpoints, t.Subset(k), colorWeight, alphaWeight);
    v := Swapped(mixed, rotation);
    forall c: nat | c < 4 ensures v[c] == TexelOf(stream.block, mode, t, k, c) {
      SwappedIs(mixed, rotation, c);
      ChannelMixed(endpoints, stream.block, mode, t, k, Rotated(rotation, c), colorWeight, alphaWeight);
    }
  }

  method DecodeTexels(stream: BitStream, mode: nat, endpoints: array2<nat>, t: Partition, rotation: nat, selection: nat,
                      indices: array<nat>, pixels: array<int>)
    requires stream.Valid() && mode < 8 && indices.Length == 16 && pixels.Length == 64
    requires endpoints.Length0 == 6 && endpoints.Length1 == 4 && |t.subsets| == 16
    requires forall k: nat | k < 16 :: t.Subset(k) < 3 && Decodes(endpoints, stream.block, mode, t.Subset(k))
    requires rotation == RotationOf(stream.block, mode) && selection == SelectionOf(stream.block, mode)
    requires forall k: nat | k < 16 :: indices[k] == IndexOf(stream.block, t, IndexStart(mode), IndexBits(mode), k)
    requires stream.consumed == SecondStart(mode)
    modifies stream, pixels
    ensures stream.Valid() && stream.consumed == 128 && TexelsDone(pixels[..], stream.block, mode, t, 16)
  {
    TexelsEnd(mode);
    ghost var read := indices[..];
    var k := 0;
    while k < 16
      invariant k <= 16 && stream.Valid() && stream.consumed == TexelStart(mode, k)
      invariant TexelsDone(pixels[..], stream.block, mode, t, k)
      invariant indices[..] == read
    {
      assert indices[k] == read[k];
      var v := DecodeTexel(stream, mode, endpoints, t, rotation, selection, indices[k], k);
      OneMoreTexel(pixels[..], v, stream.block, mode, t, k);
      WriteTexel(pixels, k, v);
      k := k + 1;
    }
  }

  method DecodeBody(stream: BitStream, mode: nat, pixels: array<int>)
    requires stream.Valid() && mode < 8 && stream.consumed == mode + 1 && pixels.Length == 64
    modifies stream, pixels
    ensures stream.Valid() && stream.consumed == 128
    ensures TexelsDone(pixels[..], stream.block, mode, PartitionOf(stream.block, mode), 16)
  {
    var partition, rotation, selection := ReadOptions(stream, mode);
    var t := PartitionFor(Subsets(mode), partition);
    PartitionGood(Subsets(mode), partition);
    var endpoints := new nat[6, 4];
    DecodeEndpoints(stream, mode, endpoints);
    var indices := new nat[16];
    ReadIndices(stream, mode, t, indices);
    forall k: nat | k < 16 ensures t.Subset(k) < 3 && Decodes(endpoints, stream.block, mode, t.Subset(k)) {
      assert t.Subset(k) < Subsets(mode);
    }
    DecodeTexels(stream, mode, endpoints, t, rotation, selection, indices, pixels);
  }

  /**
  Decodes a block to 64 bytes, four per texel. Eight leading zeros give transparent black; any other
  block is used up to its last bit, and every byte is the one its texel, channel and indices determine.
   */
  method DecodeBlock(block: seq<bool>) returns (pixels: array<int>, ghost used: nat)
    requires |block| == 128
    ensures pixels.Length == 64
    ensures ModeOf(block) == 8 ==> forall i | 0 <= i < 64 :: pixels[i] == 0
    ensures ModeOf(block) < 8 ==> used == 128
    ensures ModeOf(block) < 8 ==> forall k: nat, c: nat | k < 16 && c < 4 :: pixels[4 * k + c] == Decoded(block, k, c)
  {
    pixels := new int[64](_ => 0);
    var stream := new BitStream(block);
    var mode := ReadMode(stream);
    if mode < 8 {
      DecodeBody(stream, mode, pixels);
    }
    used := stream.consumed;
  }
}
