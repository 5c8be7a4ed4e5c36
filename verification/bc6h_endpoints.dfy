/** From the header fields of a BC6H block to the endpoints its texels are interpolated between. */
module Bc6hEndpoints {
  import opened Bits
  import opened Bc6hLayouts
  import opened Bc6hArithmetic

  // ---------------------------------------------------------------- the endpoints by themselves

  /** The field holds an endpoint value of the mode. */
  predicate Live(mode: nat, t: nat) {
    t < D && EndpointOf(t) < Endpoints(mode)
  }

  /** The modes 9 and 10 store all endpoints in full. */
  predicate HasDeltas(mode: nat) {
    mode != 9 && mode != 10
  }

  /** The field of the first endpoint of the same channel. */
  function BaseOf(t: nat): nat {
    if t < GW then RW else if t < BW then GW else BW
  }

  function Extended(f: seq<int>, mode: nat, signed: bool, t: nat): int
    requires |f| == FIELDS && mode < 14 && t < FIELDS
  {
    if !Live(mode, t) then f[t]
    else if EndpointOf(t) == 0 then (if signed then ExtendSign(f[t], BaseBits(mode)) else f[t])
    else if HasDeltas(mode) || signed then ExtendSign(f[t], DeltaBits(mode, ChannelOf(t)))
    else f[t]
  }

  function Absolute(f: seq<int>, mode: nat, signed: bool, t: nat): int
    requires |f| == FIELDS && mode < 14 && t < FIELDS
  {
    if Live(mode, t) && EndpointOf(t) != 0 && HasDeltas(mode) then
      TransformInverse(Extended(f, mode, signed, t), Extended(f, mode, signed, BaseOf(t)), BaseBits(mode), signed)
    else Extended(f, mode, signed, t)
  }

  /** The fields fit their widths, as those read from a header do. */
  ghost predicate FieldsFit(f: seq<int>, mode: nat)
    requires mode < 14
  {
    |f| == FIELDS && forall t: nat | t < FIELDS :: 0 <= f[t] < Pow2(Width(mode, t))
  }

  /** Every decoded endpoint is a number of the mode's endpoint width. */
  lemma AbsoluteInRange(f: seq<int>, mode: nat, signed: bool, t: nat)
    requires mode < 14 && FieldsFit(f, mode) && Live(mode, t)
    ensures InRange(Absolute(f, mode, signed, t), BaseBits(mode), signed)
  {
    if EndpointOf(t) == 0 {
      if signed {
        ExtendSignWraps(f[t], BaseBits(mode));
      }
    } else if HasDeltas(mode) {
      InverseInRange(Extended(f, mode, signed, t), Extended(f, mode, signed, BaseOf(t)), BaseBits(mode), signed);
    } else {
      assert DeltaBits(mode, ChannelOf(t)) == BaseBits(mode);
      if signed {
        ExtendSignWraps(f[t], BaseBits(mode));
      }
    }
  }

  /**
  The endpoint value that a field stands for. One of full width gives the low bits of the value; a
  narrower one is a signed number to be added to the first endpoint of its channel.
   */
  ghost predicate IsEndpoint(f: seq<int>, mode: nat, signed: bool, t: nat, e: int)
    requires |f| == FIELDS && mode < 14 && Live(mode, t)
  {
    var bits, width, first := BaseBits(mode), Width(mode, t), if t < 4 then 0 else if t < 8 then 4 else 8;
    && InRange(e, bits, signed)
    && Congruent(if width == bits then f[t] else f[first] + Wrap(f[t], width), e, Pow2(bits))
  }

  lemma AbsoluteIs(f: seq<int>, mode: nat, signed: bool, t: nat)
    requires mode < 14 && FieldsFit(f, mode) && Live(mode, t)
    ensures IsEndpoint(f, mode, signed, t, Absolute(f, mode, signed, t))
  {
    var bits, base := BaseBits(mode), BaseOf(t);
    AbsoluteInRange(f, mode, signed, t);
    DeltasExactly(mode);
    if EndpointOf(t) == 0 || !HasDeltas(mode) {
      assert Width(mode, t) == bits;
      FullFieldIs(f[t], bits, signed);
    } else {
      FullFieldIs(f[base], bits, signed);
      var d := Wrap(f[t], DeltaBits(mode, ChannelOf(t)));
      ExtendSignWraps(f[t], DeltaBits(mode, ChannelOf(t)));
      InverseInRange(d, Extended(f, mode, signed, base), bits, signed);
      CongruentShifted(f[base], Extended(f, mode, signed, base), Pow2(bits), d);
      CongruentTransitive(f[base] + d, Extended(f, mode, signed, base) + d, Absolute(f, mode, signed, t), Pow2(bits));
    }
  }

  lemma OneEndpoint(f: seq<int>, mode: nat, signed: bool, t: nat, e: int, e': int)
    requires |f| == FIELDS && mode < 14 && Live(mode, t)
    requires IsEndpoint(f, mode, signed, t, e) && IsEndpoint(f, mode, signed, t, e')
    ensures e == e'
  {
    var bits, width, first := BaseBits(mode), Width(mode, t), if t < 4 then 0 else if t < 8 then 4 else 8;
    var x := if width == bits then f[t] else f[first] + Wrap(f[t], width);
    CongruentSymmetric(x, e, Pow2(bits));
    CongruentTransitive(e, x, e', Pow2(bits));
    RangeUnique(e, e', bits, signed);
  }

  /** A field of full width, extended if signed. */
  lemma FullFieldIs(x: int, bits: nat, signed: bool)
    requires 1 <= bits <= 16
    ensures Congruent(x, if signed then ExtendSign(x, bits) else x, Pow2(bits))
  {
    if signed {
      ExtendSignCongruent(x, bits);
    } else {
      CongruentIf(x, x, Pow2(bits), 0);
    }
  }

  /** The modes whose endpoints are all stored in full are those without narrower fields. */
  lemma DeltasExactly(mode: nat)
    requires mode < 14
    ensures forall t: nat | Live(mode, t) && EndpointOf(t) != 0 :: HasDeltas(mode) <==> Width(mode, t) < BaseBits(mode)
  {
  }

  // ---------------------------------------------------------------- what an encoder may store

  /** The field an encoder stores for endpoint t of e. */
  function EncodedField(e: seq<int>, mode: nat, t: nat): nat
    requires |e| == D && mode < 14 && Live(mode, t)
  {
    if EndpointOf(t) == 0 then e[t] % Pow2(BaseBits(mode))
    else if HasDeltas(mode) then StoredDelta(e[t], e[BaseOf(t)], DeltaBits(mode, ChannelOf(t)))
    else e[t] % Pow2(DeltaBits(mode, ChannelOf(t)))
  }

  /** Endpoint t of e can be stored: its difference from the base fits the field. */
  predicate Storable(e: seq<int>, mode: nat, signed: bool, t: nat)
    requires |e| == D && mode < 14 && Live(mode, t)
  {
    && InRange(e[t], BaseBits(mode), signed)
    && (EndpointOf(t) != 0 && HasDeltas(mode)
        ==> InRange(Wrap(e[t] - e[BaseOf(t)], BaseBits(mode)), DeltaBits(mode, ChannelOf(t)), true))
  }

  lemma LowBitsBack(x: int, bits: nat)
    requires 1 <= bits <= 16 && InRange(x, bits, true)
    ensures ExtendSign(x % Pow2(bits), bits) == x
  {
    var s, m := x % Pow2(bits), Pow2(bits);
    ExtendSignWraps(s, bits);
    WrapCongruent(s, bits);
    ModCongruent(x, m);
    CongruentTransitive(x, s, Wrap(s, bits), m);
    RangeUnique(x, Wrap(s, bits), bits, true);
  }

  lemma LowBitsSame(x: int, m: int)
    requires 0 <= x < m
    ensures x % m == x
  {
    DivisionUnique(x, m, 0, x);
  }

  /** The first endpoint, and one stored in full, is read back from its low bits. */
  lemma FullRecovered(x: int, bits: nat, signed: bool)
    requires 1 <= bits <= 16 && InRange(x, bits, signed)
    ensures (if signed then ExtendSign(x % Pow2(bits), bits) else x % Pow2(bits)) == x
  {
    if signed {
      LowBitsBack(x, bits);
    } else {
      LowBitsSame(x, Pow2(bits));
    }
  }

  /** Base endpoints, and those of the modes without deltas. */
  lemma FullEndpointRecovered(e: seq<int>, f: seq<int>, mode: nat, signed: bool, t: nat)
    requires |e| == D && |f| == FIELDS && mode < 14 && Live(mode, t)
    requires EndpointOf(t) == 0 || !HasDeltas(mode)
    requires Storable(e, mode, signed, t) && f[t] == EncodedField(e, mode, t)
    ensures Extended(f, mode, signed, t) == e[t]
  {
    FullRecovered(e[t], BaseBits(mode), signed);
    assert EndpointOf(t) == 0 || DeltaBits(mode, ChannelOf(t)) == BaseBits(mode);
  }

  /** Every storable endpoint is decoded from its encoded field. */
  lemma EndpointRecovered(e: seq<int>, f: seq<int>, mode: nat, signed: bool, t: nat)
    requires |e| == D && |f| == FIELDS && mode < 14 && Live(mode, t) && Live(mode, BaseOf(t))
    requires Storable(e, mode, signed, t) && Storable(e, mode, signed, BaseOf(t))
    requires f[t] == EncodedField(e, mode, t) && f[BaseOf(t)] == EncodedField(e, mode, BaseOf(t))
    ensures Absolute(f, mode, signed, t) == e[t]
  {
    if EndpointOf(t) == 0 || !HasDeltas(mode) {
      FullEndpointRecovered(e, f, mode, signed, t);
    } else {
      FullEndpointRecovered(e, f, mode, signed, BaseOf(t));
      DeltaFits(e[t], e[BaseOf(t)], DeltaBits(mode, ChannelOf(t)), BaseBits(mode), signed);
    }
  }

  /** The fields f store the endpoints e. */
  ghost predicate Encodes(f: seq<int>, e: seq<int>, mode: nat, signed: bool)
    requires mode < 14
  {
    && |e| == D && |f| == FIELDS
    && forall t: nat | Live(mode, t) :: Storable(e, mode, signed, t) && f[t] == EncodedField(e, mode, t)
  }

  lemma EndpointsRecovered(f: seq<int>, e: seq<int>, mode: nat, signed: bool, t: nat)
    requires mode < 14 && Encodes(f, e, mode, signed) && Live(mode, t)
    ensures Absolute(f, mode, signed, t) == e[t]
  {
    assert Live(mode, BaseOf(t));
    EndpointRecovered(e, f, mode, signed, t);
  }

  // ---------------------------------------------------------------- decoding in place

  /** Endpoint i of the three channels set. */
  function Put(s: seq<int>, i: nat, r: int, g: int, b: int): seq<int>
    requires |s| == FIELDS && i < 4
  {
    s[RW + i := r][GW + i := g][BW + i := b]
  }

  lemma PutAt(s: seq<int>, i: nat, r: int, g: int, b: int, t: nat)
    requires |s| == FIELDS && i < 4 && t < FIELDS
    ensures Put(s, i, r, g, b)[t] == if t == D || EndpointOf(t) != i then s[t] else if t < 4 then r else if t < 8 then g else b
  {
  }

  /** s is a, but for endpoints from..i-1 of each channel it is x. */
  ghost predicate Filled(a: seq<int>, x: seq<int>, s: seq<int>, from: nat, i: nat) {
    && |a| == |x| == |s| == FIELDS
    && forall t: nat | t < FIELDS :: s[t] == if t < D && from <= EndpointOf(t) < i then x[t] else a[t]
  }

  lemma FilledStep(a: seq<int>, x: seq<int>, s: seq<int>, from: nat, i: nat)
    requires from <= i < 4 && Filled(a, x, s, from, i)
    ensures Filled(a, x, Put(s, i, x[RW + i], x[GW + i], x[BW + i]), from, i + 1)
  {
    forall t: nat | t < FIELDS
      ensures Put(s, i, x[RW + i], x[GW + i], x[BW + i])[t] == if t < D && from <= EndpointOf(t) < i + 1 then x[t] else a[t]
    {
      PutAt(s, i, x[RW + i], x[GW + i], x[BW + i], t);
    }
  }

  method PutEndpoints(v: array<int>, i: nat, r: int, g: int, b: int)
    requires v.Length == FIELDS && i < 4
    modifies v
    ensures v[..] == Put(old(v[..]), i, r, g, b)
  {
    v[RW + i], v[GW + i], v[BW + i] := r, g, b;
  }

  ghost function Extensions(a: seq<int>, mode: nat): (x: seq<int>)
    requires |a| == FIELDS && mode < 14
    ensures |x| == FIELDS
  {
    seq(FIELDS, t requires 0 <= t < FIELDS => if t < D then ExtendSign(a[t], DeltaBits(mode, ChannelOf(t))) else a[t])
  }

  method ExtendBases(v: array<int>, mode: nat, signed: bool)
    requires v.Length == FIELDS && mode < 14
    modifies v
    ensures forall t: nat | t < FIELDS ::
      v[t] == if t < D && EndpointOf(t) == 0 && signed then ExtendSign(old(v[t]), BaseBits(mode)) else old(v[t])
  {
    var bits := BaseBits(mode);
    if signed {
      ghost var a := v[..];
      var r, g, b := ExtendSign(v[RW], bits), ExtendSign(v[GW], bits), ExtendSign(v[BW], bits);
      PutEndpoints(v, 0, r, g, b);
      forall t: nat | t < FIELDS ensures v[t] == if t < D && EndpointOf(t) == 0 then ExtendSign(a[t], bits) else a[t] {
        PutAt(a, 0, r, g, b, t);
      }
    }
  }

  method ExtendDeltas(v: array<int>, mode: nat, signed: bool)
    requires v.Length == FIELDS && mode < 14
    modifies v
    ensures forall t: nat | t < FIELDS ::
      v[t] == if Live(mode, t) && EndpointOf(t) != 0 && (HasDeltas(mode) || signed)
              then ExtendSign(old(v[t]), DeltaBits(mode, ChannelOf(t))) else old(v[t])
  {
    if HasDeltas(mode) || signed {
      ghost var a := v[..];
      ghost var x := Extensions(a, mode);
      var i := 1;
      while i < Endpoints(mode)
        invariant 1 <= i <= Endpoints(mode)
        invariant Filled(a, x, v[..], 1, i)
      {
        FilledStep(a, x, v[..], 1, i);
        var r := ExtendSign(v[RW + i], DeltaBits(mode, 0));
        var g := ExtendSign(v[GW + i], DeltaBits(mode, 1));
        var b := ExtendSign(v[BW + i], DeltaBits(mode, 2));
        PutEndpoints(v, i, r, g, b);
        i := i + 1;
      }
    }
  }

  ghost function Sums(a: seq<int>, bits: nat, signed: bool): (x: seq<int>)
    requires |a| == FIELDS && 1 <= bits <= 32
    ensures |x| == FIELDS
  {
    seq(FIELDS, t requires 0 <= t < FIELDS => TransformInverse(a[t], a[BaseOf(t)], bits, signed))
  }

  lemma SumFrom(a: seq<int>, s: seq<int>, bits: nat, signed: bool, i: nat, t: nat)
    requires |a| == FIELDS && 1 <= bits <= 32 && Filled(a, Sums(a, bits, signed), s, 1, i)
    requires t < D && EndpointOf(t) == i >= 1
    ensures Sums(a, bits, signed)[t] == TransformInverse(s[t], s[BaseOf(t)], bits, signed)
  {
    assert s[t] == a[t] && s[BaseOf(t)] == a[BaseOf(t)];
  }

  method AddBasesOf(v: array<int>, ghost a: seq<int>, i: nat, bits: nat, signed: bool)
    requires v.Length == FIELDS == |a| && 1 <= i < 4 && 1 <= bits <= 32
    requires Filled(a, Sums(a, bits, signed), v[..], 1, i)
    modifies v
    ensures Filled(a, Sums(a, bits, signed), v[..], 1, i + 1)
  {
    assert BaseOf(RW + i) == RW && BaseOf(GW + i) == GW && BaseOf(BW + i) == BW;
    FilledStep(a, Sums(a, bits, signed), v[..], 1, i);
    SumFrom(a, v[..], bits, signed, i, RW + i);
    SumFrom(a, v[..], bits, signed, i, GW + i);
    SumFrom(a, v[..], bits, signed, i, BW + i);
    var r := TransformInverse(v[RW + i], v[RW], bits, signed);
    var g := TransformInverse(v[GW + i], v[GW], bits, signed);
    var b := TransformInverse(v[BW + i], v[BW], bits, signed);
    PutEndpoints(v, i, r, g, b);
  }

  method AddBases(v: array<int>, mode: nat, signed: bool)
    requires v.Length == FIELDS && mode < 14
    modifies v
    ensures forall t: nat | t < FIELDS ::
      v[t] == if Live(mode, t) && EndpointOf(t) != 0 && HasDeltas(mode)
              then TransformInverse(old(v[t]), old(v[BaseOf(t)]), BaseBits(mode), signed) else old(v[t])
  {
    var bits := BaseBits(mode);
    if HasDeltas(mode) {
      ghost var a := v[..];
      var i := 1;
      while i < Endpoints(mode)
        invariant 1 <= i <= Endpoints(mode)
        invariant Filled(a, Sums(a, bits, signed), v[..], 1, i)
      {
        AddBasesOf(v, a, i, bits, signed);
        i := i + 1;
      }
    }
  }

  ghost function Levels(a: seq<int>, bits: nat, signed: bool): (x: seq<int>)
    requires |a| == FIELDS && bits > 0
    ensures |x| == FIELDS
  {
    seq(FIELDS, t requires 0 <= t < FIELDS => if InRange(a[t], bits, signed) then Unquantize(a[t], bits, signed) else 0)
  }

  method UnquantizeEndpoints(v: array<int>, mode: nat, signed: bool)
    requires v.Length == FIELDS && mode < 14
    requires forall t: nat | Live(mode, t) :: InRange(v[t], BaseBits(mode), signed)
    modifies v
    ensures forall t: nat | Live(mode, t) ::
      InRange(old(v[t]), BaseBits(mode), signed) && v[t] == Unquantize(old(v[t]), BaseBits(mode), signed)
    ensures v[D] == old(v[D])
  {
    var bits := BaseBits(mode);
    ghost var a := v[..];
    ghost var x := Levels(a, bits, signed);
    var i := 0;
    while i < Endpoints(mode)
      invariant i <= Endpoints(mode)
      invariant Filled(a, x, v[..], 0, i)
    {
      FilledStep(a, x, v[..], 0, i);
      assert Live(mode, RW + i) && Live(mode, GW + i) && Live(mode, BW + i);
      var r := Unquantize(v[RW + i], bits, signed);
      var g := Unquantize(v[GW + i], bits, signed);
      var b := Unquantize(v[BW + i], bits, signed);
      PutEndpoints(v, i, r, g, b);
      i := i + 1;
    }
  }

  /** The endpoint that field t ends up as. */
  function Endpoint(f: seq<int>, mode: nat, signed: bool, t: nat): (e: int)
    requires mode < 14 && FieldsFit(f, mode) && Live(mode, t)
    ensures InRange(e, 16, signed)
    ensures signed && mode != 13 ==> e > -0x8000
  {
    AbsoluteInRange(f, mode, signed, t);
    UnquantizeBounded(Absolute(f, mode, signed, t), BaseBits(mode), signed);
    Unquantize(Absolute(f, mode, signed, t), BaseBits(mode), signed)
  }

  /** Turns the header fields into the endpoints, in place; the partition field is left alone. */
  method DecodeEndpoints(v: array<int>, mode: nat, signed: bool)
    requires v.Length == FIELDS && mode < 14 && FieldsFit(v[..], mode)
    modifies v
    ensures forall t: nat | Live(mode, t) :: v[t] == Endpoint(old(v[..]), mode, signed, t)
    ensures v[D] == old(v[D])
  {
    ghost var f := v[..];
    ExtendBases(v, mode, signed);
    ExtendDeltas(v, mode, signed);
    AddBases(v, mode, signed);
    forall t: nat | t < FIELDS ensures v[t] == Absolute(f, mode, signed, t) {
    }
    forall t: nat | Live(mode, t) ensures InRange(v[t], BaseBits(mode), signed) {
      AbsoluteInRange(f, mode, signed, t);
    }
    UnquantizeEndpoints(v, mode, signed);
  }
}
