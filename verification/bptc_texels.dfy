/** What the two BPTC decoders share: the index of a texel, its weight, and interpolation. */
module BptcTexels {
  import opened Bits
  import opened BitStreams
  import opened BptcTables

  /** The number that lies in the given bits of the block. */
  ghost function Field(block: seq<bool>, start: nat, bits: nat): (x: nat)
    ensures x < Pow2(bits)
  {
    ValueOfSmall(Taken(block, start, bits));
    ValueOf(Taken(block, start, bits))
  }

  /** The fix-up texels' indices have one bit less. */
  function IndexWidth(t: Partition, bits: nat, k: nat): nat
    requires bits > 0
  {
    if t.IsFixup(k) then bits - 1 else bits
  }

  lemma {:induction false} FewFixups(t: Partition, k: nat)
    ensures t.FixupCount(k) <= k
  {
    if k > 0 {
      FewFixups(t, k - 1);
    }
  }

  /** Where the index of texel k lies, those of the block starting at bit start. */
  function IndexAt(t: Partition, start: nat, bits: nat, k: nat): nat
    requires bits > 0
  {
    FewFixups(t, k);
    assert k * bits >= k;
    start + k * bits - t.FixupCount(k)
  }

  lemma IndexSizes(n: nat)
    requires n <= 4
    ensures Pow2(n) <= 16 && (n <= 3 ==> Pow2(n) <= 8) && (n <= 2 ==> Pow2(n) <= 4)
  {
    assert Pow2(2) == 2 * Pow2(1) == 4 * Pow2(0) == 4;
    assert Pow2(4) == 2 * Pow2(3) == 4 * Pow2(2);
  }

  function IndexLimit(bits: nat): nat {
    if bits == 2 then 4 else if bits == 3 then 8 else 16
  }

  ghost function IndexOf(block: seq<bool>, t: Partition, start: nat, bits: nat, k: nat): (i: nat)
    requires 2 <= bits <= 4
    ensures i < IndexLimit(bits)
  {
    IndexSizes(IndexWidth(t, bits, k));
    Field(block, IndexAt(t, start, bits, k), IndexWidth(t, bits, k))
  }

  lemma IndexStep(t: Partition, start: nat, bits: nat, k: nat)
    requires bits > 0
    ensures IndexAt(t, start, bits, k + 1) == IndexAt(t, start, bits, k) + IndexWidth(t, bits, k)
  {
    FewFixups(t, k);
    assert (k + 1) * bits == k * bits + bits;
  }

  method ReadIndex(stream: BitStream, t: Partition, ghost start: nat, bits: nat, k: nat) returns (i: nat)
    requires stream.Valid() && 2 <= bits <= 4 && stream.consumed == IndexAt(t, start, bits, k)
    modifies stream
    ensures stream.Valid() && stream.consumed == IndexAt(t, start, bits, k + 1)
    ensures i == IndexOf(stream.block, t, start, bits, k)
  {
    IndexStep(t, start, bits, k);
    i := stream.ReadBits(IndexWidth(t, bits, k));
  }

  function Weight(bits: nat, i: nat): (w: nat)
    requires 2 <= bits <= 4 && i < IndexLimit(bits)
    ensures w <= 64
  {
    WeightsInRange();
    if bits == 2 then WEIGHTS2[i] else if bits == 3 then WEIGHTS3[i] else WEIGHTS4[i]
  }

  // ---------------------------------------------------------------- what the weights are

  /** Of the steps of 1/64 the one nearest to i / (2^bits - 1). */
  predicate IsWeight(bits: nat, i: nat, w: nat) {
    var n := Pow2(bits) - 1;
    -n < 2 * (n * w - 64 * i) < n
  }

  lemma LastIndex(bits: nat)
    requires 2 <= bits <= 4
    ensures Pow2(bits) == IndexLimit(bits)
  {
    assert Pow2(2) == 2 * Pow2(1) == 4 * Pow2(0) == 4;
    assert Pow2(4) == 2 * Pow2(3) == 4 * Pow2(2);
  }

  lemma OneWeight(bits: nat, i: nat, v: nat, w: nat)
    requires 2 <= bits <= 4 && IsWeight(bits, i, v) && IsWeight(bits, i, w)
    ensures v == w
  {
    LastIndex(bits);
  }

  /** The tables hold the nearest weights. */
  lemma WeightNearest(bits: nat, i: nat)
    requires 2 <= bits <= 4 && i < IndexLimit(bits)
    ensures IsWeight(bits, i, Weight(bits, i))
  {
    LastIndex(bits);
  }

  /** The first index takes the first endpoint, the last one the second, and the weights increase. */
  lemma WeightsIncrease(bits: nat, i: nat, j: nat)
    requires 2 <= bits <= 4 && i < IndexLimit(bits) && j < IndexLimit(bits)
    ensures Weight(bits, 0) == 0 && Weight(bits, IndexLimit(bits) - 1) == 64
    ensures i < j <==> Weight(bits, i) < Weight(bits, j)
  {
  }

  // ---------------------------------------------------------------- interpolation

  /** x is the weighted mean of a and b to the nearest whole number, the upper of two. */
  predicate IsMix(a: int, b: int, weight: nat, x: int) {
    64 * x - 32 <= a * (64 - weight) + b * weight < 64 * x + 32
  }

  lemma OneMix(a: int, b: int, weight: nat, x: int, y: int)
    requires IsMix(a, b, weight, x) && IsMix(a, b, weight, y)
    ensures x == y
  {
  }

  lemma InterpolateIs(a: int, b: int, weight: nat)
    ensures IsMix(a, b, weight, Interpolate(a, b, weight))
  {
  }

  predicate InOrder(a: int, x: int, y: int) {
    a <= x <= y || y <= x <= a
  }

  /** A larger weight never brings the value nearer to the first endpoint. */
  lemma InterpolateAway(a: int, b: int, v: nat, w: nat)
    requires v <= w <= 64
    ensures InOrder(a, Interpolate(a, b, v), Interpolate(a, b, w))
  {
    InterpolateBetween(a, b, v);
    InterpolateBetween(a, b, w);
    if a <= b {
      WeightedGrows(a, b, v, w);
    } else {
      WeightedGrows(-a, -b, v, w);
      WeightedOpposite(a, b, v);
      WeightedOpposite(a, b, w);
    }
  }

  lemma WeightedGrows(a: int, b: int, v: nat, w: nat)
    requires v <= w <= 64 && a <= b
    ensures a * (64 - v) + b * v <= a * (64 - w) + b * w
  {
    ScaledOrder(a, b, w - v);
    assert a * (64 - v) == a * (64 - w) + a * (w - v) && b * w == b * v + b * (w - v);
  }

  lemma WeightedOpposite(a: int, b: int, v: nat)
    ensures -a * (64 - v) + -b * v == -(a * (64 - v) + b * v)
  {
  }

  function Interpolate(a: int, b: int, weight: nat): int {
    (a * (64 - weight) + b * weight + 32) / 64
  }

  lemma ScaledOrder(x: int, y: int, w: nat)
    requires x <= y
    ensures x * w <= y * w
  {
    assert (y - x) * w >= 0;
  }

  lemma Mixed(a: int, b: int, weight: nat, low: int, high: int)
    requires weight <= 64 && low <= a <= high && low <= b <= high
    ensures 64 * low <= a * (64 - weight) + b * weight <= 64 * high
  {
    var rest := 64 - weight;
    ScaledOrder(low, a, rest);
    ScaledOrder(a, high, rest);
    ScaledOrder(low, b, weight);
    ScaledOrder(b, high, weight);
    assert low * rest + low * weight == 64 * low;
    assert high * rest + high * weight == 64 * high;
  }

  /** An interpolated value lies between its endpoints, and the end weights give the endpoints. */
  lemma InterpolateBetween(a: int, b: int, weight: nat)
    requires weight <= 64
    ensures if a <= b then a <= Interpolate(a, b, weight) <= b else b <= Interpolate(a, b, weight) <= a
    ensures Interpolate(a, b, 0) == a && Interpolate(a, b, 64) == b
  {
    if a <= b {
      Mixed(a, b, weight, a, b);
    } else {
      Mixed(a, b, weight, b, a);
    }
  }

  // ---------------------------------------------------------------- what index and endpoints give

  /** The mean of a and b that an index stands for. */
  ghost predicate IsMixed(a: int, b: int, bits: nat, index: nat, x: int) {
    exists w: nat :: w <= 64 && IsWeight(bits, index, w) && IsMix(a, b, w, x)
  }

  lemma MixedIs(a: int, b: int, bits: nat, index: nat)
    requires 2 <= bits <= 4 && index < IndexLimit(bits)
    ensures IsMixed(a, b, bits, index, Interpolate(a, b, Weight(bits, index)))
  {
    WeightNearest(bits, index);
    InterpolateIs(a, b, Weight(bits, index));
  }

  lemma OnlyMixed(a: int, b: int, bits: nat, index: nat, x: int)
    requires 2 <= bits <= 4 && index < IndexLimit(bits) && IsMixed(a, b, bits, index, x)
    ensures x == Interpolate(a, b, Weight(bits, index))
  {
    var w: nat :| w <= 64 && IsWeight(bits, index, w) && IsMix(a, b, w, x);
    WeightNearest(bits, index);
    OneWeight(bits, index, w, Weight(bits, index));
    InterpolateIs(a, b, w);
    OneMix(a, b, w, x, Interpolate(a, b, w));
  }

  /** The first index gives the first endpoint, the last one the second. */
  lemma MixedEnds(a: int, b: int, bits: nat, index: nat, x: int)
    requires 2 <= bits <= 4 && index < IndexLimit(bits) && IsMixed(a, b, bits, index, x)
    ensures index == 0 ==> x == a
    ensures index == IndexLimit(bits) - 1 ==> x == b
  {
    OnlyMixed(a, b, bits, index, x);
    WeightsIncrease(bits, index, index);
    InterpolateBetween(a, b, 0);
  }

  /** A larger index is never nearer to the first endpoint. */
  lemma MixedAway(a: int, b: int, bits: nat, i: nat, j: nat, x: int, y: int)
    requires 2 <= bits <= 4 && i <= j < IndexLimit(bits) && IsMixed(a, b, bits, i, x) && IsMixed(a, b, bits, j, y)
    ensures InOrder(a, x, y)
  {
    OnlyMixed(a, b, bits, i, x);
    OnlyMixed(a, b, bits, j, y);
    WeightsIncrease(bits, j, i);
    InterpolateAway(a, b, Weight(bits, i), Weight(bits, j));
  }
}
