/**
The endpoint arithmetic of BC6H on 32-bit two's complement integers: sign extension, delta decoding,
unquantization and the final scaling to a half-float.
 */
module Bc6hArithmetic {
  import opened Bits
  import opened BptcTexels

  lemma {:induction false} Pow2Sum(a: nat, b: nat)
    ensures Pow2(a + b) == Pow2(a) * Pow2(b)
  {
    if a > 0 {
      Pow2Sum(a - 1, b);
    }
  }

  lemma {:induction false} Pow2Grows(a: nat, b: nat)
    requires a <= b
    ensures Pow2(a) <= Pow2(b)
  {
    if a < b {
      Pow2Grows(a, b - 1);
    }
  }

  lemma Pow2Of16And32()
    ensures Pow2(15) == 0x8000 && Pow2(16) == 0x1_0000 && Pow2(31) == 0x8000_0000 && Pow2(32) == 0x1_0000_0000
  {
    Pow2Sum(4, 4);
    Pow2Sum(8, 8);
    Pow2Sum(16, 16);
  }

  /** Half the range of a number of that many bits. */
  function Half(bits: nat): (h: int)
    requires bits > 0
    ensures h > 0 && Pow2(bits) == 2 * h
  {
    Pow2(bits - 1)
  }

  // ---------------------------------------------------------------- division

  lemma TimesAtLeast(m: int, d: int)
    requires m > 0
    ensures d >= 1 ==> m * d >= m
    ensures d <= -1 ==> m * d <= -m
  {
    var rest := if d >= 1 then d - 1 else -1 - d;
    assert d >= 1 ==> m * d == m + m * rest;
    assert d <= -1 ==> m * d == -m - m * rest;
    assert rest >= 0 ==> m * rest >= 0;
  }

  lemma DivisionUnique(x: int, m: int, q: int, r: int)
    requires m > 0 && x == m * q + r && 0 <= r < m
    ensures x / m == q && x % m == r
  {
    var q', r' := x / m, x % m;
    assert m * (q - q') == r' - r;
    TimesAtLeast(m, q - q');
  }

  lemma ModScaled(x: int, k: int, m: int)
    requires k > 0 && m > 0
    ensures k * m > 0 && (k * x) % (k * m) == k * (x % m)
  {
    var q, r := x / m, x % m;
    assert k * x == (k * m) * q + k * r by {
      assert x == m * q + r;
    }
    assert 0 <= k * r < k * m;
    DivisionUnique(k * x, k * m, q, k * r);
  }

  lemma DivideBelow(x: int, m: int, bound: int)
    requires m > 0 && 0 <= x < m * bound
    ensures 0 <= x / m < bound
  {
    var q := x / m;
    TimesAtLeast(m, q);
    TimesAtLeast(m, q - bound);
    assert m * (q - bound) == m * q - m * bound;
  }

  lemma DivideMonotone(x: int, y: int, m: int)
    requires m > 0 && x <= y
    ensures x / m <= y / m
  {
    var d := x / m - y / m;
    TimesAtLeast(m, d);
    assert m * d == m * (x / m) - m * (y / m);
  }

  // ---------------------------------------------------------------- shifts and masks of signed numbers

  /** x << n, without a bound on the result. */
  function ShiftUp(x: int, n: nat): int {
    if n == 0 then x else 2 * ShiftUp(x, n - 1)
  }

  /** x >> n, copies of the sign coming in. */
  function ShiftDown(x: int, n: nat): int
    decreases n
  {
    if n == 0 then x else ShiftDown(x / 2, n - 1)
  }

  /** x & ((1 << n) - 1) */
  function Mask(x: int, n: nat): int
    decreases n
  {
    if n == 0 then 0 else x % 2 + 2 * Mask(x / 2, n - 1)
  }

  lemma {:induction false} ShiftUpIs(x: int, n: nat)
    ensures ShiftUp(x, n) == x * Pow2(n)
  {
    if n > 0 {
      ShiftUpIs(x, n - 1);
    }
  }

  lemma HalveFirst(x: int, m: int)
    requires m > 0
    ensures x / (2 * m) == x / 2 / m && x % (2 * m) == x % 2 + 2 * (x / 2 % m)
  {
    var q, r := x / 2 / m, x / 2 % m;
    assert x / 2 == m * q + r;
    assert x == 2 * (m * q) + (2 * r + x % 2);
    DivisionUnique(x, 2 * m, q, 2 * r + x % 2);
  }

  lemma {:induction false} ShiftDownIs(x: int, n: nat)
    ensures ShiftDown(x, n) == x / Pow2(n)
    decreases n
  {
    if n > 0 {
      ShiftDownIs(x / 2, n - 1);
      HalveFirst(x, Pow2(n - 1));
    }
  }

  lemma {:induction false} MaskIs(x: int, n: nat)
    ensures Mask(x, n) == x % Pow2(n)
    decreases n
  {
    if n > 0 {
      MaskIs(x / 2, n - 1);
      HalveFirst(x, Pow2(n - 1));
    }
  }

  // ---------------------------------------------------------------- two's complement

  /** x and y differ by a multiple of m. */
  ghost predicate Congruent(x: int, y: int, m: int) {
    exists q: int :: x == y + Times(m, q)
  }

  function Times(m: int, q: int): int {
    m * q
  }

  lemma CongruentIf(x: int, y: int, m: int, q: int)
    requires x == y + m * q
    ensures Congruent(x, y, m)
  {
    assert x == y + Times(m, q);
  }

  lemma CongruentSymmetric(x: int, y: int, m: int)
    requires Congruent(x, y, m)
    ensures Congruent(y, x, m)
  {
    var q :| x == y + Times(m, q);
    CongruentIf(y, x, m, -q);
  }

  lemma CongruentTransitive(x: int, y: int, z: int, m: int)
    requires Congruent(x, y, m) && Congruent(y, z, m)
    ensures Congruent(x, z, m)
  {
    var q :| x == y + Times(m, q);
    var r :| y == z + Times(m, r);
    assert m * (q + r) == m * q + m * r;
    CongruentIf(x, z, m, q + r);
  }

  lemma CongruentShifted(x: int, y: int, m: int, d: int)
    requires Congruent(x, y, m)
    ensures Congruent(x + d, y + d, m)
  {
    var q :| x == y + Times(m, q);
    CongruentIf(x + d, y + d, m, q);
  }

  lemma ModCongruent(x: int, m: int)
    requires m > 0
    ensures Congruent(x, x % m, m)
  {
    CongruentIf(x, x % m, m, x / m);
  }

  /** Within a range of m numbers only one is congruent to x. */
  lemma CongruentUnique(x: int, y: int, m: int, low: int)
    requires m > 0 && Congruent(x, y, m) && low <= x < low + m && low <= y < low + m
    ensures x == y
  {
    var q :| x == y + Times(m, q);
    TimesAtLeast(m, q);
  }

  /** The 32-bit int with these low bits. */
  function Wrap32(x: int): int {
    (x + 0x8000_0000) % 0x1_0000_0000 - 0x8000_0000
  }

  /** The low bits of x read as a signed number. */
  function Wrap(x: int, bits: nat): (r: int)
    requires bits > 0
    ensures InRange(r, bits, true)
  {
    (x + Half(bits)) % Pow2(bits) - Half(bits)
  }

  /** A number of that many bits. */
  predicate InRange(x: int, bits: nat, signed: bool)
    requires bits > 0
  {
    if signed then -Half(bits) <= x < Half(bits) else 0 <= x < Pow2(bits)
  }

  lemma WrapCongruent(x: int, bits: nat)
    requires bits > 0
    ensures Congruent(x, Wrap(x, bits), Pow2(bits))
  {
    ModCongruent(x + Half(bits), Pow2(bits));
    CongruentShifted(x + Half(bits), (x + Half(bits)) % Pow2(bits), Pow2(bits), -Half(bits));
  }

  /** In a range only one number has the given low bits. */
  lemma RangeUnique(x: int, y: int, bits: nat, signed: bool)
    requires bits > 0 && InRange(x, bits, signed) && InRange(y, bits, signed) && Congruent(x, y, Pow2(bits))
    ensures x == y
  {
    CongruentUnique(x, y, Pow2(bits), if signed then -Half(bits) else 0);
  }

  /** Left shift, then arithmetic right shift, by 32 - bits. */
  function ExtendSign(val: int, bits: nat): int
    requires 1 <= bits <= 32
  {
    ShiftDown(Wrap32(ShiftUp(val, 32 - bits)), 32 - bits)
  }

  lemma ScaledWrap(val: int, k: int, h: int)
    requires k > 0 && h > 0 && k * h == 0x8000_0000
    ensures Wrap32(val * k) / k == (val + h) % (2 * h) - h
  {
    ModScaled(val + h, k, 2 * h);
    assert k * (val + h) == val * k + 0x8000_0000;
    assert k * (2 * h) == 0x1_0000_0000;
    var t := (val + h) % (2 * h);
    assert Wrap32(val * k) == k * t - k * h;
    assert k * t - k * h == k * (t - h);
    DivisionUnique(k * (t - h), k, t - h, 0);
  }

  /** Sign extension keeps the low bits and reads them as a signed number. */
  lemma ExtendSignWraps(val: int, bits: nat)
    requires 1 <= bits <= 32
    ensures ExtendSign(val, bits) == Wrap(val, bits)
  {
    Pow2Of16And32();
    Pow2Sum(32 - bits, bits - 1);
    assert (32 - bits) + (bits - 1) == 31;
    ShiftUpIs(val, 32 - bits);
    ShiftDownIs(Wrap32(val * Pow2(32 - bits)), 32 - bits);
    ScaledWrap(val, Pow2(32 - bits), Half(bits));
  }

  // ---------------------------------------------------------------- delta endpoints

  function TransformInverse(val: int, a0: int, bits: nat, signed: bool): int
    requires 1 <= bits <= 32
  {
    var sum := Mask(val + a0, bits);
    if signed then ExtendSign(sum, bits) else sum
  }

  lemma MaskCongruent(x: int, bits: nat)
    ensures 0 <= Mask(x, bits) < Pow2(bits) && Congruent(x, Mask(x, bits), Pow2(bits))
  {
    MaskIs(x, bits);
    ModCongruent(x, Pow2(bits));
  }

  lemma ExtendSignCongruent(x: int, bits: nat)
    requires 1 <= bits <= 32
    ensures InRange(ExtendSign(x, bits), bits, true) && Congruent(x, ExtendSign(x, bits), Pow2(bits))
  {
    ExtendSignWraps(x, bits);
    WrapCongruent(x, bits);
  }

  /** The decoded endpoint is the number of that many bits with the low bits of val + a0. */
  lemma InverseInRange(val: int, a0: int, bits: nat, signed: bool)
    requires 1 <= bits <= 32
    ensures InRange(TransformInverse(val, a0, bits, signed), bits, signed)
    ensures Congruent(val + a0, TransformInverse(val, a0, bits, signed), Pow2(bits))
  {
    var sum := Mask(val + a0, bits);
    MaskCongruent(val + a0, bits);
    if signed {
      SignedInverse(val + a0, sum, bits);
    }
  }

  lemma SignedInverse(x: int, sum: int, bits: nat)
    requires 1 <= bits <= 32 && Congruent(x, sum, Pow2(bits))
    ensures InRange(ExtendSign(sum, bits), bits, true) && Congruent(x, ExtendSign(sum, bits), Pow2(bits))
  {
    ExtendSignCongruent(sum, bits);
    CongruentTransitive(x, sum, ExtendSign(sum, bits), Pow2(bits));
  }

  /** A delta decodes to e exactly if it has the low bits of the difference. */
  lemma InverseIs(val: int, a0: int, bits: nat, signed: bool, e: int)
    requires 1 <= bits <= 32 && InRange(e, bits, signed)
    ensures TransformInverse(val, a0, bits, signed) == e <==> Congruent(e - a0, val, Pow2(bits))
  {
    var x, m := TransformInverse(val, a0, bits, signed), Pow2(bits);
    InverseInRange(val, a0, bits, signed);
    if x == e {
      CongruentShifted(val + a0, e, m, -a0);
      CongruentSymmetric(val, e - a0, m);
    }
    if Congruent(e - a0, val, m) {
      CongruentShifted(e - a0, val, m, a0);
      CongruentTransitive(e, val + a0, x, m);
      RangeUnique(e, x, bits, signed);
    }
  }

  /** A stored delta of the given width decodes to e exactly if, sign extended, it is the wrapped difference. */
  lemma DeltaDecodes(e: int, a0: int, stored: nat, width: nat, bits: nat, signed: bool)
    requires 1 <= width <= bits <= 32
    requires InRange(e, bits, signed)
    ensures TransformInverse(ExtendSign(stored, width), a0, bits, signed) == e
       <==> ExtendSign(stored, width) == Wrap(e - a0, bits)
  {
    var d, w, m := ExtendSign(stored, width), Wrap(e - a0, bits), Pow2(bits);
    ExtendSignWraps(stored, width);
    WiderRange(d, width, bits);
    InverseIs(d, a0, bits, signed, e);
    WrapCongruent(e - a0, bits);
    if Congruent(e - a0, d, m) {
      CongruentSymmetric(e - a0, w, m);
      CongruentTransitive(w, e - a0, d, m);
      RangeUnique(w, d, bits, true);
    }
  }

  lemma WiderRange(d: int, width: nat, bits: nat)
    requires 1 <= width <= bits && InRange(d, width, true)
    ensures InRange(d, bits, true)
  {
    Pow2Grows(width - 1, bits - 1);
  }

  /** The delta an encoder stores. */
  function StoredDelta(e: int, a0: int, width: nat): (s: nat)
    requires width > 0
  {
    (e - a0) % Pow2(width)
  }

  lemma CongruentFactor(x: int, y: int, m: int, k: int)
    requires Congruent(x, y, m * k)
    ensures Congruent(x, y, m)
  {
    var q :| x == y + Times(m * k, q);
    assert (m * k) * q == m * (k * q);
    CongruentIf(x, y, m, k * q);
  }

  lemma FinerCongruent(x: int, y: int, width: nat, bits: nat)
    requires width <= bits && Congruent(x, y, Pow2(bits))
    ensures Congruent(x, y, Pow2(width))
  {
    Pow2Sum(width, bits - width);
    CongruentFactor(x, y, Pow2(width), Pow2(bits - width));
  }

  lemma StoredDeltaExtends(e: int, a0: int, width: nat, bits: nat)
    requires 1 <= width <= bits <= 32 && InRange(Wrap(e - a0, bits), width, true)
    ensures ExtendSign(StoredDelta(e, a0, width), width) == Wrap(e - a0, bits)
  {
    var s, d, m := StoredDelta(e, a0, width), Wrap(e - a0, bits), Pow2(width);
    ExtendSignWraps(s, width);
    WrapCongruent(s, width);
    ModCongruent(e - a0, m);
    CongruentTransitive(e - a0, s, Wrap(s, width), m);
    CongruentSymmetric(e - a0, Wrap(s, width), m);
    WrapCongruent(e - a0, bits);
    FinerCongruent(e - a0, d, width, bits);
    CongruentTransitive(Wrap(s, width), e - a0, d, m);
    RangeUnique(Wrap(s, width), d, width, true);
  }

  /**
  An endpoint can be stored as a delta of the given width exactly if its difference from the base,
  wrapped to the endpoint width, is a signed number of that width; its low bits are what to store.
   */
  lemma DeltaFits(e: int, a0: int, width: nat, bits: nat, signed: bool)
    requires 1 <= width <= bits <= 32
    requires InRange(e, bits, signed)
    ensures InRange(Wrap(e - a0, bits), width, true)
       <==> exists stored: nat | stored < Pow2(width) ::
              TransformInverse(ExtendSign(stored, width), a0, bits, signed) == e
    ensures InRange(Wrap(e - a0, bits), width, true)
       ==> TransformInverse(ExtendSign(StoredDelta(e, a0, width), width), a0, bits, signed) == e
  {
    var d := Wrap(e - a0, bits);
    if InRange(d, width, true) {
      var s := StoredDelta(e, a0, width);
      StoredDeltaExtends(e, a0, width, bits);
      DeltaDecodes(e, a0, s, width, bits, signed);
      assert s < Pow2(width);
    } else {
      forall stored: nat | stored < Pow2(width)
        ensures TransformInverse(ExtendSign(stored, width), a0, bits, signed) != e
      {
        DeltaDecodes(e, a0, stored, width, bits, signed);
        ExtendSignWraps(stored, width);
      }
    }
  }

  // ---------------------------------------------------------------- unquantization

  /** For a value in range; then the source's tests for the top one, == and >=, agree. */
  function Unquantize(val: int, bits: nat, signed: bool): int
    requires bits > 0 && InRange(val, bits, signed)
  {
    if !signed then
      if bits >= 15 then val else Level(val, Pow2(bits), 0x1_0000)
    else
      if bits >= 16 then val
      else if val < 0 then -Level(-val, Half(bits), 0x8000)
      else Level(val, Half(bits), 0x8000)
  }

  /** 0..m-1 scaled to 0..range-1; the top one, and all above it, to the top. */
  function Level(val: int, m: int, range: int): int
    requires m > 0
  {
    if val == 0 then 0
    else if val >= m - 1 then range - 1
    else (val * range + range / 2) / m
  }

  lemma OrMore(a: int, c: int)
    requires a >= 1 && c >= 0
    ensures a * c >= c
  {
    assert a * c == (a - 1) * c + c;
    assert (a - 1) * c >= 0;
  }

  lemma RoomAbove(val: int, m: int, range: int)
    requires 0 < val < m && range > 1
    ensures 0 <= val * range + range / 2 < m * range
  {
    OrMore(val, range);
    OrMore(m - val, range);
    var x, y := val * range, (m - val) * range;
    assert m * range == x + y;
    assert 0 <= range / 2 < range;
  }

  lemma LevelBounded(val: int, m: int, range: int)
    requires m > 0 && val >= 0 && range > 1
    ensures 0 <= Level(val, m, range) < range
  {
    if 0 < val < m - 1 {
      RoomAbove(val, m, range);
      DivideBelow(val * range + range / 2, m, range);
    }
  }

  lemma LevelMonotone(v: int, w: int, m: int, range: int)
    requires m > 0 && 0 <= v <= w && range > 1
    ensures Level(v, m, range) <= Level(w, m, range)
  {
    LevelBounded(v, m, range);
    LevelBounded(w, m, range);
    if 0 < v && w < m - 1 {
      assert v * range <= w * range;
      DivideMonotone(v * range + range / 2, w * range + range / 2, m);
    }
  }

  /** Unquantized values fill at most 16 bits, and but for 16-bit signed endpoints never reach -32768. */
  lemma UnquantizeBounded(val: int, bits: nat, signed: bool)
    requires 1 <= bits <= 16 && InRange(val, bits, signed)
    ensures InRange(Unquantize(val, bits, signed), 16, signed)
    ensures signed && bits < 16 ==> Unquantize(val, bits, signed) > -0x8000
  {
    Pow2Of16And32();
    if signed {
      LevelBounded(if val < 0 then -val else val, Half(bits), 0x8000);
    } else {
      LevelBounded(val, Pow2(bits), 0x1_0000);
      Pow2Grows(bits, 16);
    }
  }

  /** Unquantizing keeps the order of endpoint values. */
  lemma UnquantizeMonotone(v: int, w: int, bits: nat, signed: bool)
    requires 1 <= bits <= 16 && InRange(v, bits, signed) && InRange(w, bits, signed) && v <= w
    ensures Unquantize(v, bits, signed) <= Unquantize(w, bits, signed)
  {
    if !signed {
      LevelMonotone(v, w, Pow2(bits), 0x1_0000);
    } else if v >= 0 {
      LevelMonotone(v, w, Half(bits), 0x8000);
    } else if w < 0 {
      LevelMonotone(-w, -v, Half(bits), 0x8000);
    } else {
      LevelBounded(-v, Half(bits), 0x8000);
      LevelBounded(w, Half(bits), 0x8000);
    }
  }

  // ---------------------------------------------------------------- what unquantization gives

  /** x is the middle of the val-th of m equal parts of 0..range, rounded down. */
  predicate IsMiddle(val: int, m: int, range: int, x: int) {
    2 * m * x <= (2 * val + 1) * range < 2 * m * (x + 1)
  }

  /** The endpoint value scaled to 16 bits: 0 stays 0, the top goes to the top, the others to the middle of their part. */
  predicate IsUnquantized(val: int, bits: nat, signed: bool, x: int)
    requires bits > 1
  {
    if bits >= (if signed then 16 else 15) then x == val
    else if !signed then
      && (val == 0 ==> x == 0)
      && (val == Pow2(bits) - 1 ==> x == 0xFFFF)
      && (0 < val < Pow2(bits) - 1 ==> IsMiddle(val, Pow2(bits), 0x1_0000, x))
    else
      && (val == 0 ==> x == 0)
      && (val >= Pow2(bits - 1) - 1 ==> x == 0x7FFF)
      && (-val >= Pow2(bits - 1) - 1 ==> x == -0x7FFF)
      && (0 < val < Pow2(bits - 1) - 1 ==> IsMiddle(val, Pow2(bits - 1), 0x8000, x))
      && (0 < -val < Pow2(bits - 1) - 1 ==> IsMiddle(-val, Pow2(bits - 1), 0x8000, -x))
  }

  lemma OneMiddle(val: int, m: int, range: int, x: int, y: int)
    requires m > 0 && IsMiddle(val, m, range, x) && IsMiddle(val, m, range, y)
    ensures x == y
  {
    TimesAtLeast(2 * m, x - y);
    assert 2 * m * (x - y) == 2 * m * x - 2 * m * y;
    assert 2 * m * (x + 1) == 2 * m * x + 2 * m && 2 * m * (y + 1) == 2 * m * y + 2 * m;
  }

  lemma OneUnquantized(val: int, bits: nat, signed: bool, x: int, y: int)
    requires 2 <= bits <= 16 && InRange(val, bits, signed)
    requires IsUnquantized(val, bits, signed, x) && IsUnquantized(val, bits, signed, y)
    ensures x == y
  {
    var m, size := if signed then Pow2(bits - 1) else Pow2(bits), if val < 0 then -val else val;
    var range := if signed then 0x8000 else 0x1_0000;
    if bits < (if signed then 16 else 15) && 0 < size < m - 1 {
      if val < 0 {
        OneMiddle(size, m, range, -x, -y);
      } else {
        OneMiddle(size, m, range, x, y);
      }
    }
  }

  lemma MiddleIs(val: int, m: int, range: int, x: int)
    requires m > 0 && range > 0 && range % 2 == 0 && x == (val * range + range / 2) / m
    ensures IsMiddle(val, m, range, x)
  {
    var y := val * range + range / 2;
    assert y == m * x + y % m;
    assert (2 * val + 1) * range == 2 * y;
    assert 2 * m * x == 2 * (m * x) && 2 * m * (x + 1) == 2 * (m * x) + 2 * m;
  }

  lemma LevelIs(val: int, m: int, range: int)
    requires 0 < val < m - 1 && range > 0 && range % 2 == 0
    ensures IsMiddle(val, m, range, Level(val, m, range))
  {
    MiddleIs(val, m, range, Level(val, m, range));
  }

  /** What unquantization gives, in numbers. */
  lemma UnquantizeIs(val: int, bits: nat, signed: bool)
    requires 2 <= bits <= 16 && InRange(val, bits, signed)
    ensures IsUnquantized(val, bits, signed, Unquantize(val, bits, signed))
  {
    var m, size := if signed then Half(bits) else Pow2(bits), if val < 0 then -val else val;
    assert Pow2(bits) == 2 * Pow2(bits - 1) && Pow2(bits - 1) == 2 * Pow2(bits - 2);
    if 0 < size < m - 1 {
      LevelIs(size, m, if signed then 0x8000 else 0x1_0000);
    }
  }

  /** Opposite numbers are unquantized to opposite numbers. */
  lemma UnquantizeOdd(val: int, bits: nat)
    requires 2 <= bits <= 16 && InRange(val, bits, true) && InRange(-val, bits, true)
    ensures Unquantize(-val, bits, true) == -Unquantize(val, bits, true)
  {
  }

  // ---------------------------------------------------------------- halves

  /** The half-float bits: the magnitude scaled by 31/64, or 31/32 with a sign bit. */
  function FinishUnquantize(val: int, signed: bool): int {
    if !signed then val * 31 / 64
    else if val < 0 then
      var scaled := -val * 31 / 32;
      if scaled > 0 then 0x8000 + scaled else 0
    else val * 31 / 32
  }

  /** The half-float is finite: its magnitude is at most 0x7BFF, below the infinity 0x7C00. */
  predicate Finite(half: int) {
    0 <= half <= 0x7BFF || 0x8000 <= half <= 0xFBFF
  }

  /** The half-float bits of 31/64 of x rounded down, or of 31/32 of it rounded towards 0, with a sign. */
  predicate IsHalf(x: int, signed: bool, h: int) {
    if !signed then 64 * h <= 31 * x < 64 * (h + 1)
    else if x >= 0 then 32 * h <= 31 * x < 32 * (h + 1)
    else if x == -1 then h == 0
    else 32 * (h - 0x8000) <= 31 * -x < 32 * (h - 0x8000 + 1)
  }

  lemma OneHalf(x: int, signed: bool, h: int, h': int)
    requires IsHalf(x, signed, h) && IsHalf(x, signed, h')
    ensures h == h'
  {
  }

  lemma FinishIs(val: int, signed: bool)
    ensures IsHalf(val, signed, FinishUnquantize(val, signed))
  {
  }

  /** The number a signed half's bits stand for, in steps that all numbers share. */
  function Signed(h: int): int {
    if h >= 0x8000 then 0x8000 - h else h
  }

  /** A larger value never gives a smaller half. */
  lemma FinishMonotone(x: int, y: int, signed: bool)
    requires InRange(x, 16, signed) && InRange(y, 16, signed) && x <= y
    ensures Signed(FinishUnquantize(x, signed)) <= Signed(FinishUnquantize(y, signed))
  {
    Pow2Of16And32();
  }

  /** The final scaling always gives 16 bits; they are finite but for the signed value -32768. */
  lemma FinishFinite(val: int, signed: bool)
    requires InRange(val, 16, signed)
    ensures 0 <= FinishUnquantize(val, signed) <= 0xFFFF
    ensures !signed ==> FinishUnquantize(val, signed) <= 0x7BFF
    ensures Finite(FinishUnquantize(val, signed)) <==> !(signed && val == -0x8000)
  {
    Pow2Of16And32();
  }

  /** The interpolated value is -32768 exactly if both endpoints are that low up to rounding. */
  lemma LowestInterpolated(a: int, b: int, weight: nat)
    requires weight <= 64 && -0x8000 <= a && -0x8000 <= b
    ensures Interpolate(a, b, weight) == -0x8000 <==> (a + 0x8000) * (64 - weight) + (b + 0x8000) * weight < 32
  {
    var x := a * (64 - weight) + b * weight;
    assert (a + 0x8000) * (64 - weight) + (b + 0x8000) * weight == x + 0x8000 * 64;
    assert (a + 0x8000) * (64 - weight) >= 0 && (b + 0x8000) * weight >= 0;
  }
}
