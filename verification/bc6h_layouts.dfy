/**
The headers of the fourteen BC6H modes. Each read from the bit stream goes to one field, the numbers
0..11 being the four endpoint values of red, green and blue and 12 the partition, and is or-ed into
it from some bit on. The layout of a mode lists its reads in order.
 */
module Bc6hLayouts {

  datatype Piece = Piece(field: nat, shift: nat, width: nat, reversed: bool)

  const RW := 0
  const RX := 1
  const RY := 2
  const RZ := 3
  const GW := 4
  const GX := 5
  const GY := 6
  const GZ := 7
  const BW := 8
  const BX := 9
  const BY := 10
  const BZ := 11
  const D := 12
  const FIELDS := 13

  /** width bits into the field from bit shift on */
  function Up(field: nat, shift: nat, width: nat): Piece {
    Piece(field, shift, width, false)
  }

  /** the same, first bit read highest */
  function Down(field: nat, shift: nat, width: nat): Piece {
    Piece(field, shift, width, true)
  }

  function Layout(mode: nat): seq<Piece>
    requires mode < 14
  {
    match mode
    case 0 => Layout0()
    case 1 => Layout1()
    case 2 => Layout2()
    case 3 => Layout3()
    case 4 => Layout4()
    case 5 => Layout5()
    case 6 => Layout6()
    case 7 => Layout7()
    case 8 => Layout8()
    case 9 => Layout9()
    case 10 => Layout10()
    case 11 => Layout11()
    case 12 => Layout12()
    case _ => Layout13()
  }

  function Layout0(): seq<Piece> {
    [
      Up(GY, 4, 1), Up(BY, 4, 1), Up(BZ, 4, 1), Up(RW, 0, 10), Up(GW, 0, 10), Up(BW, 0, 10), Up(RX, 0, 5),
      Up(GZ, 4, 1), Up(GY, 0, 4), Up(GX, 0, 5), Up(BZ, 0, 1), Up(GZ, 0, 4), Up(BX, 0, 5), Up(BZ, 1, 1),
      Up(BY, 0, 4), Up(RY, 0, 5), Up(BZ, 2, 1), Up(RZ, 0, 5), Up(BZ, 3, 1), Up(D, 0, 5)
    ]
  }

  function Layout1(): seq<Piece> {
    [
      Up(GY, 5, 1), Up(GZ, 4, 1), Up(GZ, 5, 1), Up(RW, 0, 7), Up(BZ, 0, 1), Up(BZ, 1, 1), Up(BY, 4, 1),
      Up(GW, 0, 7), Up(BY, 5, 1), Up(BZ, 2, 1), Up(GY, 4, 1), Up(BW, 0, 7), Up(BZ, 3, 1), Up(BZ, 5, 1),
      Up(BZ, 4, 1), Up(RX, 0, 6), Up(GY, 0, 4), Up(GX, 0, 6), Up(GZ, 0, 4), Up(BX, 0, 6), Up(BY, 0, 4),
      Up(RY, 0, 6), Up(RZ, 0, 6), Up(D, 0, 5)
    ]
  }

  function Layout2(): seq<Piece> {
    [
      Up(RW, 0, 10), Up(GW, 0, 10), Up(BW, 0, 10), Up(RX, 0, 5), Up(RW, 10, 1), Up(GY, 0, 4), Up(GX, 0, 4),
      Up(GW, 10, 1), Up(BZ, 0, 1), Up(GZ, 0, 4), Up(BX, 0, 4), Up(BW, 10, 1), Up(BZ, 1, 1), Up(BY, 0, 4),
      Up(RY, 0, 5), Up(BZ, 2, 1), Up(RZ, 0, 5), Up(BZ, 3, 1), Up(D, 0, 5)
    ]
  }

  function Layout3(): seq<Piece> {
    [
      Up(RW, 0, 10), Up(GW, 0, 10), Up(BW, 0, 10), Up(RX, 0, 4), Up(RW, 10, 1), Up(GZ, 4, 1), Up(GY, 0, 4),
      Up(GX, 0, 5), Up(GW, 10, 1), Up(GZ, 0, 4), Up(BX, 0, 4), Up(BW, 10, 1), Up(BZ, 1, 1), Up(BY, 0, 4),
      Up(RY, 0, 4), Up(BZ, 0, 1), Up(BZ, 2, 1), Up(RZ, 0, 4), Up(GY, 4, 1), Up(BZ, 3, 1), Up(D, 0, 5)
    ]
  }

  function Layout4(): seq<Piece> {
    [
      Up(RW, 0, 10), Up(GW, 0, 10), Up(BW, 0, 10), Up(RX, 0, 4), Up(RW, 10, 1), Up(BY, 4, 1), Up(GY, 0, 4),
      Up(GX, 0, 4), Up(GW, 10, 1), Up(BZ, 0, 1), Up(GZ, 0, 4), Up(BX, 0, 5), Up(BW, 10, 1), Up(BY, 0, 4),
      Up(RY, 0, 4), Up(BZ, 1, 1), Up(BZ, 2, 1), Up(RZ, 0, 4), Up(BZ, 4, 1), Up(BZ, 3, 1), Up(D, 0, 5)
    ]
  }

  function Layout5(): seq<Piece> {
    [
      Up(RW, 0, 9), Up(BY, 4, 1), Up(GW, 0, 9), Up(GY, 4, 1), Up(BW, 0, 9), Up(BZ, 4, 1), Up(RX, 0, 5),
      Up(GZ, 4, 1), Up(GY, 0, 4), Up(GX, 0, 5), Up(BZ, 0, 1), Up(GZ, 0, 4), Up(BX, 0, 5), Up(BZ, 1, 1),
      Up(BY, 0, 4), Up(RY, 0, 5), Up(BZ, 2, 1), Up(RZ, 0, 5), Up(BZ, 3, 1), Up(D, 0, 5)
    ]
  }

  function Layout6(): seq<Piece> {
    [
      Up(RW, 0, 8), Up(GZ, 4, 1), Up(BY, 4, 1), Up(GW, 0, 8), Up(BZ, 2, 1), Up(GY, 4, 1), Up(BW, 0, 8),
      Up(BZ, 3, 1), Up(BZ, 4, 1), Up(RX, 0, 6), Up(GY, 0, 4), Up(GX, 0, 5), Up(BZ, 0, 1), Up(GZ, 0, 4),
      Up(BX, 0, 5), Up(BZ, 1, 1), Up(BY, 0, 4), Up(RY, 0, 6), Up(RZ, 0, 6), Up(D, 0, 5)
    ]
  }

  function Layout7(): seq<Piece> {
    [
      Up(RW, 0, 8), Up(BZ, 0, 1), Up(BY, 4, 1), Up(GW, 0, 8), Up(GY, 5, 1), Up(GY, 4, 1), Up(BW, 0, 8),
      Up(GZ, 5, 1), Up(BZ, 4, 1), Up(RX, 0, 5), Up(GZ, 4, 1), Up(GY, 0, 4), Up(GX, 0, 6), Up(GZ, 0, 4),
      Up(BX, 0, 5), Up(BZ, 1, 1), Up(BY, 0, 4), Up(RY, 0, 5), Up(BZ, 2, 1), Up(RZ, 0, 5), Up(BZ, 3, 1),
      Up(D, 0, 5)
    ]
  }

  function Layout8(): seq<Piece> {
    [
      Up(RW, 0, 8), Up(BZ, 1, 1), Up(BY, 4, 1), Up(GW, 0, 8), Up(BY, 5, 1), Up(GY, 4, 1), Up(BW, 0, 8),
      Up(BZ, 5, 1), Up(BZ, 4, 1), Up(RX, 0, 5), Up(GZ, 4, 1), Up(GY, 0, 4), Up(GX, 0, 5), Up(BZ, 0, 1),
      Up(GZ, 0, 4), Up(BX, 0, 6), Up(BY, 0, 4), Up(RY, 0, 5), Up(BZ, 2, 1), Up(RZ, 0, 5), Up(BZ, 3, 1),
      Up(D, 0, 5)
    ]
  }

  function Layout9(): seq<Piece> {
    [
      Up(RW, 0, 6), Up(GZ, 4, 1), Up(BZ, 0, 1), Up(BZ, 1, 1), Up(BY, 4, 1), Up(GW, 0, 6), Up(GY, 5, 1),
      Up(BY, 5, 1), Up(BZ, 2, 1), Up(GY, 4, 1), Up(BW, 0, 6), Up(GZ, 5, 1), Up(BZ, 3, 1), Up(BZ, 5, 1),
      Up(BZ, 4, 1), Up(RX, 0, 6), Up(GY, 0, 4), Up(GX, 0, 6), Up(GZ, 0, 4), Up(BX, 0, 6), Up(BY, 0, 4),
      Up(RY, 0, 6), Up(RZ, 0, 6), Up(D, 0, 5)
    ]
  }

  function Layout10(): seq<Piece> {
    [
      Up(RW, 0, 10), Up(GW, 0, 10), Up(BW, 0, 10), Up(RX, 0, 10), Up(GX, 0, 10), Up(BX, 0, 10)
    ]
  }

  function Layout11(): seq<Piece> {
    [
      Up(RW, 0, 10), Up(GW, 0, 10), Up(BW, 0, 10), Up(RX, 0, 9), Up(RW, 10, 1), Up(GX, 0, 9), Up(GW, 10, 1),
      Up(BX, 0, 9), Up(BW, 10, 1)
    ]
  }

  function Layout12(): seq<Piece> {
    [
      Up(RW, 0, 10), Up(GW, 0, 10), Up(BW, 0, 10), Up(RX, 0, 8), Down(RW, 10, 2), Up(GX, 0, 8),
      Down(GW, 10, 2), Up(BX, 0, 8), Down(BW, 10, 2)
    ]
  }

  function Layout13(): seq<Piece> {
    [
      Up(RW, 0, 10), Up(GW, 0, 10), Up(BW, 0, 10), Up(RX, 0, 4), Down(RW, 10, 6), Up(GX, 0, 4),
      Down(GW, 10, 6), Up(BX, 0, 4), Down(BW, 10, 6)
    ]
  }

  /** Bits of the first endpoint. */
  function BaseBits(mode: nat): (b: nat)
    requires mode < 14
    ensures 6 <= b <= 16
  {
    [10, 7, 11, 11, 11, 9, 8, 8, 8, 6, 10, 11, 12, 16][mode]
  }

  /** Bits of the other endpoints of a channel: red, green or blue. */
  function DeltaBits(mode: nat, channel: nat): (b: nat)
    requires mode < 14 && channel < 3
    ensures 4 <= b <= 10 && b <= BaseBits(mode)
  {
    if channel == 0 then [5, 6, 5, 4, 4, 5, 6, 5, 5, 6, 10, 9, 8, 4][mode]
    else if channel == 1 then [5, 6, 4, 5, 4, 5, 5, 6, 5, 6, 10, 9, 8, 4][mode]
    else [5, 6, 4, 4, 5, 5, 5, 5, 6, 6, 10, 9, 8, 4][mode]
  }

  /** The modes from 10 on have one subset, so no partition and two endpoints. */
  function Endpoints(mode: nat): nat {
    if mode >= 10 then 2 else 4
  }

  function ChannelOf(field: nat): nat {
    if field < GW then 0 else if field < BW then 1 else 2
  }

  /** Which of its channel's endpoints the field is. */
  function EndpointOf(field: nat): nat {
    if field < GW then field else if field < BW then field - GW else field - BW
  }

  /** The width of a field. */
  function Width(mode: nat, field: nat): (w: nat)
    requires mode < 14
    ensures w <= 16
  {
    if field == D then (if mode >= 10 then 0 else 5)
    else if field > D || EndpointOf(field) >= Endpoints(mode) then 0
    else if EndpointOf(field) == 0 then BaseBits(mode)
    else DeltaBits(mode, ChannelOf(field))
  }

  /** The read brings in bit b of the field. */
  predicate Covers(p: Piece, field: nat, b: nat) {
    p.field == field && p.shift <= b < p.shift + p.width
  }

  /** No field bit is brought in by both. */
  predicate Apart(p: Piece, q: Piece) {
    p.field != q.field || p.shift + p.width <= q.shift || q.shift + q.width <= p.shift
  }

  predicate Inside(p: Piece, mode: nat)
    requires mode < 14
  {
    p.field < FIELDS && 1 <= p.width <= 10 && p.shift + p.width <= Width(mode, p.field)
  }

  /** How many bits the first k reads take. */
  function Start(layout: seq<Piece>, k: nat): nat
    requires k <= |layout|
  {
    if k == 0 then 0 else Start(layout, k - 1) + layout[k - 1].width
  }

  /** The reads bring in each bit of each field exactly once, and nothing else. */
  ghost predicate Good(layout: seq<Piece>, mode: nat)
    requires mode < 14
  {
    && (forall i | 0 <= i < |layout| :: Inside(layout[i], mode))
    && (forall i, j | 0 <= i < j < |layout| :: Apart(layout[i], layout[j]))
    && (forall field: nat, b: nat | b < Width(mode, field) :: CoveredIn(layout, field, b))
  }

  predicate CoveredIn(layout: seq<Piece>, field: nat, b: nat) {
    exists i | 0 <= i < |layout| :: Covers(layout[i], field, b)
  }

  // ---------------------------------------------------------------- the layouts are good

  /** How often the k-th read brings in the bit; no layout has more than 24. */
  function Cover(p: seq<Piece>, k: nat, field: nat, b: nat): nat {
    if k < |p| && Covers(p[k], field, b) then 1 else 0
  }

  function CoverFour(p: seq<Piece>, k: nat, field: nat, b: nat): nat {
    Cover(p, k, field, b) + Cover(p, k + 1, field, b) + Cover(p, k + 2, field, b) + Cover(p, k + 3, field, b)
  }

  function CoverSum(p: seq<Piece>, field: nat, b: nat): nat {
    CoverFour(p, 0, field, b) + CoverFour(p, 4, field, b) + CoverFour(p, 8, field, b)
    + CoverFour(p, 12, field, b) + CoverFour(p, 16, field, b) + CoverFour(p, 20, field, b)
  }

  function WidthAt(p: seq<Piece>, k: nat): nat {
    if k < |p| then p[k].width else 0
  }

  function WidthSum(p: seq<Piece>): nat {
    WidthAt(p, 0) + WidthAt(p, 1) + WidthAt(p, 2) + WidthAt(p, 3) + WidthAt(p, 4) + WidthAt(p, 5)
    + WidthAt(p, 6) + WidthAt(p, 7) + WidthAt(p, 8) + WidthAt(p, 9) + WidthAt(p, 10) + WidthAt(p, 11)
    + WidthAt(p, 12) + WidthAt(p, 13) + WidthAt(p, 14) + WidthAt(p, 15) + WidthAt(p, 16) + WidthAt(p, 17)
    + WidthAt(p, 18) + WidthAt(p, 19) + WidthAt(p, 20) + WidthAt(p, 21) + WidthAt(p, 22) + WidthAt(p, 23)
  }

  /** The bits of a header after the mode field. */
  function HeaderWidth(mode: nat): nat {
    if mode < 2 then 80 else if mode < 10 then 77 else 60
  }

  predicate WidthsGood(p: seq<Piece>, mode: nat) {
    && |p| <= 24 && WidthSum(p) == HeaderWidth(mode)
    && forall i | 0 <= i < |p| :: 1 <= p[i].width <= 10
  }

  lemma Widths0()
    ensures WidthsGood(Layout0(), 0)
  {
  }

  lemma Covered0(field: nat, b: nat)
    ensures CoverSum(Layout0(), field, b) == if b < Width(0, field) then 1 else 0
  {
  }

  lemma Widths1()
    ensures WidthsGood(Layout1(), 1)
  {
  }

  lemma Covered1(field: nat, b: nat)
    ensures CoverSum(Layout1(), field, b) == if b < Width(1, field) then 1 else 0
  {
  }

  lemma Widths2()
    ensures WidthsGood(Layout2(), 2)
  {
  }

  lemma Covered2(field: nat, b: nat)
    ensures CoverSum(Layout2(), field, b) == if b < Width(2, field) then 1 else 0
  {
  }

  lemma Widths3()
    ensures WidthsGood(Layout3(), 3)
  {
  }

  lemma Covered3(field: nat, b: nat)
    ensures CoverSum(Layout3(), field, b) == if b < Width(3, field) then 1 else 0
  {
  }

  lemma Widths4()
    ensures WidthsGood(Layout4(), 4)
  {
  }

  lemma Covered4(field: nat, b: nat)
    ensures CoverSum(Layout4(), field, b) == if b < Width(4, field) then 1 else 0
  {
  }

  lemma Widths5()
    ensures WidthsGood(Layout5(), 5)
  {
  }

  lemma Covered5(field: nat, b: nat)
    ensures CoverSum(Layout5(), field, b) == if b < Width(5, field) then 1 else 0
  {
  }

  lemma Widths6()
    ensures WidthsGood(Layout6(), 6)
  {
  }

  lemma Covered6(field: nat, b: nat)
    ensures CoverSum(Layout6(), field, b) == if b < Width(6, field) then 1 else 0
  {
  }

  lemma Widths7()
    ensures WidthsGood(Layout7(), 7)
  {
  }

  lemma Covered7(field: nat, b: nat)
    ensures CoverSum(Layout7(), field, b) == if b < Width(7, field) then 1 else 0
  {
  }

  lemma Widths8()
    ensures WidthsGood(Layout8(), 8)
  {
  }

  lemma Covered8(field: nat, b: nat)
    ensures CoverSum(Layout8(), field, b) == if b < Width(8, field) then 1 else 0
  {
  }

  lemma Widths9()
    ensures WidthsGood(Layout9(), 9)
  {
  }

  lemma Covered9(field: nat, b: nat)
    ensures CoverSum(Layout9(), field, b) == if b < Width(9, field) then 1 else 0
  {
  }

  lemma Widths10()
    ensures WidthsGood(Layout10(), 10)
  {
  }

  lemma Covered10(field: nat, b: nat)
    ensures CoverSum(Layout10(), field, b) == if b < Width(10, field) then 1 else 0
  {
  }

  lemma Widths11()
    ensures WidthsGood(Layout11(), 11)
  {
  }

  lemma Covered11(field: nat, b: nat)
    ensures CoverSum(Layout11(), field, b) == if b < Width(11, field) then 1 else 0
  {
  }

  lemma Widths12()
    ensures WidthsGood(Layout12(), 12)
  {
  }

  lemma Covered12(field: nat, b: nat)
    ensures CoverSum(Layout12(), field, b) == if b < Width(12, field) then 1 else 0
  {
  }

  lemma Widths13()
    ensures WidthsGood(Layout13(), 13)
  {
  }

  lemma Covered13(field: nat, b: nat)
    ensures CoverSum(Layout13(), field, b) == if b < Width(13, field) then 1 else 0
  {
  }

  lemma LayoutWidths(mode: nat)
    requires mode < 14
    ensures WidthsGood(Layout(mode), mode)
  {
    match mode
    case 0 => Widths0();
    case 1 => Widths1();
    case 2 => Widths2();
    case 3 => Widths3();
    case 4 => Widths4();
    case 5 => Widths5();
    case 6 => Widths6();
    case 7 => Widths7();
    case 8 => Widths8();
    case 9 => Widths9();
    case 10 => Widths10();
    case 11 => Widths11();
    case 12 => Widths12();
    case _ => Widths13();
  }

  /** The reads of a mode bring in each bit of each field once, and no other bit. */
  lemma LayoutCovers(mode: nat, field: nat, b: nat)
    requires mode < 14
    ensures CoverSum(Layout(mode), field, b) == if b < Width(mode, field) then 1 else 0
  {
    match mode
    case 0 => Covered0(field, b);
    case 1 => Covered1(field, b);
    case 2 => Covered2(field, b);
    case 3 => Covered3(field, b);
    case 4 => Covered4(field, b);
    case 5 => Covered5(field, b);
    case 6 => Covered6(field, b);
    case 7 => Covered7(field, b);
    case 8 => Covered8(field, b);
    case 9 => Covered9(field, b);
    case 10 => Covered10(field, b);
    case 11 => Covered11(field, b);
    case 12 => Covered12(field, b);
    case _ => Covered13(field, b);
  }

  lemma OneCovers(p: seq<Piece>, field: nat, b: nat)
    requires CoverSum(p, field, b) > 0
    ensures CoveredIn(p, field, b)
  {
  }

  lemma {:induction false} StartAt(p: seq<Piece>, k: nat)
    requires k <= |p| <= 24
    ensures Start(p, k) == WidthSum(p[..k])
  {
    if k > 0 {
      StartAt(p, k - 1);
    }
  }

  function Count(p: seq<Piece>, k: nat, field: nat, b: nat): nat {
    if k == 0 then 0 else Count(p, k - 1, field, b) + Cover(p, k - 1, field, b)
  }

  lemma CountFour(p: seq<Piece>, k: nat, field: nat, b: nat)
    ensures Count(p, k + 4, field, b) == Count(p, k, field, b) + CoverFour(p, k, field, b)
  {
    assert Count(p, k + 2, field, b) == Count(p, k + 1, field, b) + Cover(p, k + 1, field, b);
  }

  lemma CountIs(p: seq<Piece>, field: nat, b: nat)
    ensures Count(p, 24, field, b) == CoverSum(p, field, b)
  {
    CountFour(p, 0, field, b);
    CountFour(p, 4, field, b);
    CountFour(p, 8, field, b);
    CountFour(p, 12, field, b);
    CountFour(p, 16, field, b);
    CountFour(p, 20, field, b);
  }

  lemma {:induction false} CountAtLeast(p: seq<Piece>, k: nat, n: nat, field: nat, b: nat)
    requires k < n
    ensures Count(p, k, field, b) + Cover(p, k, field, b) <= Count(p, n, field, b)
  {
    if k + 1 < n {
      CountAtLeast(p, k, n - 1, field, b);
    }
  }

  /** A bit brought in by two reads is counted twice. */
  lemma ApartIf(p: seq<Piece>, i: nat, j: nat)
    requires i < j < |p| <= 24 && p[i].width > 0 && p[j].width > 0
    requires forall field: nat, b: nat :: CoverSum(p, field, b) <= 1
    ensures Apart(p[i], p[j])
  {
    if !Apart(p[i], p[j]) {
      var b := if p[i].shift <= p[j].shift then p[j].shift else p[i].shift;
      CountIs(p, p[i].field, b);
      CountAtLeast(p, i, j, p[i].field, b);
      CountAtLeast(p, j, 24, p[i].field, b);
    }
  }

  lemma InsideIf(p: seq<Piece>, mode: nat, i: nat)
    requires mode < 14 && i < |p| <= 24 && 1 <= p[i].width <= 10
    requires forall field: nat, b: nat | b >= Width(mode, field) :: CoverSum(p, field, b) == 0
    ensures Inside(p[i], mode)
  {
    var b := p[i].shift + p[i].width - 1;
    CountIs(p, p[i].field, b);
    CountAtLeast(p, i, 24, p[i].field, b);
  }

  lemma LayoutGood(mode: nat)
    requires mode < 14
    ensures Good(Layout(mode), mode)
  {
    LayoutWidths(mode);
    var p := Layout(mode);
    forall field: nat, b: nat ensures CoverSum(p, field, b) == if b < Width(mode, field) then 1 else 0 {
      LayoutCovers(mode, field, b);
    }
    CoversGood(p, mode);
  }

  lemma CoversGood(p: seq<Piece>, mode: nat)
    requires mode < 14 && WidthsGood(p, mode)
    requires forall field: nat, b: nat :: CoverSum(p, field, b) == if b < Width(mode, field) then 1 else 0
    ensures Good(p, mode)
  {
    forall i | 0 <= i < |p| ensures Inside(p[i], mode) {
      InsideIf(p, mode, i);
    }
    forall i, j | 0 <= i < j < |p| ensures Apart(p[i], p[j]) {
      ApartIf(p, i, j);
    }
    forall field: nat, b: nat | b < Width(mode, field) ensures CoveredIn(p, field, b) {
      OneCovers(p, field, b);
    }
  }

  /** Mode field and header together have 82 bits, or 65 with one subset. */
  lemma HeaderSize(mode: nat)
    requires mode < 14
    ensures Start(Layout(mode), |Layout(mode)|) == HeaderWidth(mode)
  {
    LayoutWidths(mode);
    WholeStart(Layout(mode));
  }

  lemma WholeStart(p: seq<Piece>)
    requires |p| <= 24
    ensures Start(p, |p|) == WidthSum(p)
  {
    StartAt(p, |p|);
    assert p[..|p|] == p;
  }
}
