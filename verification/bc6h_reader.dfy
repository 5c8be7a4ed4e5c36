/** The BC6H header reader: mode, then the fields, or-ed together read by read. */
module Bc6hReader {
  import opened Bits
  import opened BitStreams
  import opened Bc6hLayouts
  import opened Bc6hHeader

  // ---------------------------------------------------------------- the mode

  const RESERVED := 14

  function ModeOf(code: nat): (mode: nat)
    ensures mode <= RESERVED
  {
    match code
    case 0 => 0
    case 1 => 1
    case 2 => 2
    case 6 => 3
    case 10 => 4
    case 14 => 5
    case 18 => 6
    case 22 => 7
    case 26 => 8
    case 30 => 9
    case 3 => 10
    case 7 => 11
    case 11 => 12
    case 15 => 13
    case _ => RESERVED
  }

  /** The mode code is two bits, or five where those two are 10 or 11. */
  ghost function ModeBits(block: seq<bool>): nat {
    if ValueOf(Taken(block, 0, 2)) > 1 then 5 else 2
  }

  ghost function ModeCode(block: seq<bool>): nat {
    ValueOf(Taken(block, 0, ModeBits(block)))
  }

  lemma {:induction false} ValueOfAppended(s: seq<bool>, t: seq<bool>)
    ensures ValueOf(s + t) == ValueOf(s) + ShiftLeft(ValueOf(t), |s|)
  {
    if s == [] {
      assert s + t == t;
    } else {
      assert (s + t)[1..] == s[1..] + t;
      ValueOfAppended(s[1..], t);
    }
  }

  lemma OrAboveTwoBits(x: nat, y: nat)
    requires x < 4
    ensures BitOr(x, ShiftLeft(y, 2)) == x + ShiftLeft(y, 2)
  {
    assert ShiftLeft(y, 2) == 2 * ShiftLeft(y, 1) == 4 * ShiftLeft(y, 0) == 4 * y;
    if x > 0 && y > 0 {
      var x', y' := x / 2, 2 * y;
      assert BitOr(x, 4 * y) == x % 2 + 2 * BitOr(x', y');
      if x' > 0 {
        assert BitOr(1, y') == 1 + 2 * BitOr(0, y);
      }
    }
  }

  method ReadMode(stream: BitStream) returns (mode: nat)
    requires stream.Valid() && stream.consumed == 0
    modifies stream
    ensures stream.Valid() && stream.consumed == ModeBits(stream.block)
    ensures mode == ModeCode(stream.block)
  {
    ghost var block := stream.block;
    mode := stream.ReadBits(2);
    ValueOfSmall(Taken(block, 0, 2));
    assert Pow2(2) == 2 * Pow2(1) == 4 * Pow2(0) == 4;
    if mode > 1 {
      var rest := stream.ReadBits(3);
      assert Taken(block, 0, 5) == Taken(block, 0, 2) + Taken(block, 2, 3);
      ValueOfAppended(Taken(block, 0, 2), Taken(block, 2, 3));
      OrAboveTwoBits(mode, rest);
      mode := BitOr(mode, ShiftLeft(rest, 2));
    }
  }

  // ---------------------------------------------------------------- the fields

  /** The fields hold what the first k reads brought in. */
  ghost predicate SoFar(v: seq<int>, layout: seq<Piece>, k: nat, s: seq<bool>, c: nat) {
    && |v| == FIELDS && k <= |layout|
    && (forall field | 0 <= field < FIELDS :: v[field] >= 0)
    && forall field: nat, b: nat | field < FIELDS :: Bit(v[field], b) == FieldBit(layout, k, s, c, field, b)
  }

  ghost function PieceValue(p: Piece, s: seq<bool>, at: nat): nat {
    ValueOf(if p.reversed then Reversed(Taken(s, at, p.width)) else Taken(s, at, p.width))
  }

  lemma PieceBit(p: Piece, s: seq<bool>, at: nat, b: nat)
    ensures Bit(ShiftLeft(PieceValue(p, s, at), p.shift), b)
         == (p.shift <= b < p.shift + p.width && BitAt(s, at + Offset(p, b)))
  {
    ShiftLeftBit(PieceValue(p, s, at), p.shift, b);
    if b >= p.shift {
      var taken := Taken(s, at, p.width);
      ValueOfBit(if p.reversed then Reversed(taken) else taken, b - p.shift);
      if p.reversed && b - p.shift < p.width {
        ReversedAt(taken, b - p.shift);
      }
    }
  }

  lemma OneRead(v: seq<int>, layout: seq<Piece>, k: nat, s: seq<bool>, c: nat)
    requires k < |layout| && SoFar(v, layout, k, s, c) && layout[k].field < FIELDS
    ensures var p := layout[k];
            SoFar(v[p.field := BitOr(v[p.field], ShiftLeft(PieceValue(p, s, c + Start(layout, k)), p.shift))],
                  layout, k + 1, s, c)
  {
    var p := layout[k];
    var x := ShiftLeft(PieceValue(p, s, c + Start(layout, k)), p.shift);
    var w := v[p.field := BitOr(v[p.field], x)];
    forall field: nat, b: nat | field < FIELDS
      ensures Bit(w[field], b) == FieldBit(layout, k + 1, s, c, field, b)
    {
      assert Bit(v[field], b) == FieldBit(layout, k, s, c, field, b);
      BitOrBit(v[p.field], x, b);
      PieceBit(p, s, c + Start(layout, k), b);
    }
  }

  lemma AllRead(v: seq<int>, layout: seq<Piece>, mode: nat, s: seq<bool>, c: nat)
    requires mode < 14 && Good(layout, mode) && SoFar(v, layout, |layout|, s, c)
    ensures v == Unpack(layout, s, c)
  {
    var u := Unpack(layout, s, c);
    forall field: nat | field < FIELDS ensures v[field] == u[field] {
      forall b: nat ensures Bit(v[field], b) == Bit(u[field], b) {
        UnpackedBit(layout, mode, s, c, field, b);
      }
      SameBits(v[field], u[field]);
    }
  }

  lemma NothingRead(v: seq<int>, layout: seq<Piece>, s: seq<bool>, c: nat)
    requires |v| == FIELDS && forall field | 0 <= field < FIELDS :: v[field] == 0
    ensures SoFar(v, layout, 0, s, c)
  {
    forall field: nat, b: nat | field < FIELDS ensures Bit(v[field], b) == FieldBit(layout, 0, s, c, field, b) {
      ZeroBit(b);
    }
  }

  method ReadPiece(stream: BitStream, p: Piece) returns (x: nat)
    requires stream.Valid() && 1 <= p.width <= 10
    modifies stream
    ensures stream.Valid() && stream.consumed == old(stream.consumed) + p.width
    ensures x == PieceValue(p, stream.block, old(stream.consumed))
  {
    if p.reversed {
      x := stream.ReadBitsReversed(p.width);
    } else if p.width == 1 {
      x := stream.ReadBit();
    } else {
      x := stream.ReadBits(p.width);
    }
  }

  method ReadPieceInto(stream: BitStream, p: Piece, fields: array<int>)
    requires stream.Valid() && 1 <= p.width <= 10
    requires p.field < fields.Length && fields[p.field] >= 0
    modifies stream, fields
    ensures stream.Valid() && stream.consumed == old(stream.consumed) + p.width
    ensures fields[..] == old(fields[..][p.field :=
              BitOr(fields[p.field], ShiftLeft(PieceValue(p, stream.block, stream.consumed), p.shift))])
  {
    var x := ReadPiece(stream, p);
    fields[p.field] := BitOr(fields[p.field], ShiftLeft(x, p.shift));
  }

  method ReadPieces(stream: BitStream, layout: seq<Piece>, fields: array<int>)
    requires forall i | 0 <= i < |layout| :: 1 <= layout[i].width <= 10 && layout[i].field < FIELDS
    requires stream.Valid()
    requires fields.Length == FIELDS && forall field | 0 <= field < FIELDS :: fields[field] == 0
    modifies stream, fields
    ensures stream.Valid() && stream.consumed == old(stream.consumed) + Start(layout, |layout|)
    ensures SoFar(fields[..], layout, |layout|, stream.block, old(stream.consumed))
  {
    ghost var c := stream.consumed;
    NothingRead(fields[..], layout, stream.block, c);
    var k := 0;
    while k < |layout|
      invariant k <= |layout| && stream.Valid() && stream.consumed == c + Start(layout, k)
      invariant SoFar(fields[..], layout, k, stream.block, c)
    {
      OneRead(fields[..], layout, k, stream.block, c);
      ReadPieceInto(stream, layout[k], fields);
      k := k + 1;
    }
  }

  /** Reads the fields of the mode, all zero before. */
  method ReadFields(stream: BitStream, mode: nat, fields: array<int>)
    requires mode < 14 && stream.Valid()
    requires fields.Length == FIELDS && forall field | 0 <= field < FIELDS :: fields[field] == 0
    modifies stream, fields
    ensures stream.Valid()
    ensures stream.consumed == old(stream.consumed) + Start(Layout(mode), |Layout(mode)|)
    ensures fields[..] == Unpack(Layout(mode), stream.block, old(stream.consumed))
  {
    LayoutGood(mode);
    var layout := Layout(mode);
    forall i | 0 <= i < |layout| ensures 1 <= layout[i].width <= 10 && layout[i].field < FIELDS {
      assert Inside(layout[i], mode);
    }
    ghost var c := stream.consumed;
    ReadPieces(stream, layout, fields);
    AllRead(fields[..], layout, mode, stream.block, c);
  }

  // ---------------------------------------------------------------- what an encoder may rely on

  function CodeOf(mode: nat): nat
    requires mode < 14
  {
    if mode < 2 then mode else if mode < 10 then 4 * (mode - 2) + 2 else 4 * (mode - 10) + 3
  }

  lemma CodesNamed(code: nat)
    requires code < 2 || (code < 32 && code % 4 >= 2)
    ensures ModeOf(code) == RESERVED <==> code in [19, 23, 27, 31]
    ensures ModeOf(code) < RESERVED ==> code == CodeOf(ModeOf(code))
    ensures ModeOf(code) < 2 <==> code < 2
  {
  }

  lemma ModesCoded(mode: nat)
    requires mode < 14
    ensures ModeOf(CodeOf(mode)) == mode
  {
  }

  lemma CodeShape(block: seq<bool>)
    ensures if ModeBits(block) == 2 then ModeCode(block) < 2 else ModeCode(block) < 32 && ModeCode(block) % 4 >= 2
  {
    var first, rest, both := Taken(block, 0, 2), Taken(block, 2, 3), Taken(block, 0, 5);
    ValueOfSmall(first);
    ValueOfSmall(both);
    assert Pow2(2) == 2 * Pow2(1) == 4 * Pow2(0) == 4;
    assert Pow2(5) == 2 * Pow2(4) == 4 * Pow2(3) == 8 * Pow2(2);
    assert both == first + rest;
    ValueOfAppended(first, rest);
    assert ShiftLeft(ValueOf(rest), 2) == 2 * ShiftLeft(ValueOf(rest), 1) == 4 * ShiftLeft(ValueOf(rest), 0);
  }

  /** Exactly the codes 19, 23, 27 and 31 are reserved; every other block names one mode. */
  lemma ModesNamed(block: seq<bool>)
    ensures ModeOf(ModeCode(block)) == RESERVED <==> ModeCode(block) in [19, 23, 27, 31]
    ensures ModeOf(ModeCode(block)) < RESERVED ==> ModeCode(block) == CodeOf(ModeOf(ModeCode(block)))
    ensures ModeBits(block) == if ModeOf(ModeCode(block)) < 2 then 2 else 5
  {
    CodeShape(block);
    CodesNamed(ModeCode(block));
  }

  /** The lowest n bits of x. */
  function BitsOf(x: nat, n: nat): (s: seq<bool>)
    ensures |s| == n
  {
    seq(n, i requires 0 <= i < n => Bit(x, i))
  }

  lemma BitsBack(x: nat, n: nat)
    requires x < Pow2(n)
    ensures ValueOf(BitsOf(x, n)) == x
  {
    forall i: nat ensures Bit(ValueOf(BitsOf(x, n)), i) == Bit(x, i) {
      ValueOfBit(BitsOf(x, n), i);
      if i >= n {
        HighBitsOff(x, n, i);
      }
    }
    SameBits(ValueOf(BitsOf(x, n)), x);
  }

  lemma BitsOfValue(s: seq<bool>)
    ensures BitsOf(ValueOf(s), |s|) == s
  {
    forall i | 0 <= i < |s| ensures BitsOf(ValueOf(s), |s|)[i] == s[i] {
      ValueOfBit(s, i);
    }
  }

  function CodeWidth(mode: nat): nat {
    if mode < 2 then 2 else 5
  }

  lemma CodesFit(mode: nat)
    requires mode < 14
    ensures CodeOf(mode) < Pow2(CodeWidth(mode))
    ensures if mode < 2 then CodeOf(mode) < 2 else CodeOf(mode) % 4 >= 2
  {
    assert Pow2(2) == 2 * Pow2(1) == 4 * Pow2(0) == 4;
    assert Pow2(5) == 2 * Pow2(4) == 4 * Pow2(3) == 8 * Pow2(2);
  }

  lemma LowTwoBits(x: nat, s: seq<bool>)
    requires |s| == 2 && s[0] == Bit(x, 0) && s[1] == Bit(x, 1)
    ensures ValueOf(s) == x % 4
  {
    assert s[1..][0] == s[1] && s[1..][1..] == [];
    assert Bit(x, 1) == Bit(x / 2, 0);
    assert ValueOf(s[1..]) == if s[1] then 1 else 0;
  }

  /** A header: the code of the mode, then the fields. */
  function EncodeHeader(mode: nat, f: seq<nat>): seq<bool>
    requires mode < 14 && |f| == FIELDS
  {
    BitsOf(CodeOf(mode), CodeWidth(mode)) + Pack(Layout(mode), |Layout(mode)|, f)
  }

  /** The code in front of a block names the mode. */
  lemma CodeRead(mode: nat, block: seq<bool>)
    requires mode < 14 && BitsOf(CodeOf(mode), CodeWidth(mode)) <= block
    ensures ModeBits(block) == CodeWidth(mode) && ModeCode(block) == CodeOf(mode) && ModeOf(ModeCode(block)) == mode
  {
    CodesFit(mode);
    ModesCoded(mode);
    var code := BitsOf(CodeOf(mode), CodeWidth(mode));
    BitsBack(CodeOf(mode), CodeWidth(mode));
    forall i | 0 <= i < CodeWidth(mode) ensures Taken(block, 0, CodeWidth(mode))[i] == code[i] {
      assert block[i] == code[i];
    }
    assert Taken(block, 0, CodeWidth(mode)) == code;
    LowTwoBits(CodeOf(mode), Taken(block, 0, 2));
  }

  /** A header's fields are read back from any block it begins. */
  lemma HeaderRoundTrip(mode: nat, f: seq<nat>, block: seq<bool>)
    requires mode < 14 && |f| == FIELDS && EncodeHeader(mode, f) <= block
    requires forall field | 0 <= field < FIELDS :: f[field] < Pow2(Width(mode, field))
    ensures ModeOf(ModeCode(block)) == mode
    ensures Unpack(Layout(mode), block, ModeBits(block)) == f
  {
    HeaderHeld(Layout(mode), mode, f, block);
    LayoutGood(mode);
    UnpackPacked(Layout(mode), mode, f, block, ModeBits(block));
  }

  lemma HeaderHeld(layout: seq<Piece>, mode: nat, f: seq<nat>, block: seq<bool>)
    requires mode < 14 && |f| == FIELDS
    requires BitsOf(CodeOf(mode), CodeWidth(mode)) + Pack(layout, |layout|, f) <= block
    ensures ModeOf(ModeCode(block)) == mode && ModeBits(block) == CodeWidth(mode)
    ensures Holds(layout, f, block, ModeBits(block))
  {
    var code, packed := BitsOf(CodeOf(mode), CodeWidth(mode)), Pack(layout, |layout|, f);
    PrefixParts(code, packed, block);
    CodeRead(mode, block);
  }

  lemma PrefixParts(s: seq<bool>, t: seq<bool>, block: seq<bool>)
    requires s + t <= block
    ensures s <= block && |s| + |t| <= |block| && forall i | 0 <= i < |t| :: block[|s| + i] == t[i]
  {
    assert s <= s + t;
    forall i | 0 <= i < |t| ensures block[|s| + i] == t[i] {
      assert (s + t)[|s| + i] == t[i];
    }
  }

  /** Encoding what was read from a block gives the block's header back. */
  lemma HeaderRead(block: seq<bool>)
    requires |block| == 128 && ModeOf(ModeCode(block)) < RESERVED
    ensures var mode := ModeOf(ModeCode(block));
            EncodeHeader(mode, Unpack(Layout(mode), block, ModeBits(block))) <= block
  {
    var mode := ModeOf(ModeCode(block));
    ModesNamed(block);
    LayoutGood(mode);
    HeaderSize(mode);
    PackUnpacked(Layout(mode), mode, block, ModeBits(block));
    HeaderGiven(Layout(mode), mode, Unpack(Layout(mode), block, ModeBits(block)), block);
  }

  lemma HeaderGiven(layout: seq<Piece>, mode: nat, f: seq<nat>, block: seq<bool>)
    requires mode < 14 && |f| == FIELDS && ModeBits(block) == CodeWidth(mode) && ModeCode(block) == CodeOf(mode)
    requires Holds(layout, f, block, ModeBits(block))
    ensures BitsOf(CodeOf(mode), CodeWidth(mode)) + Pack(layout, |layout|, f) <= block
  {
    var code := Taken(block, 0, ModeBits(block));
    BitsOfValue(code);
    var header := code + Pack(layout, |layout|, f);
    forall i | 0 <= i < |header| ensures header[i] == block[i] {
      if i >= |code| {
        assert block[ModeBits(block) + (i - |code|)] == Pack(layout, |layout|, f)[i - |code|];
      }
    }
    assert header == block[..|header|];
  }
}
