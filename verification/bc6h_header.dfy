/** Reading a BC6H header into its fields, and packing fields into a header. */
module Bc6hHeader {
  import opened Bits
  import opened Bc6hLayouts

  // ---------------------------------------------------------------- what the reads bring in

  /** Where, in its read, the bit for field bit b is. */
  function Offset(p: Piece, b: nat): (i: nat)
    requires p.shift <= b < p.shift + p.width
    ensures i < p.width
  {
    if p.reversed then p.shift + p.width - 1 - b else b - p.shift
  }

  /** Bit b of the field after the first k reads, the header starting at bit c of s. */
  ghost function FieldBit(layout: seq<Piece>, k: nat, s: seq<bool>, c: nat, field: nat, b: nat): bool
    requires k <= |layout|
  {
    k > 0 && (|| FieldBit(layout, k - 1, s, c, field, b)
              || (&& Covers(layout[k - 1], field, b)
                  && BitAt(s, c + Start(layout, k - 1) + Offset(layout[k - 1], b))))
  }

  function BitAt(s: seq<bool>, i: nat): bool {
    i < |s| && s[i]
  }

  lemma {:induction false} FieldBitFrom(layout: seq<Piece>, k: nat, s: seq<bool>, c: nat, field: nat, b: nat)
    requires k <= |layout|
    ensures FieldBit(layout, k, s, c, field, b)
            <==> exists i | 0 <= i < k :: Covers(layout[i], field, b)
                                          && BitAt(s, c + Start(layout, i) + Offset(layout[i], b))
  {
    if k > 0 {
      FieldBitFrom(layout, k - 1, s, c, field, b);
    }
  }

  /** The fields of the header that starts at bit c. */
  ghost function Unpack(layout: seq<Piece>, s: seq<bool>, c: nat): (f: seq<nat>)
    ensures |f| == FIELDS
  {
    seq(FIELDS, field requires 0 <= field < FIELDS => FieldOf(layout, s, c, field))
  }

  ghost function FieldOf(layout: seq<Piece>, s: seq<bool>, c: nat, field: nat): nat {
    ValueOf(seq(16, b requires 0 <= b < 16 => FieldBit(layout, |layout|, s, c, field, b)))
  }

  lemma UnpackedBit(layout: seq<Piece>, mode: nat, s: seq<bool>, c: nat, field: nat, b: nat)
    requires mode < 14 && Good(layout, mode) && field < FIELDS
    ensures Bit(Unpack(layout, s, c)[field], b) == FieldBit(layout, |layout|, s, c, field, b)
  {
    var bits := seq(16, b requires 0 <= b < 16 => FieldBit(layout, |layout|, s, c, field, b));
    assert Unpack(layout, s, c)[field] == FieldOf(layout, s, c, field) == ValueOf(bits);
    ValueOfBit(bits, b);
    FieldBitFrom(layout, |layout|, s, c, field, b);
  }

  /** A field has no bits above its width. */
  lemma UnpackedSmall(layout: seq<Piece>, mode: nat, s: seq<bool>, c: nat, field: nat)
    requires mode < 14 && Good(layout, mode) && field < FIELDS
    ensures Unpack(layout, s, c)[field] < Pow2(Width(mode, field))
  {
    var x := Unpack(layout, s, c)[field];
    forall b: nat | b >= Width(mode, field) ensures !Bit(x, b) {
      UnpackedBit(layout, mode, s, c, field, b);
      FieldBitFrom(layout, |layout|, s, c, field, b);
    }
    Small(x, Width(mode, field));
  }

  // ---------------------------------------------------------------- packing

  /** The field bit that bit i of the read holds; the inverse of Offset. */
  function Target(p: Piece, i: nat): (b: nat)
    requires i < p.width
    ensures p.shift <= b < p.shift + p.width && Offset(p, b) == i
  {
    p.shift + if p.reversed then p.width - 1 - i else i
  }

  function PieceBits(p: Piece, f: seq<nat>): (s: seq<bool>)
    requires |f| == FIELDS
    ensures |s| == p.width
  {
    seq(p.width, i requires 0 <= i < p.width => p.field < FIELDS && Bit(f[p.field], Target(p, i)))
  }

  /** The header bits of the first k reads. */
  function Pack(layout: seq<Piece>, k: nat, f: seq<nat>): (s: seq<bool>)
    requires k <= |layout| && |f| == FIELDS
    ensures |s| == Start(layout, k)
  {
    if k == 0 then [] else Pack(layout, k - 1, f) + PieceBits(layout[k - 1], f)
  }

  lemma {:induction false} StartsGrow(layout: seq<Piece>, k: nat, n: nat)
    requires k <= n <= |layout|
    ensures Start(layout, k) <= Start(layout, n)
  {
    if k < n {
      StartsGrow(layout, k, n - 1);
    }
  }

  lemma {:induction false} PackedAt(layout: seq<Piece>, n: nat, f: seq<nat>, k: nat, at: nat)
    requires k < n <= |layout| && |f| == FIELDS
    requires Start(layout, k) <= at < Start(layout, k) + layout[k].width
    ensures at < Start(layout, n)
    ensures Pack(layout, n, f)[at] == PieceBits(layout[k], f)[at - Start(layout, k)]
  {
    var before, piece := Pack(layout, n - 1, f), PieceBits(layout[n - 1], f);
    assert Pack(layout, n, f) == before + piece;
    if k < n - 1 {
      PackedAt(layout, n - 1, f, k, at);
      assert (before + piece)[at] == before[at];
    } else {
      assert (before + piece)[at] == piece[at - |before|];
    }
  }

  /** Every header bit belongs to a read. */
  lemma {:induction false} ReadOf(layout: seq<Piece>, n: nat, at: nat) returns (k: nat)
    requires n <= |layout| && at < Start(layout, n)
    ensures k < n && Start(layout, k) <= at < Start(layout, k) + layout[k].width
  {
    if at < Start(layout, n - 1) {
      k := ReadOf(layout, n - 1, at);
    } else {
      k := n - 1;
    }
  }

  /** s has the packed fields from bit c on. */
  ghost predicate Holds(layout: seq<Piece>, f: seq<nat>, s: seq<bool>, c: nat)
    requires |f| == FIELDS
  {
    && c + Start(layout, |layout|) <= |s|
    && forall at | 0 <= at < Start(layout, |layout|) :: s[c + at] == Pack(layout, |layout|, f)[at]
  }

  lemma PackedBit(layout: seq<Piece>, mode: nat, f: seq<nat>, s: seq<bool>, c: nat, field: nat, b: nat)
    requires mode < 14 && |f| == FIELDS && field < FIELDS && f[field] < Pow2(Width(mode, field))
    requires Good(layout, mode) && Holds(layout, f, s, c)
    ensures FieldBit(layout, |layout|, s, c, field, b) == Bit(f[field], b)
  {
    FieldBitFrom(layout, |layout|, s, c, field, b);
    forall i | 0 <= i < |layout| && Covers(layout[i], field, b)
      ensures BitAt(s, c + Start(layout, i) + Offset(layout[i], b)) == Bit(f[field], b)
    {
      HeldBit(layout, f, s, c, i, b);
    }
    if b < Width(mode, field) {
      assert CoveredIn(layout, field, b);
    } else {
      HighBitsOff(f[field], Width(mode, field), b);
    }
  }

  lemma HeldBit(layout: seq<Piece>, f: seq<nat>, s: seq<bool>, c: nat, i: nat, b: nat)
    requires |f| == FIELDS && Holds(layout, f, s, c)
    requires i < |layout| && layout[i].field < FIELDS && Covers(layout[i], layout[i].field, b)
    ensures BitAt(s, c + Start(layout, i) + Offset(layout[i], b)) == Bit(f[layout[i].field], b)
  {
    var at := Start(layout, i) + Offset(layout[i], b);
    PackedAt(layout, |layout|, f, i, at);
    assert s[c + at] == Pack(layout, |layout|, f)[at];
    assert Target(layout[i], Offset(layout[i], b)) == b;
  }

  /** Unpacking what was packed gives the fields back: no field bit is missing or disturbed. */
  lemma UnpackPacked(layout: seq<Piece>, mode: nat, f: seq<nat>, s: seq<bool>, c: nat)
    requires mode < 14 && |f| == FIELDS && Good(layout, mode)
    requires forall field | 0 <= field < FIELDS :: f[field] < Pow2(Width(mode, field))
    requires Holds(layout, f, s, c)
    ensures Unpack(layout, s, c) == f
  {
    var u := Unpack(layout, s, c);
    forall field | 0 <= field < FIELDS ensures u[field] == f[field] {
      forall b: nat ensures Bit(u[field], b) == Bit(f[field], b) {
        UnpackedBit(layout, mode, s, c, field, b);
        PackedBit(layout, mode, f, s, c, field, b);
      }
      SameBits(u[field], f[field]);
    }
  }

  /** Packing what was unpacked gives the header back: every header bit has a field bit of its own. */
  lemma PackUnpacked(layout: seq<Piece>, mode: nat, s: seq<bool>, c: nat)
    requires mode < 14 && Good(layout, mode)
    requires c + Start(layout, |layout|) <= |s|
    ensures Holds(layout, Unpack(layout, s, c), s, c)
  {
    forall at | 0 <= at < Start(layout, |layout|)
      ensures s[c + at] == Pack(layout, |layout|, Unpack(layout, s, c))[at]
    {
      UnpackedAt(layout, mode, s, c, at);
    }
  }

  lemma UnpackedAt(layout: seq<Piece>, mode: nat, s: seq<bool>, c: nat, at: nat)
    requires mode < 14 && Good(layout, mode) && at < Start(layout, |layout|)
    requires c + Start(layout, |layout|) <= |s|
    ensures s[c + at] == Pack(layout, |layout|, Unpack(layout, s, c))[at]
  {
    var k := ReadOf(layout, |layout|, at);
    UnpackedBack(layout, mode, s, c, k, at);
  }

  lemma UnpackedBack(layout: seq<Piece>, mode: nat, s: seq<bool>, c: nat, k: nat, at: nat)
    requires mode < 14 && Good(layout, mode) && k < |layout|
    requires Start(layout, k) <= at < Start(layout, k) + layout[k].width
    requires at < Start(layout, |layout|) && c + Start(layout, |layout|) <= |s|
    ensures Pack(layout, |layout|, Unpack(layout, s, c))[at] == s[c + at]
  {
    UnpackedPieceBit(layout, mode, s, c, k, at - Start(layout, k), at);
    SameAsPacked(layout, Unpack(layout, s, c), s, c, k, at);
  }

  lemma SameAsPacked(layout: seq<Piece>, f: seq<nat>, s: seq<bool>, c: nat, k: nat, at: nat)
    requires |f| == FIELDS && k < |layout|
    requires Start(layout, k) <= at < Start(layout, k) + layout[k].width
    requires c + at < |s| && PieceBits(layout[k], f)[at - Start(layout, k)] == BitAt(s, c + at)
    ensures at < Start(layout, |layout|) && Pack(layout, |layout|, f)[at] == s[c + at]
  {
    PackedAt(layout, |layout|, f, k, at);
  }

  lemma UnpackedPieceBit(layout: seq<Piece>, mode: nat, s: seq<bool>, c: nat, k: nat, i: nat, at: nat)
    requires mode < 14 && Good(layout, mode) && k < |layout| && i < layout[k].width && at == Start(layout, k) + i
    ensures PieceBits(layout[k], Unpack(layout, s, c))[i] == BitAt(s, c + at)
  {
    var p := layout[k];
    assert Inside(p, mode);
    UnpackedBit(layout, mode, s, c, p.field, Target(p, i));
    OnlyRead(layout, mode, s, c, k, Target(p, i));
  }

  lemma DifferentReads(layout: seq<Piece>, mode: nat, j: nat, k: nat)
    requires mode < 14 && Good(layout, mode) && j < |layout| && k < |layout|
    ensures j != k ==> Apart(layout[j], layout[k])
  {
    assert j < k ==> Apart(layout[j], layout[k]);
    assert k < j ==> Apart(layout[k], layout[j]);
  }

  lemma OnlyRead(layout: seq<Piece>, mode: nat, s: seq<bool>, c: nat, k: nat, b: nat)
    requires mode < 14 && Good(layout, mode) && k < |layout| && Covers(layout[k], layout[k].field, b)
    ensures FieldBit(layout, |layout|, s, c, layout[k].field, b)
         == BitAt(s, c + Start(layout, k) + Offset(layout[k], b))
  {
    FieldBitFrom(layout, |layout|, s, c, layout[k].field, b);
    forall j: nat | j < |layout| && Covers(layout[j], layout[k].field, b) ensures j == k {
      DifferentReads(layout, mode, j, k);
    }
  }
}
