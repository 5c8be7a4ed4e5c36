/**
What the comments beside the reads of a BC6H header say they read, and that it is what they read: all
but six name the right field, and all name the right bits.
 */
module Bc6hComments {
  import opened Bc6hLayouts

  /** name[first:last]: the bits in the order in which the format lists them. */
  datatype Comment = Bits(name: string, first: nat, last: nat)

  function Bit(name: string, b: nat): Comment {
    Bits(name, b, b)
  }

  function Comments(mode: nat): seq<Comment>
    requires mode < 14
  {
    match mode
    case 0 => Comments0()
    case 1 => Comments1()
    case 2 => Comments2()
    case 3 => Comments3()
    case 4 => Comments4()
    case 5 => Comments5()
    case 6 => Comments6()
    case 7 => Comments7()
    case 8 => Comments8()
    case 9 => Comments9()
    case 10 => Comments10()
    case 11 => Comments11()
    case 12 => Comments12()
    case _ => Comments13()
  }

  function Comments0(): seq<Comment> {
    [
      Bit("gy", 4), Bit("by", 4), Bit("bz", 4), Bits("rw", 9, 0), Bits("gw", 9, 0), Bits("bw", 9, 0),
      Bits("rx", 4, 0), Bit("gz", 4), Bits("gy", 3, 0), Bits("gx", 4, 0), Bit("bz", 0), Bits("gz", 3, 0),
      Bits("bx", 4, 0), Bit("bz", 1), Bits("by", 3, 0), Bits("ry", 4, 0), Bit("bz", 2), Bits("rz", 4, 0),
      Bit("bz", 3), Bits("d", 4, 0)
    ]
  }

  function Comments1(): seq<Comment> {
    [
      Bit("gy", 5), Bit("gz", 4), Bit("gz", 5), Bits("rw", 6, 0), Bit("bz", 0), Bit("bz", 1), Bit("by", 4),
      Bits("gw", 6, 0), Bit("by", 5), Bit("bz", 2), Bit("gy", 4), Bits("bw", 6, 0), Bit("bz", 3), Bit("bz", 5),
      Bit("bz", 4), Bits("rx", 5, 0), Bits("gy", 3, 0), Bits("gx", 5, 0), Bits("gz", 3, 0), Bits("bx", 5, 0),
      Bits("by", 3, 0), Bits("ry", 5, 0), Bits("rz", 5, 0), Bits("d", 4, 0)
    ]
  }

  function Comments2(): seq<Comment> {
    [
      Bits("rw", 9, 0), Bits("gw", 9, 0), Bits("bw", 9, 0), Bits("rx", 4, 0), Bit("rw", 10), Bits("gy", 3, 0),
      Bits("gx", 3, 0), Bit("gw", 10), Bit("bz", 0), Bits("gz", 3, 0), Bits("bx", 3, 0), Bit("bw", 10), Bit("bz", 1),
      Bits("by", 3, 0), Bits("ry", 4, 0), Bit("bz", 2), Bits("rz", 4, 0), Bit("bz", 3), Bits("d", 4, 0)
    ]
  }

  function Comments3(): seq<Comment> {
    [
      Bits("rw", 9, 0), Bits("gw", 9, 0), Bits("bw", 9, 0), Bits("rx", 3, 0), Bit("rw", 10), Bit("gz", 4),
      Bits("gy", 3, 0), Bits("gx", 4, 0), Bit("gw", 10), Bits("gz", 3, 0), Bits("bx", 3, 0), Bit("bw", 10),
      Bit("bz", 1), Bits("by", 3, 0), Bits("ry", 3, 0), Bit("bz", 0), Bit("bz", 2), Bits("rz", 3, 0), Bit("gy", 4),
      Bit("bz", 3), Bits("d", 4, 0)
    ]
  }

  function Comments4(): seq<Comment> {
    [
      Bits("rw", 9, 0), Bits("gw", 9, 0), Bits("bw", 9, 0), Bits("rx", 3, 0), Bit("rw", 10), Bit("by", 4),
      Bits("gy", 3, 0), Bits("gx", 3, 0), Bit("gw", 10), Bit("bz", 0), Bits("gz", 3, 0), Bits("bx", 4, 0),
      Bit("bw", 10), Bits("by", 3, 0), Bits("ry", 3, 0), Bit("bz", 1), Bit("bz", 2), Bits("rz", 3, 0), Bit("bz", 4),
      Bit("bz", 3), Bits("d", 4, 0)
    ]
  }

  function Comments5(): seq<Comment> {
    [
      Bits("rw", 8, 0), Bit("by", 4), Bits("gw", 8, 0), Bit("gy", 4), Bits("bw", 8, 0), Bit("bz", 4),
      Bits("rx", 4, 0), Bit("gz", 4), Bits("gy", 3, 0), Bits("gx", 4, 0), Bit("bz", 0), Bits("gx", 3, 0),
      Bits("bx", 4, 0), Bit("bz", 1), Bits("by", 3, 0), Bits("ry", 4, 0), Bit("bz", 2), Bits("rz", 4, 0),
      Bit("bz", 3), Bits("d", 4, 0)
    ]
  }

  function Comments6(): seq<Comment> {
    [
      Bits("rw", 7, 0), Bit("gz", 4), Bit("by", 4), Bits("gw", 7, 0), Bit("bz", 2), Bit("gy", 4), Bits("bw", 7, 0),
      Bit("bz", 3), Bit("bz", 4), Bits("rx", 5, 0), Bits("gy", 3, 0), Bits("gx", 4, 0), Bit("bz", 0),
      Bits("gz", 3, 0), Bits("bx", 4, 0), Bit("bz", 1), Bits("by", 3, 0), Bits("ry", 5, 0), Bits("rz", 5, 0),
      Bits("d", 4, 0)
    ]
  }

  function Comments7(): seq<Comment> {
    [
      Bits("rw", 7, 0), Bit("bz", 0), Bit("by", 4), Bits("gw", 7, 0), Bit("gy", 5), Bit("gy", 4), Bits("bw", 7, 0),
      Bit("gz", 5), Bit("bz", 4), Bits("rx", 4, 0), Bit("gz", 4), Bits("gy", 3, 0), Bits("gx", 5, 0),
      Bits("zx", 3, 0), Bits("bx", 4, 0), Bit("bz", 1), Bits("by", 3, 0), Bits("ry", 4, 0), Bit("bz", 2),
      Bits("rz", 4, 0), Bit("bz", 3), Bits("d", 4, 0)
    ]
  }

  function Comments8(): seq<Comment> {
    [
      Bits("rw", 7, 0), Bit("bz", 1), Bit("by", 4), Bits("gw", 7, 0), Bit("by", 5), Bit("gy", 4), Bits("bw", 7, 0),
      Bit("bz", 5), Bit("bz", 4), Bits("bw", 4, 0), Bit("gz", 4), Bits("gy", 3, 0), Bits("gx", 4, 0), Bit("bz", 0),
      Bits("gz", 3, 0), Bits("bx", 5, 0), Bits("by", 3, 0), Bits("ry", 4, 0), Bit("bz", 2), Bits("rz", 4, 0),
      Bit("bz", 3), Bits("d", 4, 0)
    ]
  }

  function Comments9(): seq<Comment> {
    [
      Bits("rw", 5, 0), Bit("gz", 4), Bit("bz", 0), Bit("bz", 1), Bit("by", 4), Bits("gw", 5, 0), Bit("gy", 5),
      Bit("by", 5), Bit("bz", 2), Bit("gy", 4), Bits("bw", 5, 0), Bit("gz", 5), Bit("bz", 3), Bit("bz", 5),
      Bit("bz", 4), Bits("rx", 5, 0), Bits("gy", 3, 0), Bits("gx", 5, 0), Bits("gz", 3, 0), Bits("bx", 5, 0),
      Bits("by", 3, 0), Bits("ry", 5, 0), Bits("rz", 5, 0), Bits("d", 4, 0)
    ]
  }

  function Comments10(): seq<Comment> {
    [
      Bits("rw", 9, 0), Bits("gw", 9, 0), Bits("bw", 9, 0), Bits("rx", 9, 0), Bits("gx", 9, 0), Bits("bx", 9, 0)
    ]
  }

  function Comments11(): seq<Comment> {
    [
      Bits("rw", 9, 0), Bits("gw", 9, 0), Bits("bw", 9, 0), Bits("rx", 8, 0), Bit("rw", 10), Bits("gx", 8, 0),
      Bit("gw", 10), Bits("bx", 8, 0), Bit("bw", 10)
    ]
  }

  function Comments12(): seq<Comment> {
    [
      Bits("rw", 9, 0), Bits("gw", 9, 0), Bits("bw", 9, 0), Bits("rx", 7, 0), Bits("rx", 10, 11), Bits("gx", 7, 0),
      Bits("gx", 10, 11), Bits("bx", 7, 0), Bits("bx", 10, 11)
    ]
  }

  function Comments13(): seq<Comment> {
    [
      Bits("rw", 9, 0), Bits("gw", 9, 0), Bits("bw", 9, 0), Bits("rx", 3, 0), Bits("rw", 10, 15), Bits("gx", 3, 0),
      Bits("gw", 10, 15), Bits("bx", 3, 0), Bits("bw", 10, 15)
    ]
  }

  /** The name of a field: its colour and which endpoint of it, or d for the partition. */
  function Name(field: nat): string
    requires field < FIELDS
  {
    ["rw", "rx", "ry", "rz", "gw", "gx", "gy", "gz", "bw", "bx", "by", "bz", "d"][field]
  }

  /** The read fills these bits; lowest first goes with last down to first, and highest first the other way. */
  predicate FillsBits(p: Piece, c: Comment) {
    if p.reversed then p.shift == c.first && p.shift + p.width == c.last + 1
    else p.shift == c.last && p.shift + p.width == c.first + 1
  }

  /** The comments with the name of another field. */
  predicate Misnamed(mode: nat, i: nat) {
    || (mode == 5 && i == 11) || (mode == 7 && i == 13) || (mode == 8 && i == 9)
    || (mode == 12 && (i == 4 || i == 6 || i == 8))
  }

  ghost predicate ReadAs(mode: nat, p: seq<Piece>, c: seq<Comment>) {
    |p| == |c| && forall i | 0 <= i < |p| ::
      p[i].field < FIELDS && FillsBits(p[i], c[i]) && (Name(p[i].field) == c[i].name <==> !Misnamed(mode, i))
  }

  lemma ReadAs0()
    ensures ReadAs(0, Layout0(), Comments0())
  {
  }

  lemma ReadAs1()
    ensures ReadAs(1, Layout1(), Comments1())
  {
  }

  lemma ReadAs2()
    ensures ReadAs(2, Layout2(), Comments2())
  {
  }

  lemma ReadAs3()
    ensures ReadAs(3, Layout3(), Comments3())
  {
  }

  lemma ReadAs4()
    ensures ReadAs(4, Layout4(), Comments4())
  {
  }

  lemma ReadAs5()
    ensures ReadAs(5, Layout5(), Comments5())
  {
  }

  lemma ReadAs6()
    ensures ReadAs(6, Layout6(), Comments6())
  {
  }

  lemma ReadAs7()
    ensures ReadAs(7, Layout7(), Comments7())
  {
  }

  lemma ReadAs8()
    ensures ReadAs(8, Layout8(), Comments8())
  {
  }

  lemma ReadAs9()
    ensures ReadAs(9, Layout9(), Comments9())
  {
  }

  lemma ReadAs10()
    ensures ReadAs(10, Layout10(), Comments10())
  {
  }

  lemma ReadAs11()
    ensures ReadAs(11, Layout11(), Comments11())
  {
  }

  lemma ReadAs12()
    ensures ReadAs(12, Layout12(), Comments12())
  {
  }

  lemma ReadAs13()
    ensures ReadAs(13, Layout13(), Comments13())
  {
  }

  /** Every read fills the bits that its comment says, and but for six the field that it says. */
  lemma ReadAsCommented(mode: nat)
    requires mode < 14
    ensures ReadAs(mode, Layout(mode), Comments(mode))
  {
    match mode
    case 0 => ReadAs0();
    case 1 => ReadAs1();
    case 2 => ReadAs2();
    case 3 => ReadAs3();
    case 4 => ReadAs4();
    case 5 => ReadAs5();
    case 6 => ReadAs6();
    case 7 => ReadAs7();
    case 8 => ReadAs8();
    case 9 => ReadAs9();
    case 10 => ReadAs10();
    case 11 => ReadAs11();
    case 12 => ReadAs12();
    case _ => ReadAs13();
  }
}
