/** nanopb's UTF-8 validator, against the encoding table of section 3 of RFC 3629. */
module Utf8 {

  type CodePoint = bv32

  /** A Unicode scalar value that nanopb allows in a string: not NUL, no surrogate, not U+FFFE or U+FFFF. */
  predicate Allowed(cp: CodePoint) {
    0 < cp <= 0x10FFFF && !(0xD800 <= cp <= 0xDFFF) && cp != 0xFFFE && cp != 0xFFFF
  }

  /** The octets of a code point. */
  function Encode(cp: CodePoint): (octets: seq<bv8>)
    requires Allowed(cp)
    ensures 1 <= |octets| <= 4
  {
    if cp < 0x80 then [(cp & 0x7F) as bv8]
    else if cp < 0x800 then [(0xC0 | ((cp >> 6) & 0x1F)) as bv8, Tail(cp)]
    else if cp < 0x1_0000 then [(0xE0 | ((cp >> 12) & 0x0F)) as bv8, Tail(cp >> 6), Tail(cp)]
    else [(0xF0 | ((cp >> 18) & 0x07)) as bv8, Tail(cp >> 12), Tail(cp >> 6), Tail(cp)]
  }

  function Tail(cp: CodePoint): bv8 {
    (0x80 | (cp & 0x3F)) as bv8
  }

  ghost predicate AllAllowed(cps: seq<CodePoint>) {
    forall i | 0 <= i < |cps| :: Allowed(cps[i])
  }

  ghost function EncodeAll(cps: seq<CodePoint>): seq<bv8>
    requires AllAllowed(cps)
  {
    if cps == [] then [] else Encode(cps[0]) + EncodeAll(cps[1..])
  }

  /** The octets are the encoding of some sequence of allowed code points. */
  ghost predicate IsUtf8(t: seq<bv8>) {
    exists cps :: AllAllowed(cps) && EncodeAll(cps) == t
  }

  // ---------------------------------------------------------------- the tests on one character

  predicate AcceptsTwo(a: bv8, b: bv8) {
    a & 0xE0 == 0xC0 && !(b & 0xC0 != 0x80 || a & 0xFE == 0xC0)
  }

  predicate AcceptsThree(a: bv8, b: bv8, c: bv8) {
    a & 0xF0 == 0xE0 &&
    !(b & 0xC0 != 0x80 || c & 0xC0 != 0x80
      || (a == 0xE0 && b & 0xE0 == 0x80)
      || (a == 0xED && b & 0xE0 == 0xA0)
      || (a == 0xEF && b == 0xBF && c & 0xFE == 0xBE))
  }

  predicate AcceptsFour(a: bv8, b: bv8, c: bv8, d: bv8) {
    a & 0xF8 == 0xF0 &&
    !(b & 0xC0 != 0x80 || c & 0xC0 != 0x80 || d & 0xC0 != 0x80
      || (a == 0xF0 && b & 0xF0 == 0x80)
      || (a == 0xF4 && b > 0x8F) || a > 0xF4)
  }

  /** The payload bits of the octets after the first. */
  function Bits(b: bv8): CodePoint {
    (b & 0x3F) as bv32
  }

  function Join(high: CodePoint, b: bv8): CodePoint {
    (high << 6) | Bits(b)
  }

  /** The code point that the octets of one character stand for. */
  function Decode(e: seq<bv8>): CodePoint
    requires 1 <= |e| <= 4
  {
    match |e|
    case 1 => e[0] as bv32
    case 2 => Join((e[0] & 0x1F) as bv32, e[1])
    case 3 => Join(Join((e[0] & 0x0F) as bv32, e[1]), e[2])
    case _ => Join(Join(Join((e[0] & 0x07) as bv32, e[1]), e[2]), e[3])
  }

  /** The octets of one character pass the validator's tests. */
  predicate Accepts(e: seq<bv8>) {
    match |e|
    case 1 => 0 < e[0] < 0x80
    case 2 => AcceptsTwo(e[0], e[1])
    case 3 => AcceptsThree(e[0], e[1], e[2])
    case 4 => AcceptsFour(e[0], e[1], e[2], e[3])
    case _ => false
  }

  /** Some code point has the accepted octets. */
  lemma TwoDecoded(a: bv8, b: bv8) returns (cp: CodePoint)
    requires AcceptsTwo(a, b)
    ensures 0x80 <= cp < 0x800 && (0xC0 | ((cp >> 6) & 0x1F)) as bv8 == a && Tail(cp) == b
  {
    cp := Join((a & 0x1F) as bv32, b);
  }

  lemma ThreeDecoded(a: bv8, b: bv8, c: bv8) returns (cp: CodePoint)
    requires AcceptsThree(a, b, c)
    ensures Allowed(cp) && 0x800 <= cp < 0x1_0000
    ensures (0xE0 | ((cp >> 12) & 0x0F)) as bv8 == a && Tail(cp >> 6) == b && Tail(cp) == c
  {
    cp := Join(Join((a & 0x0F) as bv32, b), c);
  }

  function JoinFour(a: bv8, b: bv8, c: bv8, d: bv8): CodePoint {
    Join(Join(Join((a & 0x07) as bv32, b), c), d)
  }

  lemma FourthOctet(a: bv8, b: bv8, c: bv8, d: bv8)
    requires d & 0xC0 == 0x80
    ensures Tail(JoinFour(a, b, c, d)) == d
  {
  }

  lemma ThirdOctet(a: bv8, b: bv8, c: bv8, d: bv8)
    requires c & 0xC0 == 0x80
    ensures Tail(JoinFour(a, b, c, d) >> 6) == c
  {
  }

  lemma SecondOctet(a: bv8, b: bv8, c: bv8, d: bv8)
    requires b & 0xC0 == 0x80
    ensures Tail(JoinFour(a, b, c, d) >> 12) == b
  {
  }

  lemma FirstOfFour(a: bv8, b: bv8, c: bv8, d: bv8)
    requires a & 0xF8 == 0xF0
    ensures (0xF0 | ((JoinFour(a, b, c, d) >> 18) & 0x07)) as bv8 == a
  {
  }

  lemma FourInRange(a: bv8, b: bv8, c: bv8, d: bv8)
    requires AcceptsFour(a, b, c, d)
    ensures Allowed(JoinFour(a, b, c, d)) && 0x1_0000 <= JoinFour(a, b, c, d)
  {
  }

  lemma FourDecoded(a: bv8, b: bv8, c: bv8, d: bv8) returns (cp: CodePoint)
    requires AcceptsFour(a, b, c, d)
    ensures Allowed(cp) && 0x1_0000 <= cp
    ensures (0xF0 | ((cp >> 18) & 0x07)) as bv8 == a && Tail(cp >> 12) == b && Tail(cp >> 6) == c && Tail(cp) == d
  {
    cp := JoinFour(a, b, c, d);
    FirstOfFour(a, b, c, d);
    SecondOctet(a, b, c, d);
    ThirdOctet(a, b, c, d);
    FourthOctet(a, b, c, d);
    FourInRange(a, b, c, d);
  }

  lemma TwoOctets(cp: CodePoint, a: bv8, b: bv8)
    requires 0x80 <= cp < 0x800 && (0xC0 | ((cp >> 6) & 0x1F)) as bv8 == a && Tail(cp) == b
    ensures Encode(cp) == [a, b]
  {
  }

  lemma ThreeOctets(cp: CodePoint, a: bv8, b: bv8, c: bv8)
    requires Allowed(cp) && 0x800 <= cp < 0x1_0000
    requires (0xE0 | ((cp >> 12) & 0x0F)) as bv8 == a && Tail(cp >> 6) == b && Tail(cp) == c
    ensures Encode(cp) == [a, b, c]
  {
  }

  lemma FourOctets(cp: CodePoint, a: bv8, b: bv8, c: bv8, d: bv8)
    requires Allowed(cp) && 0x1_0000 <= cp
    requires (0xF0 | ((cp >> 18) & 0x07)) as bv8 == a && Tail(cp >> 12) == b && Tail(cp >> 6) == c && Tail(cp) == d
    ensures Encode(cp) == [a, b, c, d]
  {
  }

  lemma ThreeEncoded(a: bv8, b: bv8, c: bv8) returns (cp: CodePoint)
    requires AcceptsThree(a, b, c)
    ensures Allowed(cp) && Encode(cp) == [a, b, c]
  {
    cp := ThreeDecoded(a, b, c);
    ThreeOctets(cp, a, b, c);
  }

  lemma FourEncoded(a: bv8, b: bv8, c: bv8, d: bv8) returns (cp: CodePoint)
    requires AcceptsFour(a, b, c, d)
    ensures Allowed(cp) && Encode(cp) == [a, b, c, d]
  {
    cp := FourDecoded(a, b, c, d);
    FourOctets(cp, a, b, c, d);
  }

  /** Accepted octets are the encoding of the code point they decode to. */
  lemma AcceptedIsEncoded(e: seq<bv8>)
    requires Accepts(e)
    ensures Allowed(Decode(e)) && Encode(Decode(e)) == e
  {
    var cp := SomeCodePoint(e);
    EncodedIsAccepted(cp);
  }

  lemma SomeCodePoint(e: seq<bv8>) returns (cp: CodePoint)
    requires Accepts(e)
    ensures Allowed(cp) && Encode(cp) == e
  {
    match |e| {
      case 1 =>
        cp := e[0] as bv32;
      case 2 =>
        cp := TwoDecoded(e[0], e[1]);
        TwoOctets(cp, e[0], e[1]);
      case 3 =>
        cp := ThreeEncoded(e[0], e[1], e[2]);
      case _ =>
        cp := FourEncoded(e[0], e[1], e[2], e[3]);
    }
  }

  /** The validator accepts the octets of every allowed code point, and they decode to it. */
  lemma EncodedIsAccepted(cp: CodePoint)
    requires Allowed(cp)
    ensures Accepts(Encode(cp)) && Decode(Encode(cp)) == cp
  {
    if cp < 0x80 {
    } else if cp < 0x800 {
      EncodedTwo(cp);
    } else if cp < 0x1_0000 {
      EncodedThree(cp);
    } else {
      EncodedFour(cp);
    }
  }

  lemma EncodedTwo(cp: CodePoint)
    requires 0x80 <= cp < 0x800
    ensures var a := (0xC0 | ((cp >> 6) & 0x1F)) as bv8;
            AcceptsTwo(a, Tail(cp)) && Join((a & 0x1F) as bv32, Tail(cp)) == cp
  {
  }

  lemma EncodedThree(cp: CodePoint)
    requires Allowed(cp) && 0x800 <= cp < 0x1_0000
    ensures var a := (0xE0 | ((cp >> 12) & 0x0F)) as bv8;
            AcceptsThree(a, Tail(cp >> 6), Tail(cp)) && Join(Join((a & 0x0F) as bv32, Tail(cp >> 6)), Tail(cp)) == cp
  {
  }

  lemma EncodedFour(cp: CodePoint)
    requires Allowed(cp) && 0x1_0000 <= cp
    ensures var a := (0xF0 | ((cp >> 18) & 0x07)) as bv8;
            && AcceptsFour(a, Tail(cp >> 12), Tail(cp >> 6), Tail(cp))
            && Join(Join(Join((a & 0x07) as bv32, Tail(cp >> 12)), Tail(cp >> 6)), Tail(cp)) == cp
  {
  }

  /** Two accepted beginnings of the same text are the same: the first octet tells the length. */
  lemma SameLength(t: seq<bv8>, j: nat, k: nat)
    requires j <= |t| && k <= |t| && Accepts(t[..j]) && Accepts(t[..k])
    ensures j == k
  {
    assert t[..j][0] == t[0] == t[..k][0];
    FirstOctet(t[..j]);
    FirstOctet(t[..k]);
  }

  function Length(a: bv8): nat {
    if a < 0x80 then 1
    else if a & 0xE0 == 0xC0 then 2
    else if a & 0xF0 == 0xE0 then 3
    else 4
  }

  lemma FirstOctet(e: seq<bv8>)
    requires Accepts(e)
    ensures |e| == Length(e[0])
  {
  }

  /** A valid character in front can be cut off. */
  lemma CharacterInFront(t: seq<bv8>, k: nat)
    requires k <= |t| && Accepts(t[..k])
    ensures IsUtf8(t) <==> IsUtf8(t[k..])
  {
    var cp := Decode(t[..k]);
    AcceptedIsEncoded(t[..k]);
    if IsUtf8(t[k..]) {
      var cps :| AllAllowed(cps) && EncodeAll(cps) == t[k..];
      assert ([cp] + cps)[1..] == cps;
      assert AllAllowed([cp] + cps) && EncodeAll([cp] + cps) == t;
    }
    if IsUtf8(t) {
      var j := SomeCharacterInFront(t);
      SameLength(t, j, k);
    }
  }

  /** A text that is not empty starts with an accepted character, followed by text. */
  lemma SomeCharacterInFront(t: seq<bv8>) returns (k: nat)
    requires IsUtf8(t) && t != []
    ensures 1 <= k <= 4 && k <= |t| && Accepts(t[..k]) && IsUtf8(t[k..])
  {
    var cps :| AllAllowed(cps) && EncodeAll(cps) == t;
    k := |Encode(cps[0])|;
    EncodedIsAccepted(cps[0]);
    assert t[..k] == Encode(cps[0]) && t[k..] == EncodeAll(cps[1..]);
    assert AllAllowed(cps[1..]);
  }

  lemma EmptyIsUtf8()
    ensures IsUtf8([])
  {
    assert AllAllowed([]) && EncodeAll([]) == [];
  }

  /** str is the memory of a C string up to and including its terminator. */
  ghost predicate Terminated(str: seq<bv8>) {
    |str| > 0 && str[|str| - 1] == 0 && forall i | 0 <= i < |str| - 1 :: str[i] != 0
  }

  lemma Front(str: seq<bv8>, s: nat, k: nat)
    requires s + k < |str|
    ensures str[..|str| - 1][s..][..k] == str[s..s + k]
    ensures str[..|str| - 1][s..][k..] == str[..|str| - 1][s + k..]
  {
  }

  /** Accepts exactly the UTF-8 texts of allowed code points; no index leaves the memory of the string. */
  method ValidateUtf8(str: seq<bv8>) returns (valid: bool)
    requires Terminated(str)
    ensures valid <==> IsUtf8(str[..|str| - 1])
  {
    ghost var text := str[..|str| - 1];
    var s := 0;
    assert text[0..] == text;
    while str[s] != 0
      invariant s < |str| && (IsUtf8(text) <==> IsUtf8(text[s..]))
      decreases |str| - s
    {
      ghost var rest := text[s..];
      if str[s] < 0x80 {
        Front(str, s, 1);
        assert str[s..s + 1] == [str[s]];
        CharacterInFront(rest, 1);
        s := s + 1;
      } else if str[s] & 0xE0 == 0xC0 {
        if str[s + 1] & 0xC0 != 0x80 || str[s] & 0xFE == 0xC0 {
          Rejected(rest, str[s..], 2);
          return false;
        } else {
          assert str[s + 1] != 0;
          Front(str, s, 2);
          assert str[s..s + 2] == [str[s], str[s + 1]];
          CharacterInFront(rest, 2);
          s := s + 2;
        }
      } else if str[s] & 0xF0 == 0xE0 {
        if str[s + 1] & 0xC0 != 0x80
           || str[s + 2] & 0xC0 != 0x80
           || (str[s] == 0xE0 && str[s + 1] & 0xE0 == 0x80)
           || (str[s] == 0xED && str[s + 1] & 0xE0 == 0xA0)
           || (str[s] == 0xEF && str[s + 1] == 0xBF && str[s + 2] & 0xFE == 0xBE)
        {
          Rejected(rest, str[s..], 3);
          return false;
        } else {
          assert str[s + 1] != 0 && str[s + 2] != 0;
          Front(str, s, 3);
          assert str[s..s + 3] == [str[s], str[s + 1], str[s + 2]];
          CharacterInFront(rest, 3);
          s := s + 3;
        }
      } else if str[s] & 0xF8 == 0xF0 {
        if str[s + 1] & 0xC0 != 0x80
           || str[s + 2] & 0xC0 != 0x80
           || str[s + 3] & 0xC0 != 0x80
           || (str[s] == 0xF0 && str[s + 1] & 0xF0 == 0x80)
           || (str[s] == 0xF4 && str[s + 1] > 0x8F) || str[s] > 0xF4
        {
          Rejected(rest, str[s..], 4);
          return false;
        } else {
          assert str[s + 1] != 0 && str[s + 2] != 0 && str[s + 3] != 0;
          Front(str, s, 4);
          assert str[s..s + 4] == [str[s], str[s + 1], str[s + 2], str[s + 3]];
          CharacterInFront(rest, 4);
          s := s + 4;
        }
      } else {
        Rejected(rest, str[s..], 4);
        return false;
      }
    }
    assert text[s..] == [];
    EmptyIsUtf8();
    valid := true;
  }

  /** The first octet asks for k octets, and these are not accepted. */
  lemma Rejected(t: seq<bv8>, memory: seq<bv8>, k: nat)
    requires t != [] && memory == t + [0] && k == Length(t[0])
    requires k <= |t| ==> !Accepts(t[..k])
    ensures !IsUtf8(t)
  {
    if IsUtf8(t) {
      var j := SomeCharacterInFront(t);
      FirstOctet(t[..j]);
    }
  }
}
