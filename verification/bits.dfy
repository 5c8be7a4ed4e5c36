/** Bitwise operations on natural numbers, each known by what it does to single bits. */
module Bits {

  function Bit(x: nat, i: nat): bool {
    if i == 0 then x % 2 == 1 else Bit(x / 2, i - 1)
  }

  function Pow2(n: nat): (p: nat)
    ensures p > 0
  {
    if n == 0 then 1 else 2 * Pow2(n - 1)
  }

  /** x << n */
  function ShiftLeft(x: nat, n: nat): nat {
    if n == 0 then x else 2 * ShiftLeft(x, n - 1)
  }

  /** x >> n */
  function ShiftRight(x: nat, n: nat): nat {
    if n == 0 then x else ShiftRight(x / 2, n - 1)
  }

  /** x & ((1 << n) - 1) */
  function LowBits(x: nat, n: nat): nat {
    if n == 0 then 0 else x % 2 + 2 * LowBits(x / 2, n - 1)
  }

  /** x | y */
  function BitOr(x: nat, y: nat): nat
    decreases x + y
  {
    if x == 0 then y
    else if y == 0 then x
    else (if x % 2 == 1 || y % 2 == 1 then 1 else 0) + 2 * BitOr(x / 2, y / 2)
  }

  /** The number with the given bits, lowest first. */
  function ValueOf(s: seq<bool>): nat {
    if s == [] then 0 else (if s[0] then 1 else 0) + 2 * ValueOf(s[1..])
  }

  lemma {:induction false} ZeroBit(i: nat)
    ensures !Bit(0, i)
  {
    if i > 0 {
      ZeroBit(i - 1);
    }
  }

  lemma {:induction false} ShiftLeftBit(x: nat, n: nat, i: nat)
    ensures Bit(ShiftLeft(x, n), i) == (i >= n && Bit(x, i - n))
  {
    if n > 0 && i > 0 {
      ShiftLeftBit(x, n - 1, i - 1);
    }
  }

  lemma {:induction false} ShiftRightBit(x: nat, n: nat, i: nat)
    ensures Bit(ShiftRight(x, n), i) == Bit(x, i + n)
  {
    if n > 0 {
      ShiftRightBit(x / 2, n - 1, i);
    }
  }

  lemma {:induction false} LowBitsBit(x: nat, n: nat, i: nat)
    ensures Bit(LowBits(x, n), i) == (i < n && Bit(x, i))
  {
    if n == 0 {
      ZeroBit(i);
    } else if i > 0 {
      LowBitsBit(x / 2, n - 1, i - 1);
    }
  }

  lemma {:induction false} BitOrBit(x: nat, y: nat, i: nat)
    ensures Bit(BitOr(x, y), i) == (Bit(x, i) || Bit(y, i))
    decreases x + y
  {
    ZeroBit(i);
    if x > 0 && y > 0 && i > 0 {
      BitOrBit(x / 2, y / 2, i - 1);
    }
  }

  lemma {:induction false} ValueOfBit(s: seq<bool>, i: nat)
    ensures Bit(ValueOf(s), i) == (i < |s| && s[i])
  {
    if s == [] {
      ZeroBit(i);
    } else if i > 0 {
      ValueOfBit(s[1..], i - 1);
    }
  }

  /** Numbers with the same bits are the same. */
  lemma {:induction false} SameBits(x: nat, y: nat)
    requires forall i: nat :: Bit(x, i) == Bit(y, i)
    ensures x == y
    decreases x + y
  {
    assert Bit(x, 0) == Bit(y, 0);
    if x > 0 || y > 0 {
      forall i: nat ensures Bit(x / 2, i) == Bit(y / 2, i) {
        assert Bit(x, i + 1) == Bit(y, i + 1);
      }
      if x / 2 + y / 2 < x + y {
        SameBits(x / 2, y / 2);
      }
    }
  }

  lemma {:induction false} HighBitsOff(x: nat, n: nat, i: nat)
    requires x < Pow2(n) && i >= n
    ensures !Bit(x, i)
  {
    if n == 0 {
      ZeroBit(i);
    } else {
      HighBitsOff(x / 2, n - 1, i - 1);
    }
  }

  lemma {:induction false} Small(x: nat, n: nat)
    requires forall i: nat | i >= n :: !Bit(x, i)
    ensures x < Pow2(n)
    decreases n, x
  {
    if n > 0 {
      forall i: nat | i >= n - 1 ensures !Bit(x / 2, i) {
        assert !Bit(x, i + 1);
      }
      Small(x / 2, n - 1);
    } else if x > 0 {
      assert !Bit(x, 0);
      forall i: nat ensures !Bit(x / 2, i) {
        assert !Bit(x, i + 1);
      }
      Small(x / 2, 0);
    }
  }

  lemma {:induction false} ValueOfSmall(s: seq<bool>)
    ensures ValueOf(s) < Pow2(|s|)
  {
    if s != [] {
      ValueOfSmall(s[1..]);
    }
  }
}
