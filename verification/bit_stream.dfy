/** The destructive reader over the 128 bits of a compressed block. */
module BitStreams {
  import opened Bits

  /** n bits of the block from position c on; past its end there are zeros. */
  ghost function Taken(block: seq<bool>, c: nat, n: nat): (s: seq<bool>)
    ensures |s| == n
  {
    seq(n, i requires 0 <= i < n => c + i < |block| && block[c + i])
  }

  /** The words hold what is left of the block after c bits, and zeros; both have 64 bits. */
  ghost predicate Remaining(low: nat, high: nat, block: seq<bool>, c: nat) {
    && |block| == 128
    && (forall i: nat :: Bit(low, i) == (i < 64 && c + i < 128 && block[c + i]))
    && (forall i: nat :: Bit(high, i) == (c + (i + 64) < 128 && block[c + (i + 64)]))
  }

  lemma WholeBlock(block: seq<bool>)
    requires |block| == 128
    ensures Remaining(ValueOf(block[..64]), ValueOf(block[64..]), block, 0)
  {
    forall i: nat
      ensures Bit(ValueOf(block[..64]), i) == (i < 64 && block[i])
      ensures Bit(ValueOf(block[64..]), i) == (i + 64 < 128 && block[i + 64])
    {
      ValueOfBit(block[..64], i);
      ValueOfBit(block[64..], i);
    }
  }

  /** Shifting both words right by n, the low bits of the high word carried over, takes n bits off the block. */
  lemma ShiftedWords(low: nat, high: nat, block: seq<bool>, c: nat, n: nat)
    requires Remaining(low, high, block, c) && 1 <= n <= 30
    ensures LowBits(low, n) == ValueOf(Taken(block, c, n))
    ensures Remaining(BitOr(ShiftRight(low, n), ShiftLeft(LowBits(high, n), 64 - n)), ShiftRight(high, n), block, c + n)
  {
    forall i: nat ensures Bit(LowBits(low, n), i) == Bit(ValueOf(Taken(block, c, n)), i) {
      LowBitsBit(low, n, i);
      ValueOfBit(Taken(block, c, n), i);
    }
    SameBits(LowBits(low, n), ValueOf(Taken(block, c, n)));
    var carried := ShiftLeft(LowBits(high, n), 64 - n);
    forall i: nat
      ensures Bit(BitOr(ShiftRight(low, n), carried), i) == (i < 64 && c + n + i < 128 && block[c + n + i])
      ensures Bit(ShiftRight(high, n), i) == (c + n + (i + 64) < 128 && block[c + n + (i + 64)])
    {
      BitOrBit(ShiftRight(low, n), carried, i);
      ShiftRightBit(low, n, i);
      ShiftRightBit(high, n, i);
      ShiftLeftBit(LowBits(high, n), 64 - n, i);
      assert Bit(low, i + n) == (i + n < 64 && c + (i + n) < 128 && block[c + (i + n)]);
      assert Bit(high, i + n) == (c + (i + n + 64) < 128 && block[c + (i + n + 64)]);
      if i >= 64 - n {
        LowBitsBit(high, n, i - (64 - n));
        assert Bit(high, i - (64 - n)) == (c + (i - (64 - n) + 64) < 128 && block[c + (i - (64 - n) + 64)]);
      }
    }
  }

  class BitStream {
    var low: nat
    var high: nat
    ghost const block: seq<bool>
    ghost var consumed: nat

    ghost predicate Valid()
      reads this
    {
      Remaining(low, high, block, consumed)
    }

    constructor (block: seq<bool>)
      requires |block| == 128
      ensures Valid() && this.block == block && consumed == 0
    {
      low, high := ValueOf(block[..64]), ValueOf(block[64..]);
      this.block := block;
      consumed := 0;
      WholeBlock(block);
    }

    /** The next numBits bits as a number; the source's int mask needs numBits below 31. */
    method ReadBits(numBits: nat) returns (bits: nat)
      requires Valid() && 1 <= numBits <= 30
      modifies this
      ensures Valid() && consumed == old(consumed) + numBits
      ensures bits == ValueOf(Taken(block, old(consumed), numBits))
    {
      ShiftedWords(low, high, block, consumed, numBits);
      bits := LowBits(low, numBits);
      low := ShiftRight(low, numBits);
      low := BitOr(low, ShiftLeft(LowBits(high, numBits), 64 - numBits));
      high := ShiftRight(high, numBits);
      consumed := consumed + numBits;
    }

    method ReadBit() returns (bit: nat)
      requires Valid()
      modifies this
      ensures Valid() && consumed == old(consumed) + 1
      ensures bit == ValueOf(Taken(block, old(consumed), 1))
    {
      bit := ReadBits(1);
    }

    /** The next bits, first one highest. */
    method ReadBitsReversed(numBits: nat) returns (result: nat)
      requires Valid() && 1 <= numBits <= 30
      modifies this
      ensures Valid() && consumed == old(consumed) + numBits
      ensures result == ValueOf(Reversed(Taken(block, old(consumed), numBits)))
    {
      var bits := ReadBits(numBits);
      result := ReverseBits(bits, numBits, Taken(block, old(consumed), numBits));
    }
  }

  method ReverseBits(value: nat, numBits: nat, ghost taken: seq<bool>) returns (result: nat)
    requires |taken| == numBits && value == ValueOf(taken)
    ensures result == ValueOf(Reversed(taken))
  {
    var bits, left := value, numBits;
    result := 0;
    assert taken[0..] == taken;
    while left > 0
      invariant 0 <= left <= numBits
      invariant bits == ValueOf(taken[numBits - left..])
      invariant result == ValueOf(Reversed(taken[..numBits - left]))
    {
      ReverseStep(taken, numBits - left);
      result := ShiftLeft(result, 1);
      result := BitOr(result, bits % 2);
      bits := bits / 2;
      left := left - 1;
    }
    assert taken[..numBits] == taken;
  }

  function Reversed(s: seq<bool>): (r: seq<bool>)
    ensures |r| == |s|
  {
    if s == [] then [] else Reversed(s[1..]) + [s[0]]
  }

  /** The lowest bit left moves below the bits already reversed. */
  lemma ReverseStep(s: seq<bool>, k: nat)
    requires k < |s|
    ensures var bits, result := ValueOf(s[k..]), ValueOf(Reversed(s[..k]));
            && bits / 2 == ValueOf(s[k + 1..])
            && BitOr(ShiftLeft(result, 1), bits % 2) == ValueOf(Reversed(s[..k + 1]))
  {
    assert s[k..][0] == s[k] && s[k..][1..] == s[k + 1..];
    assert s[..k + 1] == s[..k] + [s[k]];
    ReversedAppend(s[..k], s[k]);
    var reversed := Reversed(s[..k]);
    assert ([s[k]] + reversed)[1..] == reversed;
    DoubleOrBit(ValueOf(reversed), if s[k] then 1 else 0);
  }

  lemma {:induction false} ReversedAppend(s: seq<bool>, b: bool)
    ensures Reversed(s + [b]) == [b] + Reversed(s)
  {
    if s != [] {
      assert (s + [b])[1..] == s[1..] + [b];
      ReversedAppend(s[1..], b);
    }
  }

  lemma {:induction false} ReversedAt(s: seq<bool>, i: nat)
    requires i < |s|
    ensures Reversed(s)[i] == s[|s| - 1 - i]
  {
    if i < |s| - 1 {
      ReversedAt(s[1..], i);
    }
  }

  lemma DoubleOrBit(x: nat, b: nat)
    requires b < 2
    ensures ShiftLeft(x, 1) == 2 * x && BitOr(2 * x, b) == 2 * x + b
  {
    assert ShiftLeft(x, 1) == 2 * ShiftLeft(x, 0);
    if x > 0 && b == 1 {
      assert BitOr(2 * x, 1) == 1 + 2 * BitOr(x, 0);
    }
  }
}
