/**
The tables of the BPTC formats. A partition row gives the subset of each of the 16 texels, and the
fix-up texels of the second and third subset; that of the first subset is texel 0.
 */
module BptcTables {

  const WEIGHTS2: seq<nat> := [0, 21, 43, 64]
  const WEIGHTS3: seq<nat> := [0, 9, 18, 27, 37, 46, 55, 64]
  const WEIGHTS4: seq<nat> := [0, 4, 9, 13, 17, 21, 26, 30, 34, 38, 43, 47, 51, 55, 60, 64]

  lemma WeightsInRange()
    ensures forall i | 0 <= i < 4 :: WEIGHTS2[i] <= 64
    ensures forall i | 0 <= i < 8 :: WEIGHTS3[i] <= 64
    ensures forall i | 0 <= i < 16 :: WEIGHTS4[i] <= 64
  {
  }

  datatype Partition = Partition(subsets: string, second: nat, third: nat) {
    function Subset(i: nat): nat
      requires i < |subsets|
    {
      if subsets[i] == '0' then 0 else if subsets[i] == '1' then 1 else 2
    }

    predicate IsFixup(i: nat) {
      i == 0 || i == second || i == third
    }

    /** How many of the first k texels are fix-up texels. */
    function FixupCount(k: nat): nat {
      if k == 0 then 0 else FixupCount(k - 1) + if IsFixup(k - 1) then 1 else 0
    }
  }

  const ONE_SUBSET := Partition("0000000000000000", 0, 0)

  /** n subsets, each with exactly one fix-up texel. */
  predicate GoodPartition(t: Partition, n: nat) {
    && |t.subsets| == 16 && t.FixupCount(16) == n
    && (forall i | 0 <= i < 16 :: t.Subset(i) < n)
    && t.Subset(0) == 0
    && (n >= 2 ==> t.second < 16 && t.Subset(t.second) == 1)
    && (n >= 3 ==> t.third < 16 && t.Subset(t.third) == 2)
  }

  /** The partition table for two subsets. */
  function TwoSubsets(p: nat): Partition {
    if p < 16 then TwoRows0(p)
    else if p < 32 then TwoRows1(p)
    else if p < 48 then TwoRows2(p)
    else TwoRows3(p)
  }

  function TwoRows0(p: nat): Partition {
    match p
    case 0 => Partition("0011001100110011", 15, 15)
    case 1 => Partition("0001000100010001", 15, 15)
    case 2 => Partition("0111011101110111", 15, 15)
    case 3 => Partition("0001001100110111", 15, 15)
    case 4 => Partition("0000000100010011", 15, 15)
    case 5 => Partition("0011011101111111", 15, 15)
    case 6 => Partition("0001001101111111", 15, 15)
    case 7 => Partition("0000000100110111", 15, 15)
    case 8 => Partition("0000000000010011", 15, 15)
    case 9 => Partition("0011011111111111", 15, 15)
    case 10 => Partition("0000000101111111", 15, 15)
    case 11 => Partition("0000000000010111", 15, 15)
    case 12 => Partition("0001011111111111", 15, 15)
    case 13 => Partition("0000000011111111", 15, 15)
    case 14 => Partition("0000111111111111", 15, 15)
    case _ => Partition("0000000000001111", 15, 15)
  }

  function TwoRows1(p: nat): Partition {
    match p
    case 16 => Partition("0000100011101111", 15, 15)
    case 17 => Partition("0111000100000000", 2, 2)
    case 18 => Partition("0000000010001110", 8, 8)
    case 19 => Partition("0111001100010000", 2, 2)
    case 20 => Partition("0011000100000000", 2, 2)
    case 21 => Partition("0000100011001110", 8, 8)
    case 22 => Partition("0000000010001100", 8, 8)
    case 23 => Partition("0111001100110001", 15, 15)
    case 24 => Partition("0011000100010000", 2, 2)
    case 25 => Partition("0000100010001100", 8, 8)
    case 26 => Partition("0110011001100110", 2, 2)
    case 27 => Partition("0011011001101100", 2, 2)
    case 28 => Partition("0001011111101000", 8, 8)
    case 29 => Partition("0000111111110000", 8, 8)
    case 30 => Partition("0111000110001110", 2, 2)
    case _ => Partition("0011100110011100", 2, 2)
  }

  function TwoRows2(p: nat): Partition {
    match p
    case 32 => Partition("0101010101010101", 15, 15)
    case 33 => Partition("0000111100001111", 15, 15)
    case 34 => Partition("0101101001011010", 6, 6)
    case 35 => Partition("0011001111001100", 8, 8)
    case 36 => Partition("0011110000111100", 2, 2)
    case 37 => Partition("0101010110101010", 8, 8)
    case 38 => Partition("0110100101101001", 15, 15)
    case 39 => Partition("0101101010100101", 15, 15)
    case 40 => Partition("0111001111001110", 2, 2)
    case 41 => Partition("0001001111001000", 8, 8)
    case 42 => Partition("0011001001001100", 2, 2)
    case 43 => Partition("0011101111011100", 2, 2)
    case 44 => Partition("0110100110010110", 2, 2)
    case 45 => Partition("0011110011000011", 15, 15)
    case 46 => Partition("0110011010011001", 15, 15)
    case _ => Partition("0000011001100000", 6, 6)
  }

  function TwoRows3(p: nat): Partition {
    match p
    case 48 => Partition("0100111001000000", 6, 6)
    case 49 => Partition("0010011100100000", 2, 2)
    case 50 => Partition("0000001001110010", 6, 6)
    case 51 => Partition("0000010011100100", 8, 8)
    case 52 => Partition("0110110010010011", 15, 15)
    case 53 => Partition("0011011011001001", 15, 15)
    case 54 => Partition("0110001110011100", 2, 2)
    case 55 => Partition("0011100111000110", 2, 2)
    case 56 => Partition("0110110011001001", 15, 15)
    case 57 => Partition("0110001100111001", 15, 15)
    case 58 => Partition("0111111010000001", 15, 15)
    case 59 => Partition("0001100011100111", 15, 15)
    case 60 => Partition("0000111100110011", 15, 15)
    case 61 => Partition("0011001111110000", 2, 2)
    case 62 => Partition("0010001011101110", 2, 2)
    case _ => Partition("0100010001110111", 15, 15)
  }

  /** The partition table for three subsets. */
  function ThreeSubsets(p: nat): Partition {
    if p < 16 then ThreeRows0(p)
    else if p < 32 then ThreeRows1(p)
    else if p < 48 then ThreeRows2(p)
    else ThreeRows3(p)
  }

  function ThreeRows0(p: nat): Partition {
    match p
    case 0 => Partition("0011001102212222", 3, 15)
    case 1 => Partition("0001001122112221", 3, 8)
    case 2 => Partition("0000200122112211", 15, 8)
    case 3 => Partition("0222002200110111", 15, 3)
    case 4 => Partition("0000000011221122", 8, 15)
    case 5 => Partition("0011001100220022", 3, 15)
    case 6 => Partition("0022002211111111", 15, 3)
    case 7 => Partition("0011001122112211", 15, 8)
    case 8 => Partition("0000000011112222", 8, 15)
    case 9 => Partition("0000111111112222", 8, 15)
    case 10 => Partition("0000111122222222", 6, 15)
    case 11 => Partition("0012001200120012", 6, 15)
    case 12 => Partition("0112011201120112", 6, 15)
    case 13 => Partition("0122012201220122", 5, 15)
    case 14 => Partition("0011011211221222", 3, 15)
    case _ => Partition("0011200122002220", 3, 8)
  }

  function ThreeRows1(p: nat): Partition {
    match p
    case 16 => Partition("0001001101121122", 3, 15)
    case 17 => Partition("0111001120012200", 3, 8)
    case 18 => Partition("0000112211221122", 8, 15)
    case 19 => Partition("0022002200221111", 15, 3)
    case 20 => Partition("0111011102220222", 3, 15)
    case 21 => Partition("0001000122212221", 3, 8)
    case 22 => Partition("0000001101220122", 6, 15)
    case 23 => Partition("0000110022102210", 10, 8)
    case 24 => Partition("0122012200110000", 5, 3)
    case 25 => Partition("0012001211222222", 8, 15)
    case 26 => Partition("0110122112210110", 8, 6)
    case 27 => Partition("0000011012211221", 6, 10)
    case 28 => Partition("0022110211020022", 8, 15)
    case 29 => Partition("0110011020022222", 5, 15)
    case 30 => Partition("0011012201220011", 15, 10)
    case _ => Partition("0000200022112221", 15, 8)
  }

  function ThreeRows2(p: nat): Partition {
    match p
    case 32 => Partition("0000000211221222", 8, 15)
    case 33 => Partition("0222002200120011", 15, 3)
    case 34 => Partition("0011001200220222", 3, 15)
    case 35 => Partition("0120012001200120", 5, 10)
    case 36 => Partition("0000111122220000", 6, 10)
    case 37 => Partition("0120120120120120", 10, 8)
    case 38 => Partition("0120201212010120", 8, 9)
    case 39 => Partition("0011220011220011", 15, 10)
    case 40 => Partition("0011112222000011", 15, 6)
    case 41 => Partition("0101010122222222", 3, 15)
    case 42 => Partition("0000000021212121", 15, 8)
    case 43 => Partition("0022112200221122", 5, 15)
    case 44 => Partition("0022001100220011", 15, 3)
    case 45 => Partition("0220122102201221", 15, 6)
    case 46 => Partition("0101222222220101", 15, 6)
    case _ => Partition("0000212121212121", 15, 8)
  }

  function ThreeRows3(p: nat): Partition {
    match p
    case 48 => Partition("0101010101012222", 3, 15)
    case 49 => Partition("0222011102220111", 15, 3)
    case 50 => Partition("0002111200021112", 5, 15)
    case 51 => Partition("0000211221122112", 5, 15)
    case 52 => Partition("0222011101110222", 5, 15)
    case 53 => Partition("0002111211120002", 8, 15)
    case 54 => Partition("0110011001102222", 5, 15)
    case 55 => Partition("0000000021122112", 10, 15)
    case 56 => Partition("0110011022222222", 5, 15)
    case 57 => Partition("0022001100110022", 10, 15)
    case 58 => Partition("0022112211220022", 8, 15)
    case 59 => Partition("0000000000002112", 13, 15)
    case 60 => Partition("0002000100020001", 15, 3)
    case 61 => Partition("0222122202221222", 12, 15)
    case 62 => Partition("0101222222222222", 3, 15)
    case _ => Partition("0111201122012220", 3, 8)
  }

  // ---------------------------------------------------------------- the tables are good

  predicate FixupsInSubsets(t: Partition, n: nat) {
    && |t.subsets| == 16 && t.subsets[0] == '0'
    && 0 < t.second < 16 && t.subsets[t.second] == '1'
    && if n == 2 then t.third == t.second else 0 < t.third < 16 && t.subsets[t.third] == '2'
  }

  lemma {:induction false} FixupsCounted(t: Partition, k: nat)
    ensures t.FixupCount(k) == (if k > 0 then 1 else 0) + (if 0 < t.second < k then 1 else 0)
                               + if 0 < t.third < k && t.third != t.second then 1 else 0
  {
    if k > 0 {
      FixupsCounted(t, k - 1);
    }
  }

  lemma FixupsAreEnough(t: Partition, n: nat)
    requires n == 2 || n == 3
    requires FixupsInSubsets(t, n)
    requires n == 2 ==> forall i | 0 <= i < 16 :: t.Subset(i) < 2
    ensures GoodPartition(t, n)
  {
    FixupsCounted(t, 16);
  }

  lemma OneSubsetGood()
    ensures GoodPartition(ONE_SUBSET, 1)
  {
    FixupsCounted(ONE_SUBSET, 16);
  }

  lemma TwoRowsGood0(p: nat)
    requires 0 <= p < 16
    ensures FixupsInSubsets(TwoRows0(p), 2)
  {
  }

  lemma TwoDigits0(p: nat, i: nat)
    requires 0 <= p < 8 && i < 16
    ensures |TwoRows0(p).subsets| == 16 && TwoRows0(p).Subset(i) < 2
  {
  }

  lemma TwoDigits1(p: nat, i: nat)
    requires 8 <= p < 16 && i < 16
    ensures |TwoRows0(p).subsets| == 16 && TwoRows0(p).Subset(i) < 2
  {
  }

  lemma TwoRowsGood1(p: nat)
    requires 16 <= p < 32
    ensures FixupsInSubsets(TwoRows1(p), 2)
  {
  }

  lemma TwoDigits2(p: nat, i: nat)
    requires 16 <= p < 24 && i < 16
    ensures |TwoRows1(p).subsets| == 16 && TwoRows1(p).Subset(i) < 2
  {
  }

  lemma TwoDigits3(p: nat, i: nat)
    requires 24 <= p < 32 && i < 16
    ensures |TwoRows1(p).subsets| == 16 && TwoRows1(p).Subset(i) < 2
  {
  }

  lemma TwoRowsGood2(p: nat)
    requires 32 <= p < 48
    ensures FixupsInSubsets(TwoRows2(p), 2)
  {
  }

  lemma TwoDigits4(p: nat, i: nat)
    requires 32 <= p < 40 && i < 16
    ensures |TwoRows2(p).subsets| == 16 && TwoRows2(p).Subset(i) < 2
  {
  }

  lemma TwoDigits5(p: nat, i: nat)
    requires 40 <= p < 48 && i < 16
    ensures |TwoRows2(p).subsets| == 16 && TwoRows2(p).Subset(i) < 2
  {
  }

  lemma TwoRowsGood3(p: nat)
    requires 48 <= p < 64
    ensures FixupsInSubsets(TwoRows3(p), 2)
  {
  }

  lemma TwoDigits6(p: nat, i: nat)
    requires 48 <= p < 56 && i < 16
    ensures |TwoRows3(p).subsets| == 16 && TwoRows3(p).Subset(i) < 2
  {
  }

  lemma TwoDigits7(p: nat, i: nat)
    requires 56 <= p < 64 && i < 16
    ensures |TwoRows3(p).subsets| == 16 && TwoRows3(p).Subset(i) < 2
  {
  }

  lemma TwoDigits(p: nat, i: nat)
    requires p < 64 && i < 16
    ensures |TwoSubsets(p).subsets| == 16 && TwoSubsets(p).Subset(i) < 2
  {
    if p < 8 {
      TwoDigits0(p, i);
    } else if p < 16 {
      TwoDigits1(p, i);
    } else if p < 24 {
      TwoDigits2(p, i);
    } else if p < 32 {
      TwoDigits3(p, i);
    } else if p < 40 {
      TwoDigits4(p, i);
    } else if p < 48 {
      TwoDigits5(p, i);
    } else if p < 56 {
      TwoDigits6(p, i);
    } else {
      TwoDigits7(p, i);
    }
  }

  lemma TwoFixups(p: nat)
    requires p < 64
    ensures FixupsInSubsets(TwoSubsets(p), 2)
  {
    if p < 16 {
      TwoRowsGood0(p);
    } else if p < 32 {
      TwoRowsGood1(p);
    } else if p < 48 {
      TwoRowsGood2(p);
    } else {
      TwoRowsGood3(p);
    }
  }

  /** Every partition into two subsets has one fix-up texel in each of them, and no other subset. */
  lemma TwoSubsetsGood(p: nat)
    requires p < 64
    ensures GoodPartition(TwoSubsets(p), 2)
  {
    TwoFixups(p);
    var t := TwoSubsets(p);
    forall i | 0 <= i < 16 ensures t.Subset(i) < 2 {
      TwoDigits(p, i);
    }
    FixupsAreEnough(t, 2);
  }

  lemma ThreeRowsGood0(p: nat)
    requires 0 <= p < 16
    ensures FixupsInSubsets(ThreeRows0(p), 3)
  {
  }

  lemma ThreeRowsGood1(p: nat)
    requires 16 <= p < 32
    ensures FixupsInSubsets(ThreeRows1(p), 3)
  {
  }

  lemma ThreeRowsGood2(p: nat)
    requires 32 <= p < 48
    ensures FixupsInSubsets(ThreeRows2(p), 3)
  {
  }

  lemma ThreeRowsGood3(p: nat)
    requires 48 <= p < 64
    ensures FixupsInSubsets(ThreeRows3(p), 3)
  {
  }

  lemma ThreeFixups(p: nat)
    requires p < 64
    ensures FixupsInSubsets(ThreeSubsets(p), 3)
  {
    if p < 16 {
      ThreeRowsGood0(p);
    } else if p < 32 {
      ThreeRowsGood1(p);
    } else if p < 48 {
      ThreeRowsGood2(p);
    } else {
      ThreeRowsGood3(p);
    }
  }

  /** Every partition into three subsets has one fix-up texel in each of them, and no other subset. */
  lemma ThreeSubsetsGood(p: nat)
    requires p < 64
    ensures GoodPartition(ThreeSubsets(p), 3)
  {
    ThreeFixups(p);
    FixupsAreEnough(ThreeSubsets(p), 3);
  }
}
