/** nanopb's field iterator: a cyclic cursor over packed field descriptors of 1, 2, 4 or 8 words. */
module FieldIterators {
  import opened Options

  /** The tests on a field's type byte that the iterator makes. */
  datatype TypeTests = TypeTests(isRequired: nat -> bool, isSubmessage: nat -> bool, isExtension: nat -> bool)

  /** A message descriptor; sizeLimit is one more than the largest value of a pb_size_t. */
  datatype Descriptor = Descriptor(fieldInfo: seq<nat>, fieldCount: nat, largestTag: nat, tests: TypeTests, sizeLimit: nat)

  /** The values of one field as they are unpacked from its words. */
  datatype Field = Field(tag: nat, typ: nat, arraySize: nat, dataSize: nat, dataOffset: nat, sizeOffset: int)

  /** What an iterator holds before any field is loaded. */
  const NO_FIELD := Field(0, 0, 0, 0, 0, 0)

  // ---------------------------------------------------------------- the packed formats

  function WordCount(word0: nat): nat {
    match word0 % 4
    case 0 => 1
    case 1 => 2
    case 2 => 4
    case _ => 8
  }

  function LowTag(word0: nat): nat {
    word0 / 0x4 % 0x40
  }

  function TypeOf(word0: nat): nat {
    word0 / 0x100 % 0x100
  }

  /** The cast of a byte to int_least8_t. */
  function SignedByte(x: nat): int {
    if x % 0x100 < 0x80 then x % 0x100 else x % 0x100 - 0x100
  }

  /** The field whose first word is w[0], before its values are cast to their types. */
  function Unpack(w: seq<nat>): Field
    requires w != [] && |w| >= WordCount(w[0])
  {
    var low, typ := LowTag(w[0]), TypeOf(w[0]);
    match w[0] % 4
    case 0 => Field(low, typ, 1, w[0] / 0x1000_0000 % 0x10, w[0] / 0x1_0000 % 0x100, w[0] / 0x100_0000 % 0x10)
    case 1 => Field(low + 0x40 * (w[1] / 0x1000_0000), typ, w[0] / 0x1_0000 % 0x1000, w[1] / 0x1_0000 % 0x1000,
                    w[1] % 0x1_0000, w[0] / 0x1000_0000 % 0x10)
    case 2 => Field(low + 0x40 * (w[1] / 0x100), typ, w[0] / 0x1_0000, w[3], w[2], SignedByte(w[1]))
    case _ => Field(low + 0x40 * (w[1] / 0x100), typ, w[4], w[3], w[2], SignedByte(w[1]))
  }

  lemma Multiples(base: nat, i: nat, j: nat)
    ensures i < j ==> base * i + base <= base * j
  {
    if i < j {
      assert base * j == base * (i + 1) + base * (j - i - 1);
    }
  }

  lemma Cut(low: nat, base: nat, high: nat)
    requires low < base
    ensures (low + base * high) / base == high && (low + base * high) % base == low
  {
    var w := low + base * high;
    var q := w / base;
    assert w == base * q + w % base;
    Multiples(base, high, q);
    Multiples(base, q, high);
  }

  /** The bits of the tag above its lowest six. */
  function HighTag(w: seq<nat>): nat
    requires w != [] && |w| >= WordCount(w[0])
  {
    match w[0] % 4
    case 0 => 0
    case 1 => w[1] / 0x1000_0000
    case _ => w[1] / 0x100
  }

  lemma TagParts(w: seq<nat>)
    requires w != [] && |w| >= WordCount(w[0])
    ensures Unpack(w).tag == LowTag(w[0]) + 0x40 * HighTag(w) && Unpack(w).typ == TypeOf(w[0])
  {
  }

  /** The lowest bits of the first word are the lowest bits of the tag, whatever the format. */
  lemma FastTagCheck(w: seq<nat>)
    requires w != [] && |w| >= WordCount(w[0])
    ensures Unpack(w).tag % 0x40 == LowTag(w[0])
    ensures Unpack(w).typ == TypeOf(w[0])
  {
    TagParts(w);
    LowBitsOfTag(LowTag(w[0]), HighTag(w), Unpack(w).tag);
  }

  lemma LowBitsOfTag(low: nat, high: nat, tag: nat)
    requires low < 0x40 && tag == low + 0x40 * high
    ensures tag % 0x40 == low
  {
    Cut(low, 0x40, high);
  }

  /** The bit widths of the short formats: what a generator must respect to use them. */
  predicate FitsOneWord(f: Field) {
    && f.tag < 0x40 && f.typ < 0x100 && f.arraySize == 1 && f.dataSize < 0x10 && f.dataOffset < 0x100
    && 0 <= f.sizeOffset < 0x10
  }

  predicate FitsTwoWords(f: Field) {
    && f.tag < 0x400 && f.typ < 0x100 && f.arraySize < 0x1000 && f.dataSize < 0x1000
    && f.dataOffset < 0x1_0000 && 0 <= f.sizeOffset < 0x10
  }

  predicate FitsFourWords(f: Field) {
    && f.tag < 0x4000_0000 && f.typ < 0x100 && f.arraySize < 0x1_0000 && f.dataSize < 0x1_0000_0000
    && f.dataOffset < 0x1_0000_0000 && -0x80 <= f.sizeOffset < 0x80
  }

  predicate FitsEightWords(f: Field) {
    && f.tag < 0x4000_0000 && f.typ < 0x100 && f.arraySize < 0x1_0000_0000 && f.dataSize < 0x1_0000_0000
    && f.dataOffset < 0x1_0000_0000 && -0x80 <= f.sizeOffset < 0x80
  }

  function PackOne(f: Field): seq<nat>
    requires f.sizeOffset >= 0
  {
    [0x4 * f.tag + 0x100 * f.typ + 0x1_0000 * f.dataOffset + 0x100_0000 * f.sizeOffset + 0x1000_0000 * f.dataSize]
  }

  function PackTwo(f: Field): seq<nat>
    requires f.sizeOffset >= 0
  {
    [1 + 0x4 * (f.tag % 0x40) + 0x100 * f.typ + 0x1_0000 * f.arraySize + 0x1000_0000 * f.sizeOffset,
     f.dataOffset + 0x1_0000 * f.dataSize + 0x1000_0000 * (f.tag / 0x40)]
  }

  function PackFour(f: Field): seq<nat> {
    [2 + 0x4 * (f.tag % 0x40) + 0x100 * f.typ + 0x1_0000 * f.arraySize,
     f.sizeOffset % 0x100 + 0x100 * (f.tag / 0x40), f.dataOffset, f.dataSize]
  }

  function PackEight(f: Field): seq<nat> {
    [3 + 0x4 * (f.tag % 0x40) + 0x100 * f.typ,
     f.sizeOffset % 0x100 + 0x100 * (f.tag / 0x40), f.dataOffset, f.dataSize, f.arraySize, 0, 0, 0]
  }

  /** The bits of x, between low ones below a and high ones above. */
  lemma Slice(low: nat, a: nat, x: nat, b: nat, high: nat)
    requires low < a && x < b
    ensures (low + a * (x + b * high)) / a == x + b * high
    ensures (low + a * (x + b * high)) / a % b == x
  {
    Cut(low, a, x + b * high);
    Cut(x, b, high);
  }

  /** The bits that all formats have in common. */
  lemma CommonBits(format: nat, tag: nat, typ: nat, rest: nat)
    requires format < 4 && tag < 0x40 && typ < 0x100
    ensures var w := format + 0x4 * tag + 0x100 * typ + 0x1_0000 * rest;
            w % 4 == format && LowTag(w) == tag && TypeOf(w) == typ && w / 0x1_0000 == rest
  {
    var w := format + 0x4 * tag + 0x100 * typ + 0x1_0000 * rest;
    Cut(format, 4, tag + 0x40 * (typ + 0x100 * rest));
    Slice(format, 0x4, tag, 0x40, typ + 0x100 * rest);
    Slice(format + 0x4 * tag, 0x100, typ, 0x100, rest);
    Cut(format + 0x4 * tag + 0x100 * typ, 0x1_0000, rest);
  }

  /** In every format the bits of different values are disjoint: unpacking gives each value back. */
  lemma UnpackOne(f: Field)
    requires FitsOneWord(f)
    ensures Unpack(PackOne(f)) == f && WordCount(PackOne(f)[0]) == |PackOne(f)|
    ensures PackOne(f)[0] < 0x1_0000_0000
  {
    var rest := f.dataOffset + 0x100 * (f.sizeOffset + 0x10 * f.dataSize);
    CommonBits(0, f.tag, f.typ, rest);
    var low := 0x4 * f.tag + 0x100 * f.typ;
    Slice(low, 0x1_0000, f.dataOffset, 0x100, f.sizeOffset + 0x10 * f.dataSize);
    Slice(low + 0x1_0000 * f.dataOffset, 0x100_0000, f.sizeOffset, 0x10, f.dataSize);
    Slice(low + 0x1_0000 * f.dataOffset + 0x100_0000 * f.sizeOffset, 0x1000_0000, f.dataSize, 0x10, 0);
  }

  lemma UnpackTwo(f: Field)
    requires FitsTwoWords(f)
    ensures Unpack(PackTwo(f)) == f && WordCount(PackTwo(f)[0]) == |PackTwo(f)|
    ensures PackTwo(f)[0] < 0x1_0000_0000 && PackTwo(f)[1] < 0x1_0000_0000
  {
    CommonBits(1, f.tag % 0x40, f.typ, f.arraySize + 0x1000 * f.sizeOffset);
    var low := 1 + 0x4 * (f.tag % 0x40) + 0x100 * f.typ;
    Slice(low, 0x1_0000, f.arraySize, 0x1000, f.sizeOffset);
    Slice(low + 0x1_0000 * f.arraySize, 0x1000_0000, f.sizeOffset, 0x10, 0);
    Cut(f.dataOffset, 0x1_0000, f.dataSize + 0x1000 * (f.tag / 0x40));
    Slice(f.dataOffset, 0x1_0000, f.dataSize, 0x1000, f.tag / 0x40);
    Cut(f.dataOffset + 0x1_0000 * f.dataSize, 0x1000_0000, f.tag / 0x40);
  }

  lemma UnpackFour(f: Field)
    requires FitsFourWords(f)
    ensures Unpack(PackFour(f)) == f && WordCount(PackFour(f)[0]) == |PackFour(f)|
    ensures PackFour(f)[0] < 0x1_0000_0000 && PackFour(f)[1] < 0x1_0000_0000
  {
    CommonBits(2, f.tag % 0x40, f.typ, f.arraySize);
    Cut(f.sizeOffset % 0x100, 0x100, f.tag / 0x40);
  }

  lemma UnpackEight(f: Field)
    requires FitsEightWords(f)
    ensures Unpack(PackEight(f)) == f && WordCount(PackEight(f)[0]) == |PackEight(f)|
    ensures PackEight(f)[0] < 0x1_0000_0000 && PackEight(f)[1] < 0x1_0000_0000
  {
    CommonBits(3, f.tag % 0x40, f.typ, 0);
    Cut(f.sizeOffset % 0x100, 0x100, f.tag / 0x40);
  }

  /** The casts of tag, array size and data size to pb_size_t when a field is loaded. */
  function Cast(f: Field, sizeLimit: nat): Field
    requires sizeLimit > 0
  {
    f.(tag := f.tag % sizeLimit, arraySize := f.arraySize % sizeLimit, dataSize := f.dataSize % sizeLimit)
  }

  /** The casts lose nothing exactly if the three values are in the range of the type. */
  lemma CastKeeps(f: Field, sizeLimit: nat)
    requires sizeLimit > 0
    ensures Cast(f, sizeLimit) == f <==> f.tag < sizeLimit && f.arraySize < sizeLimit && f.dataSize < sizeLimit
  {
  }

  lemma LowBitsOfCast(x: nat, sizeLimit: nat)
    requires sizeLimit > 0 && sizeLimit % 0x40 == 0
    ensures x % sizeLimit % 0x40 == x % 0x40
  {
    var n, q, r := sizeLimit / 0x40, x / sizeLimit, x % sizeLimit;
    assert x == (0x40 * n) * q + r == 0x40 * (n * q) + r;
    Cut(r % 0x40, 0x40, n * q + r / 0x40);
  }

  // ---------------------------------------------------------------- the table

  /** The first word at an index, or 0 past the end. */
  ghost function WordAt(d: Descriptor, i: nat): nat {
    if i < |d.fieldInfo| then d.fieldInfo[i] else 0
  }

  /** The index of the first word of the k-th field. */
  ghost function Start(d: Descriptor, k: nat): nat {
    if k == 0 then 0 else Start(d, k - 1) + WordCount(WordAt(d, Start(d, k - 1)))
  }

  ghost predicate InTable(d: Descriptor, k: nat) {
    && Start(d, k) < |d.fieldInfo|
    && Start(d, k + 1) <= |d.fieldInfo|
  }

  /** The k-th field as it is loaded. */
  ghost function FieldAt(d: Descriptor, k: nat): Field
    requires InTable(d, k) && d.sizeLimit > 0
  {
    Cast(Unpack(d.fieldInfo[Start(d, k)..]), d.sizeLimit)
  }

  lemma TypeInFirstWord(d: Descriptor, k: nat)
    requires InTable(d, k) && d.sizeLimit > 0 && d.sizeLimit % 0x40 == 0
    ensures FieldAt(d, k).typ == TypeOf(d.fieldInfo[Start(d, k)])
    ensures FieldAt(d, k).tag % 0x40 == LowTag(d.fieldInfo[Start(d, k)])
  {
    FastTagCheck(d.fieldInfo[Start(d, k)..]);
    LowBitsOfCast(Unpack(d.fieldInfo[Start(d, k)..]).tag, d.sizeLimit);
  }

  /** The type byte of the k-th field. */
  ghost function TypeAt(d: Descriptor, k: nat): nat {
    TypeOf(WordAt(d, Start(d, k)))
  }

  /** How many of the first k fields are submessages, or required. */
  ghost function Count(d: Descriptor, k: nat, test: nat -> bool): nat {
    if k == 0 then 0 else Count(d, k - 1, test) + if test(TypeAt(d, k - 1)) then 1 else 0
  }

  /** What the generator guarantees of its tables; a pb_size_t has 8, 16 or 32 bits. */
  ghost predicate WellFormed(d: Descriptor) {
    && d.sizeLimit % 0x40 == 0 && 0 < |d.fieldInfo| < d.sizeLimit
    && !d.tests.isExtension(NO_FIELD.typ)
    && d.fieldCount + 1 < d.sizeLimit
    && (forall k | 0 <= k < d.fieldCount :: InTable(d, k))
  }

  /** Fields are in the order of their tags, and largestTag bounds them; it is 0 if there are none. */
  ghost predicate TagsInOrder(d: Descriptor)
    requires WellFormed(d)
  {
    && (forall j, k | 0 <= j < k < d.fieldCount :: FieldAt(d, j).tag < FieldAt(d, k).tag)
    && (forall k | 0 <= k < d.fieldCount :: FieldAt(d, k).tag <= d.largestTag)
    && (d.fieldCount == 0 ==> d.largestTag == 0)
  }

  lemma {:induction false} CountBounded(d: Descriptor, k: nat, test: nat -> bool)
    ensures Count(d, k, test) <= k
  {
    if k > 0 {
      CountBounded(d, k - 1, test);
    }
  }

  /** The first word of the next field, one field further on. */
  lemma NextStart(d: Descriptor, k: nat)
    requires WellFormed(d) && k + 1 < d.fieldCount
    ensures Start(d, k) < |d.fieldInfo|
    ensures Start(d, k + 1) == Start(d, k) + WordCount(d.fieldInfo[Start(d, k)]) < d.sizeLimit
  {
    assert InTable(d, k) && InTable(d, k + 1);
  }

  /** The fields still to be visited by a cyclic search that goes on from index until it is back at start. */
  ghost predicate Ahead(k: nat, index: nat, start: nat) {
    if index > start then k > index || k <= start else index < k <= start
  }

  class FieldIterator {
    const descriptor: Descriptor
    var index: nat
    var fieldInfoIndex: nat
    var requiredFieldIndex: nat
    var submessageIndex: nat
    var field: Field
    var submessage: Option<nat>

    /** The counters are the prefix sums over the fields before the current one. */
    ghost predicate Synced()
      reads this
    {
      && WellFormed(descriptor)
      && (index < descriptor.fieldCount || (index == 0 == descriptor.fieldCount))
      && fieldInfoIndex == Start(descriptor, index)
      && requiredFieldIndex == Count(descriptor, index, descriptor.tests.isRequired)
      && submessageIndex == Count(descriptor, index, descriptor.tests.isSubmessage)
      && (descriptor.fieldCount == 0 ==> field == NO_FIELD && submessage == None)
    }

    /** The loaded values are those of the current field. */
    ghost predicate Loaded()
      requires WellFormed(descriptor)
      reads this
    {
      index < descriptor.fieldCount ==>
        && field == FieldAt(descriptor, index)
        && submessage == if descriptor.tests.isSubmessage(field.typ) then Some(submessageIndex) else None
    }

    /** The cursor is at field k, with everything loaded. */
    ghost predicate At(k: nat)
      reads this
    {
      Synced() && index == k && Loaded()
    }

    method LoadDescriptorValues() returns (loaded: bool)
      requires Synced()
      modifies `field, `submessage
      ensures loaded <==> index < descriptor.fieldCount
      ensures Loaded()
      ensures !loaded ==> field == old(field) && submessage == old(submessage)
    {
      if index >= descriptor.fieldCount {
        return false;
      }
      assert InTable(descriptor, index);
      field := Cast(Unpack(descriptor.fieldInfo[fieldInfoIndex..]), descriptor.sizeLimit);
      submessage := if descriptor.tests.isSubmessage(field.typ) then Some(submessageIndex) else None;
      loaded := true;
    }

    /** Moves to the next field, or from the last one, or from the end, to the first. */
    method AdvanceIterator()
      requires Synced() || (WellFormed(descriptor) && index == descriptor.fieldCount > 0)
      modifies `index, `fieldInfoIndex, `requiredFieldIndex, `submessageIndex
      ensures Synced()
      ensures index == if old(index) + 1 < descriptor.fieldCount then old(index) + 1 else 0
    {
      index := Wrapped(index + 1);
      if index >= descriptor.fieldCount {
        index, fieldInfoIndex, submessageIndex, requiredFieldIndex := 0, 0, 0, 0;
      } else {
        IncrementIndexes();
      }
    }

    /** Adds the previous field, the one before index, to the counters. */
    method IncrementIndexes()
      requires WellFormed(descriptor) && 0 < index < descriptor.fieldCount
      requires fieldInfoIndex == Start(descriptor, index - 1)
      requires requiredFieldIndex == Count(descriptor, index - 1, descriptor.tests.isRequired)
      requires submessageIndex == Count(descriptor, index - 1, descriptor.tests.isSubmessage)
      modifies `fieldInfoIndex, `requiredFieldIndex, `submessageIndex
      ensures fieldInfoIndex == Start(descriptor, index)
      ensures requiredFieldIndex == Count(descriptor, index, descriptor.tests.isRequired)
      ensures submessageIndex == Count(descriptor, index, descriptor.tests.isSubmessage)
    {
      NextStart(descriptor, index - 1);
      var prevDescriptor := descriptor.fieldInfo[fieldInfoIndex];
      var prevType := TypeOf(prevDescriptor);
      fieldInfoIndex := Wrapped(fieldInfoIndex + WordCount(prevDescriptor));
      CountUp(prevType);
    }

    /** Counts the previous field as required or as a submessage. */
    method CountUp(prevType: nat)
      requires WellFormed(descriptor) && 0 < index < descriptor.fieldCount && prevType == TypeAt(descriptor, index - 1)
      requires requiredFieldIndex == Count(descriptor, index - 1, descriptor.tests.isRequired)
      requires submessageIndex == Count(descriptor, index - 1, descriptor.tests.isSubmessage)
      modifies `requiredFieldIndex, `submessageIndex
      ensures requiredFieldIndex == Count(descriptor, index, descriptor.tests.isRequired)
      ensures submessageIndex == Count(descriptor, index, descriptor.tests.isSubmessage)
    {
      CountBounded(descriptor, index, descriptor.tests.isRequired);
      CountBounded(descriptor, index, descriptor.tests.isSubmessage);
      requiredFieldIndex := Wrapped(requiredFieldIndex + if descriptor.tests.isRequired(prevType) then 1 else 0);
      submessageIndex := Wrapped(submessageIndex + if descriptor.tests.isSubmessage(prevType) then 1 else 0);
    }

    /** The cast to pb_size_t. */
    function Wrapped(x: nat): (y: nat)
      requires descriptor.sizeLimit > 0
      ensures x < descriptor.sizeLimit ==> y == x
    {
      if x < descriptor.sizeLimit then x else x % descriptor.sizeLimit
    }

    /** An iterator before anything is loaded. */
    constructor (descriptor: Descriptor)
      requires WellFormed(descriptor)
      ensures this.descriptor == descriptor && Synced() && index == 0 && field == NO_FIELD
    {
      this.descriptor := descriptor;
      index, fieldInfoIndex, requiredFieldIndex, submessageIndex := 0, 0, 0, 0;
      field, submessage := NO_FIELD, None;
    }

    method Next() returns (more: bool)
      requires Synced()
      modifies this
      ensures At(if old(index) + 1 < descriptor.fieldCount then old(index) + 1 else 0)
      ensures more <==> old(index) + 1 < descriptor.fieldCount
    {
      AdvanceIterator();
      var loaded := LoadDescriptorValues();
      more := index != 0;
    }

    /** Field k is one that a search for the tag stops at. */
    ghost predicate Matches(k: nat, tag: nat)
      requires WellFormed(descriptor)
    {
      k < descriptor.fieldCount && FieldAt(descriptor, k).tag == tag
      && !descriptor.tests.isExtension(FieldAt(descriptor, k).typ)
    }

    ghost function StepsAhead(start: nat): int
      reads `index
    {
      if index > start then descriptor.fieldCount - index + start else start - index
    }

    /**
    Finds a field by its tag from any position. The position already loaded counts even for an
    extension field; on failure nothing has changed.
     */
    method Find(tag: nat) returns (found: bool)
      requires Synced() && Loaded() && TagsInOrder(descriptor)
      modifies this
      ensures found <==> old(field.tag) == tag || exists k :: Matches(k, tag)
      ensures found ==> At(index) && field.tag == tag
      ensures !found ==> index == old(index) && field == old(field) && submessage == old(submessage)
      ensures !found ==> fieldInfoIndex == old(fieldInfoIndex) && requiredFieldIndex == old(requiredFieldIndex)
                         && submessageIndex == old(submessageIndex)
    {
      if field.tag == tag {
        return true;
      }
      if tag > descriptor.largestTag {
        return false;
      }
      var start := index;
      if tag < field.tag {
        SearchRange(start, tag);
        index := descriptor.fieldCount;
      }
      ghost var hits := set k | 0 <= k < descriptor.fieldCount && Matches(k, tag);
      found := SearchUntil(start, tag, hits);
      if !found {
        var loaded := LoadDescriptorValues();
      }
    }

    lemma SearchRange(start: nat, tag: nat)
      requires WellFormed(descriptor) && TagsInOrder(descriptor) && start < descriptor.fieldCount
      requires tag < FieldAt(descriptor, start).tag
      ensures forall k: nat | Matches(k, tag) :: k < start
    {
    }

    /** Advances once and tests the field there: first the lowest bits of its tag, then everything. */
    method TryNext(tag: nat, ghost hits: set<nat>) returns (hit: bool)
      requires 0 < descriptor.fieldCount && WellFormed(descriptor) && HitsAre(hits, tag)
      requires Synced() || (WellFormed(descriptor) && index == descriptor.fieldCount > 0)
      modifies this
      ensures Synced()
      ensures index == if old(index) + 1 < descriptor.fieldCount then old(index) + 1 else 0
      ensures hit <==> index in hits
      ensures hit ==> Loaded() && field.tag == tag
    {
      AdvanceIterator();
      assert InTable(descriptor, index);
      var fieldinfo := descriptor.fieldInfo[fieldInfoIndex];
      TypeInFirstWord(descriptor, index);
      hit := false;
      if LowTag(fieldinfo) == tag % 0x40 {
        var loaded := LoadDescriptorValues();
        hit := field.tag == tag && !descriptor.tests.isExtension(field.typ);
      }
      assert hit <==> Matches(index, tag);
    }

    /** The cyclic search, from the current position on until it is back at start. */
    method SearchUntil(start: nat, tag: nat, ghost hits: set<nat>) returns (hit: bool)
      requires WellFormed(descriptor) && start < descriptor.fieldCount && HitsAre(hits, tag)
      requires forall k | k in hits :: k < descriptor.fieldCount
      requires index == descriptor.fieldCount || (index == start && Synced())
      requires index == descriptor.fieldCount ==> forall k | k in hits :: k <= start
      modifies this
      ensures Synced() && (hit <==> hits != {})
      ensures hit ==> Loaded() && field.tag == tag
      ensures !hit ==> index == start
    {
      hit := TryNext(tag, hits);
      while !hit && index != start
        invariant Synced()
        invariant hit ==> index in hits && Loaded() && field.tag == tag
        invariant !hit ==> forall k | k in hits :: Ahead(k, index, start)
        decreases StepsAhead(start), !hit
      {
        hit := TryNext(tag, hits);
      }
    }

    /** The positions at which a search for the tag stops. */
    ghost predicate HitsAre(hits: set<nat>, tag: nat)
      requires WellFormed(descriptor)
    {
      forall k: nat {:trigger Matches(k, tag)} :: k in hits <==> Matches(k, tag)
    }

    ghost predicate ExtensionAt(k: nat) {
      k < descriptor.fieldCount && descriptor.tests.isExtension(TypeAt(descriptor, k))
    }

    /** The fast test on the type bits of the first word. */
    predicate ExtensionHere()
      requires Synced()
      reads this
      ensures 0 < descriptor.fieldCount ==> ExtensionHere() == ExtensionAt(index)
    {
      assert 0 < descriptor.fieldCount ==> InTable(descriptor, index);
      descriptor.tests.isExtension(TypeOf(descriptor.fieldInfo[fieldInfoIndex]))
    }

    /** Finds the extension range field of the message, from any position. */
    method FindExtension() returns (found: bool)
      requires Synced() && Loaded()
      modifies this
      ensures found <==> exists k :: ExtensionAt(k)
      ensures found ==> At(index) && ExtensionAt(index)
      ensures !found ==> At(old(index))
    {
      if index < descriptor.fieldCount {
        assert InTable(descriptor, index);
        TypeInFirstWord(descriptor, index);
      }
      if descriptor.tests.isExtension(field.typ) {
        assert ExtensionAt(index);
        return true;
      }
      var here := SkipToExtension(index, set k | 0 <= k < descriptor.fieldCount && ExtensionAt(k));
      var loaded := LoadDescriptorValues();
      found := here && loaded;
    }

    /** The cyclic search for an extension field, until the cursor is back at start. */
    method SkipToExtension(start: nat, ghost hits: set<nat>) returns (found: bool)
      requires Synced() && index == start
      requires forall k: nat {:trigger ExtensionAt(k)} :: k in hits <==> ExtensionAt(k)
      requires forall k | k in hits :: k < descriptor.fieldCount
      modifies `index, `fieldInfoIndex, `requiredFieldIndex, `submessageIndex
      ensures Synced() && (!found ==> index == start)
      ensures 0 < descriptor.fieldCount ==> (found <==> hits != {}) && (found ==> ExtensionAt(index))
      ensures descriptor.fieldCount == 0 ==> index == start
    {
      AdvanceIterator();
      while !ExtensionHere() && index != start
        invariant Synced()
        invariant forall k | k in hits && k != index :: Ahead(k, index, start)
        invariant descriptor.fieldCount == 0 ==> index == start
        decreases StepsAhead(start)
      {
        AdvanceIterator();
      }
      found := ExtensionHere();
    }
  }

  /** pb_field_iter_begin: the first field is loaded; false for a message without fields. */
  method Begin(d: Descriptor) returns (iter: FieldIterator, loaded: bool)
    requires WellFormed(d)
    ensures fresh(iter) && iter.descriptor == d && iter.At(0)
    ensures loaded <==> d.fieldCount > 0
  {
    iter := new FieldIterator(d);
    loaded := iter.LoadDescriptorValues();
  }

  /** The first k fields of the table. */
  ghost function Fields(d: Descriptor, k: nat): (fields: seq<Field>)
    requires WellFormed(d) && k <= d.fieldCount
    ensures |fields| == k
  {
    if k == 0 then [] else Fields(d, k - 1) + [FieldAt(d, k - 1)]
  }

  /** Begin, then next until it says false: every field once, in order. */
  method VisitAll(d: Descriptor) returns (fields: seq<Field>)
    requires WellFormed(d)
    ensures fields == Fields(d, d.fieldCount)
    ensures AreEntries(d, fields)
  {
    var iter, more := Begin(d);
    fields := VisitFrom(d, iter, more);
    EntriesAreFields(d, fields);
  }

  /** The loop of the visit, from the first field on. */
  method VisitFrom(ghost d: Descriptor, iter: FieldIterator, loaded: bool) returns (fields: seq<Field>)
    requires WellFormed(d) && iter.descriptor == d && iter.At(0) && (loaded <==> d.fieldCount > 0)
    modifies iter
    ensures fields == Fields(d, d.fieldCount)
  {
    fields := [];
    var more := loaded;
    ghost var k := 0;
    while more
      invariant k <= d.fieldCount && fields == Fields(d, k)
      invariant more <==> k < d.fieldCount
      invariant more ==> iter.At(k)
      modifies iter
      decreases d.fieldCount - k
    {
      FieldAdded(d, k);
      fields := fields + [iter.field];
      more := iter.Next();
      k := k + 1;
    }
  }

  lemma FieldAdded(d: Descriptor, k: nat)
    requires WellFormed(d) && k < d.fieldCount
    ensures Fields(d, k + 1) == Fields(d, k) + [FieldAt(d, k)]
  {
  }

  // ---------------------------------------------------------------- tables of packed fields

  datatype Format = OneWord | TwoWords | FourWords | EightWords

  /** A field and the format a generator chose for it. */
  datatype Entry = Entry(field: Field, format: Format)

  predicate EntryFits(e: Entry) {
    match e.format
    case OneWord => FitsOneWord(e.field)
    case TwoWords => FitsTwoWords(e.field)
    case FourWords => FitsFourWords(e.field)
    case EightWords => FitsEightWords(e.field)
  }

  function Pack(e: Entry): (w: seq<nat>)
    requires EntryFits(e)
  {
    match e.format
    case OneWord => PackOne(e.field)
    case TwoWords => PackTwo(e.field)
    case FourWords => PackFour(e.field)
    case EightWords => PackEight(e.field)
  }

  /** The packed fields one after another. */
  function Table(es: seq<Entry>): seq<nat>
    requires forall e | e in es :: EntryFits(e)
  {
    if es == [] then [] else Table(es[..|es| - 1]) + Pack(es[|es| - 1])
  }

  /** The message has these fields. */
  ghost predicate HoldsEntries(d: Descriptor, es: seq<Entry>) {
    |es| == d.fieldCount && (forall e | e in es :: EntryFits(e)) && Table(es) <= d.fieldInfo
  }

  ghost predicate AreCasts(fields: seq<Field>, es: seq<Entry>, sizeLimit: nat)
    requires sizeLimit > 0
  {
    |fields| == |es| && forall k | 0 <= k < |es| :: fields[k] == Cast(es[k].field, sizeLimit)
  }

  /** Whatever entries the table was packed from, these are their fields, cast. */
  ghost predicate AreEntries(d: Descriptor, fields: seq<Field>)
    requires d.sizeLimit > 0
  {
    forall es | HoldsEntries(d, es) :: AreCasts(fields, es, d.sizeLimit)
  }

  lemma PackedWords(e: Entry)
    requires EntryFits(e)
    ensures |Pack(e)| > 0 && WordCount(Pack(e)[0]) == |Pack(e)| && Unpack(Pack(e)) == e.field
  {
    match e.format
    case OneWord => UnpackOne(e.field);
    case TwoWords => UnpackTwo(e.field);
    case FourWords => UnpackFour(e.field);
    case EightWords => UnpackEight(e.field);
  }

  lemma UnpackPrefix(w: seq<nat>, rest: seq<nat>)
    requires w != [] && |w| == WordCount(w[0])
    ensures Unpack(w + rest) == Unpack(w)
  {
  }

  lemma {:induction false} TablePrefix(es: seq<Entry>, k: nat)
    requires k <= |es| && forall e | e in es :: EntryFits(e)
    ensures Table(es[..k]) <= Table(es)
  {
    if k == |es| {
      assert es[..k] == es;
    } else {
      TablePrefix(es[..|es| - 1], k);
      assert es[..|es| - 1][..k] == es[..k];
    }
  }

  /** Each entry starts where those before it end. */
  lemma {:induction false} EntryStart(d: Descriptor, es: seq<Entry>, k: nat)
    requires HoldsEntries(d, es) && k <= |es|
    ensures Start(d, k) == |Table(es[..k])|
  {
    if k > 0 {
      EntryStart(d, es, k - 1);
      EntryWords(d, es, k - 1);
      OneEntryOn(d, k - 1, es[k - 1], |Table(es[..k - 1])|);
    }
  }

  lemma OneEntryOn(d: Descriptor, k: nat, e: Entry, start: nat)
    requires EntryFits(e) && Start(d, k) == start <= |d.fieldInfo| && Pack(e) <= d.fieldInfo[start..]
    ensures Start(d, k + 1) == start + |Pack(e)|
  {
    PackedWords(e);
    WordsSkipped(d, k, Pack(e));
  }

  lemma WordsSkipped(d: Descriptor, k: nat, w: seq<nat>)
    requires Start(d, k) <= |d.fieldInfo| && w <= d.fieldInfo[Start(d, k)..] && w != [] && WordCount(w[0]) == |w|
    ensures Start(d, k + 1) == Start(d, k) + |w|
  {
    assert d.fieldInfo[Start(d, k)] == d.fieldInfo[Start(d, k)..][0] == w[0];
  }

  /** The words of an entry, where it lies. */
  lemma EntryWords(d: Descriptor, es: seq<Entry>, k: nat)
    requires HoldsEntries(d, es) && k < |es|
    ensures |Table(es[..k + 1])| == |Table(es[..k])| + |Pack(es[k])| <= |d.fieldInfo|
    ensures Pack(es[k]) <= d.fieldInfo[|Table(es[..k])|..]
  {
    TablePrefix(es, k + 1);
    assert es[..k + 1][..k] == es[..k];
    WordsAt(Table(es[..k]), Pack(es[k]), Table(es[..k + 1]), d.fieldInfo);
  }

  lemma WordsAt(before: seq<nat>, w: seq<nat>, both: seq<nat>, all: seq<nat>)
    requires both == before + w && both <= all
    ensures |before| + |w| <= |all| && w <= all[|before|..]
  {
    assert all[|before|..][..|w|] == both[|before|..] == w;
  }

  lemma EntryLoaded(d: Descriptor, es: seq<Entry>, k: nat)
    requires d.sizeLimit > 0 && HoldsEntries(d, es) && k < |es|
    ensures InTable(d, k) && FieldAt(d, k) == Cast(es[k].field, d.sizeLimit)
  {
    EntryStart(d, es, k);
    EntryStart(d, es, k + 1);
    EntryWords(d, es, k);
    PackedWords(es[k]);
    UnpackAt(d.fieldInfo[Start(d, k)..], Pack(es[k]));
  }

  lemma UnpackAt(words: seq<nat>, w: seq<nat>)
    requires w != [] && |w| == WordCount(w[0]) && w <= words
    ensures Unpack(words) == Unpack(w)
  {
    assert words == w + words[|w|..];
    UnpackPrefix(w, words[|w|..]);
  }

  lemma {:induction false} FieldsHold(d: Descriptor, n: nat, k: nat)
    requires WellFormed(d) && k < n <= d.fieldCount
    ensures Fields(d, n)[k] == FieldAt(d, k)
  {
    if k < n - 1 {
      FieldsHold(d, n - 1, k);
    }
  }

  /** The fields of such a table are the entries, cast. */
  lemma EntriesAreFields(d: Descriptor, fields: seq<Field>)
    requires WellFormed(d) && fields == Fields(d, d.fieldCount)
    ensures AreEntries(d, fields)
  {
    forall es: seq<Entry> | HoldsEntries(d, es) ensures AreCasts(fields, es, d.sizeLimit) {
      TheseAreFields(d, es);
    }
  }

  lemma TheseAreFields(d: Descriptor, es: seq<Entry>)
    requires WellFormed(d) && HoldsEntries(d, es)
    ensures AreCasts(Fields(d, d.fieldCount), es, d.sizeLimit)
  {
    forall k | 0 <= k < |es| ensures Fields(d, d.fieldCount)[k] == Cast(es[k].field, d.sizeLimit) {
      FieldsHold(d, d.fieldCount, k);
      EntryLoaded(d, es, k);
    }
  }
}
