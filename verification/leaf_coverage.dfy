/**
Which leaves of a test case run, from the program alone, and what the trackers have to remember for
that. A section that throws throws on each visit, at the latest when it has met the subsections
before its throw; it fails on the first visit that no subsection threw out of, and is not entered again.
 */
module LeafCoverage {
  import opened TrackerStates
  import opened RunCounts

  /** The leaves that run in a section until its tracker is complete. */
  function Ran(s: Section, p: Path): seq<Path> {
    if s.children == [] then [p]
    else if Throws(s) then QuietOf(s.children, s.throwAt, p)
    else RanOf(s.children, |s.children|, p)
  }

  /** The same for the first n of some siblings. */
  function RanOf(cs: seq<Section>, n: nat, p: Path): seq<Path>
    requires n <= |cs|
  {
    if n == 0 then [] else Ran(cs[0], p + [cs[0].name]) + RanOf(cs[1..], n - 1, p)
  }

  /** The leaves that run in a section without a throw of its own, up to the first visit that nothing throws out of. */
  function Quiet(s: Section, p: Path): seq<Path> {
    if s.children == [] then [p] else QuietOf(s.children, |s.children|, p)
  }

  function QuietOf(cs: seq<Section>, n: nat, p: Path): seq<Path>
    requires n <= |cs|
  {
    if n == 0 then []
    else if Throws(cs[0]) then Ran(cs[0], p + [cs[0].name]) + QuietOf(cs[1..], n - 1, p)
    else Quiet(cs[0], p + [cs[0].name])
  }

  /** The leaves that run in a test case; a throw of its own is caught and does not fail it. */
  function RanLeaves(testCase: Section, p: Path): seq<Path> {
    if testCase.children == [] then [p] else RanOf(testCase.children, Limit(testCase), p)
  }

  // ---------------------------------------------------------------- when all leaves run

  /** Every leaf of the section runs. */
  predicate KeepsLeaves(s: Section) {
    s.children == []
    || if Throws(s) then s.throwAt == |s.children| && KeepsWhileLoud(s.children) else KeepsAll(s.children)
  }

  predicate KeepsAll(cs: seq<Section>) {
    cs == [] || (KeepsLeaves(cs[0]) && KeepsAll(cs[1..]))
  }

  /** All but the last throw, and of the last all leaves run before a visit that nothing throws out of. */
  predicate KeepsWhileLoud(cs: seq<Section>) {
    cs == []
    || if Throws(cs[0]) then KeepsLeaves(cs[0]) && KeepsWhileLoud(cs[1..])
       else |cs| == 1 && (cs[0].children == [] || KeepsWhileLoud(cs[0].children))
  }

  /** No leaf of the test case is lost: it meets all its subsections, and all their leaves run. */
  predicate NoLeafLost(testCase: Section) {
    testCase.children == [] || (Limit(testCase) == |testCase.children| && KeepsAll(testCase.children))
  }

  lemma {:induction false} SomeLeaf(s: Section, p: Path)
    ensures |Leaves(s, p)| > 0
  {
    if s.children != [] {
      SomeLeaf(s.children[0], p + [s.children[0].name]);
    }
  }

  /** Of each section either all leaves run, in order, or fewer. */
  lemma {:induction false} KeepsExactly(s: Section, p: Path)
    ensures if KeepsLeaves(s) then Ran(s, p) == Leaves(s, p) else |Ran(s, p)| < |Leaves(s, p)|
    decreases s, 1
  {
    if s.children != [] {
      if Throws(s) {
        KeepsWhileLoudExactly(s.children, s.throwAt, p);
      } else {
        KeepsAllExactly(s.children, |s.children|, p);
      }
    }
  }

  lemma {:induction false} KeepsAllExactly(cs: seq<Section>, n: nat, p: Path)
    requires n <= |cs|
    ensures if n == |cs| && KeepsAll(cs) then RanOf(cs, n, p) == LeavesOf(cs, p) else |RanOf(cs, n, p)| < |LeavesOf(cs, p)|
    decreases cs, 0
  {
    if cs != [] {
      SomeLeaf(cs[0], p + [cs[0].name]);
      if n > 0 {
        KeepsExactly(cs[0], p + [cs[0].name]);
        KeepsAllExactly(cs[1..], n - 1, p);
      }
    }
  }

  lemma {:induction false} KeepsWhileLoudExactly(cs: seq<Section>, n: nat, p: Path)
    requires n <= |cs|
    ensures if n == |cs| && KeepsWhileLoud(cs) then QuietOf(cs, n, p) == LeavesOf(cs, p)
            else |QuietOf(cs, n, p)| < |LeavesOf(cs, p)|
    decreases cs, 0
  {
    if cs != [] {
      var q := p + [cs[0].name];
      SomeLeaf(cs[0], q);
      if n > 0 && Throws(cs[0]) {
        KeepsExactly(cs[0], q);
        KeepsWhileLoudExactly(cs[1..], n - 1, p);
      } else if n > 0 {
        if cs[0].children != [] {
          KeepsWhileLoudExactly(cs[0].children, |cs[0].children|, q);
        }
        if |cs| > 1 {
          SomeLeaf(cs[1], p + [cs[1].name]);
        }
      }
    }
  }

  /** The leaves that run are all leaves exactly if the program loses none. */
  lemma AllRunExactly(testCase: Section, p: Path)
    ensures RanLeaves(testCase, p) == Leaves(testCase, p) <==> NoLeafLost(testCase)
  {
    if testCase.children != [] {
      KeepsAllExactly(testCase.children, Limit(testCase), p);
    }
  }

  lemma {:induction false} LeafThrowsKeep(s: Section)
    requires OnlyLeavesThrow(s)
    ensures KeepsLeaves(s)
    decreases s, 1
  {
    LeafThrowsKeepAll(s.children);
  }

  lemma {:induction false} LeafThrowsKeepAll(cs: seq<Section>)
    requires forall i | 0 <= i < |cs| :: OnlyLeavesThrow(cs[i])
    ensures KeepsAll(cs)
    decreases cs, 0
  {
    if cs != [] {
      LeafThrowsKeep(cs[0]);
      LeafThrowsKeepAll(cs[1..]);
    }
  }

  /** Throws of leaves lose nothing. */
  lemma LeafThrowsLoseNothing(testCase: Section)
    requires OnlyLeavesThrow(testCase)
    ensures NoLeafLost(testCase)
  {
    if testCase.children != [] {
      LeafThrowsKeepAll(testCase.children);
    }
  }

  lemma {:induction false} ThrowlessOnlyLeaves(s: Section)
    requires NothingThrows(s)
    ensures OnlyLeavesThrow(s)
  {
    forall i | 0 <= i < |s.children| ensures OnlyLeavesThrow(s.children[i]) {
      ThrowlessOnlyLeaves(s.children[i]);
    }
  }

  lemma ThrowlessKeeps(testCase: Section)
    requires NothingThrows(testCase)
    ensures NoLeafLost(testCase)
  {
    ThrowlessOnlyLeaves(testCase);
    LeafThrowsLoseNothing(testCase);
  }

  lemma TwoLeaves(s: Section, first: Section, second: Section, q: Path)
    requires first.children == [] && !Throws(first) && second.children == []
    requires s.children == [first, second] && s.throwAt == 2
    ensures Ran(s, q) == [q + [first.name]]
    ensures Leaves(s, q) == [q + [first.name], q + [second.name]]
  {
    assert QuietOf(s.children, 2, q) == Quiet(first, q + [first.name]);
    assert s.children[1..] == [second];
    assert LeavesOf([second], q) == Leaves(second, q + [second.name]) + LeavesOf([], q);
    assert LeavesOf(s.children, q) == Leaves(first, q + [first.name]) + LeavesOf([second], q);
  }

  lemma OnlyChild(testCase: Section, s: Section, p: Path)
    requires testCase.children == [s] && !Throws(testCase)
    ensures RanLeaves(testCase, p) == Ran(s, p + [s.name]) && Leaves(testCase, p) == Leaves(s, p + [s.name])
  {
    assert testCase.children[1..] == [];
    assert RanOf(testCase.children, 1, p) == Ran(s, p + [s.name]) + RanOf(testCase.children[1..], 0, p);
    assert LeavesOf(testCase.children, p) == Leaves(s, p + [s.name]) + LeavesOf(testCase.children[1..], p);
  }

  /**
  A section that throws after both its subsections, none of which throws, loses the leaf of the
  second one, although it has met it on its only visit.
   */
  lemma TwoChildrenLoseOne(testCase: Section, s: Section, first: Section, second: Section, p: Path)
    requires first.children == [] && !Throws(first) && second.children == []
    requires s.children == [first, second] && s.throwAt == 2
    requires testCase.children == [s] && !Throws(testCase)
    ensures !NoLeafLost(testCase)
    ensures RanLeaves(testCase, p) == [p + [s.name] + [first.name]]
    ensures Leaves(testCase, p) == [p + [s.name] + [first.name], p + [s.name] + [second.name]]
  {
    TwoLeaves(s, first, second, p + [s.name]);
    OnlyChild(testCase, s, p);
    AllRunExactly(testCase, p);
  }

  // ---------------------------------------------------------------- what the trackers remember

  /** Each visit to the section so far threw. */
  ghost predicate Loud(s: Section, p: Path, st: States) {
    if IsComplete(st, p) then Throws(s) else LoudAll(s.children, p, st)
  }

  ghost predicate LoudAll(cs: seq<Section>, p: Path, st: States) {
    cs == [] || (Loud(cs[0], p + [cs[0].name], st) && LoudAll(cs[1..], p, st))
  }

  /** Nothing is known of the subsections that are never met. */
  ghost predicate UnmetFresh(s: Section, p: Path, st: States) {
    forall k | Limit(s) <= k < |s.children| :: Fresh(st, p + [s.children[k].name])
  }

  /** The leaves that ran in complete sections are the right ones; an incomplete section that throws was always loud. */
  ghost predicate Exact(s: Section, p: Path, st: States) {
    && (IsComplete(st, p) ==> DoneLeaves(s, p, st) == Ran(s, p))
    && (!IsComplete(st, p) && Throws(s) ==> LoudAll(s.children, p, st))
    && UnmetFresh(s, p, st)
    && ExactAll(s.children, p, st)
  }

  ghost predicate ExactAll(cs: seq<Section>, p: Path, st: States) {
    cs == [] || (Exact(cs[0], p + [cs[0].name], st) && ExactAll(cs[1..], p, st))
  }

  lemma FramedUnmet(s: Section, p: Path, st: States, st': States)
    requires SameBelow(st, st', p)
    ensures UnmetFresh(s, p, st) == UnmetFresh(s, p, st')
  {
    forall k | Limit(s) <= k < |s.children|
      ensures Fresh(st, p + [s.children[k].name]) == Fresh(st', p + [s.children[k].name])
    {
      FramedFresh(p + [s.children[k].name], st, st');
    }
  }

  lemma {:induction false} FramedExact(s: Section, p: Path, st: States, st': States)
    requires SameUnder(st, st', p)
    ensures Loud(s, p, st) == Loud(s, p, st')
    ensures Exact(s, p, st) == Exact(s, p, st')
    decreases s, 1
  {
    assert SameAt(st, st', p);
    Framed(s, p, st, st');
    FramedUnmet(s, p, st, st');
    FramedExactAll(s.children, p, st, st');
  }

  lemma {:induction false} FramedExactAll(cs: seq<Section>, p: Path, st: States, st': States)
    requires SameBelow(st, st', p)
    ensures LoudAll(cs, p, st) == LoudAll(cs, p, st')
    ensures ExactAll(cs, p, st) == ExactAll(cs, p, st')
    decreases cs, 0
  {
    if cs != [] {
      assert SameUnder(st, st', p + [cs[0].name]);
      FramedExact(cs[0], p + [cs[0].name], st, st');
      FramedExactAll(cs[1..], p, st, st');
    }
  }

  /** The same for siblings below a section whose own state may have changed. */
  lemma {:induction false} SiblingsFramedExact(cs: seq<Section>, p: Path, st: States, st': States)
    requires forall i | 0 <= i < |cs| :: SameUnder(st, st', p + [cs[i].name])
    ensures LoudAll(cs, p, st) == LoudAll(cs, p, st')
    ensures ExactAll(cs, p, st) == ExactAll(cs, p, st')
  {
    if cs != [] {
      assert SameUnder(st, st', p + [cs[0].name]);
      assert forall i | 0 <= i < |cs[1..]| :: cs[1..][i] == cs[i + 1];
      FramedExact(cs[0], p + [cs[0].name], st, st');
      SiblingsFramedExact(cs[1..], p, st, st');
    }
  }

  lemma {:induction false} FreshIsExact(s: Section, p: Path, st: States)
    requires Fresh(st, p)
    ensures Loud(s, p, st) && Exact(s, p, st)
    decreases s, 2
  {
    FreshHasNothingDone(s, p, st);
    forall i | 0 <= i < |s.children| ensures Fresh(st, p + [s.children[i].name]) {
      assert p <= p + [s.children[i].name];
    }
    AllFreshIsExact(s.children, p, st);
  }

  lemma {:induction false} AllFreshIsExact(cs: seq<Section>, p: Path, st: States)
    requires AllFresh(cs, p, st)
    ensures LoudAll(cs, p, st) && ExactAll(cs, p, st)
    decreases cs, 0
  {
    if cs != [] {
      AllFreshStep(cs, p, st);
      FreshIsExact(cs[0], p + [cs[0].name], st);
      AllFreshIsExact(cs[1..], p, st);
    }
  }

  ghost predicate FirstComplete(cs: seq<Section>, n: nat, p: Path, st: States)
    requires n <= |cs|
  {
    && (forall k | 0 <= k < n :: IsComplete(st, p + [cs[k].name]))
    && forall k | n <= k < |cs| :: Fresh(st, p + [cs[k].name])
  }

  lemma FirstCompleteStep(cs: seq<Section>, n: nat, p: Path, st: States)
    requires 0 < n <= |cs| && FirstComplete(cs, n, p, st)
    ensures IsComplete(st, p + [cs[0].name]) && FirstComplete(cs[1..], n - 1, p, st)
  {
    assert forall k | 0 <= k < |cs[1..]| :: cs[1..][k] == cs[k + 1];
  }

  /** Siblings of which the first n are complete and the others untouched have run what they should. */
  lemma {:induction false} CompleteDone(cs: seq<Section>, n: nat, p: Path, st: States)
    requires n <= |cs| && FirstComplete(cs, n, p, st) && ExactAll(cs, p, st)
    ensures DoneLeavesOf(cs, p, st) == RanOf(cs, n, p)
    ensures LoudAll(cs, p, st) ==> DoneLeavesOf(cs, p, st) == QuietOf(cs, n, p)
  {
    if n == 0 {
      AllFreshHasNothingDone(cs, p, st);
    } else {
      FirstCompleteStep(cs, n, p, st);
      CompleteDone(cs[1..], n - 1, p, st);
      assert DoneLeavesOf(cs, p, st) == Ran(cs[0], p + [cs[0].name]) + DoneLeavesOf(cs[1..], p, st);
      if LoudAll(cs, p, st) {
        assert Loud(cs[0], p + [cs[0].name], st) && LoudAll(cs[1..], p, st);
      }
    }
  }

  // ---------------------------------------------------------------- what a visit does to it

  /** A visit to an incomplete section, which threw out of it or not. */
  ghost predicate VisitedExactly(c: Section, q: Path, st: States, st': States, threw: bool) {
    LeavesExactly(c, q, st, st', threw) && (Tree(c, q, st) ==> Tree(c, q, st') && Counted(c, q, st, st', threw))
  }

  ghost predicate LeavesExactly(c: Section, q: Path, st: States, st': States, threw: bool) {
    && (Exact(c, q, st) ==> Exact(c, q, st'))
    && (threw && Loud(c, q, st) ==> Loud(c, q, st'))
    && (!threw ==> !Throws(c))
    && (!threw && Loud(c, q, st) && Exact(c, q, st) ==> DoneLeaves(c, q, st') == Quiet(c, q))
  }

  /** A visit to the first incomplete one of the children from the i-th on; loud if it threw out of that one. */
  ghost predicate SiblingsVisited(s: Section, i: nat, p: Path, st: States, st': States, loud: bool)
    requires i <= Limit(s)
  {
    var cs := s.children[i..];
    && (ExactAll(cs, p, st) ==> ExactAll(cs, p, st'))
    && (loud && LoudAll(cs, p, st) ==> LoudAll(cs, p, st'))
    && (!loud && LoudAll(cs, p, st) && ExactAll(cs, p, st) ==> DoneLeavesOf(cs, p, st') == QuietOf(cs, Limit(s) - i, p))
    && (TreesFrom(s, i, p, st) ==> SiblingsCounted(s, i, p, st, st', loud))
  }

  lemma FirstExactly(s: Section, p: Path, i: nat, st: States, st1: States, st2: States, loud: bool)
    requires i < Limit(s) && !IsComplete(st, p + [s.children[i].name])
    requires VisitedExactly(s.children[i], p + [s.children[i].name], st, st1, loud)
    requires SameUnder(st1, st2, p + [s.children[i].name])
    requires AllFresh(s.children[i + 1..], p, st) && AllFresh(s.children[i + 1..], p, st2)
    ensures SiblingsVisited(s, i, p, st, st2, loud)
  {
    var c, rest := s.children[i], s.children[i + 1..];
    var q := p + [c.name];
    assert s.children[i..][1..] == rest && s.children[i..][0] == c;
    Framed(c, q, st1, st2);
    FramedExact(c, q, st1, st2);
    AllFreshIsExact(rest, p, st);
    AllFreshIsExact(rest, p, st2);
    AllFreshHasNothingDone(rest, p, st2);
    if TreesFrom(s, i, p, st) {
      FirstCounted(s, p, i, st, st1, st2, loud);
    }
  }

  lemma LaterExactly(s: Section, p: Path, i: nat, st: States, st2: States, loud: bool)
    requires i < Limit(s) && IsComplete(st, p + [s.children[i].name])
    requires SameUnder(st, st2, p + [s.children[i].name])
    requires SiblingsVisited(s, i + 1, p, st, st2, loud)
    ensures SiblingsVisited(s, i, p, st, st2, loud)
  {
    var c, rest := s.children[i], s.children[i + 1..];
    var q := p + [c.name];
    assert s.children[i..][1..] == rest && s.children[i..][0] == c;
    assert SameAt(st, st2, q);
    Framed(c, q, st, st2);
    FramedExact(c, q, st, st2);
    if TreesFrom(s, i, p, st) {
      LaterCounted(s, p, i, st, st2, loud);
    }
  }

  ghost predicate KnownFrom(s: Section, i: nat, p: Path, st: States) {
    forall k | i <= k < Limit(s) :: p + [s.children[k].name] in st
  }

  /** How the body of s at p leaves the trackers: own is whether nothing threw out of a child. */
  ghost predicate BodyExactly(s: Section, p: Path, st: States, st': States, ended: bool, threw: bool, own: bool) {
    && (!ended ==> st' == st && own && CompleteFrom(s, 0, p, st))
    && (ended ==> SiblingsVisited(s, 0, p, st, st', threw && !own))
    && (own ==> KnownFrom(s, 0, p, st') && threw == Throws(s))
    && (threw || own)
    && (Tree(s, p, st) ==> Tree(s, p, st'))
    && forall k | Limit(s) <= k < |s.children| :: SameUnder(st, st', p + [s.children[k].name])
  }
}
