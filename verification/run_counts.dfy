/**
How often a test case runs until its tracker is complete, from the program alone: Visits counts the
visits to a section, Runs those of the test case. What is left of them follows from the trackers.
 */
module RunCounts {
  import opened TrackerStates

  /**
  The visits to a section until it is complete. One that throws fails on the first visit that none of
  its subsections threw out of; any other is closed as complete once its subsections are.
   */
  function Visits(s: Section): nat {
    if Throws(s) then QuietVisitsOf(s.children, s.throwAt) else VisitsOf(s.children, |s.children|)
  }

  /**
  The visits that complete the first n siblings and then the section around them, which needs one of its
  own unless the last of theirs threw nothing.
   */
  function VisitsOf(cs: seq<Section>, n: nat): nat
    requires n <= |cs|
  {
    if n == 0 then 1
    else Visits(cs[0]) + if n == 1 && !Throws(cs[0]) then 0 else VisitsOf(cs[1..], n - 1)
  }

  /** The visits up to the first that none of the first n siblings threw out of. */
  function QuietVisitsOf(cs: seq<Section>, n: nat): nat
    requires n <= |cs|
  {
    if n == 0 then 1
    else if Throws(cs[0]) then Visits(cs[0]) + QuietVisitsOf(cs[1..], n - 1)
    else QuietVisitsOf(cs[0].children, |cs[0].children|)
  }

  /** The runs of a test case; a throw of its own does not fail it. */
  function Runs(testCase: Section): nat {
    VisitsOf(testCase.children, Limit(testCase))
  }

  // ---------------------------------------------------------------- programs that throw nothing

  predicate NothingThrows(s: Section) {
    !Throws(s) && forall i | 0 <= i < |s.children| :: NothingThrows(s.children[i])
  }

  lemma {:induction false} OneVisitPerLeaf(s: Section, p: Path)
    requires NothingThrows(s)
    ensures Visits(s) == |Leaves(s, p)|
    decreases s, 1
  {
    if s.children != [] {
      OneVisitPerLeafOf(s.children, p);
    }
  }

  lemma {:induction false} OneVisitPerLeafOf(cs: seq<Section>, p: Path)
    requires cs != [] && forall i | 0 <= i < |cs| :: NothingThrows(cs[i])
    ensures VisitsOf(cs, |cs|) == |LeavesOf(cs, p)|
    decreases cs, 0
  {
    OneVisitPerLeaf(cs[0], p + [cs[0].name]);
    if |cs| > 1 {
      OneVisitPerLeafOf(cs[1..], p);
    } else {
      assert LeavesOf(cs[1..], p) == [];
    }
  }

  /** Without throws a test case runs once for each of its leaves. */
  lemma OneRunPerLeaf(testCase: Section, p: Path)
    requires NothingThrows(testCase)
    ensures Runs(testCase) == |Leaves(testCase, p)|
  {
    OneVisitPerLeaf(testCase, p);
  }

  /** A throw can add a run in which no leaf runs: after its only leaf has thrown the test case runs once more. */
  lemma ThrowAddsRun(testCase: Section, leaf: Section)
    requires testCase.children == [leaf] && !Throws(testCase) && leaf.children == [] && leaf.throwAt == 0
    ensures Runs(testCase) == 2
  {
    assert VisitsOf([leaf], 1) == Visits(leaf) + VisitsOf([leaf][1..], 0);
    assert Visits(leaf) == QuietVisitsOf([], 0) == 1;
  }

  // ---------------------------------------------------------------- what is left

  /** The visits to the section that are left when the trackers are in these states. */
  ghost function Left(s: Section, p: Path, st: States): nat {
    if IsComplete(st, p) then 0
    else if Throws(s) then LeftQuietOf(s.children, s.throwAt, p, st)
    else LeftOf(s.children, |s.children|, p, st)
  }

  ghost function LeftOf(cs: seq<Section>, n: nat, p: Path, st: States): nat
    requires n <= |cs|
  {
    if n == 0 then 1
    else if IsComplete(st, p + [cs[0].name]) then LeftOf(cs[1..], n - 1, p, st)
    else Left(cs[0], p + [cs[0].name], st) + if n == 1 && !Throws(cs[0]) then 0 else LeftOf(cs[1..], n - 1, p, st)
  }

  ghost function LeftQuietOf(cs: seq<Section>, n: nat, p: Path, st: States): nat
    requires n <= |cs|
  {
    if n == 0 then 1
    else if IsComplete(st, p + [cs[0].name]) then LeftQuietOf(cs[1..], n - 1, p, st)
    else if Throws(cs[0]) then Left(cs[0], p + [cs[0].name], st) + LeftQuietOf(cs[1..], n - 1, p, st)
    else LeftQuietOf(cs[0].children, |cs[0].children|, p + [cs[0].name], st)
  }

  ghost function RunsLeft(testCase: Section, p: Path, st: States): nat {
    if IsComplete(st, p) then 0 else LeftOf(testCase.children, Limit(testCase), p, st)
  }

  lemma {:induction false} FramedLeft(s: Section, p: Path, st: States, st': States)
    requires SameUnder(st, st', p)
    ensures Left(s, p, st) == Left(s, p, st')
    decreases s, 1
  {
    assert SameAt(st, st', p);
    FramedLeftOf(s.children, if Throws(s) then s.throwAt else |s.children|, p, st, st');
  }

  lemma {:induction false} FramedLeftOf(cs: seq<Section>, n: nat, p: Path, st: States, st': States)
    requires SameBelow(st, st', p) && n <= |cs|
    ensures LeftOf(cs, n, p, st) == LeftOf(cs, n, p, st')
    ensures LeftQuietOf(cs, n, p, st) == LeftQuietOf(cs, n, p, st')
    decreases cs, 0
  {
    if n > 0 {
      var q := p + [cs[0].name];
      assert SameUnder(st, st', q);
      assert SameAt(st, st', q);
      FramedLeft(cs[0], q, st, st');
      FramedLeftOf(cs[0].children, |cs[0].children|, q, st, st');
      FramedLeftOf(cs[1..], n - 1, p, st, st');
    }
  }

  /** Of an untouched section all visits are left. */
  lemma {:induction false} FreshLeft(s: Section, p: Path, st: States)
    requires Fresh(st, p)
    ensures Left(s, p, st) == Visits(s)
    decreases s, 2
  {
    FreshBelow(s.children, p, st);
    FreshLeftOf(s.children, if Throws(s) then s.throwAt else |s.children|, p, st);
  }

  lemma {:induction false} FreshLeftOf(cs: seq<Section>, n: nat, p: Path, st: States)
    requires AllFresh(cs, p, st) && n <= |cs|
    ensures LeftOf(cs, n, p, st) == VisitsOf(cs, n) && LeftQuietOf(cs, n, p, st) == QuietVisitsOf(cs, n)
    decreases cs, 0
  {
    if n > 0 {
      var q := p + [cs[0].name];
      AllFreshStep(cs, p, st);
      FreshLeft(cs[0], q, st);
      FreshBelow(cs[0].children, q, st);
      FreshLeftOf(cs[0].children, |cs[0].children|, q, st);
      FreshLeftOf(cs[1..], n - 1, p, st);
    }
  }

  lemma FreshRuns(testCase: Section, p: Path, st: States)
    requires Fresh(st, p)
    ensures RunsLeft(testCase, p, st) == Runs(testCase) && Tree(testCase, p, st)
  {
    FreshBelow(testCase.children, p, st);
    FreshLeftOf(testCase.children, Limit(testCase), p, st);
  }

  ghost predicate CompleteFrom(s: Section, i: nat, p: Path, st: States) {
    forall k | i <= k < Limit(s) :: IsComplete(st, p + [s.children[k].name])
  }

  /** Once all subsections are complete one visit is left. */
  lemma {:induction false} OneLeft(s: Section, i: nat, p: Path, st: States)
    requires i <= Limit(s) && CompleteFrom(s, i, p, st)
    ensures LeftOf(s.children[i..], Limit(s) - i, p, st) == 1
    ensures LeftQuietOf(s.children[i..], Limit(s) - i, p, st) == 1
    decreases Limit(s) - i
  {
    if i < Limit(s) {
      assert s.children[i..][1..] == s.children[i + 1..] && s.children[i..][0] == s.children[i];
      OneLeft(s, i + 1, p, st);
    }
  }

  lemma OneLeftInAll(s: Section, p: Path, st: States)
    requires CompleteFrom(s, 0, p, st)
    ensures LeftOf(s.children, Limit(s), p, st) == 1 && LeftQuietOf(s.children, Limit(s), p, st) == 1
  {
    OneLeft(s, 0, p, st);
    assert s.children[0..] == s.children;
  }

  // ---------------------------------------------------------------- the trackers of the program

  /** r is the tracker of s at p, or of a section that is met below it. */
  ghost predicate Belongs(s: Section, p: Path, r: Path) {
    r == p || exists k | 0 <= k < Limit(s) :: p + [s.children[k].name] <= r && Belongs(s.children[k], p + [s.children[k].name], r)
  }

  /** All trackers at and below p are of the program. */
  ghost predicate Tree(s: Section, p: Path, st: States) {
    forall r | r in st && p <= r :: Belongs(s, p, r)
  }

  lemma FreshTree(s: Section, p: Path, st: States)
    requires Fresh(st, p)
    ensures Tree(s, p, st)
  {
  }

  lemma FramedTree(s: Section, p: Path, st: States, st': States)
    requires forall r | p <= r && r != p :: SameAt(st, st', r)
    ensures Tree(s, p, st) == Tree(s, p, st')
  {
    forall r | p <= r && r != p ensures r in st <==> r in st' {
      assert SameAt(st, st', r);
    }
  }

  lemma TreeBelow(s: Section, p: Path, k: nat, st: States)
    requires DistinctSiblings(s) && k < Limit(s) && Tree(s, p, st)
    ensures Tree(s.children[k], p + [s.children[k].name], st)
  {
    var q := p + [s.children[k].name];
    forall r | r in st && q <= r ensures Belongs(s.children[k], q, r) {
      BelongsBelow(s, p, k, r);
    }
  }

  lemma BelongsBelow(s: Section, p: Path, k: nat, r: Path)
    requires DistinctSiblings(s) && k < Limit(s) && p + [s.children[k].name] <= r && Belongs(s, p, r)
    ensures Belongs(s.children[k], p + [s.children[k].name], r)
  {
    var j :| 0 <= j < Limit(s) && p + [s.children[j].name] <= r && Belongs(s.children[j], p + [s.children[j].name], r);
    assert r[|p|] == s.children[j].name == s.children[k].name;
    assert j == k;
  }

  /** A change below one child. */
  lemma TreeAbove(s: Section, p: Path, k: nat, st: States, st': States)
    requires k < Limit(s) && Tree(s, p, st) && Tree(s.children[k], p + [s.children[k].name], st')
    requires forall r | r != p && !(p + [s.children[k].name] <= r) :: SameAt(st, st', r)
    ensures Tree(s, p, st')
  {
    forall r | r in st' && p <= r ensures Belongs(s, p, r) {
      if r != p && !(p + [s.children[k].name] <= r) {
        assert SameAt(st, st', r);
      }
    }
  }

  /** If all its subsections that are met are complete, so are all its known children. */
  lemma AllKnown(s: Section, p: Path, st: States)
    requires Tree(s, p, st) && CompleteFrom(s, 0, p, st)
    ensures AllKnownComplete(st, p)
  {
    forall q | q in st && IsChild(p, q) ensures IsComplete(st, q) {
      var k :| 0 <= k < Limit(s) && p + [s.children[k].name] <= q && Belongs(s.children[k], p + [s.children[k].name], q);
      assert q == p + [s.children[k].name];
    }
  }

  // ---------------------------------------------------------------- what a visit does to them

  /** A visit is one less to come; a quiet one was the first to come. */
  ghost predicate Counted(c: Section, q: Path, st: States, st': States, threw: bool) {
    && Left(c, q, st) == Left(c, q, st') + 1
    && (!Throws(c) ==> LeftQuietOf(c.children, |c.children|, q, st)
                       == if threw then LeftQuietOf(c.children, |c.children|, q, st') + 1 else 1)
    && (!Throws(c) && threw ==> !IsComplete(st', q))
  }

  /** The same for a visit to the first incomplete one of the children from the i-th on. */
  ghost predicate SiblingsCounted(s: Section, i: nat, p: Path, st: States, st': States, loud: bool)
    requires i <= Limit(s)
  {
    var cs, n := s.children[i..], Limit(s) - i;
    && LeftOf(cs, n, p, st) == (if !loud && CompleteFrom(s, i, p, st') then 1 else LeftOf(cs, n, p, st') + 1)
    && LeftQuietOf(cs, n, p, st) == if loud then LeftQuietOf(cs, n, p, st') + 1 else 1
  }

  lemma FirstCounted(s: Section, p: Path, i: nat, st: States, st1: States, st2: States, loud: bool)
    requires i < Limit(s) && !IsComplete(st, p + [s.children[i].name])
    requires Counted(s.children[i], p + [s.children[i].name], st, st1, loud) && (!loud ==> !Throws(s.children[i]))
    requires SameUnder(st1, st2, p + [s.children[i].name])
    requires AllFresh(s.children[i + 1..], p, st) && AllFresh(s.children[i + 1..], p, st2)
    ensures SiblingsCounted(s, i, p, st, st2, loud)
  {
    var c, rest, n := s.children[i], s.children[i + 1..], Limit(s) - i;
    var q := p + [c.name];
    assert s.children[i..][1..] == rest && s.children[i..][0] == c;
    assert SameAt(st1, st2, q);
    FramedLeft(c, q, st1, st2);
    FramedLeftOf(c.children, |c.children|, q, st1, st2);
    FreshLeftOf(rest, n - 1, p, st);
    FreshLeftOf(rest, n - 1, p, st2);
    FreshIncomplete(s, i, p, st2);
    FirstOfCounted(s.children[i..], n, p, st, st2, loud, CompleteFrom(s, i, p, st2));
  }

  lemma FreshIncomplete(s: Section, i: nat, p: Path, st: States)
    requires i < Limit(s) && AllFresh(s.children[i + 1..], p, st)
    ensures CompleteFrom(s, i, p, st) <==> i + 1 == Limit(s) && IsComplete(st, p + [s.children[i].name])
  {
    if i + 1 < Limit(s) {
      assert s.children[i + 1..][0] == s.children[i + 1];
      assert Fresh(st, p + [s.children[i + 1].name]);
    }
  }

  /** A visit to the first of some siblings, of which nothing is complete and only that one changes. */
  lemma FirstOfCounted(cs: seq<Section>, n: nat, p: Path, st: States, st': States, loud: bool, complete: bool)
    requires 0 < n <= |cs| && !IsComplete(st, p + [cs[0].name])
    requires Counted(cs[0], p + [cs[0].name], st, st', loud) && (!loud ==> !Throws(cs[0]))
    requires LeftOf(cs[1..], n - 1, p, st) == LeftOf(cs[1..], n - 1, p, st')
    requires LeftQuietOf(cs[1..], n - 1, p, st) == LeftQuietOf(cs[1..], n - 1, p, st')
    requires complete <==> n == 1 && IsComplete(st', p + [cs[0].name])
    ensures LeftOf(cs, n, p, st) == (if !loud && complete then 1 else LeftOf(cs, n, p, st') + 1)
    ensures LeftQuietOf(cs, n, p, st) == if loud then LeftQuietOf(cs, n, p, st') + 1 else 1
  {
  }

  lemma LaterCounted(s: Section, p: Path, i: nat, st: States, st2: States, loud: bool)
    requires i < Limit(s) && IsComplete(st, p + [s.children[i].name])
    requires SameUnder(st, st2, p + [s.children[i].name])
    requires SiblingsCounted(s, i + 1, p, st, st2, loud)
    ensures SiblingsCounted(s, i, p, st, st2, loud)
  {
    assert s.children[i..][1..] == s.children[i + 1..] && s.children[i..][0] == s.children[i];
    assert SameAt(st, st2, p + [s.children[i].name]);
  }

  ghost predicate TreesFrom(s: Section, i: nat, p: Path, st: States) {
    forall k | i <= k < Limit(s) :: Tree(s.children[k], p + [s.children[k].name], st)
  }

  lemma TreesBelow(s: Section, p: Path, st: States)
    requires DistinctSiblings(s) && Tree(s, p, st)
    ensures TreesFrom(s, 0, p, st)
  {
    forall k | 0 <= k < Limit(s) ensures Tree(s.children[k], p + [s.children[k].name], st) {
      TreeBelow(s, p, k, st);
    }
  }

  /** The trackers below p say the same of the visits that are left. */
  ghost predicate SameLeft(s: Section, p: Path, st: States, st': States) {
    && Tree(s, p, st) == Tree(s, p, st')
    && LeftOf(s.children, Limit(s), p, st) == LeftOf(s.children, Limit(s), p, st')
    && LeftQuietOf(s.children, Limit(s), p, st) == LeftQuietOf(s.children, Limit(s), p, st')
  }

  lemma SameBelowLeft(s: Section, p: Path, st: States, st': States)
    requires SameBelow(st, st', p)
    ensures SameLeft(s, p, st, st')
  {
    FramedTree(s, p, st, st');
    FramedLeftOf(s.children, Limit(s), p, st, st');
  }
}
