/** The run loop: a test case is entered again and again until its tracker has completed. */
module RunContexts {
  import opened TrackerStates
  import opened Trackers
  import opened RunCounts
  import opened LeafCoverage

  /** The paths of the sections that are open below the test case when p is the innermost one. */
  ghost function OpenSections(p: Path): seq<Path> {
    if |p| <= 1 then [] else OpenSections(Parent(p)) + [p]
  }

  ghost predicate AncestorsOpen(st: States, p: Path) {
    forall k | 0 <= k < |p| :: p[..k] in st && st[p[..k]] == ExecutingChildren
  }

  ghost predicate Kept(st: States, st': States) {
    forall q | IsComplete(st, q) :: IsComplete(st', q)
  }

  ghost predicate SameOutside(st: States, st': States, p: Path) {
    forall q | !(p <= q) :: SameAt(st, st', q)
  }

  ghost predicate OnlyChildChanged(st: States, st': States, p: Path, q: Path) {
    forall r | r != p && !(q <= r) :: SameAt(st, st', r)
  }

  // ---------------------------------------------------------------- opening one section

  lemma OpenedUnderExecuting(st: States, p: Path, q: Path)
    requires IsChild(p, q) && q in st && p in st && AncestorsOpen(st, p)
    requires |p| > 0 && Parent(p) != q
    ensures Rooted(st[q := Executing], p)
    ensures ChildOpened(st[q := Executing], p) == st[q := Executing][p := ExecutingChildren]
  {
    assert p == p[..|p|] && Parent(p) == p[..|p| - 1];
    assert forall k | 0 <= k <= |p| :: p[..k] != q;
  }

  lemma AncestorsOfChild(st: States, p: Path, q: Path)
    requires IsChild(p, q) && p in st && AncestorsOpen(st, p) && st[p] == ExecutingChildren
    ensures AncestorsOpen(st, q)
  {
    forall k | 0 <= k < |q| ensures q[..k] in st && st[q[..k]] == ExecutingChildren {
      if k < |p| {
        assert q[..k] == p[..k];
      } else {
        assert q[..k] == p;
      }
    }
  }

  lemma AncestorsUntouched(st: States, st': States, p: Path)
    requires AncestorsOpen(st, p) && forall r | |r| < |p| :: SameAt(st, st', r)
    ensures AncestorsOpen(st', p)
  {
    forall k | 0 <= k < |p| ensures p[..k] in st' && st'[p[..k]] == ExecutingChildren {
      assert SameAt(st, st', p[..k]);
    }
  }

  // ---------------------------------------------------------------- siblings

  lemma {:induction false} SiblingsFramed(cs: seq<Section>, p: Path, st: States, st': States)
    requires forall i | 0 <= i < |cs| :: SameUnder(st, st', p + [cs[i].name])
    ensures Frontier(cs, p, st) == Frontier(cs, p, st')
    ensures AllFresh(cs, p, st) == AllFresh(cs, p, st')
    ensures DoneLeavesOf(cs, p, st) == DoneLeavesOf(cs, p, st')
    ensures PendingOf(cs, p, st) == PendingOf(cs, p, st')
  {
    if cs != [] {
      var q := p + [cs[0].name];
      assert SameUnder(st, st', q);
      assert SameAt(st, st', q);
      assert forall i | 0 <= i < |cs[1..]| :: cs[1..][i] == cs[i + 1];
      Framed(cs[0], q, st, st');
      FramedFresh(q, st, st');
      SiblingsFramed(cs[1..], p, st, st');
      AllFreshStep(cs, p, st);
      AllFreshStep(cs, p, st');
    }
  }

  // ---------------------------------------------------------------- what one visit does

  /** One more visit to an incomplete section: progress below it, its finished leaves, and its shape. */
  ghost predicate Visited(c: Section, q: Path, st: States, st': States, ran: seq<Path>) {
    && q in st' && Shape(c, q, st')
    && Pending(c, q, st') < Pending(c, q, st)
    && DoneLeaves(c, q, st') == DoneLeaves(c, q, st) + ran && |ran| <= 1
  }

  ghost predicate VisitedAll(s: Section, i: nat, p: Path, st: States, st': States, ran: seq<Path>)
    requires i <= |s.children|
  {
    var cs := s.children[i..];
    && Frontier(cs, p, st')
    && PendingOf(cs, p, st') < PendingOf(cs, p, st)
    && DoneLeavesOf(cs, p, st') == DoneLeavesOf(cs, p, st) + ran && |ran| <= 1
  }

  /** How the body of s at p may leave the trackers: ended is whether the cycle has completed. */
  ghost predicate BodyLeft(s: Section, p: Path, st: States, st': States, ended: bool, threw: bool, own: bool, ran: seq<Path>) {
    && p in st'
    && (!ended ==> st' == st && own && ran == if s.children == [] then [p] else [])
    && (ended ==> s.children != [] && VisitedAll(s, 0, p, st, st', ran)
                  && (st'[p] == ExecutingChildren || (st'[p] == NeedsAnotherRun && threw && !own)))
    && (!threw ==> own)
    && (threw && !own ==> ended && (st'[p] == NeedsAnotherRun || !AllKnownComplete(st', p)))
  }

  /** Ending a visit, by closing or failing, keeps what the body did. */
  lemma VisitEnds(c: Section, q: Path, st: States, st2: States, st3: States, st4: States,
                  ended: bool, threw: bool, own: bool, ran: seq<Path>)
    requires |q| > 0 && !IsComplete(st, q) && q in st2 && st2[q] == Executing
    requires PendingOf(c.children, q, st2) == PendingOf(c.children, q, st)
    requires DoneLeavesOf(c.children, q, st2) == DoneLeavesOf(c.children, q, st)
    requires Frontier(c.children, q, st2)
    requires BodyLeft(c, q, st2, st3, ended, threw, own, ran)
    requires st4 == Closed(st3, q) || (threw && own && st4 == FailedAt(st3, q))
    ensures Visited(c, q, st, st4, ran)
    ensures SameBelow(st3, st4, q)
    ensures threw && !own ==> !IsComplete(st4, q)
  {
    FramedAll(c.children, q, st3, st4);
    assert c.children[0..] == c.children;
  }

  lemma UnmetStay(s: Section, p: Path, st: States, st': States)
    requires UnmetFresh(s, p, st)
    requires forall k | Limit(s) <= k < |s.children| :: SameUnder(st, st', p + [s.children[k].name])
    ensures UnmetFresh(s, p, st')
  {
    forall k | Limit(s) <= k < |s.children| ensures Fresh(st', p + [s.children[k].name]) {
      FramedFresh(p + [s.children[k].name], st, st');
    }
  }

  /** After a body that nothing threw out of a child of, the leaves up to that first quiet visit have run. */
  lemma QuietBody(s: Section, p: Path, st: States, st': States, ended: bool, threw: bool)
    requires BodyExactly(s, p, st, st', ended, threw, true) && UnmetFresh(s, p, st)
    requires LoudAll(s.children, p, st) && ExactAll(s.children, p, st)
    ensures DoneLeavesOf(s.children, p, st') == QuietOf(s.children, Limit(s), p)
  {
    assert s.children[0..] == s.children;
    if !ended {
      assert FirstComplete(s.children, Limit(s), p, st);
      CompleteDone(s.children, Limit(s), p, st);
    }
  }

  /** If a section completes by being closed, all leaves of the subsections it meets have run. */
  lemma CompletedBody(s: Section, p: Path, st: States, st': States, st4: States, ended: bool, threw: bool, own: bool, ran: seq<Path>)
    requires p in st && st[p] == Executing && BodyLeft(s, p, st, st', ended, threw, own, ran)
    requires BodyExactly(s, p, st, st', ended, threw, own) && UnmetFresh(s, p, st) && ExactAll(s.children, p, st)
    requires st4 == Closed(st', p) && IsComplete(st4, p)
    ensures own && DoneLeavesOf(s.children, p, st') == RanOf(s.children, Limit(s), p)
  {
    assert s.children[0..] == s.children;
    UnmetStay(s, p, st, st');
    forall k | 0 <= k < Limit(s) ensures IsComplete(st', p + [s.children[k].name]) {
      assert IsChild(p, p + [s.children[k].name]);
    }
    assert FirstComplete(s.children, Limit(s), p, st');
    CompleteDone(s.children, Limit(s), p, st');
  }

  /** A body that found all its subsections complete is the last one. */
  lemma LastBodyCounted(s: Section, p: Path, st: States, st4: States)
    requires Tree(s, p, st) && p in st && st[p] == Executing && st4 == Closed(st, p)
    ensures Tree(s, p, st4) && IsComplete(st4, p)
  {
    FramedTree(s, p, st, st4);
  }

  /** A body that visited a subsection: what is left once it is closed. */
  lemma OtherBodyCounted(s: Section, p: Path, st: States, st3: States, st4: States, own: bool)
    requires Tree(s, p, st3) && p in st3 && (own ==> st3[p] == ExecutingChildren && KnownFrom(s, 0, p, st3))
    requires !IsComplete(st3, p) && (!own ==> !IsComplete(st4, p)) && st4 == Closed(st3, p)
    requires SiblingsCounted(s, 0, p, st, st3, !own)
    ensures Tree(s, p, st4)
    ensures LeftOf(s.children, Limit(s), p, st) == RunsLeft(s, p, st4) + 1
    ensures LeftQuietOf(s.children, Limit(s), p, st) == if own then 1 else LeftQuietOf(s.children, Limit(s), p, st4) + 1
  {
    assert s.children[0..] == s.children;
    SameBelowLeft(s, p, st3, st4);
    if own {
      ClosedExactly(s, p, st3, own);
    }
  }

  /** After the body, with a throw out of a subsection or without: what is left once it is closed. */
  lemma BodyCounted(s: Section, p: Path, st: States, st3: States, st4: States, ended: bool, threw: bool, own: bool, ran: seq<Path>)
    requires DistinctSiblings(s) && Tree(s, p, st) && p in st && st[p] == Executing && !IsComplete(st3, p)
    requires BodyLeft(s, p, st, st3, ended, threw, own, ran) && BodyExactly(s, p, st, st3, ended, threw, own)
    requires st4 == Closed(st3, p)
    ensures Tree(s, p, st4)
    ensures LeftOf(s.children, Limit(s), p, st) == RunsLeft(s, p, st4) + 1
    ensures LeftQuietOf(s.children, Limit(s), p, st) == if own then 1 else LeftQuietOf(s.children, Limit(s), p, st4) + 1
    ensures !own ==> !IsComplete(st4, p)
  {
    if !ended {
      LastBodyCounted(s, p, st, st4);
      OneLeftInAll(s, p, st);
    } else {
      TreesBelow(s, p, st);
      OtherBodyCounted(s, p, st, st3, st4, own);
    }
  }

  /** Closing completes exactly when the subsections that are met are complete. */
  lemma ClosedExactly(s: Section, p: Path, st: States, own: bool)
    requires p in st && !IsComplete(st, p) && Tree(s, p, st) && (own ==> KnownFrom(s, 0, p, st))
    ensures st[p] == ExecutingChildren && own ==> (IsComplete(Closed(st, p), p) <==> CompleteFrom(s, 0, p, st))
  {
    if CompleteFrom(s, 0, p, st) {
      AllKnown(s, p, st);
    }
    if AllKnownComplete(st, p) && own {
      forall k | 0 <= k < Limit(s) ensures IsComplete(st, p + [s.children[k].name]) {
        assert IsChild(p, p + [s.children[k].name]);
      }
    }
  }

  lemma FailedCounted(s: Section, p: Path, st: States, st3: States, st4: States, ended: bool)
    requires |p| > 0 && DistinctSiblings(s) && Tree(s, p, st) && Throws(s)
    requires BodyExactly(s, p, st, st3, ended, true, true) && st4 == FailedAt(st3, p)
    ensures Tree(s, p, st4) && LeftQuietOf(s.children, Limit(s), p, st) == 1
  {
    FramedTree(s, p, st3, st4);
    if !ended {
      OneLeftInAll(s, p, st);
    } else {
      TreesBelow(s, p, st);
      assert s.children[0..] == s.children;
    }
  }

  lemma VisitCounted(c: Section, q: Path, st: States, st2: States, st3: States, st4: States,
                     ended: bool, threw: bool, own: bool, ran: seq<Path>)
    requires |q| > 0 && DistinctSiblings(c) && !IsComplete(st, q) && q in st2 && st2[q] == Executing
    requires SameLeft(c, q, st, st2) && Tree(c, q, st)
    requires BodyLeft(c, q, st2, st3, ended, threw, own, ran) && BodyExactly(c, q, st2, st3, ended, threw, own)
    requires st4 == if threw && own then FailedAt(st3, q) else Closed(st3, q)
    ensures Tree(c, q, st4) && Counted(c, q, st, st4, threw)
  {
    if threw && own {
      FailedCounted(c, q, st2, st3, st4, ended);
    } else {
      BodyCounted(c, q, st2, st3, st4, ended, threw, own, ran);
    }
  }

  /** Ending a visit leaves what is below as it is. */
  lemma EndLeavesBelow(c: Section, q: Path, st3: States, st4: States)
    requires |q| > 0 && q in st3 && (st4 == Closed(st3, q) || st4 == FailedAt(st3, q))
    ensures DoneLeavesOf(c.children, q, st3) == DoneLeavesOf(c.children, q, st4)
    ensures ExactAll(c.children, q, st3) == ExactAll(c.children, q, st4)
    ensures LoudAll(c.children, q, st3) == LoudAll(c.children, q, st4)
    ensures UnmetFresh(c, q, st3) == UnmetFresh(c, q, st4)
  {
    assert SameBelow(st3, st4, q);
    FramedAll(c.children, q, st3, st4);
    FramedExactAll(c.children, q, st3, st4);
    FramedUnmet(c, q, st3, st4);
  }

  lemma VisitKeepsExact(c: Section, q: Path, st: States, st2: States, st3: States, st4: States,
                        ended: bool, threw: bool, own: bool, ran: seq<Path>)
    requires |q| > 0 && !IsComplete(st, q) && q in st2 && st2[q] == Executing
    requires SameKnowledge(c, q, st, st2)
    requires BodyLeft(c, q, st2, st3, ended, threw, own, ran) && BodyExactly(c, q, st2, st3, ended, threw, own)
    requires st4 == if threw && own then FailedAt(st3, q) else Closed(st3, q)
    requires threw && !own ==> !IsComplete(st4, q)
    requires Exact(c, q, st)
    ensures Exact(c, q, st4)
  {
    assert c.children[0..] == c.children;
    EndLeavesBelow(c, q, st3, st4);
    UnmetStay(c, q, st2, st3);
    if threw && own {
      QuietBody(c, q, st2, st3, ended, threw);
    } else if IsComplete(st4, q) {
      CompletedBody(c, q, st2, st3, st4, ended, threw, own, ran);
    }
  }

  /** What a visit to a subsection does to the leaves that ran, whether it is closed or failed. */
  lemma VisitEndsExactly(c: Section, q: Path, st: States, st2: States, st3: States, st4: States,
                         ended: bool, threw: bool, own: bool, ran: seq<Path>)
    requires |q| > 0 && !IsComplete(st, q) && q in st2 && st2[q] == Executing
    requires SameKnowledge(c, q, st, st2)
    requires BodyLeft(c, q, st2, st3, ended, threw, own, ran) && BodyExactly(c, q, st2, st3, ended, threw, own)
    requires st4 == if threw && own then FailedAt(st3, q) else Closed(st3, q)
    requires threw && !own ==> !IsComplete(st4, q)
    ensures LeavesExactly(c, q, st, st4, threw)
  {
    assert c.children[0..] == c.children;
    EndLeavesBelow(c, q, st3, st4);
    if Exact(c, q, st) {
      VisitKeepsExact(c, q, st, st2, st3, st4, ended, threw, own, ran);
      if LoudAll(c.children, q, st2) && own {
        QuietBody(c, q, st2, st3, ended, threw);
      }
    }
  }

  /** The trackers below q say the same, as far as the visits to c go. */
  ghost predicate SameKnowledge(c: Section, q: Path, st: States, st2: States) {
    && PendingOf(c.children, q, st2) == PendingOf(c.children, q, st)
    && DoneLeavesOf(c.children, q, st2) == DoneLeavesOf(c.children, q, st)
    && ExactAll(c.children, q, st2) == ExactAll(c.children, q, st)
    && LoudAll(c.children, q, st2) == LoudAll(c.children, q, st)
    && UnmetFresh(c, q, st2) == UnmetFresh(c, q, st)
    && SameLeft(c, q, st, st2)
  }

  lemma OnlyBelow(st: States, st2: States, st3: States, st4: States, p: Path, q: Path)
    requires IsChild(p, q) && OnlyChildChanged(st, st2, p, q) && SameOutside(st2, st3, q) && q in st3
    requires st4 == FailedAt(st3, q) || st4 == Closed(st3, q)
    requires Kept(st, st2) && Kept(st2, st3) && !IsComplete(st, q) && !IsComplete(st, p)
    ensures OnlyChildChanged(st, st4, p, q) && Kept(st, st4)
  {
    assert Parent(q) == p;
    forall r | r != p && !(q <= r) ensures SameAt(st, st4, r) {
      assert SameAt(st, st2, r) && SameAt(st2, st3, r);
    }
    forall r | IsComplete(st, r) ensures IsComplete(st4, r) {
      assert IsComplete(st2, r);
      assert IsComplete(st3, r);
    }
  }

  /** A whole visit to a subsection: opening it, its body, and its end. */
  ghost predicate VisitMade(c: Section, p: Path, st: States, st4: States, threw: bool, ran: seq<Path>) {
    var q := p + [c.name];
    && p in st4 && Visited(c, q, st, st4, ran) && VisitedExactly(c, q, st, st4, threw)
    && OnlyChildChanged(st, st4, p, q) && Kept(st, st4)
    && (!threw ==> st4[p] == ExecutingChildren)
    && (threw ==> st4[p] == NeedsAnotherRun || (st4[p] == ExecutingChildren && !IsComplete(st4, q)))
  }

  /** The section at p + [c.name] has just opened. */
  ghost predicate JustOpened(c: Section, p: Path, st: States, st2: States) {
    var q := p + [c.name];
    && p in st && st[p] == Executing && !IsComplete(st, q)
    && p in st2 && st2[p] == ExecutingChildren && q in st2 && st2[q] == Executing
    && Frontier(c.children, q, st2) && SameKnowledge(c, q, st, st2)
    && OnlyChildChanged(st, st2, p, q) && Kept(st, st2) && AncestorsOpen(st2, q)
  }

  /** Opening a tracker leaves what is below as it is. */
  lemma OpeningLeavesBelow(c: Section, q: Path, st: States, st2: States)
    requires Shape(c, q, st) && !IsComplete(st, q) && SameBelow(st, st2, q)
    ensures Frontier(c.children, q, st2) && SameKnowledge(c, q, st, st2)
  {
    if Fresh(st, q) {
      FreshHasNothingDone(c, q, st);
    }
    SameBelowLeft(c, q, st, st2);
    FramedAll(c.children, q, st, st2);
    FramedExactAll(c.children, q, st, st2);
    FramedUnmet(c, q, st, st2);
  }

  lemma Opening(c: Section, p: Path, st: States, st2: States)
    requires Shape(c, p + [c.name], st) && !IsComplete(st, p + [c.name]) && p in st && st[p] == Executing && AncestorsOpen(st, p)
    requires st2 == Known(st, p + [c.name])[p + [c.name] := Executing][p := ExecutingChildren]
    ensures JustOpened(c, p, st, st2)
  {
    var q := p + [c.name];
    assert SameBelow(st, st2, q);
    OpeningLeavesBelow(c, q, st, st2);
    AncestorsUntouched(st, st2, p);
    AncestorsOfChild(st2, p, q);
  }

  lemma VisitComposed(c: Section, p: Path, st: States, st2: States, st3: States, st4: States,
                      ended: bool, threw: bool, own: bool, ran: seq<Path>)
    requires DistinctSiblings(c) && JustOpened(c, p, st, st2)
    requires BodyLeft(c, p + [c.name], st2, st3, ended, threw, own, ran) && BodyExactly(c, p + [c.name], st2, st3, ended, threw, own)
    requires SameOutside(st2, st3, p + [c.name]) && Kept(st2, st3)
    requires st4 == if threw && own then FailedAt(st3, p + [c.name]) else Closed(st3, p + [c.name])
    ensures VisitMade(c, p, st, st4, threw, ran)
  {
    var q := p + [c.name];
    VisitEnds(c, q, st, st2, st3, st4, ended, threw, own, ran);
    VisitEndsExactly(c, q, st, st2, st3, st4, ended, threw, own, ran);
    if Tree(c, q, st) {
      VisitCounted(c, q, st, st2, st3, st4, ended, threw, own, ran);
    }
    OnlyBelow(st, st2, st3, st4, p, q);
    assert SameAt(st2, st3, p) && Parent(q) == p;
  }

  /** The test case between two runs: its leaves that ran, if it is complete, are the right ones. */
  ghost predicate RootExact(s: Section, p: Path, st: States) {
    (IsComplete(st, p) ==> DoneLeaves(s, p, st) == RanLeaves(s, p)) && BelowExact(s, p, st)
  }

  ghost predicate BelowExact(s: Section, p: Path, st: States) {
    UnmetFresh(s, p, st) && ExactAll(s.children, p, st) && Tree(s, p, st)
  }

  lemma RootVisited(s: Section, p: Path, st: States, st3: States, st4: States, ended: bool, threw: bool, own: bool, ran: seq<Path>)
    requires DistinctSiblings(s) && p in st && st[p] == Executing && !IsComplete(st3, p) && BelowExact(s, p, st)
    requires BodyLeft(s, p, st, st3, ended, threw, own, ran) && BodyExactly(s, p, st, st3, ended, threw, own)
    requires st4 == Closed(st3, p)
    ensures RootExact(s, p, st4) && LeftOf(s.children, Limit(s), p, st) == RunsLeft(s, p, st4) + 1
  {
    BodyCounted(s, p, st, st3, st4, ended, threw, own, ran);
    assert s.children[0..] == s.children;
    UnmetStay(s, p, st, st3);
    FramedAll(s.children, p, st3, st4);
    FramedExactAll(s.children, p, st3, st4);
    FramedUnmet(s, p, st3, st4);
    if IsComplete(st4, p) {
      CompletedBody(s, p, st, st3, st4, ended, threw, own, ran);
    }
  }

  /** A whole run of the test case, whose tracker had opened. */
  ghost predicate RootMade(s: Section, p: Path, st: States, st4: States, ran: seq<Path>) {
    && SameOutside(st, st4, p) && Kept(st, st4) && RootExact(s, p, st4)
    && LeftOf(s.children, Limit(s), p, st) == RunsLeft(s, p, st4) + 1
    && Visited(s, p, st, st4, ran) && st4[p] != Failed
  }

  /** The test case's tracker has opened, and nothing else that counts has changed. */
  ghost predicate RootOpened(s: Section, p: Path, st: States, st2: States) {
    && Frontier(s.children, p, st2)
    && Pending(s, p, st2) == Pending(s, p, st) && DoneLeaves(s, p, st2) == DoneLeaves(s, p, st)
    && BelowExact(s, p, st2) == BelowExact(s, p, st)
    && LeftOf(s.children, Limit(s), p, st2) == RunsLeft(s, p, st)
  }

  lemma RootComposed(s: Section, p: Path, st: States, st3: States, st4: States, ended: bool, threw: bool, own: bool, ran: seq<Path>)
    requires DistinctSiblings(s) && |p| > 0 && p in st && st[p] == Executing && BelowExact(s, p, st) && Frontier(s.children, p, st)
    requires BodyLeft(s, p, st, st3, ended, threw, own, ran) && BodyExactly(s, p, st, st3, ended, threw, own)
    requires SameOutside(st, st3, p) && Kept(st, st3) && !IsComplete(st3, p)
    requires st4 == Closed(st3, p)
    ensures RootMade(s, p, st, st4, ran)
  {
    VisitEnds(s, p, st, st, st3, st4, ended, threw, own, ran);
    RootVisited(s, p, st, st3, st4, ended, threw, own, ran);
    ClosedOutside(p, st, st3, st4);
  }

  lemma ClosedOutside(p: Path, st: States, st3: States, st4: States)
    requires p in st3 && SameOutside(st, st3, p) && Kept(st, st3) && !IsComplete(st3, p) && st4 == Closed(st3, p)
    ensures SameOutside(st, st4, p) && Kept(st, st4) && st4[p] != Failed
  {
    forall q | !(p <= q) ensures SameAt(st, st4, q) {
      assert SameAt(st, st3, q);
    }
    forall q | IsComplete(st, q) ensures IsComplete(st4, q) {
      assert IsComplete(st3, q);
    }
  }

  // ---------------------------------------------------------------- from one sibling to the next

  /** Visiting the i-th child leaves its siblings alone. */
  lemma NextSibling(s: Section, p: Path, i: nat, st: States, st1: States)
    requires DistinctSiblings(s) && i < |s.children|
    requires OnlyChildChanged(st, st1, p, p + [s.children[i].name])
    ensures SameOutside(st, st1, p)
    ensures forall k | 0 <= k < |s.children| && k != i :: SameUnder(st, st1, p + [s.children[k].name])
    ensures AllFresh(s.children[i..], p, st) ==> AllFresh(s.children[i + 1..], p, st1)
    ensures Frontier(s.children[i..], p, st) ==>
              if IsComplete(st, p + [s.children[i].name]) then Frontier(s.children[i + 1..], p, st)
              else AllFresh(s.children[i + 1..], p, st1)
  {
    var cs := s.children;
    forall k | 0 <= k < |cs| && k != i ensures SameUnder(st, st1, p + [cs[k].name]) {
      forall q | p + [cs[k].name] <= q ensures SameAt(st, st1, q) {
        assert q[|p|] == cs[k].name != cs[i].name;
      }
    }
    var rest := cs[i + 1..];
    assert cs[i..][1..] == rest && cs[i..][0] == cs[i];
    AllFreshStep(cs[i..], p, st);
    assert forall k | 0 <= k < |rest| :: rest[k] == cs[i + 1 + k];
    SiblingsFramed(rest, p, st, st1);
  }

  lemma Outside(st: States, st1: States, st2: States, p: Path)
    requires SameOutside(st, st1, p) && SameOutside(st1, st2, p)
    ensures SameOutside(st, st2, p)
  {
    forall q | !(p <= q) ensures SameAt(st, st2, q) {
      assert SameAt(st, st1, q) && SameAt(st1, st2, q);
    }
  }

  /** The children up to the i-th, once the rest of the body has run. */
  lemma SiblingsSo(s: Section, p: Path, i: nat, st: States, st1: States, st2: States)
    requires i < |s.children|
    requires forall k | 0 <= k < |s.children| && k != i :: SameUnder(st, st1, p + [s.children[k].name])
    requires forall k | 0 <= k < i + 1 :: SameUnder(st1, st2, p + [s.children[k].name])
    requires forall k | Limit(s) <= k < |s.children| :: SameUnder(st1, st2, p + [s.children[k].name])
    ensures forall k | 0 <= k < i || (Limit(s) <= k < |s.children| && k != i) :: SameUnder(st, st2, p + [s.children[k].name])
    ensures Fresh(st1, p + [s.children[i].name]) && AllFresh(s.children[i + 1..], p, st2)
            ==> AllFresh(s.children[i..], p, st2)
    ensures p + [s.children[i].name] in st1 && KnownFrom(s, i + 1, p, st2) ==> KnownFrom(s, i, p, st2)
    ensures IsComplete(st2, p + [s.children[i].name]) && CompleteFrom(s, i + 1, p, st2) ==> CompleteFrom(s, i, p, st2)
  {
    var cs, q := s.children[i..], p + [s.children[i].name];
    forall k | 0 <= k < i || (Limit(s) <= k < |s.children| && k != i)
      ensures SameUnder(st, st2, p + [s.children[k].name])
    {
      forall r | p + [s.children[k].name] <= r ensures SameAt(st, st2, r) {
        assert SameUnder(st, st1, p + [s.children[k].name]) && SameUnder(st1, st2, p + [s.children[k].name]);
        assert SameAt(st, st1, r) && SameAt(st1, st2, r);
      }
    }
    assert SameUnder(st1, st2, q);
    FramedFresh(q, st1, st2);
    assert SameAt(st1, st2, q);
    assert cs[1..] == s.children[i + 1..];
    AllFreshStep(cs, p, st2);
  }

  /** A visit to the i-th child that used up the cycle, followed by siblings that did not open. */
  lemma FirstVisited(s: Section, p: Path, i: nat, st: States, st1: States, st2: States, ran: seq<Path>)
    requires i < |s.children| && Frontier(s.children[i..], p, st)
    requires !IsComplete(st, p + [s.children[i].name])
    requires Visited(s.children[i], p + [s.children[i].name], st, st1, ran)
    requires SameUnder(st1, st2, p + [s.children[i].name])
    requires AllFresh(s.children[i + 1..], p, st2)
    ensures VisitedAll(s, i, p, st, st2, ran)
  {
    var c, rest := s.children[i], s.children[i + 1..];
    var q := p + [c.name];
    assert s.children[i..][1..] == rest && s.children[i..][0] == c;
    Framed(c, q, st1, st2);
    assert SameAt(st1, st2, q);
    AllFreshHasNothingDone(rest, p, st);
    AllFreshHasNothingDone(rest, p, st2);
    AllFreshPending(rest, p, st, st2);
  }

  /** A child that was complete already, followed by siblings that used up the cycle. */
  lemma LaterVisited(s: Section, p: Path, i: nat, st: States, st2: States, ran: seq<Path>)
    requires i < |s.children| && IsComplete(st, p + [s.children[i].name])
    requires SameUnder(st, st2, p + [s.children[i].name])
    requires VisitedAll(s, i + 1, p, st, st2, ran)
    ensures VisitedAll(s, i, p, st, st2, ran)
  {
    var c, rest := s.children[i], s.children[i + 1..];
    var q := p + [c.name];
    assert s.children[i..][1..] == rest && s.children[i..][0] == c;
    Framed(c, q, st, st2);
    assert SameAt(st, st2, q);
  }

  lemma EitherVisited(s: Section, p: Path, i: nat, st: States, st1: States, st2: States, ran: seq<Path>, more: seq<Path>)
    requires i < |s.children| && Frontier(s.children[i..], p, st)
    requires SameUnder(st1, st2, p + [s.children[i].name])
    requires IsComplete(st, p + [s.children[i].name]) ==> st1 == st && ran == [] && VisitedAll(s, i + 1, p, st, st2, more)
    requires !IsComplete(st, p + [s.children[i].name]) ==>
               && Visited(s.children[i], p + [s.children[i].name], st, st1, ran)
               && more == [] && AllFresh(s.children[i + 1..], p, st2)
    ensures VisitedAll(s, i, p, st, st2, ran + more)
  {
    assert ran + more == if IsComplete(st, p + [s.children[i].name]) then more else ran;
    if IsComplete(st, p + [s.children[i].name]) {
      LaterVisited(s, p, i, st, st2, more);
    } else {
      FirstVisited(s, p, i, st, st1, st2, ran);
    }
  }

  lemma EitherExactly(s: Section, p: Path, i: nat, st: States, st1: States, st2: States, loud: bool)
    requires i < Limit(s) && Frontier(s.children[i..], p, st)
    requires SameUnder(st1, st2, p + [s.children[i].name])
    requires IsComplete(st, p + [s.children[i].name]) ==> st1 == st && SiblingsVisited(s, i + 1, p, st, st2, loud)
    requires !IsComplete(st, p + [s.children[i].name]) ==>
               && VisitedExactly(s.children[i], p + [s.children[i].name], st, st1, loud)
               && AllFresh(s.children[i + 1..], p, st2)
    ensures SiblingsVisited(s, i, p, st, st2, loud)
  {
    assert s.children[i..][1..] == s.children[i + 1..] && s.children[i..][0] == s.children[i];
    if IsComplete(st, p + [s.children[i].name]) {
      LaterExactly(s, p, i, st, st2, loud);
    } else {
      FirstExactly(s, p, i, st, st1, st2, loud);
    }
  }

  /** After a throw the section above the thrower is not yet complete. */
  lemma ThrownPast(s: Section, p: Path, i: nat, st: States)
    requires i < |s.children| && p + [s.children[i].name] in st
    ensures !IsComplete(st, p + [s.children[i].name]) ==> !AllKnownComplete(st, p)
  {
    assert IsChild(p, p + [s.children[i].name]);
  }

  // ---------------------------------------------------------------- the statements of a body

  /** What one SECTION in the body at p does: nothing once the cycle has ended or if it is complete, else a visit. */
  ghost predicate SectionRan(c: Section, p: Path, st: States, st1: States, ended: bool, ended1: bool, threw: bool,
                             ran: seq<Path>)
  {
    var q := p + [c.name];
    && OnlyChildChanged(st, st1, p, q) && p in st1 && q in st1 && Kept(st, st1)
    && (Tree(c, q, st) ==> Tree(c, q, st1))
    && (ended ==> ended1 && !threw && ran == [] && Fresh(st1, q) && st1[p] == ExecutingChildren)
    && (!ended && IsComplete(st, q) ==> !ended1 && !threw && ran == [] && st1 == st)
    && (!ended && !IsComplete(st, q) ==>
          && ended1 && Visited(c, q, st, st1, ran) && VisitedExactly(c, q, st, st1, threw)
          && (!threw ==> st1[p] == ExecutingChildren)
          && (threw ==> st1[p] == NeedsAnotherRun || (st1[p] == ExecutingChildren && !IsComplete(st1, q))))
  }

  lemma VisitRan(c: Section, p: Path, st: States, st1: States, threw: bool, ran: seq<Path>)
    requires VisitMade(c, p, st, st1, threw, ran) && !IsComplete(st, p + [c.name])
    ensures SectionRan(c, p, st, st1, false, true, threw, ran)
  {
  }

  lemma NothingRan(c: Section, p: Path, st: States, ended: bool)
    requires AtSection(c, p, st, ended) && (ended || IsComplete(st, p + [c.name]))
    ensures SectionRan(c, p, st, Known(st, p + [c.name]), ended, ended, false, [])
  {
    if ended {
      FreshTree(c, p + [c.name], Known(st, p + [c.name]));
    }
  }

  /** What the statements of the body at p do from the i-th subsection on; own is whether nothing threw out of one. */
  ghost predicate RestRan(s: Section, i: nat, p: Path, st: States, st2: States, ended: bool, ended2: bool, threw: bool,
                          own: bool, ran: seq<Path>)
    requires i <= Limit(s)
  {
    && SameOutside(st, st2, p) && Kept(st, st2) && p in st2
    && (Tree(s, p, st) ==> Tree(s, p, st2))
    && (forall k | 0 <= k < i :: SameUnder(st, st2, p + [s.children[k].name]))
    && (forall k | Limit(s) <= k < |s.children| :: SameUnder(st, st2, p + [s.children[k].name]))
    && (!ended2 ==> st2 == st && own && ran == [] && CompleteFrom(s, i, p, st2))
    && (ended ==> ended2 && own && ran == [] && AllFresh(s.children[i..], p, st2))
    && (!ended && ended2 ==> i < |s.children| && VisitedAll(s, i, p, st, st2, ran) && SiblingsVisited(s, i, p, st, st2, !own))
    && (ended2 ==> st2[p] == ExecutingChildren || (st2[p] == NeedsAnotherRun && threw && !own))
    && (threw || own)
    && (own ==> threw == Throws(s) && KnownFrom(s, i, p, st2))
    && (!own ==> ended2 && (st2[p] == NeedsAnotherRun || !AllKnownComplete(st2, p)))
  }

  /** The end of a body, or its own throw. */
  lemma BodyOver(s: Section, i: nat, p: Path, st: States, ended: bool, threw: bool)
    requires i == Limit(s) && threw == Throws(s) && AtStatement(s, i, p, st, ended)
    ensures RestRan(s, i, p, st, st, ended, ended, threw, true, [])
  {
  }

  lemma TreeKept(s: Section, i: nat, p: Path, st: States, st1: States)
    requires DistinctSiblings(s) && i < Limit(s)
    requires OnlyChildChanged(st, st1, p, p + [s.children[i].name])
    requires Tree(s.children[i], p + [s.children[i].name], st) ==> Tree(s.children[i], p + [s.children[i].name], st1)
    ensures Tree(s, p, st) ==> Tree(s, p, st1)
  {
    if Tree(s, p, st) {
      TreeBelow(s, p, i, st);
      TreeAbove(s, p, i, st, st1);
    }
  }

  /** What the statements of the body at p find from the i-th subsection on. */
  ghost predicate AtStatement(s: Section, i: nat, p: Path, st: States, ended: bool)
    requires i <= |s.children|
  {
    && p in st && st[p] == (if ended then ExecutingChildren else Executing)
    && if ended then AllFresh(s.children[i..], p, st) else Frontier(s.children[i..], p, st)
  }

  /** What a SECTION of the body at p finds. */
  ghost predicate AtSection(c: Section, p: Path, st: States, ended: bool) {
    && p in st && st[p] == (if ended then ExecutingChildren else Executing)
    && if ended then Fresh(st, p + [c.name]) else Shape(c, p + [c.name], st)
  }

  lemma SectionNext(s: Section, i: nat, p: Path, st: States, ended: bool)
    requires i < |s.children| && AtStatement(s, i, p, st, ended)
    ensures AtSection(s.children[i], p, st, ended)
  {
    assert s.children[i..][0] == s.children[i];
    AllFreshStep(s.children[i..], p, st);
  }

  lemma StatementNext(s: Section, i: nat, p: Path, st: States, st1: States, ended: bool, ended1: bool, ran: seq<Path>)
    requires DistinctSiblings(s) && i < Limit(s) && AtStatement(s, i, p, st, ended)
    requires SectionRan(s.children[i], p, st, st1, ended, ended1, false, ran)
    ensures AtStatement(s, i + 1, p, st1, ended1)
  {
    NextSibling(s, p, i, st, st1);
  }

  /** A throw out of the i-th subsection ends the body. */
  lemma ThrowPasses(s: Section, i: nat, p: Path, st: States, st1: States, ended: bool, ran: seq<Path>)
    requires DistinctSiblings(s) && i < Limit(s) && AtStatement(s, i, p, st, ended)
    requires SectionRan(s.children[i], p, st, st1, ended, true, true, ran)
    ensures RestRan(s, i, p, st, st1, ended, true, true, false, ran)
  {
    NextSibling(s, p, i, st, st1);
    TreeKept(s, i, p, st, st1);
    ThrownPast(s, p, i, st1);
    FirstVisited(s, p, i, st, st1, st1, ran);
    FirstExactly(s, p, i, st, st1, st1, true);
  }

  /** The i-th subsection, then the rest of the body. */
  lemma RestComposed(s: Section, i: nat, p: Path, st: States, st1: States, st2: States, ended: bool, ended1: bool,
                     ended2: bool, threw: bool, own: bool, ran: seq<Path>, more: seq<Path>)
    requires DistinctSiblings(s) && i < Limit(s) && AtStatement(s, i, p, st, ended)
    requires SectionRan(s.children[i], p, st, st1, ended, ended1, false, ran)
    requires RestRan(s, i + 1, p, st1, st2, ended1, ended2, threw, own, more)
    ensures RestRan(s, i, p, st, st2, ended, ended2, threw, own, ran + more)
  {
    NextSibling(s, p, i, st, st1);
    TreeKept(s, i, p, st, st1);
    Outside(st, st1, st2, p);
    SiblingsSo(s, p, i, st, st1, st2);
    if !ended && ended2 {
      EitherVisited(s, p, i, st, st1, st2, ran, more);
      EitherExactly(s, p, i, st, st1, st2, !own);
    }
  }

  class RunContext {
    const ctx: TrackerContext
    var activeSections: seq<Path>
    var unfinishedSections: seq<Path>
    /** The leaf bodies that have run, in order: what a reporter sees of them. */
    var log: seq<Path>

    constructor ()
      ensures ctx.states == map[[] := NotStarted] && activeSections == [] && unfinishedSections == [] && log == []
      ensures fresh(ctx)
    {
      ctx := new TrackerContext();
      activeSections := [];
      unfinishedSections := [];
      log := [];
    }

    /** The section at p is the innermost open one, and everything above it executes a child. */
    ghost predicate Inside(p: Path)
      reads this, ctx
    {
      && |p| >= 1 && ctx.current == p && p in ctx.states
      && AncestorsOpen(ctx.states, p)
      && activeSections == OpenSections(p)
    }

    method SectionStarted(name: NameAndLocation) returns (started: bool)
      requires Rooted(ctx.states, ctx.current)
      modifies this, ctx
      ensures unfinishedSections == old(unfinishedSections) && log == old(log)
      ensures ctx.cycleCompleted == old(ctx.cycleCompleted)
      ensures var q := old(ctx.current) + [name];
              var known := Known(old(ctx.states), q);
              && q in ctx.states && started == IsOpen(ctx.states, q)
              && activeSections == (if started then old(activeSections) + [q] else old(activeSections))
              && if ctx.cycleCompleted || IsComplete(known, q)
                 then ctx.states == known && ctx.current == old(ctx.current)
                 else ctx.states == ChildOpened(known[q := Executing], old(ctx.current)) && ctx.current == q
    {
      var q := ctx.Acquire(name);
      started := IsOpen(ctx.states, q);
      if started {
        activeSections := activeSections + [q];
      }
    }

    method SectionEnded()
      requires activeSections != [] ==> ctx.OpenFrom(activeSections[|activeSections| - 1])
      modifies this, ctx
      ensures unfinishedSections == old(unfinishedSections) && log == old(log)
      ensures old(activeSections) == [] ==>
                activeSections == [] && ctx.states == old(ctx.states) && ctx.current == old(ctx.current)
      ensures old(activeSections) != [] ==>
                var p := old(activeSections)[|old(activeSections)| - 1];
                && activeSections == old(activeSections)[..|old(activeSections)| - 1]
                && ctx.current == Parent(p) && ctx.cycleCompleted
                && ctx.states == ClosedUpTo(old(ctx.states), old(ctx.current), p)
    {
      if activeSections != [] {
        ctx.Close(activeSections[|activeSections| - 1]);
        activeSections := activeSections[..|activeSections| - 1];
      }
    }

    method SectionEndedEarly()
      requires activeSections != [] && ctx.OpenFrom(activeSections[|activeSections| - 1])
      modifies this, ctx
      ensures log == old(log)
      ensures var p := old(activeSections)[|old(activeSections)| - 1];
              && activeSections == old(activeSections)[..|old(activeSections)| - 1]
              && unfinishedSections == old(unfinishedSections) + [p]
              && ctx.current == Parent(p) && ctx.cycleCompleted
              && ctx.states == if old(unfinishedSections) == [] then FailedAt(old(ctx.states), p)
                               else ClosedUpTo(old(ctx.states), old(ctx.current), p)
    {
      var p := activeSections[|activeSections| - 1];
      if unfinishedSections == [] {
        ctx.Fail(p);
      } else {
        ctx.Close(p);
      }
      activeSections := activeSections[..|activeSections| - 1];
      unfinishedSections := unfinishedSections + [p];
    }

    /** One SECTION of a body: enter it if it opens, and end it normally or during unwinding. */
    method RunSection(c: Section, ghost p: Path) returns (threw: bool, ghost ran: seq<Path>)
      requires Inside(p) && unfinishedSections == [] && DistinctSiblings(c)
      requires AtSection(c, p, ctx.states, ctx.cycleCompleted)
      modifies this, ctx
      ensures Inside(p) && log == old(log) + ran && (threw <==> unfinishedSections != [])
      ensures SectionRan(c, p, old(ctx.states), ctx.states, old(ctx.cycleCompleted), ctx.cycleCompleted, threw, ran)
      decreases c, 2, 0
    {
      ghost var q := p + [c.name];
      ghost var st := ctx.states;
      InsideIsRooted(p);
      if !ctx.cycleCompleted && !IsComplete(st, q) {
        OpenedUnderExecuting(Known(st, q), p, q);
      }
      var started := SectionStarted(c.name);
      threw, ran := false, [];
      if started {
        Opening(c, p, st, ctx.states);
        threw, ran := RunStarted(c, p, st);
        VisitRan(c, p, st, ctx.states, threw, ran);
      } else {
        NothingRan(c, p, st, ctx.cycleCompleted);
      }
      AncestorsUntouched(st, ctx.states, p);
    }

    /** The body of a section that has just opened, and its end. */
    method RunStarted(c: Section, ghost p: Path, ghost st: States) returns (threw: bool, ghost ran: seq<Path>)
      requires unfinishedSections == [] && DistinctSiblings(c) && !ctx.cycleCompleted && |p| >= 1
      requires JustOpened(c, p, st, ctx.states)
      requires ctx.current == p + [c.name] && activeSections == OpenSections(p) + [p + [c.name]]
      modifies this, ctx
      ensures ctx.current == p && activeSections == OpenSections(p) && p in ctx.states
      ensures log == old(log) + ran && (threw <==> unfinishedSections != [])
      ensures ctx.cycleCompleted && VisitMade(c, p, st, ctx.states, threw, ran)
      decreases c, 1, 1
    {
      ghost var q, st2 := p + [c.name], ctx.states;
      threw, ran := InvokeBody(c, q);
      ghost var st3, ended, own := ctx.states, ctx.cycleCompleted, unfinishedSections == [];
      EndSection(q, threw);
      VisitComposed(c, p, st, st2, st3, ctx.states, ended, threw, own, ran);
    }

    /** The destructor of the innermost section, in normal flow or during unwinding. */
    method EndSection(ghost q: Path, threw: bool)
      requires Inside(q) && |q| >= 2 && IsOpen(ctx.states, q) && (!threw ==> unfinishedSections == [])
      modifies this, ctx
      ensures ctx.current == Parent(q) && activeSections == OpenSections(Parent(q)) && ctx.cycleCompleted
      ensures log == old(log) && (threw <==> unfinishedSections != [])
      ensures ctx.states == if threw && old(unfinishedSections) == [] then FailedAt(old(ctx.states), q)
                            else Closed(old(ctx.states), q)
    {
      assert q == q[..|q|];
      if threw {
        SectionEndedEarly();
      } else {
        SectionEnded();
      }
    }

    lemma InsideIsRooted(p: Path)
      requires Inside(p)
      ensures Rooted(ctx.states, p)
    {
      assert p == p[..|p|];
    }

    /** The body of section s, from its first statement on. */
    method InvokeBody(s: Section, ghost p: Path) returns (threw: bool, ghost ran: seq<Path>)
      requires Inside(p) && unfinishedSections == [] && DistinctSiblings(s)
      requires !ctx.cycleCompleted && ctx.states[p] == Executing && Frontier(s.children, p, ctx.states)
      modifies this, ctx
      ensures Inside(p) && log == old(log) + ran
      ensures SameOutside(old(ctx.states), ctx.states, p) && Kept(old(ctx.states), ctx.states)
      ensures BodyLeft(s, p, old(ctx.states), ctx.states, ctx.cycleCompleted, threw, unfinishedSections == [], ran)
      ensures BodyExactly(s, p, old(ctx.states), ctx.states, ctx.cycleCompleted, threw, unfinishedSections == [])
      decreases s, 1, 0
    {
      if s.children == [] {
        log := log + [ctx.current];
      }
      assert s.children[0..] == s.children;
      threw, ran := RunFrom(s, p, 0);
      if s.children == [] {
        ran := [p];
      }
    }

    /** The statements of the body from the i-th subsection on. */
    method RunFrom(s: Section, ghost p: Path, i: nat) returns (threw: bool, ghost ran: seq<Path>)
      requires Inside(p) && unfinishedSections == [] && DistinctSiblings(s) && i <= Limit(s)
      requires AtStatement(s, i, p, ctx.states, ctx.cycleCompleted)
      modifies this, ctx
      ensures Inside(p) && log == old(log) + ran
      ensures RestRan(s, i, p, old(ctx.states), ctx.states, old(ctx.cycleCompleted), ctx.cycleCompleted, threw,
                      unfinishedSections == [], ran)
      decreases s, 0, |s.children| - i
    {
      ran := [];
      if i == s.throwAt {
        BodyOver(s, i, p, ctx.states, ctx.cycleCompleted, true);
        return true, [];
      }
      if i == |s.children| {
        BodyOver(s, i, p, ctx.states, ctx.cycleCompleted, false);
        return false, [];
      }
      var c := s.children[i];
      ghost var q := p + [c.name];
      ghost var st, ended := ctx.states, ctx.cycleCompleted;
      SectionNext(s, i, p, st, ended);
      threw, ran := RunSection(c, p);
      ghost var st1, ended1 := ctx.states, ctx.cycleCompleted;
      if threw {
        ThrowPasses(s, i, p, st, st1, ended, ran);
      } else {
        ghost var more;
        StatementNext(s, i, p, st, st1, ended, ended1, ran);
        threw, more := RunFrom(s, p, i + 1);
        RestComposed(s, i, p, st, st1, ctx.states, ended, ended1, ctx.cycleCompleted, threw, unfinishedSections == [], ran, more);
        ran := ran + more;
      }
    }

    // -------------------------------------------------------------- whole runs

    method HandleUnfinishedSections()
      requires activeSections == []
      modifies this, ctx
      ensures unfinishedSections == [] && activeSections == [] && log == old(log)
      ensures ctx.states == old(ctx.states)
    {
      var k := |unfinishedSections|;
      while k > 0
        invariant activeSections == [] && log == old(log) && ctx.states == old(ctx.states)
      {
        SectionEnded();
        k := k - 1;
      }
      unfinishedSections := [];
    }

    /** One run of the test case, whose tracker has just opened; a throw out of the body is caught. */
    method RunCurrentTest(testCase: Section) returns (ghost ran: seq<Path>)
      requires DistinctSiblings(testCase) && Inside([testCase.name]) && unfinishedSections == []
      requires !ctx.cycleCompleted && ctx.states[[testCase.name]] == Executing
      requires Frontier(testCase.children, [testCase.name], ctx.states)
      requires BelowExact(testCase, [testCase.name], ctx.states)
      modifies this, ctx
      ensures unfinishedSections == [] && activeSections == [] && log == old(log) + ran
      ensures RootMade(testCase, [testCase.name], old(ctx.states), ctx.states, ran)
    {
      ghost var p, st := [testCase.name], ctx.states;
      var threw;
      threw, ran := InvokeBody(testCase, p);
      ghost var st3, ended, own := ctx.states, ctx.cycleCompleted, unfinishedSections == [];
      assert p == p[..|p|];
      ctx.Close([testCase.name]);
      RootComposed(testCase, p, st, st3, ctx.states, ended, threw, own, ran);
      HandleUnfinishedSections();
    }

    lemma CycleStarts(testCase: Section, p: Path, st: States, st2: States)
      requires |p| == 1 && Shape(testCase, p, st) && !IsComplete(st, p) && SameBelow(st, st2, p) && !IsComplete(st2, p)
      ensures RootOpened(testCase, p, st, st2)
    {
      OpeningLeavesBelow(testCase, p, st, st2);
    }

    /** Starts a cycle and acquires the test case's tracker, which opens. */
    method StartCycle(testCase: Section)
      requires [] in ctx.states && !IsComplete(ctx.states, []) && activeSections == []
      requires Shape(testCase, [testCase.name], ctx.states) && !IsComplete(ctx.states, [testCase.name])
      modifies this, ctx
      ensures unfinishedSections == old(unfinishedSections) && log == old(log)
      ensures Inside([testCase.name]) && !ctx.cycleCompleted && ctx.states[[testCase.name]] == Executing
      ensures RootOpened(testCase, [testCase.name], old(ctx.states), ctx.states)
      ensures Kept(old(ctx.states), ctx.states)
    {
      ghost var st := ctx.states;
      ctx.StartCycle();
      var p := ctx.Acquire(testCase.name);
      assert p == [testCase.name] && p[..0] == [];
      CycleStarts(testCase, p, st, ctx.states);
    }

    /**
    The run loop, started on fresh trackers. Whatever the sections throw it ends; every run of the
    test case completes at least one tracker and keeps the complete ones, and executes at most one
    leaf body. The leaves that run, and their order, are determined by the program alone.
     */
    method RunTest(testCase: Section) returns (testRuns: nat, ghost history: seq<States>)
      requires DistinctSiblings(testCase)
      requires ctx.states == map[[] := NotStarted] && activeSections == [] && unfinishedSections == [] && log == []
      modifies this, ctx
      ensures IsComplete(ctx.states, [testCase.name])
      ensures log == DoneLeaves(testCase, [testCase.name], ctx.states) == RanLeaves(testCase, [testCase.name])
      ensures |log| <= testRuns == Runs(testCase) <= Size(testCase)
      ensures |history| == testRuns + 1 && history[0] == old(ctx.states) && history[testRuns] == ctx.states
      ensures forall i | 0 <= i < testRuns :: Progress(testCase, [testCase.name], history[i], history[i + 1])
    {
      ghost var p := [testCase.name];
      testRuns, history := 0, [ctx.states];
      FreshHasNothingDone(testCase, p, ctx.states);
      FreshIsExact(testCase, p, ctx.states);
      FreshPendingIsSize(testCase, p, ctx.states);
      FreshRuns(testCase, p, ctx.states);
      assert p !in ctx.states;
      while true
        invariant [] in ctx.states && !IsComplete(ctx.states, []) && activeSections == [] && unfinishedSections == []
        invariant Shape(testCase, p, ctx.states) && !IsComplete(ctx.states, p)
        invariant log == DoneLeaves(testCase, p, ctx.states) && RootExact(testCase, p, ctx.states)
        invariant |log| <= testRuns && testRuns + RunsLeft(testCase, p, ctx.states) == Runs(testCase)
        invariant testRuns + Pending(testCase, p, ctx.states) <= Size(testCase)
        invariant |history| == testRuns + 1 && history[0] == old(ctx.states) && history[testRuns] == ctx.states
        invariant forall i | 0 <= i < testRuns :: Progress(testCase, p, history[i], history[i + 1])
        decreases Pending(testCase, p, ctx.states)
      {
        RunOnce(testCase);
        testRuns, history := testRuns + 1, history + [ctx.states];
        if ctx.states[[testCase.name]] == CompletedSuccessfully {
          return;
        }
      }
    }

    /** One cycle of the loop. */
    method RunOnce(testCase: Section)
      requires DistinctSiblings(testCase) && activeSections == [] && unfinishedSections == []
      requires [] in ctx.states && !IsComplete(ctx.states, [])
      requires Shape(testCase, [testCase.name], ctx.states) && !IsComplete(ctx.states, [testCase.name])
      requires RootExact(testCase, [testCase.name], ctx.states)
      requires log == DoneLeaves(testCase, [testCase.name], ctx.states)
      modifies this, ctx
      ensures activeSections == [] && unfinishedSections == []
      ensures [] in ctx.states && !IsComplete(ctx.states, [])
      ensures [testCase.name] in ctx.states && ctx.states[[testCase.name]] != Failed
      ensures Shape(testCase, [testCase.name], ctx.states) && RootExact(testCase, [testCase.name], ctx.states)
      ensures log == DoneLeaves(testCase, [testCase.name], ctx.states) && |log| <= |old(log)| + 1
      ensures Progress(testCase, [testCase.name], old(ctx.states), ctx.states)
      ensures RunsLeft(testCase, [testCase.name], old(ctx.states)) == RunsLeft(testCase, [testCase.name], ctx.states) + 1
    {
      ghost var p := [testCase.name];
      StartCycle(testCase);
      ghost var st := ctx.states;
      ghost var ran := RunCurrentTest(testCase);
      assert p[..0] == [] && SameAt(st, ctx.states, []);
    }
  }

  /** More trackers are complete, and none of the complete ones is not any more. */
  ghost predicate Progress(testCase: Section, p: Path, st: States, st': States) {
    Kept(st, st') && Pending(testCase, p, st') < Pending(testCase, p, st)
  }

  /** Runs a test case on fresh trackers and returns the executed leaf bodies. */
  method Run(testCase: Section) returns (executed: seq<Path>, testRuns: nat)
    requires DistinctSiblings(testCase)
    ensures |executed| <= testRuns == Runs(testCase) <= Size(testCase)
    ensures NothingThrows(testCase) ==> testRuns == |executed|
    ensures forall i, j | 0 <= i < j < |executed| :: executed[i] != executed[j]
    ensures forall l | l in executed :: l in Leaves(testCase, [testCase.name])
    ensures executed == RanLeaves(testCase, [testCase.name])
    ensures executed == Leaves(testCase, [testCase.name]) <==> NoLeafLost(testCase)
  {
    var context := new RunContext();
    ghost var history;
    testRuns, history := context.RunTest(testCase);
    executed := context.log;
    DoneLeavesDistinct(testCase, [testCase.name], context.ctx.states);
    AllRunExactly(testCase, [testCase.name]);
    if NothingThrows(testCase) {
      OneRunPerLeaf(testCase, [testCase.name]);
      ThrowlessKeeps(testCase);
    }
  }
}
