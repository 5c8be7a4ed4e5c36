/**
What the section trackers of one test case remember between its runs. A tracker is known by the
path of names that leads to it from the root, because a lookup always goes through the parent.
 */
module TrackerStates {

  datatype NameAndLocation = NameAndLocation(name: string, file: string, line: nat)

  type Path = seq<NameAndLocation>

  datatype CycleState =
    | NotStarted
    | Executing
    | ExecutingChildren
    | NeedsAnotherRun
    | CompletedSuccessfully
    | Failed

  type States = map<Path, CycleState>

  /**
  A section of the test program: its body meets its subsections in order, and throws when throwAt
  of them have been met, if throwAt is between 0 and their number.
   */
  datatype Section = Section(name: NameAndLocation, children: seq<Section>, throwAt: int)

  predicate Throws(s: Section) {
    0 <= s.throwAt <= |s.children|
  }

  /** How many of its subsections the section ever meets. */
  function Limit(s: Section): (n: nat)
    ensures n <= |s.children|
  {
    if Throws(s) then s.throwAt else |s.children|
  }

  /** Siblings have different names, everywhere in the program. */
  predicate DistinctSiblings(s: Section) {
    && (forall i, j | 0 <= i < j < |s.children| :: s.children[i].name != s.children[j].name)
    && forall i | 0 <= i < |s.children| :: DistinctSiblings(s.children[i])
  }

  predicate OnlyLeavesThrow(s: Section) {
    && (Throws(s) ==> s.children == [])
    && forall i | 0 <= i < |s.children| :: OnlyLeavesThrow(s.children[i])
  }

  function Parent(p: Path): Path
    requires |p| > 0
  {
    p[..|p| - 1]
  }

  predicate IsComplete(st: States, p: Path) {
    p in st && (st[p] == CompletedSuccessfully || st[p] == Failed)
  }

  predicate IsOpen(st: States, p: Path)
    requires p in st
  {
    st[p] != NotStarted && !IsComplete(st, p)
  }

  predicate IsChild(p: Path, q: Path) {
    |q| == |p| + 1 && p <= q
  }

  predicate AllKnownComplete(st: States, p: Path) {
    forall q | q in st && IsChild(p, q) :: IsComplete(st, q)
  }

  // ---------------------------------------------------------------- leaves

  /** The leaf sections below s, in the order of the program. */
  ghost function Leaves(s: Section, p: Path): seq<Path> {
    if s.children == [] then [p] else LeavesOf(s.children, p)
  }

  ghost function LeavesOf(cs: seq<Section>, p: Path): seq<Path> {
    if cs == [] then [] else Leaves(cs[0], p + [cs[0].name]) + LeavesOf(cs[1..], p)
  }

  /** The leaves whose tracker is complete. */
  ghost function DoneLeaves(s: Section, p: Path, st: States): seq<Path> {
    if s.children == [] then if IsComplete(st, p) then [p] else []
    else DoneLeavesOf(s.children, p, st)
  }

  ghost function DoneLeavesOf(cs: seq<Section>, p: Path, st: States): seq<Path> {
    if cs == [] then [] else DoneLeaves(cs[0], p + [cs[0].name], st) + DoneLeavesOf(cs[1..], p, st)
  }

  /** How many trackers of the program are not complete. */
  ghost function Pending(s: Section, p: Path, st: States): nat {
    (if IsComplete(st, p) then 0 else 1) + PendingOf(s.children, p, st)
  }

  ghost function PendingOf(cs: seq<Section>, p: Path, st: States): nat {
    if cs == [] then 0 else Pending(cs[0], p + [cs[0].name], st) + PendingOf(cs[1..], p, st)
  }

  // ---------------------------------------------------------------- the frontier

  /** Nothing at or below p has started. */
  ghost predicate Fresh(st: States, p: Path) {
    forall q | q in st && p <= q :: q == p && st[q] == NotStarted
  }

  ghost predicate AllFresh(cs: seq<Section>, p: Path, st: States) {
    forall i | 0 <= i < |cs| :: Fresh(st, p + [cs[i].name])
  }

  /** Between two runs a tracker is untouched, complete, or waiting for the rest of its children. */
  ghost predicate Shape(s: Section, p: Path, st: States) {
    || Fresh(st, p)
    || IsComplete(st, p)
    || (p in st && (st[p] == ExecutingChildren || st[p] == NeedsAnotherRun) && Frontier(s.children, p, st))
  }

  /** Of a list of siblings, first come complete ones, then one that may be half done, then untouched ones. */
  ghost predicate Frontier(cs: seq<Section>, p: Path, st: States) {
    cs == [] ||
    if IsComplete(st, p + [cs[0].name]) then Frontier(cs[1..], p, st)
    else Shape(cs[0], p + [cs[0].name], st) && AllFresh(cs[1..], p, st)
  }

  // ---------------------------------------------------------------- framing

  ghost predicate SameAt(st: States, st': States, q: Path) {
    (q in st <==> q in st') && (q in st ==> st[q] == st'[q])
  }

  /** The trackers at and below p are the same. */
  ghost predicate SameUnder(st: States, st': States, p: Path) {
    forall q | p <= q :: SameAt(st, st', q)
  }

  ghost predicate SameBelow(st: States, st': States, p: Path) {
    forall q | p < q :: SameAt(st, st', q)
  }

  lemma {:induction false} Framed(s: Section, p: Path, st: States, st': States)
    requires SameUnder(st, st', p)
    ensures Shape(s, p, st) == Shape(s, p, st')
    ensures DoneLeaves(s, p, st) == DoneLeaves(s, p, st')
    ensures Pending(s, p, st) == Pending(s, p, st')
    decreases s, 1
  {
    assert SameAt(st, st', p);
    FramedAll(s.children, p, st, st');
    FramedFresh(p, st, st');
  }

  lemma FramedFresh(p: Path, st: States, st': States)
    requires SameUnder(st, st', p)
    ensures Fresh(st, p) == Fresh(st', p)
  {
    forall q | p <= q ensures (q in st <==> q in st') && (q in st ==> st[q] == st'[q]) {
      assert SameAt(st, st', q);
    }
  }

  lemma {:induction false} FramedAll(cs: seq<Section>, p: Path, st: States, st': States)
    requires SameBelow(st, st', p)
    ensures Frontier(cs, p, st) == Frontier(cs, p, st')
    ensures AllFresh(cs, p, st) == AllFresh(cs, p, st')
    ensures DoneLeavesOf(cs, p, st) == DoneLeavesOf(cs, p, st')
    ensures PendingOf(cs, p, st) == PendingOf(cs, p, st')
    decreases cs, 0
  {
    if cs != [] {
      var q := p + [cs[0].name];
      assert SameUnder(st, st', q);
      assert SameAt(st, st', q);
      Framed(cs[0], q, st, st');
      FramedAll(cs[1..], p, st, st');
      FramedFresh(q, st, st');
      AllFreshStep(cs, p, st);
      AllFreshStep(cs, p, st');
    }
  }

  lemma AllFreshStep(cs: seq<Section>, p: Path, st: States)
    requires cs != []
    ensures AllFresh(cs, p, st) <==> Fresh(st, p + [cs[0].name]) && AllFresh(cs[1..], p, st)
  {
    if Fresh(st, p + [cs[0].name]) && AllFresh(cs[1..], p, st) {
      forall i | 0 <= i < |cs| ensures Fresh(st, p + [cs[i].name]) {
        if i > 0 {
          assert cs[i] == cs[1..][i - 1];
        }
      }
    }
    if AllFresh(cs, p, st) {
      forall i | 0 <= i < |cs[1..]| ensures Fresh(st, p + [cs[1..][i].name]) {
        assert cs[1..][i] == cs[i + 1];
      }
    }
  }

  lemma {:induction false} FreshHasNothingDone(s: Section, p: Path, st: States)
    requires Fresh(st, p)
    ensures !IsComplete(st, p) && DoneLeaves(s, p, st) == []
    ensures Frontier(s.children, p, st)
    decreases s, 2
  {
    FreshBelow(s.children, p, st);
  }

  lemma {:induction false} FreshBelow(cs: seq<Section>, p: Path, st: States)
    requires Fresh(st, p)
    ensures AllFresh(cs, p, st) && DoneLeavesOf(cs, p, st) == [] && Frontier(cs, p, st)
    decreases cs, 1
  {
    forall i | 0 <= i < |cs| ensures Fresh(st, p + [cs[i].name]) {
      assert p <= p + [cs[i].name];
    }
    AllFreshHasNothingDone(cs, p, st);
  }

  lemma {:induction false} AllFreshHasNothingDone(cs: seq<Section>, p: Path, st: States)
    requires AllFresh(cs, p, st)
    ensures DoneLeavesOf(cs, p, st) == [] && Frontier(cs, p, st)
    decreases cs, 0
  {
    if cs != [] {
      AllFreshStep(cs, p, st);
      FreshHasNothingDone(cs[0], p + [cs[0].name], st);
      AllFreshHasNothingDone(cs[1..], p, st);
    }
  }

  /** Untouched sections are all pending, whatever else has happened. */
  lemma {:induction false} FreshPending(s: Section, p: Path, st: States, st': States)
    requires Fresh(st, p) && Fresh(st', p)
    ensures Pending(s, p, st) == Pending(s, p, st')
    decreases s, 2
  {
    FreshBelow(s.children, p, st);
    FreshBelow(s.children, p, st');
    AllFreshPending(s.children, p, st, st');
  }

  lemma {:induction false} AllFreshPending(cs: seq<Section>, p: Path, st: States, st': States)
    requires AllFresh(cs, p, st) && AllFresh(cs, p, st')
    ensures PendingOf(cs, p, st) == PendingOf(cs, p, st')
    decreases cs, 0
  {
    if cs != [] {
      AllFreshStep(cs, p, st);
      AllFreshStep(cs, p, st');
      FreshPending(cs[0], p + [cs[0].name], st, st');
      AllFreshPending(cs[1..], p, st, st');
    }
  }

  /** How many trackers the program can have. */
  function Size(s: Section): nat {
    1 + SizeOf(s.children)
  }

  function SizeOf(cs: seq<Section>): nat {
    if cs == [] then 0 else Size(cs[0]) + SizeOf(cs[1..])
  }

  lemma {:induction false} FreshPendingIsSize(s: Section, p: Path, st: States)
    requires Fresh(st, p)
    ensures Pending(s, p, st) == Size(s)
    decreases s, 1
  {
    FreshBelow(s.children, p, st);
    AllFreshPendingIsSize(s.children, p, st);
  }

  lemma {:induction false} AllFreshPendingIsSize(cs: seq<Section>, p: Path, st: States)
    requires AllFresh(cs, p, st)
    ensures PendingOf(cs, p, st) == SizeOf(cs)
    decreases cs, 0
  {
    if cs != [] {
      AllFreshStep(cs, p, st);
      FreshPendingIsSize(cs[0], p + [cs[0].name], st);
      AllFreshPendingIsSize(cs[1..], p, st);
    }
  }

  ghost predicate NoRepeats(ls: seq<Path>) {
    forall i, j | 0 <= i < j < |ls| :: ls[i] != ls[j]
  }

  /** Finished leaves are leaves of the program, and none is listed twice. */
  lemma {:induction false} DoneLeavesDistinct(s: Section, p: Path, st: States)
    requires DistinctSiblings(s)
    ensures NoRepeats(DoneLeaves(s, p, st))
    ensures forall l | l in DoneLeaves(s, p, st) :: p <= l && l in Leaves(s, p)
    decreases s, 1
  {
    if s.children != [] {
      DoneLeavesOfDistinct(s.children, p, st);
    }
  }

  lemma {:induction false} DoneLeavesOfDistinct(cs: seq<Section>, p: Path, st: States)
    requires forall i, j | 0 <= i < j < |cs| :: cs[i].name != cs[j].name
    requires forall i | 0 <= i < |cs| :: DistinctSiblings(cs[i])
    ensures NoRepeats(DoneLeavesOf(cs, p, st))
    ensures forall l | l in DoneLeavesOf(cs, p, st) ::
              && l in LeavesOf(cs, p) && p < l
              && exists i :: 0 <= i < |cs| && cs[i].name == l[|p|]
    decreases cs, 0
  {
    if cs != [] {
      var q, rest := p + [cs[0].name], cs[1..];
      assert forall i | 0 <= i < |rest| :: rest[i] == cs[i + 1];
      DoneLeavesDistinct(cs[0], q, st);
      DoneLeavesOfDistinct(rest, p, st);
      var first, others := DoneLeaves(cs[0], q, st), DoneLeavesOf(rest, p, st);
      forall l | l in first ensures l[|p|] == cs[0].name {
        assert q <= l;
      }
      forall l | l in others ensures exists i :: 0 < i < |cs| && cs[i].name == l[|p|] {
        var i :| 0 <= i < |rest| && rest[i].name == l[|p|];
        assert cs[i + 1].name == l[|p|];
      }
      forall i, j | 0 <= i < j < |first + others| ensures (first + others)[i] != (first + others)[j] {
        if i < |first| <= j {
          assert first[i] in first && others[j - |first|] in others;
        }
      }
    }
  }
}
