/** The tracker context: acquiring, opening, closing and failing section trackers. */
module Trackers {
  import opened TrackerStates

  /** A lookup that finds no child adds one that has not started. */
  function Known(st: States, p: Path): States {
    if p in st then st else st[p := NotStarted]
  }

  /** openChild: mark p as executing a child, and its ancestors until one already is. */
  function ChildOpened(st: States, p: Path): (st': States)
    requires forall k | 0 <= k <= |p| :: p[..k] in st
    ensures st'.Keys == st.Keys
    decreases |p|
  {
    assert p == p[..|p|];
    if st[p] == ExecutingChildren then st
    else if |p| == 0 then st[p := ExecutingChildren]
    else
      assert forall k | 0 <= k <= |Parent(p)| :: Parent(p)[..k] == p[..k];
      ChildOpened(st[p := ExecutingChildren], Parent(p))
  }

  /** Exactly the ancestors below the last one that executes a child already, and p, are marked. */
  lemma {:induction false} OpenedAncestors(st: States, p: Path, q: Path)
    requires Rooted(st, p) && q in st
    ensures ChildOpened(st, p)[q] == if q <= p && forall k | |q| <= k <= |p| :: st[p[..k]] != ExecutingChildren
                                     then ExecutingChildren else st[q]
    decreases |p|
  {
    assert p == p[..|p|];
    if st[p] != ExecutingChildren && |p| > 0 {
      var up, st' := Parent(p), st[p := ExecutingChildren];
      assert forall k | 0 <= k <= |up| :: up[..k] == p[..k];
      OpenedAncestors(st', up, q);
      if q <= p && q != p {
        assert q <= up;
      }
    }
  }

  function Closed(st: States, p: Path): States
    requires p in st
  {
    if st[p] == Executing || (st[p] == ExecutingChildren && AllKnownComplete(st, p))
    then st[p := CompletedSuccessfully]
    else st
  }

  /** Closing from the innermost open tracker up to p. */
  function ClosedUpTo(st: States, current: Path, p: Path): States
    requires p <= current && forall k | |p| <= k <= |current| :: current[..k] in st
    decreases |current|
  {
    assert current[..|current|] == current;
    if current == p then Closed(st, p)
    else
      assert forall k | |p| <= k <= |Parent(current)| :: Parent(current)[..k] == current[..k];
      ClosedUpTo(Closed(st, current), Parent(current), p)
  }

  function FailedAt(st: States, p: Path): States
    requires |p| > 0
  {
    st[p := Failed][Parent(p) := NeedsAnotherRun]
  }

  ghost predicate Rooted(st: States, p: Path) {
    forall k | 0 <= k <= |p| :: p[..k] in st
  }

  class TrackerContext {
    var states: States
    var current: Path
    var cycleCompleted: bool

    /** startRun: a fresh root tracker. */
    constructor ()
      ensures states == map[[] := NotStarted]
    {
      states := map[[] := NotStarted];
      current := [];
      cycleCompleted := false;
    }

    method StartCycle()
      modifies this
      ensures states == old(states) && current == [] && !cycleCompleted
    {
      current := [];
      cycleCompleted := false;
    }

    /** Finds or adds the child of the current tracker, and opens it while the cycle lasts. */
    method Acquire(name: NameAndLocation) returns (p: Path)
      requires Rooted(states, current)
      modifies this
      ensures p == old(current) + [name] && cycleCompleted == old(cycleCompleted)
      ensures var known := Known(old(states), p);
              if cycleCompleted || IsComplete(known, p)
              then states == known && current == old(current)
              else states == ChildOpened(known[p := Executing], old(current)) && current == p
    {
      p := current + [name];
      if p !in states {
        states := states[p := NotStarted];
      }
      if !cycleCompleted {
        TryOpen(p);
      }
    }

    method TryOpen(p: Path)
      requires |p| > 0 && Parent(p) == current && Rooted(states, current) && p in states
      modifies this
      ensures cycleCompleted == old(cycleCompleted)
      ensures if IsComplete(old(states), p) then states == old(states) && current == old(current)
              else states == ChildOpened(old(states)[p := Executing], Parent(p)) && current == p
    {
      if !IsComplete(states, p) {
        states := states[p := Executing];
        current := p;
        OpenChild(Parent(p));
      }
    }

    method OpenChild(p: Path)
      requires Rooted(states, p)
      modifies `states
      ensures states == ChildOpened(old(states), p)
      decreases |p|
    {
      assert p == p[..|p|];
      if states[p] != ExecutingChildren {
        states := states[p := ExecutingChildren];
        if |p| > 0 {
          assert forall k | 0 <= k <= |Parent(p)| :: Parent(p)[..k] == p[..k];
          OpenChild(Parent(p));
        }
      }
    }

    /** The trackers from p to the current one are all open: no close meets an illogical state. */
    ghost predicate OpenFrom(p: Path)
      reads this
    {
      && 0 < |p| && p <= current
      && forall k | |p| <= k <= |current| :: current[..k] in states && IsOpen(states, current[..k])
    }

    /** Closes every tracker from the current one up to p. */
    method Close(p: Path)
      requires OpenFrom(p)
      modifies this
      ensures current == Parent(p) && cycleCompleted
      ensures states == ClosedUpTo(old(states), old(current), p)
    {
      while current != p
        invariant OpenFrom(p)
        invariant ClosedUpTo(states, current, p) == ClosedUpTo(old(states), old(current), p)
        decreases |current|
      {
        assert current == current[..|current|];
        ghost var before := current;
        CloseCurrent();
        assert forall k | |p| <= k <= |current| :: current[..k] == before[..k];
      }
      assert p == current[..|p|];
      CloseCurrent();
    }

    method CloseCurrent()
      requires 0 < |current| && current in states && IsOpen(states, current)
      modifies this
      ensures states == Closed(old(states), old(current))
      ensures current == Parent(old(current)) && cycleCompleted
    {
      match states[current] {
        case NeedsAnotherRun =>
        case Executing =>
          states := states[current := CompletedSuccessfully];
        case ExecutingChildren =>
          if forall q | q in states && IsChild(current, q) :: IsComplete(states, q) {
            states := states[current := CompletedSuccessfully];
          }
        case _ =>
          assert false;
      }
      current := Parent(current);
      cycleCompleted := true;
    }

    method Fail(p: Path)
      requires |p| > 0
      modifies this
      ensures states == FailedAt(old(states), p) && current == Parent(p) && cycleCompleted
    {
      states := states[p := Failed];
      states := states[Parent(p) := NeedsAnotherRun];
      current := Parent(p);
      cycleCompleted := true;
    }
  }
}
