/**
The ARCore head-pose module as interleaved steps of three kinds of threads: the worker that stores
poses, any number of dispatching threads that read them, and the one that loads and unloads the
module. Every single store and load of a pose field is a step of its own.
 */
module ArcoreModule {
  import opened Options

  datatype FieldValue = Number(x: real) | Flag(on: bool)

  /** pos[0..2], rot[0..3], tracking: the eight fields in the order in which they are stored. */
  type Pose = p: seq<FieldValue> | |p| == 8 witness seq(8, _ => Flag(false))

  const INITIAL: Pose :=
    [Number(0.0), Number(0.0), Number(0.0), Number(0.0), Number(0.0), Number(0.0), Number(1.0), Flag(false)]

  datatype LocationFlag = OrientationValid | PositionValid | OrientationTracked | PositionTracked | OtherFlag(bit: nat)

  /** The caller's XrSpaceLocation: position and orientation as seven numbers, and the flags. */
  datatype Location = Location(pose: seq<FieldValue>, flags: set<LocationFlag>)

  // ---------------------------------------------------------------- program counters

  datatype Worker =
    | Absent
    | Attaching
    | Starting
    | Testing
    | Ticking
    | Locking(next: Pose)
    | Storing(next: Pose, k: nat, before: Pose)
    | Sleeping
    | StoppingSession
    | DeletingRef
    | Detaching
    | Exited

  /** A dispatching thread; since counts the stores that were complete when it took the lock. */
  datatype Dispatch =
    | Idle
    | WantsLock(before: Location)
    | Reading(before: Location, since: nat, snapshot: seq<FieldValue>)
    | HasSnapshot(before: Location, since: nat, snapshot: seq<FieldValue>)

  datatype Lifecycle =
    | Unloaded
    | HoldsRef
    | StopCleared
    | Spawned
    | Loaded
    | UnloadRequested
    | Joining
    | Joined

  datatype Lock = Free | ByWorker | ByDispatch(id: nat)

  /** A call that has returned, and to which thread. */
  datatype Delivery = Delivery(id: nat, before: Location, since: nat, snapshot: seq<FieldValue>, after: Location)

  datatype State = State(
    cached: Pose, lock: Lock, stop: bool, running: bool,
    worker: Worker, dispatches: map<nat, Dispatch>, lifecycle: Lifecycle,
    acquired: nat, released: nat, leaked: nat,
    ticks: seq<Pose>, delivered: seq<Delivery>)

  const START := State(INITIAL, Free, false, false, Absent, map[], Unloaded, 0, 0, 0, [], [])

  /** What a thread does next; the parameters are the outcomes the environment decides. */
  datatype Action =
    | WorkerStep(success: bool, pose: Pose)
    | DispatchCall(id: nat, location: Location)
    | DispatchStep(id: nat)
    | Load(accepted: bool)
    | Unload
    | LifecycleStep

  /** What the dispatched function does to the location, given its snapshot. */
  function Applied(before: Location, snapshot: Pose): Location {
    if snapshot[7] != Flag(true) then before.(flags := before.flags - {PositionTracked})
    else Location(snapshot[..7], {OrientationValid, PositionValid, OrientationTracked, PositionTracked})
  }

  // ---------------------------------------------------------------- steps

  /** The pose of the n-th tick, or the initial one. */
  ghost function PoseAt(s: State, n: nat): Pose
    requires n <= |s.ticks|
  {
    if n == 0 then INITIAL else s.ticks[n - 1]
  }

  /** How many ticks have been stored as a whole: all, but for one that the worker is about to store. */
  ghost function Stored(s: State): nat {
    if (s.worker.Locking? || s.worker.Storing?) && s.ticks != [] then |s.ticks| - 1 else |s.ticks|
  }

  /** The worker's next step; None when it is blocked or gone. */
  ghost function WorkerNext(s: State, success: bool, pose: Pose): (s': Option<State>) {
    match s.worker
    case Absent => None
    case Attaching =>
      if success then Some(s.(worker := Starting)) else Some(s.(worker := Exited, leaked := s.leaked + 1))
    case Starting => Some(s.(worker := if success then Testing else DeletingRef))
    case Testing => Some(s.(worker := if s.stop then StoppingSession else Ticking))
    case Ticking =>
      if success then Some(s.(worker := Locking(pose), ticks := s.ticks + [pose])) else Some(s.(worker := Sleeping))
    case Locking(next) =>
      if s.lock == Free then Some(s.(lock := ByWorker, worker := Storing(next, 0, s.cached))) else None
    case Storing(next, k, before) =>
      if k < 8 then Some(s.(cached := s.cached[k := next[k]], worker := Storing(next, k + 1, before)))
      else Some(s.(lock := Free, worker := Sleeping))
    case Sleeping => Some(s.(worker := Testing))
    case StoppingSession => Some(s.(worker := DeletingRef))
    case DeletingRef => Some(s.(released := s.released + 1, worker := Detaching))
    case Detaching => Some(s.(worker := Exited))
    case Exited => None
  }

  ghost function DispatchNext(s: State, id: nat): Option<State> {
    if id !in s.dispatches then None
    else
      match s.dispatches[id]
      case Idle => None
      case WantsLock(before) =>
        if s.lock == Free then
          Some(s.(lock := ByDispatch(id), dispatches := s.dispatches[id := Reading(before, Stored(s), [])]))
        else None
      case Reading(before, since, snapshot) =>
        if |snapshot| < 8 then
          Some(s.(dispatches := s.dispatches[id := Reading(before, since, snapshot + [s.cached[|snapshot|]])]))
        else Some(s.(lock := Free, dispatches := s.dispatches[id := HasSnapshot(before, since, snapshot)]))
      case HasSnapshot(before, since, snapshot) =>
        if |snapshot| != 8 then None
        else Some(s.(dispatches := s.dispatches[id := Idle],
                     delivered := s.delivered + [Delivery(id, before, since, snapshot, Applied(before, snapshot))]))
  }

  ghost function LifecycleNext(s: State): Option<State> {
    match s.lifecycle
    case Unloaded => None
    case HoldsRef => Some(s.(stop := false, lifecycle := StopCleared))
    case StopCleared => Some(s.(worker := Attaching, lifecycle := Spawned))
    case Spawned => Some(s.(running := true, lifecycle := Loaded))
    case Loaded => None
    case UnloadRequested => Some(s.(stop := true, lifecycle := Joining))
    case Joining => if s.worker == Exited then Some(s.(worker := Absent, lifecycle := Joined)) else None
    case Joined => Some(s.(running := false, lifecycle := Unloaded))
  }

  /** One step of one thread; None when that thread cannot take it. */
  ghost function Next(s: State, a: Action): Option<State> {
    match a
    case WorkerStep(success, pose) => WorkerNext(s, success, pose)
    case DispatchCall(id, location) =>
      if id in s.dispatches && s.dispatches[id] != Idle then None
      else Some(s.(dispatches := s.dispatches[id := WantsLock(location)]))
    case DispatchStep(id) => DispatchNext(s, id)
    case Load(accepted) =>
      if s.lifecycle != Unloaded then None
      else if accepted then Some(s.(acquired := s.acquired + 1, lifecycle := HoldsRef)) else Some(s)
    case Unload =>
      if s.lifecycle == Unloaded && !s.running then Some(s)
      else if s.lifecycle == Loaded && s.running then Some(s.(lifecycle := UnloadRequested))
      else None
    case LifecycleStep => LifecycleNext(s)
  }

  /** The state after a run, in which actions that are not possible are skipped. */
  ghost function After(run: seq<Action>): State {
    if run == [] then START
    else
      var s := After(run[..|run| - 1]);
      match Next(s, run[|run| - 1])
      case None => s
      case Some(s') => s'
  }

  // ---------------------------------------------------------------- the invariant

  /** Without a store in progress the cached pose is that of the last tick stored; during a store the lock is held. */
  ghost predicate CacheWhole(s: State) {
    && (s.worker.Storing? <==> s.lock == ByWorker)
    && (s.worker.Locking? || s.worker.Storing? ==> s.ticks != [] && s.worker.next == PoseAt(s, |s.ticks|))
    && if s.worker.Storing? then
         && s.worker.k <= 8 && s.worker.before == PoseAt(s, |s.ticks| - 1)
         && forall i | 0 <= i < 8 :: s.cached[i] == if i < s.worker.k then s.worker.next[i] else s.worker.before[i]
       else s.cached == PoseAt(s, Stored(s))
  }

  /** The thread has part of the pose that was cached when it took the lock, or all of it. */
  ghost predicate DispatchGood(s: State, id: nat)
    requires id in s.dispatches
  {
    match s.dispatches[id]
    case Idle => true
    case WantsLock(_) => true
    case Reading(_, since, snapshot) =>
      s.lock == ByDispatch(id) && since == Stored(s) && |snapshot| <= 8 && snapshot == s.cached[..|snapshot|]
    case HasSnapshot(_, since, snapshot) => since <= Stored(s) && snapshot == PoseAt(s, since)
  }

  ghost predicate SnapshotsWhole(s: State) {
    && (s.lock.ByDispatch? ==> s.lock.id in s.dispatches && s.dispatches[s.lock.id].Reading?)
    && forall id | id in s.dispatches :: DispatchGood(s, id)
  }

  ghost predicate DeliveryGood(s: State, d: Delivery) {
    && d.since <= Stored(s) && d.snapshot == PoseAt(s, d.since) && d.after == Applied(d.before, d.snapshot)
    && (d.id in s.dispatches && (s.dispatches[d.id].Reading? || s.dispatches[d.id].HasSnapshot?)
        ==> d.since <= s.dispatches[d.id].since)
  }

  ghost predicate DeliveriesWhole(s: State) {
    forall i | 0 <= i < |s.delivered| :: DeliveryGood(s, s.delivered[i])
  }

  /** What a thread gets delivered later is not older. */
  ghost predicate InOrder(ds: seq<Delivery>) {
    forall i, j | 0 <= i < j < |ds| && ds[i].id == ds[j].id :: ds[i].since <= ds[j].since
  }

  /** The worker exists exactly between its spawn and its join; the stop flag and running flag tell the phase. */
  ghost predicate Phases(s: State) {
    && (s.worker == Absent <==> s.lifecycle in {Unloaded, HoldsRef, StopCleared, Joined})
    && (s.running <==> s.lifecycle in {Loaded, UnloadRequested, Joining, Joined})
    && (s.lifecycle in {Joining, Joined} ==> s.stop)
    && (s.lifecycle in {StopCleared, Spawned, Loaded, UnloadRequested} ==> !s.stop)
    && (s.worker in {StoppingSession} ==> s.stop)
  }

  /** Whether someone still holds a context reference that has to be released. */
  ghost function Held(s: State): nat {
    if s.lifecycle in {HoldsRef, StopCleared} then 1
    else if s.worker in {Absent, Detaching, Exited} then 0
    else 1
  }

  ghost predicate RefsAccounted(s: State) {
    s.acquired == s.released + s.leaked + Held(s)
  }

  ghost predicate Inv(s: State) {
    && CacheWhole(s) && SnapshotsWhole(s) && DeliveriesWhole(s) && InOrder(s.delivered)
    && Phases(s) && RefsAccounted(s)
  }

  // ---------------------------------------------------------------- every step keeps it

  /** Ticks are only added, and stores only completed. */
  lemma WorkerAddsTicks(s: State, success: bool, pose: Pose)
    requires CacheWhole(s) && WorkerNext(s, success, pose).Some?
    ensures var s' := WorkerNext(s, success, pose).value;
            && s.ticks <= s'.ticks && Stored(s) <= Stored(s')
            && (forall n: nat | n <= |s.ticks| :: PoseAt(s', n) == PoseAt(s, n))
            && (s.lock != ByWorker ==> s'.cached == s.cached && Stored(s') == Stored(s))
  {
  }

  lemma WorkerKeepsCache(s: State, success: bool, pose: Pose)
    requires CacheWhole(s) && WorkerNext(s, success, pose).Some?
    ensures CacheWhole(WorkerNext(s, success, pose).value)
  {
    WorkerAddsTicks(s, success, pose);
    if s.worker.Storing? && s.worker.k == 8 {
      assert s.cached == s.worker.next;
    }
  }

  lemma WorkerKeepsReader(s: State, s': State, id: nat)
    requires id in s.dispatches && DispatchGood(s, id) && s'.dispatches == s.dispatches && Stored(s) <= Stored(s')
    requires |s.ticks| <= |s'.ticks| && forall n: nat | n <= |s.ticks| :: PoseAt(s', n) == PoseAt(s, n)
    requires s.lock != ByWorker ==> s'.cached == s.cached && Stored(s') == Stored(s)
    requires s.lock.ByDispatch? ==> s'.lock == s.lock
    ensures DispatchGood(s', id)
  {
  }

  lemma WorkerKeepsReaders(s: State, success: bool, pose: Pose)
    requires CacheWhole(s) && SnapshotsWhole(s) && WorkerNext(s, success, pose).Some?
    ensures SnapshotsWhole(WorkerNext(s, success, pose).value)
  {
    var s' := WorkerNext(s, success, pose).value;
    WorkerAddsTicks(s, success, pose);
    forall id | id in s'.dispatches ensures DispatchGood(s', id) {
      WorkerKeepsReader(s, s', id);
    }
  }

  lemma DeliveryKept(s: State, s': State, d: Delivery)
    requires DeliveryGood(s, d) && s'.dispatches == s.dispatches && Stored(s) <= Stored(s')
    requires |s.ticks| <= |s'.ticks| && forall n: nat | n <= |s.ticks| :: PoseAt(s', n) == PoseAt(s, n)
    ensures DeliveryGood(s', d)
  {
  }

  lemma WorkerLeaves(s: State, success: bool, pose: Pose)
    requires WorkerNext(s, success, pose).Some?
    ensures WorkerNext(s, success, pose).value.dispatches == s.dispatches
    ensures WorkerNext(s, success, pose).value.delivered == s.delivered
    ensures WorkerNext(s, success, pose).value.lifecycle == s.lifecycle
  {
  }

  lemma DeliveriesKept(s: State, s': State)
    requires DeliveriesWhole(s) && s'.delivered == s.delivered && s'.dispatches == s.dispatches && Stored(s) <= Stored(s')
    requires |s.ticks| <= |s'.ticks| && forall n: nat | n <= |s.ticks| :: PoseAt(s', n) == PoseAt(s, n)
    ensures DeliveriesWhole(s')
  {
    forall i | 0 <= i < |s'.delivered| ensures DeliveryGood(s', s'.delivered[i]) {
      DeliveryKept(s, s', s.delivered[i]);
    }
  }

  lemma WorkerKeepsDeliveries(s: State, success: bool, pose: Pose)
    requires CacheWhole(s) && DeliveriesWhole(s) && WorkerNext(s, success, pose).Some?
    ensures DeliveriesWhole(WorkerNext(s, success, pose).value)
    ensures WorkerNext(s, success, pose).value.delivered == s.delivered
  {
    var s' := WorkerNext(s, success, pose).value;
    WorkerAddsTicks(s, success, pose);
    WorkerLeaves(s, success, pose);
    DeliveriesKept(s, s');
  }

  lemma WorkerKeepsPhases(s: State, success: bool, pose: Pose)
    requires Phases(s) && RefsAccounted(s) && WorkerNext(s, success, pose).Some?
    ensures Phases(WorkerNext(s, success, pose).value)
    ensures RefsAccounted(WorkerNext(s, success, pose).value)
  {
  }

  lemma WorkerKeeps(s: State, success: bool, pose: Pose)
    requires Inv(s) && WorkerNext(s, success, pose).Some?
    ensures Inv(WorkerNext(s, success, pose).value)
  {
    WorkerKeepsCache(s, success, pose);
    WorkerKeepsReaders(s, success, pose);
    WorkerKeepsDeliveries(s, success, pose);
    WorkerKeepsPhases(s, success, pose);
  }

  /** A dispatch step changes nothing but the thread, the lock and the deliveries. */
  lemma DispatchLeaves(s: State, id: nat)
    requires DispatchNext(s, id).Some?
    ensures var s' := DispatchNext(s, id).value;
            && s'.cached == s.cached && s'.ticks == s.ticks && s'.worker == s.worker && Stored(s') == Stored(s)
            && s'.stop == s.stop && s'.running == s.running && s'.lifecycle == s.lifecycle
            && s'.acquired == s.acquired && s'.released == s.released && s'.leaked == s.leaked
            && id in s.dispatches && id in s'.dispatches
            && (forall j | j != id :: (j in s'.dispatches <==> j in s.dispatches)
                                      && (j in s.dispatches ==> s'.dispatches[j] == s.dispatches[j]))
            && (s.lock == Free || s.dispatches[id].Reading? || s'.lock == s.lock)
            && (s.lock == Free ==> s'.lock == Free || s'.lock == ByDispatch(id))
  {
  }

  /** The thread that steps keeps its part. */
  lemma DispatchKeepsOwn(s: State, id: nat)
    requires CacheWhole(s) && id in s.dispatches && DispatchGood(s, id) && DispatchNext(s, id).Some?
    ensures id in DispatchNext(s, id).value.dispatches && DispatchGood(DispatchNext(s, id).value, id)
  {
    DispatchLeaves(s, id);
    var s' := DispatchNext(s, id).value;
    match s.dispatches[id]
    case Idle =>
    case WantsLock(before) =>
      assert s'.dispatches[id] == Reading(before, Stored(s), []);
    case Reading(before, since, snapshot) =>
      if |snapshot| < 8 {
        assert s'.dispatches[id] == Reading(before, since, snapshot + [s.cached[|snapshot|]]);
      } else {
        assert s.cached[..8] == s.cached;
        assert s'.dispatches[id] == HasSnapshot(before, since, snapshot);
        assert snapshot == PoseAt(s, since) == PoseAt(s', since);
      }
    case HasSnapshot(_, _, _) =>
      assert s'.dispatches[id] == Idle;
  }

  /** The lock stays with a reader, or with the worker. */
  lemma DispatchKeepsLock(s: State, id: nat)
    requires id in s.dispatches && DispatchGood(s, id) && DispatchNext(s, id).Some?
    requires s.lock.ByDispatch? ==> s.lock.id in s.dispatches && s.dispatches[s.lock.id].Reading?
    ensures var s' := DispatchNext(s, id).value;
            && id in s'.dispatches && (s'.lock == ByDispatch(id) ==> s'.dispatches[id].Reading?)
            && (s'.lock == ByWorker <==> s.lock == ByWorker)
  {
  }

  lemma OtherThread(s: State, s': State, id: nat, j: nat)
    requires j != id && j in s.dispatches && j in s'.dispatches && s'.dispatches[j] == s.dispatches[j] && DispatchGood(s, j)
    requires s'.cached == s.cached && s'.ticks == s.ticks && Stored(s') == Stored(s)
    requires s.lock == ByDispatch(j) ==> s'.lock == s.lock
    ensures DispatchGood(s', j)
  {
  }

  lemma DispatchKeepsSnapshots(s: State, id: nat)
    requires CacheWhole(s) && SnapshotsWhole(s) && DispatchNext(s, id).Some?
    ensures CacheWhole(DispatchNext(s, id).value) && SnapshotsWhole(DispatchNext(s, id).value)
  {
    var s' := DispatchNext(s, id).value;
    DispatchLeaves(s, id);
    assert DispatchGood(s, id);
    DispatchKeepsOwn(s, id);
    DispatchKeepsLock(s, id);
    forall j | j in s'.dispatches ensures DispatchGood(s', j) {
      if j != id {
        assert DispatchGood(s, j);
        OtherThread(s, s', id, j);
      }
    }
  }

  lemma DispatchKeepsDelivery(s: State, id: nat, d: Delivery)
    requires id in s.dispatches && DispatchGood(s, id) && DeliveryGood(s, d) && DispatchNext(s, id).Some?
    ensures DeliveryGood(DispatchNext(s, id).value, d)
  {
    DispatchLeaves(s, id);
  }

  /** What a thread is delivered now is good, and not older than what it got before. */
  lemma NewDelivery(s: State, id: nat)
    requires id in s.dispatches && DispatchGood(s, id) && DispatchNext(s, id).Some? && s.dispatches[id].HasSnapshot?
    ensures var s' := DispatchNext(s, id).value;
            && |s'.delivered| == |s.delivered| + 1 && s'.delivered[..|s.delivered|] == s.delivered
            && DeliveryGood(s', s'.delivered[|s.delivered|])
            && s'.delivered[|s.delivered|].id == id && s'.delivered[|s.delivered|].since == s.dispatches[id].since
  {
    DispatchLeaves(s, id);
  }

  lemma NothingDelivered(s: State, id: nat)
    requires DispatchNext(s, id).Some? && !s.dispatches[id].HasSnapshot?
    ensures DispatchNext(s, id).value.delivered == s.delivered
  {
  }

  lemma DispatchKeepsDeliveries(s: State, id: nat)
    requires SnapshotsWhole(s) && DeliveriesWhole(s) && InOrder(s.delivered) && DispatchNext(s, id).Some?
    ensures DeliveriesWhole(DispatchNext(s, id).value) && InOrder(DispatchNext(s, id).value.delivered)
  {
    var s' := DispatchNext(s, id).value;
    DispatchLeaves(s, id);
    assert DispatchGood(s, id);
    if s.dispatches[id].HasSnapshot? {
      NewDelivery(s, id);
    } else {
      NothingDelivered(s, id);
    }
    var n := |s.delivered|;
    forall i | 0 <= i < |s'.delivered| ensures DeliveryGood(s', s'.delivered[i]) {
      if i < n {
        assert s'.delivered[i] == s'.delivered[..n][i] == s.delivered[i];
        assert DeliveryGood(s, s.delivered[i]);
        DispatchKeepsDelivery(s, id, s.delivered[i]);
      }
    }
    forall i, j | 0 <= i < j < |s'.delivered| && s'.delivered[i].id == s'.delivered[j].id
      ensures s'.delivered[i].since <= s'.delivered[j].since
    {
      assert s'.delivered[i] == s'.delivered[..n][i] == s.delivered[i];
      assert DeliveryGood(s, s.delivered[i]);
      if j < n {
        assert s'.delivered[j] == s'.delivered[..n][j] == s.delivered[j];
      }
    }
  }

  lemma DispatchKeepsPhases(s: State, id: nat)
    requires Phases(s) && RefsAccounted(s) && DispatchNext(s, id).Some?
    ensures Phases(DispatchNext(s, id).value) && RefsAccounted(DispatchNext(s, id).value)
  {
    DispatchLeaves(s, id);
  }

  lemma DispatchKeeps(s: State, id: nat)
    requires Inv(s) && DispatchNext(s, id).Some?
    ensures Inv(DispatchNext(s, id).value)
  {
    DispatchKeepsSnapshots(s, id);
    DispatchKeepsDeliveries(s, id);
    DispatchKeepsPhases(s, id);
  }

  /** A step that leaves the poses, the lock and the threads inside a call alone. */
  lemma OthersKeep(s: State, s': State)
    requires CacheWhole(s) && SnapshotsWhole(s) && DeliveriesWhole(s) && CacheWhole(s') && Stored(s') == Stored(s)
    requires s'.cached == s.cached && s'.lock == s.lock && s'.ticks == s.ticks && s'.delivered == s.delivered
    requires forall id | id in s'.dispatches :: (id in s.dispatches && s'.dispatches[id] == s.dispatches[id])
               || s'.dispatches[id].WantsLock?
    requires forall id | id in s.dispatches && s.dispatches[id] != Idle :: id in s'.dispatches && s'.dispatches[id] == s.dispatches[id]
    ensures SnapshotsWhole(s') && DeliveriesWhole(s')
  {
    forall id | id in s'.dispatches ensures DispatchGood(s', id) {
      if id in s.dispatches {
        assert DispatchGood(s, id);
      }
    }
    forall i | 0 <= i < |s'.delivered| ensures DeliveryGood(s', s'.delivered[i]) {
      assert DeliveryGood(s, s.delivered[i]);
    }
  }

  lemma LifecycleKeeps(s: State)
    requires Inv(s) && LifecycleNext(s).Some?
    ensures Inv(LifecycleNext(s).value)
  {
    LifecycleKeepsPhases(s);
    OthersKeep(s, LifecycleNext(s).value);
  }

  lemma LifecycleKeepsPhases(s: State)
    requires CacheWhole(s) && Phases(s) && RefsAccounted(s) && LifecycleNext(s).Some?
    ensures Phases(LifecycleNext(s).value) && RefsAccounted(LifecycleNext(s).value)
    ensures CacheWhole(LifecycleNext(s).value) && Stored(LifecycleNext(s).value) == Stored(s)
  {
  }

  lemma CallKeeps(s: State, a: Action)
    requires Inv(s) && (a.DispatchCall? || a.Load? || a.Unload?) && Next(s, a).Some?
    ensures Inv(Next(s, a).value)
  {
    OthersKeep(s, Next(s, a).value);
  }

  /** The invariant holds after every run, whatever the interleaving. */
  lemma {:induction false} EveryRun(run: seq<Action>)
    ensures Inv(After(run))
  {
    if run != [] {
      var s, a := After(run[..|run| - 1]), run[|run| - 1];
      EveryRun(run[..|run| - 1]);
      if Next(s, a).Some? {
        match a {
          case WorkerStep(success, pose) => WorkerKeeps(s, success, pose);
          case DispatchStep(id) => DispatchKeeps(s, id);
          case LifecycleStep => LifecycleKeeps(s);
          case _ => CallKeeps(s, a);
        }
      }
    }
  }

  // ---------------------------------------------------------------- what a host relies on

  /**
  No dispatched location ever mixes two poses: it got the initial pose or that of one whole tick. While
  tracking it has the four flags of a pose and no others; else, and always before the first tick, it only
  loses that of the tracked position.
   */
  lemma NoTornPose(run: seq<Action>, i: nat)
    requires i < |After(run).delivered|
    ensures var s, d := After(run), After(run).delivered[i];
            && d.since <= |s.ticks| && d.snapshot == PoseAt(s, d.since)
            && (d.since == 0 ==> d.snapshot[7] == Flag(false))
            && (d.snapshot[7] == Flag(true) ==>
                  && d.after.pose == d.snapshot[..7]
                  && forall flag :: flag in d.after.flags <==> !flag.OtherFlag?)
            && (d.snapshot[7] != Flag(true) ==>
                  && d.after.pose == d.before.pose
                  && forall flag :: flag in d.after.flags <==> flag in d.before.flags && flag != PositionTracked)
  {
    EveryRun(run);
    assert DeliveryGood(After(run), After(run).delivered[i]);
  }

  /** A thread that takes the lock gets the latest pose that is stored as a whole: the one cached at that moment. */
  lemma LatestPose(run: seq<Action>, id: nat)
    requires id in After(run).dispatches && After(run).dispatches[id].WantsLock? && DispatchNext(After(run), id).Some?
    ensures var s, d := After(run), DispatchNext(After(run), id).value.dispatches[id];
            d.Reading? && d.since == Stored(s) && s.cached == PoseAt(s, d.since)
  {
    EveryRun(run);
  }

  /** No thread ever gets an older pose than one it already got. */
  lemma NeverOlder(run: seq<Action>, i: nat, j: nat)
    requires i < j < |After(run).delivered| && After(run).delivered[i].id == After(run).delivered[j].id
    ensures After(run).delivered[i].since <= After(run).delivered[j].since
  {
    EveryRun(run);
  }

  /** Once unload has returned the worker is gone, and no step of it is possible until the next load. */
  lemma NoStepAfterUnload(run: seq<Action>, success: bool, pose: Pose)
    requires After(run).lifecycle == Unloaded
    ensures WorkerNext(After(run), success, pose) == None && !After(run).running
  {
    EveryRun(run);
  }

  /** When the module is unloaded every context reference was released exactly once, or lost to a failed attach. */
  lemma RefsReleasedOnce(run: seq<Action>)
    requires After(run).lifecycle == Unloaded
    ensures After(run).acquired == After(run).released + After(run).leaked
  {
    EveryRun(run);
  }

  /** How many steps the worker has left once it has been told to stop. */
  ghost function StepsLeft(w: Worker): nat {
    match w
    case Absent => 0
    case Exited => 0
    case Detaching => 1
    case DeletingRef => 2
    case StoppingSession => 3
    case Testing => 4
    case Sleeping => 5
    case Storing(_, k, _) => if k <= 8 then 14 - k else 6
    case Locking(_) => 15
    case Ticking => 16
    case Starting => 5
    case Attaching => 6
  }

  lemma StepsShorten(s: State, success: bool, pose: Pose)
    requires s.stop && (s.worker.Storing? ==> s.worker.k <= 8) && WorkerNext(s, success, pose).Some?
    ensures StepsLeft(WorkerNext(s, success, pose).value.worker) < StepsLeft(s.worker) <= 16
  {
  }

  /** After the stop request every step of the worker brings its end nearer: the join comes back. */
  lemma StopEndsWorker(run: seq<Action>, success: bool, pose: Pose)
    requires After(run).stop && WorkerNext(After(run), success, pose).Some?
    ensures StepsLeft(WorkerNext(After(run), success, pose).value.worker) < StepsLeft(After(run).worker) <= 16
  {
    EveryRun(run);
    StepsShorten(After(run), success, pose);
  }

  /** The lock is never waited for in vain: whoever holds it can always take a step. */
  lemma HolderCanStep(run: seq<Action>)
    ensures var s := After(run);
            match s.lock
            case Free => true
            case ByWorker => WorkerNext(s, true, INITIAL).Some?
            case ByDispatch(id) => DispatchNext(s, id).Some?
  {
    EveryRun(run);
    var s := After(run);
    if s.lock.ByDispatch? {
      assert DispatchGood(s, s.lock.id);
    }
  }

  /** How many steps the reader that holds the lock has left until it frees it. */
  ghost function ReaderLeft(s: State): nat {
    if s.lock.ByDispatch? && s.lock.id in s.dispatches && s.dispatches[s.lock.id].Reading?
       && |s.dispatches[s.lock.id].snapshot| <= 8
    then 9 - |s.dispatches[s.lock.id].snapshot| else 0
  }

  lemma OneStep(run: seq<Action>, a: Action)
    requires Next(After(run), a).Some?
    ensures After(run + [a]) == Next(After(run), a).value
  {
    assert (run + [a])[..|run|] == run;
  }

  /** While unload waits, some step brings the end of the worker nearer: its own, or that of the reader it waits for. */
  lemma StepTowardsJoin(run: seq<Action>) returns (a: Action)
    requires After(run).lifecycle == Joining && After(run).worker != Exited
    ensures a.WorkerStep? || a.DispatchStep?
    ensures Next(After(run), a).Some? && Next(After(run), a).value.lifecycle == Joining
    ensures var s, s' := After(run), Next(After(run), a).value;
            StepsLeft(s'.worker) < StepsLeft(s.worker) || (s'.worker == s.worker && ReaderLeft(s') < ReaderLeft(s))
  {
    EveryRun(run);
    var s := After(run);
    if s.worker.Locking? && s.lock != Free {
      assert DispatchGood(s, s.lock.id);
      a := DispatchStep(s.lock.id);
    } else {
      a := WorkerStep(false, INITIAL);
      StopEndsWorker(run, false, INITIAL);
    }
  }

  ghost predicate Waits(run: seq<Action>) {
    After(run).lifecycle == Joining
  }

  ghost predicate WorkerGone(run: seq<Action>) {
    After(run).worker == Exited
  }

  ghost function Distance(run: seq<Action>): (nat, nat) {
    (StepsLeft(After(run).worker), ReaderLeft(After(run)))
  }

  lemma StepNearer(run: seq<Action>) returns (a: Action)
    requires Waits(run) && !WorkerGone(run)
    ensures a.WorkerStep? || a.DispatchStep?
    ensures Waits(run + [a])
    ensures var (w, r), (w', r') := Distance(run), Distance(run + [a]); w' < w || (w' == w && r' < r)
  {
    a := StepTowardsJoin(run);
    OneStep(run, a);
  }

  /** From every state in which unload waits, some steps of the worker and of readers let the join return. */
  lemma {:induction false} JoinReturns(run: seq<Action>) returns (more: seq<Action>)
    requires Waits(run)
    ensures forall a | a in more :: a.WorkerStep? || a.DispatchStep?
    ensures Waits(run + more) && WorkerGone(run + more)
    decreases Distance(run).0, Distance(run).1
  {
    more := [];
    assert run + more == run;
    if !WorkerGone(run) {
      var a := StepNearer(run);
      var rest := JoinReturns(run + [a]);
      more := [a] + rest;
      assert run + more == run + [a] + rest;
    }
  }
}
