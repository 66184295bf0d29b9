/**
 The refresh machine around the published snapshot (kext/sysfs_iokit.cpp:715-923) as a
 transition system.

 Any number of refreshes, of vnode operations and of readers run at once. The lock makes
 each critical section atomic, so one step is one critical section, or one stretch of code
 that runs without the lock. The registry, the clock, thread_call and the allocator are
 nondeterministic: their choices are the arguments of an `Action`.
 */
module Refresh {
  import opened Wrappers
  import opened Growth
  import opened Registry

  /** SYSFS_SNAP_TTL_NS and SYSFS_SNAP_MIN_REBUILD_NS. */
  const TTL: nat := 2_000_000_000
  const MIN_REBUILD: nat := 30_000_000_000

  /** One activation of sysfs_snap_refresh(), counted from the moment g_building is set for it. */
  datatype Job = Job(id: nat)

  /** Where a refresh stands. */
  datatype Phase =
    | Entering                                                   // flagged, thread_call_enter() not yet called
    | Queued                                                     // waiting for a worker
    | Started                                                    // running, generation not yet sampled
    | Sampled(gen: nat)                                          // generation sampled, nothing allocated
    | Walking(gen: nat, snap: nat, seen: seq<Entry>)             // walking the registry into snapshot `snap`
    | Built(gen: nat, result: Option<nat>)                       // build over, before the lock is taken to publish
    | Retiring(replaced: Option<nat>)                            // published, the replaced snapshot not yet freed

  datatype JobRec = JobRec(phase: Phase, prime: bool)

  /** Who is to free a snapshot. */
  datatype Owner = OfJob(job: Job) | Published | OfTeardown | Freed

  /** A snapshot, as the machine sees it: its node table, its capacity, what it adds to the byte counter. */
  datatype Snap = Snap(owner: Owner, cap: nat, base: seq<SnapNode>, bytes: nat, uptime: nat)

  /** The globals g_lock protects. */
  datatype Globals = Globals(
    snapshot: Option<nat>, gen: nat, genValid: bool, building: bool, pending: bool,
    lastCount: nat, lastBuild: nat, lastBuildValid: bool)

  const CLEARED := Globals(None, 0, false, false, false, 0, 0, false)

  /** The life of the module: sysfs_iokit_teardown() passes through Stopping, Drained and Freeing. */
  datatype Mode = Down | Up | Stopping | Drained | Freeing(taken: Option<nat>)

  /**
   `walk` is what the registry iterator yields while the registry does not change, `gen` its
   generation count. `snaps` holds every snapshot ever made, `tables` counts allocated
   arrays. `reader` is the snapshot pointer of the reader inside the lock.

   The last fields are histories: the refresh that has yet to publish, whether one was
   cancelled while queued, when the snapshots since the last teardown were published, and how
   many arrays failed builds have left behind.
   */
  datatype State = State(
    walk: seq<Entry>, gen: nat, now: nat,
    mode: Mode, hasLock: bool, hasCall: bool, g: Globals, reader: Option<Option<nat>>,
    jobs: map<Job, JobRec>, snaps: seq<Snap>, snapBytes: int, tables: int,
    active: Option<Job>, cancelled: bool, publications: seq<nat>, lost: nat)

  datatype Action =
    | Tick(elapsed: nat)
    | Change(walk': seq<Entry>)
    | Init(lockOk: bool, callOk: bool)
    | Prime(job: Job)
    | Ensure(job: Job, sampled: nat)
    | Enter(job: Job)
    | Start(job: Job)
    | Sample(job: Job)
    | Allocate(job: Job, entries: nat, bytes: nat)
    | AllocateFails(job: Job, arrays: nat)
    | WalkStep(job: Job, entry: Entry)
    | Finish(job: Job, moduleBytes: nat)
    | Publish(job: Job)
    | Retire(job: Job)
    | ReaderLocks
    | ReaderUnlocks
    | Cancel
    | Drain
    | Take
    | FreeLock

  /** A step of a refresh on the way to its publication. */
  ghost predicate BuildStep(a: Action) {
    a.Enter? || a.Start? || a.Sample? || a.Allocate? || a.AllocateFails? || a.WalkStep? || a.Finish?
  }

  // ---------- The critical sections, on the globals alone

  /** Lines 905-917: g_snap_gen alone is left as it is. */
  function Cleared(g: Globals): Globals {
    CLEARED.(gen := g.gen)
  }

  /** Lines 725-743. */
  function Publishing(g: Globals, result: Option<nat>, count: nat, gen: nat, now: nat): Globals {
    if result.Some? then Globals(result, gen, true, false, false, count, now, true)
    else g.(building := false, pending := false)
  }

  /** Lines 776-810: whether a refresh is to be scheduled. */
  function Schedules(g: Globals, sampled: nat, now: nat, uptime: nat, hasCall: bool): bool {
    !(g.snapshot.Some? && ((g.genValid && g.gen == sampled) || now - uptime <= TTL)) &&
    !(g.snapshot.Some? && g.lastBuildValid && now - g.lastBuild < MIN_REBUILD) &&
    !g.pending && !g.building && hasCall
  }

  // ---------- Steps

  function Phased(s: State, job: Job, phase: Phase): State
    requires job in s.jobs
  {
    s.(jobs := s.jobs[job := s.jobs[job].(phase := phase)])
  }

  /** `seen` has been walked: the table is not full yet. */
  ghost predicate Room(s: State, job: Job)
    requires job in s.jobs && s.jobs[job].phase.Walking? && s.jobs[job].phase.snap < |s.snaps|
  {
    |AllNodes(s.jobs[job].phase.seen)| < s.snaps[s.jobs[job].phase.snap].cap
  }

  predicate In(s: State, job: Job, phase: Phase) {
    job in s.jobs && s.jobs[job].phase == phase
  }

  ghost predicate IsWalking(s: State, job: Job) {
    job in s.jobs && s.jobs[job].phase.Walking? && s.jobs[job].phase.snap < |s.snaps|
  }

  /** What thread_call_cancel() takes back. */
  ghost function QueuedJobs(s: State): set<Job> {
    set j | j in s.jobs && s.jobs[j].phase.Queued?
  }

  /** No filesystem operation and no prime is under way: what the caller of teardown guarantees. */
  ghost predicate Quiet(s: State) {
    s.reader.None? && forall j :: j in s.jobs ==> !s.jobs[j].phase.Entering? && !s.jobs[j].prime
  }

  ghost predicate Enabled(s: State, a: Action) {
    match a
    case Tick(_) => true
    case Change(_) => true
    case Init(_, _) => s.mode == Down
    case Prime(job) => s.mode == Up && s.hasLock && s.reader.None? && job !in s.jobs
    case Ensure(job, sampled) => s.mode == Up && s.hasLock && s.reader.None? && job !in s.jobs && sampled <= s.gen
    case Enter(job) => In(s, job, Entering)
    case Start(job) => In(s, job, Queued)
    case Sample(job) => In(s, job, Started)
    case Allocate(job, entries, _) =>
      // The first build counts the registry before it walks it.
      job in s.jobs && s.jobs[job].phase.Sampled? &&
      (s.g.lastCount == 0 && s.jobs[job].phase.gen == s.gen ==> entries == |s.walk|)
    case AllocateFails(job, arrays) => job in s.jobs && s.jobs[job].phase.Sampled? && arrays < 3
    case WalkStep(job, entry) =>
      // While the registry has not changed since the sample, the iterator follows it.
      IsWalking(s, job) && Room(s, job) &&
      (s.jobs[job].phase.gen == s.gen ==>
        |s.jobs[job].phase.seen| < |s.walk| && entry == s.walk[|s.jobs[job].phase.seen|])
    case Finish(job, _) =>
      IsWalking(s, job) &&
      (s.jobs[job].phase.gen == s.gen ==> !Room(s, job) || |s.jobs[job].phase.seen| == |s.walk|)
    case Publish(job) => job in s.jobs && s.jobs[job].phase.Built? && s.reader.None?
    case Retire(job) => job in s.jobs && s.jobs[job].phase.Retiring?
    case ReaderLocks => s.mode == Up && s.hasLock && s.reader.None?
    case ReaderUnlocks => s.reader.Some?
    case Cancel => s.mode == Up && Quiet(s)
    case Drain => s.mode == Stopping && s.reader.None? && (s.hasLock ==> !s.g.building)
    case Take => s.mode == Drained && s.reader.None?
    case FreeLock => s.mode.Freeing?
  }

  /** The age of the published snapshot is measured from the end of its build. */
  function Uptime(s: State): nat {
    if s.g.snapshot.Some? && s.g.snapshot.value < |s.snaps| then s.snaps[s.g.snapshot.value].uptime else 0
  }

  function Reowned(snaps: seq<Snap>, snap: Option<nat>, owner: Owner): seq<Snap> {
    if snap.Some? && snap.value < |snaps| then snaps[snap.value := snaps[snap.value].(owner := owner)] else snaps
  }

  /** sysfs_snap_free(): the memory goes, and its bytes leave the counter. */
  function Free(s: State, snap: Option<nat>): State {
    if snap.Some? && snap.value < |s.snaps| then
      s.(snaps := Reowned(s.snaps, snap, Freed), snapBytes := s.snapBytes - s.snaps[snap.value].bytes,
         tables := s.tables - 3)
    else s
  }

  /** Lines 481-511: size from the last node count, allocate, count the bytes. */
  function Allocating(s: State, job: Job, entries: nat, bytes: nat): State
    requires job in s.jobs && s.jobs[job].phase.Sampled?
  {
    var snap := Snap(OfJob(job), Capacity(Estimate(s.g.lastCount, entries)), [], bytes, 0);
    Phased(s, job, Walking(s.jobs[job].phase.gen, |s.snaps|, []))
      .(snaps := s.snaps + [snap], snapBytes := s.snapBytes + bytes, tables := s.tables + 3)
  }

  /** Lines 601-604: a full table that could be larger doubles the estimate. */
  function Doubled(lastCount: nat, count: nat, cap: nat): nat {
    if count >= cap && cap < MAX_NODES then (if cap * 2 > MAX_NODES then MAX_NODES else cap * 2) else lastCount
  }

  /** Lines 594-700: the table is complete; the module list may add to the bytes. */
  ghost function Finishing(s: State, job: Job, moduleBytes: nat): State
    requires IsWalking(s, job)
  {
    var p := s.jobs[job].phase;
    var snap := s.snaps[p.snap];
    var base := Recorded(p.seen, snap.cap);
    Phased(s, job, Built(p.gen, Some(p.snap)))
      .(snaps := s.snaps[p.snap := snap.(base := base, bytes := snap.bytes + moduleBytes, uptime := s.now)],
        snapBytes := s.snapBytes + moduleBytes,
        g := s.g.(lastCount := Doubled(s.g.lastCount, |base|, snap.cap)))
  }

  /** Lines 724-744. */
  function PublishStep(s: State, job: Job): State
    requires job in s.jobs && s.jobs[job].phase.Built?
  {
    var p := s.jobs[job].phase;
    var replaced := if p.result.Some? then s.g.snapshot else None;
    var count := if p.result.Some? && p.result.value < |s.snaps| then |s.snaps[p.result.value].base| else 0;
    Phased(s, job, Retiring(replaced))
      .(snaps := Reowned(Reowned(s.snaps, replaced, OfJob(job)), p.result, Published),
        g := Publishing(s.g, p.result, count, p.gen, s.now), active := None,
        publications := if p.result.Some? then s.publications + [s.now] else s.publications)
  }

  ghost function Step(s: State, a: Action): State
    requires Enabled(s, a)
  {
    match a
    case Tick(elapsed) => s.(now := s.now + elapsed)
    case Change(walk') => s.(walk := walk', gen := s.gen + 1)
    case Init(lockOk, callOk) => s.(mode := Up, hasLock := lockOk, hasCall := callOk)
    case Prime(job) =>
      if s.g.snapshot.Some? || s.g.building then s
      else s.(g := s.g.(building := true), jobs := s.jobs[job := JobRec(Started, true)], active := Some(job))
    case Ensure(job, sampled) =>
      if Schedules(s.g, sampled, s.now, Uptime(s), s.hasCall) then
        s.(g := s.g.(pending := true, building := true), jobs := s.jobs[job := JobRec(Entering, false)],
           active := Some(job))
      else s
    case Enter(job) => Phased(s, job, Queued)
    case Start(job) => Phased(s, job, Started)
    case Sample(job) => Phased(s, job, Sampled(s.gen))
    case Allocate(job, entries, bytes) => Allocating(s, job, entries, bytes)
    case AllocateFails(job, arrays) =>
      // The capacities are still zero, so the arrays that were allocated are not freed.
      Phased(s, job, Built(s.jobs[job].phase.gen, None)).(tables := s.tables + arrays, lost := s.lost + arrays)
    case WalkStep(job, entry) => Phased(s, job, s.jobs[job].phase.(seen := s.jobs[job].phase.seen + [entry]))
    case Finish(job, moduleBytes) => Finishing(s, job, moduleBytes)
    case Publish(job) => PublishStep(s, job)
    case Retire(job) => Free(s, s.jobs[job].phase.replaced).(jobs := s.jobs - {job})
    case ReaderLocks => s.(reader := Some(s.g.snapshot))
    case ReaderUnlocks => s.(reader := None)
    case Cancel =>
      if !s.hasCall then s.(mode := Drained)
      else s.(mode := Stopping, jobs := s.jobs - QueuedJobs(s), cancelled := QueuedJobs(s) != {},
              active := if s.active.Some? && s.active.value in QueuedJobs(s) then None else s.active)
    case Drain => s.(mode := Drained, hasCall := false)
    case Take =>
      if s.hasLock then s.(snaps := Reowned(s.snaps, s.g.snapshot, OfTeardown), mode := Freeing(s.g.snapshot),
                           g := Cleared(s.g), publications := [], cancelled := false)
      else s.(mode := Down)
    case FreeLock => Free(s, s.mode.taken).(mode := Down, hasLock := false)
  }

  ghost predicate Initial(s: State) {
    s.mode == Down && !s.hasLock && !s.hasCall && s.g == CLEARED && s.reader.None? && s.jobs == map[] &&
    s.snaps == [] && s.snapBytes == 0 && s.tables == 0 && s.active.None? && !s.cancelled &&
    s.publications == [] && s.lost == 0
  }

  /** States reached one after another, from the first. */
  ghost predicate IsRun(run: seq<State>, actions: seq<Action>) {
    |run| == |actions| + 1 && Initial(run[0]) &&
    forall i: nat {:trigger Takes(run, actions, i)} :: i < |actions| ==> Takes(run, actions, i)
  }

  ghost predicate Takes(run: seq<State>, actions: seq<Action>, i: nat) {
    i < |actions| && i + 1 < |run| && Enabled(run[i], actions[i]) && run[i + 1] == Step(run[i], actions[i])
  }
}
