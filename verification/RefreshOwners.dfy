/**
 Every snapshot that has not been freed has exactly one owner, so none is freed twice, used
 after it is freed, or forgotten; and the byte counter is the sum over those snapshots.
 */
module RefreshOwners {
  import opened Wrappers
  import opened Refresh

  /** The snapshot a refresh will have to publish or free. */
  function HeldBy(rec: JobRec): Option<nat> {
    match rec.phase
    case Walking(_, snap, _) => Some(snap)
    case Built(_, result) => result
    case Retiring(replaced) => replaced
    case _ => None
  }

  /** The snapshot teardown has taken and not yet freed. */
  function HeldByTeardown(mode: Mode): Option<nat> {
    if mode.Freeing? then mode.taken else None
  }

  ghost predicate OwnerOk(i: nat, owner: Owner, snapshot: Option<nat>, mode: Mode, jobs: map<Job, JobRec>) {
    match owner
    case OfJob(job) => job in jobs && HeldBy(jobs[job]) == Some(i)
    case Published => snapshot == Some(i)
    case OfTeardown => HeldByTeardown(mode) == Some(i)
    case Freed => true
  }

  ghost predicate IsOwned(snaps: seq<Snap>, snap: Option<nat>, owner: Owner) {
    snap.Some? ==> snap.value < |snaps| && snaps[snap.value].owner == owner
  }

  /** Ownership in both directions: from the snapshot to whoever holds it, and back. */
  ghost predicate Owners(snaps: seq<Snap>, snapshot: Option<nat>, mode: Mode, jobs: map<Job, JobRec>) {
    (forall i {:trigger snaps[i]} :: 0 <= i < |snaps| ==> OwnerOk(i, snaps[i].owner, snapshot, mode, jobs)) &&
    IsOwned(snaps, snapshot, Published) && IsOwned(snaps, HeldByTeardown(mode), OfTeardown) &&
    (forall j {:trigger jobs[j]} :: j in jobs ==> IsOwned(snaps, HeldBy(jobs[j]), OfJob(j)))
  }

  function BytesOf(snap: Snap): nat {
    if snap.owner == Freed then 0 else snap.bytes
  }

  /** The bytes of the snapshots that have not been freed, and how many those are. */
  function Bytes(snaps: seq<Snap>): nat {
    if snaps == [] then 0 else Bytes(snaps[..|snaps| - 1]) + BytesOf(snaps[|snaps| - 1])
  }

  function Live(snaps: seq<Snap>): nat {
    if snaps == [] then 0 else Live(snaps[..|snaps| - 1]) + (if snaps[|snaps| - 1].owner == Freed then 0 else 1)
  }

  lemma {:induction false} SumsAfterUpdate(snaps: seq<Snap>, i: nat, snap: Snap)
    requires i < |snaps|
    ensures Bytes(snaps[i := snap]) == Bytes(snaps) - BytesOf(snaps[i]) + BytesOf(snap)
    ensures Live(snaps[i := snap]) ==
            Live(snaps) - (if snaps[i].owner == Freed then 0 else 1) + (if snap.owner == Freed then 0 else 1)
  {
    var last := |snaps| - 1;
    if i < last {
      SumsAfterUpdate(snaps[..last], i, snap);
      assert snaps[i := snap][..last] == snaps[..last][i := snap];
    } else {
      assert snaps[i := snap][..last] == snaps[..last];
    }
  }

  lemma SumsAfterAppend(snaps: seq<Snap>, snap: Snap)
    ensures Bytes(snaps + [snap]) == Bytes(snaps) + BytesOf(snap)
    ensures Live(snaps + [snap]) == Live(snaps) + (if snap.owner == Freed then 0 else 1)
  {
    assert (snaps + [snap])[..|snaps|] == snaps;
  }

  lemma {:induction false} AllFreedSums(snaps: seq<Snap>)
    requires forall i :: 0 <= i < |snaps| ==> snaps[i].owner == Freed
    ensures Bytes(snaps) == 0 && Live(snaps) == 0
  {
    if snaps != [] { AllFreedSums(snaps[..|snaps| - 1]); }
  }

  ghost predicate Accounts(s: State) {
    Owners(s.snaps, s.g.snapshot, s.mode, s.jobs) &&
    s.snapBytes == Bytes(s.snaps) && s.tables == 3 * Live(s.snaps) + s.lost
  }

  // ---------- Steps

  /** A step of a refresh that holds on to what it held. */
  lemma SameHolding(s: State, job: Job, phase: Phase)
    requires Accounts(s) && job in s.jobs && HeldBy(JobRec(phase, s.jobs[job].prime)) == HeldBy(s.jobs[job])
    ensures Owners(s.snaps, s.g.snapshot, s.mode, s.jobs[job := s.jobs[job].(phase := phase)])
  {
  }

  lemma AllocateOwners(snaps: seq<Snap>, snapshot: Option<nat>, mode: Mode, jobs: map<Job, JobRec>, job: Job,
                       rec: JobRec, snap: Snap)
    requires Owners(snaps, snapshot, mode, jobs) && job in jobs && HeldBy(jobs[job]).None?
    requires HeldBy(rec) == Some(|snaps|) && snap.owner == OfJob(job)
    ensures Owners(snaps + [snap], snapshot, mode, jobs[job := rec])
  {
    var snaps', jobs' := snaps + [snap], jobs[job := rec];
    forall i | 0 <= i < |snaps'| ensures OwnerOk(i, snaps'[i].owner, snapshot, mode, jobs') {
      if i < |snaps| { assert OwnerOk(i, snaps[i].owner, snapshot, mode, jobs); }
    }
    forall j | j in jobs' ensures IsOwned(snaps', HeldBy(jobs'[j]), OfJob(j)) {
      if j != job { assert IsOwned(snaps, HeldBy(jobs[j]), OfJob(j)); }
    }
  }

  /** What an allocation leaves: one snapshot more, of the refresh, and its bytes and arrays. */
  lemma {:induction false} AllocateAdds(s: State, a: Action) returns (snap: Snap, rec: JobRec)
    requires Enabled(s, a) && a.Allocate?
    ensures var t := Step(s, a);
            && t == s.(snaps := s.snaps + [snap], jobs := s.jobs[a.job := rec],
                       snapBytes := s.snapBytes + snap.bytes, tables := s.tables + 3)
            && snap.owner == OfJob(a.job) && HeldBy(rec) == Some(|s.snaps|) && HeldBy(s.jobs[a.job]).None?
  {
    snap := Step(s, a).snaps[|s.snaps|];
    rec := Step(s, a).jobs[a.job];
  }

  lemma {:induction false} AllocateKeepsAccounts(s: State, a: Action)
    requires Accounts(s) && Enabled(s, a) && a.Allocate?
    ensures Accounts(Step(s, a))
  {
    var snap, rec := AllocateAdds(s, a);
    SumsAfterAppend(s.snaps, snap);
    AllocateOwners(s.snaps, s.g.snapshot, s.mode, s.jobs, a.job, rec, snap);
  }

  lemma FinishOwners(snaps: seq<Snap>, snapshot: Option<nat>, mode: Mode, jobs: map<Job, JobRec>, job: Job, rec: JobRec,
                     i: nat, snap: Snap)
    requires Owners(snaps, snapshot, mode, jobs) && job in jobs && HeldBy(jobs[job]) == HeldBy(rec) == Some(i)
    requires snap.owner == OfJob(job)
    ensures i < |snaps| && snaps[i].owner == OfJob(job) && Owners(snaps[i := snap], snapshot, mode, jobs[job := rec])
  {
    assert IsOwned(snaps, HeldBy(jobs[job]), OfJob(job));
    var snaps' := snaps[i := snap];
    forall k | 0 <= k < |snaps'| ensures OwnerOk(k, snaps'[k].owner, snapshot, mode, jobs[job := rec]) {
      assert OwnerOk(k, snaps[k].owner, snapshot, mode, jobs);
    }
  }

  lemma FinishKeepsAccounts(s: State, a: Action)
    requires Accounts(s) && Enabled(s, a) && a.Finish?
    ensures Accounts(Step(s, a))
  {
    var s' := Step(s, a);
    var i := s.jobs[a.job].phase.snap;
    assert IsOwned(s.snaps, HeldBy(s.jobs[a.job]), OfJob(a.job));
    FinishOwners(s.snaps, s.g.snapshot, s.mode, s.jobs, a.job, s'.jobs[a.job], i, s'.snaps[i]);
    SumsAfterUpdate(s.snaps, i, s'.snaps[i]);
  }

  /** Handing a snapshot from one owner to another changes no sum. */
  lemma HandOver(snaps: seq<Snap>, snap: Option<nat>, owner: Owner)
    requires owner != Freed && (snap.Some? ==> snap.value < |snaps| && snaps[snap.value].owner != Freed)
    ensures Bytes(Reowned(snaps, snap, owner)) == Bytes(snaps) && Live(Reowned(snaps, snap, owner)) == Live(snaps)
  {
    if snap.Some? { SumsAfterUpdate(snaps, snap.value, snaps[snap.value].(owner := owner)); }
  }

  /** Publishing swaps two owners: the replaced snapshot goes to the refresh, the new one is published. */
  lemma PublishOwners(snaps: seq<Snap>, snapshot: Option<nat>, mode: Mode, jobs: map<Job, JobRec>, job: Job,
                      jobs': map<Job, JobRec>)
    requires Owners(snaps, snapshot, mode, jobs) && job in jobs && HeldBy(jobs[job]).Some?
    requires jobs' == jobs[job := jobs[job].(phase := Retiring(snapshot))]
    ensures Owners(Reowned(Reowned(snaps, snapshot, OfJob(job)), HeldBy(jobs[job]), Published), HeldBy(jobs[job]),
                   mode, jobs')
  {
    var result := HeldBy(jobs[job]);
    var snaps' := Reowned(Reowned(snaps, snapshot, OfJob(job)), result, Published);
    assert snaps[result.value].owner == OfJob(job) && snapshot != result;
    forall i | 0 <= i < |snaps'| ensures OwnerOk(i, snaps'[i].owner, result, mode, jobs') {
      assert OwnerOk(i, snaps[i].owner, snapshot, mode, jobs);
    }
    forall j | j in jobs' ensures IsOwned(snaps', HeldBy(jobs'[j]), OfJob(j)) {
      assert IsOwned(snaps, HeldBy(jobs[j]), OfJob(j));
    }
  }

  lemma PublishKeepsAccounts(s: State, job: Job)
    requires Accounts(s) && Enabled(s, Publish(job))
    ensures Accounts(PublishStep(s, job))
  {
    var s' := PublishStep(s, job);
    var result := s.jobs[job].phase.result;
    if result.Some? {
      assert s.snaps[result.value].owner == OfJob(job) && s.g.snapshot != result;
      HandOver(s.snaps, s.g.snapshot, OfJob(job));
      HandOver(Reowned(s.snaps, s.g.snapshot, OfJob(job)), result, Published);
      PublishOwners(s.snaps, s.g.snapshot, s.mode, s.jobs, job, s'.jobs);
    } else {
      SameHolding(s, job, Retiring(None));
    }
  }

  /** Freeing takes the snapshot's bytes off the counter, once. */
  lemma FreeKeepsSums(s: State, snap: Option<nat>, s': State)
    requires s.snapBytes == Bytes(s.snaps) && s.tables == 3 * Live(s.snaps) + s.lost
    requires snap.Some? ==> snap.value < |s.snaps| && s.snaps[snap.value].owner != Freed
    requires s' == Free(s, snap)
    ensures s'.snapBytes == Bytes(s'.snaps) && s'.tables == 3 * Live(s'.snaps) + s'.lost
  {
    if snap.Some? { SumsAfterUpdate(s.snaps, snap.value, s.snaps[snap.value].(owner := Freed)); }
  }

  lemma RetireOwners(snaps: seq<Snap>, snapshot: Option<nat>, mode: Mode, jobs: map<Job, JobRec>, job: Job)
    requires Owners(snaps, snapshot, mode, jobs) && job in jobs
    ensures Owners(Reowned(snaps, HeldBy(jobs[job]), Freed), snapshot, mode, jobs - {job})
  {
    var snaps' := Reowned(snaps, HeldBy(jobs[job]), Freed);
    forall i | 0 <= i < |snaps'| ensures OwnerOk(i, snaps'[i].owner, snapshot, mode, jobs - {job}) {
      assert OwnerOk(i, snaps[i].owner, snapshot, mode, jobs);
    }
  }

  lemma RetireKeepsAccounts(s: State, job: Job)
    requires Accounts(s) && Enabled(s, Retire(job))
    ensures Accounts(Step(s, Retire(job)))
  {
    var replaced := s.jobs[job].phase.replaced;
    assert HeldBy(s.jobs[job]) == replaced;
    FreeKeepsSums(s, replaced, Free(s, replaced));
    RetireOwners(s.snaps, s.g.snapshot, s.mode, s.jobs, job);
  }

  lemma TakeOwners(snaps: seq<Snap>, snapshot: Option<nat>, jobs: map<Job, JobRec>)
    requires Owners(snaps, snapshot, Drained, jobs)
    ensures Owners(Reowned(snaps, snapshot, OfTeardown), None, Freeing(snapshot), jobs)
  {
    var snaps' := Reowned(snaps, snapshot, OfTeardown);
    forall i | 0 <= i < |snaps'| ensures OwnerOk(i, snaps'[i].owner, None, Freeing(snapshot), jobs) {
      assert OwnerOk(i, snaps[i].owner, snapshot, Drained, jobs);
    }
  }

  lemma TakeKeepsAccounts(s: State)
    requires Accounts(s) && Enabled(s, Take)
    ensures Accounts(Step(s, Take))
  {
    HandOver(s.snaps, s.g.snapshot, OfTeardown);
    TakeOwners(s.snaps, s.g.snapshot, s.jobs);
  }

  lemma FreeLockOwners(snaps: seq<Snap>, snapshot: Option<nat>, mode: Mode, jobs: map<Job, JobRec>)
    requires Owners(snaps, snapshot, mode, jobs) && mode.Freeing?
    ensures Owners(Reowned(snaps, mode.taken, Freed), snapshot, Down, jobs)
  {
    var snaps' := Reowned(snaps, mode.taken, Freed);
    forall i | 0 <= i < |snaps'| ensures OwnerOk(i, snaps'[i].owner, snapshot, Down, jobs) {
      assert OwnerOk(i, snaps[i].owner, snapshot, mode, jobs);
    }
  }

  lemma FreeLockKeepsAccounts(s: State)
    requires Accounts(s) && Enabled(s, FreeLock)
    ensures Accounts(Step(s, FreeLock))
  {
    assert HeldByTeardown(s.mode) == s.mode.taken;
    FreeKeepsSums(s, s.mode.taken, Free(s, s.mode.taken));
    FreeLockOwners(s.snaps, s.g.snapshot, s.mode, s.jobs);
  }

  lemma NewJobKeepsAccounts(s: State, a: Action)
    requires Accounts(s) && Enabled(s, a) && (a.Prime? || a.Ensure? || a.Cancel?)
    ensures Accounts(Step(s, a))
  {
  }

  lemma JobStepKeepsAccounts(s: State, a: Action)
    requires Accounts(s) && Enabled(s, a)
    requires a.Enter? || a.Start? || a.Sample? || a.AllocateFails? || a.WalkStep?
    ensures Accounts(Step(s, a))
  {
    SameHolding(s, a.job, Step(s, a).jobs[a.job].phase);
  }

  lemma IdleStepKeepsAccounts(s: State, a: Action)
    requires Accounts(s) && Enabled(s, a)
    requires a.Tick? || a.Change? || a.Init? || a.ReaderLocks? || a.ReaderUnlocks? || a.Drain?
    ensures Accounts(Step(s, a))
  {
  }

  lemma StepKeepsAccounts(s: State, a: Action)
    requires Accounts(s) && Enabled(s, a)
    ensures Accounts(Step(s, a))
  {
    match a
    case Allocate(_, _, _) => AllocateKeepsAccounts(s, a);
    case Finish(_, _) => FinishKeepsAccounts(s, a);
    case Publish(job) => PublishKeepsAccounts(s, job);
    case Retire(job) => RetireKeepsAccounts(s, job);
    case Take => TakeKeepsAccounts(s);
    case FreeLock => FreeLockKeepsAccounts(s);
    case Prime(_) => NewJobKeepsAccounts(s, a);
    case Ensure(_, _) => NewJobKeepsAccounts(s, a);
    case Cancel => NewJobKeepsAccounts(s, a);
    case Enter(_) => JobStepKeepsAccounts(s, a);
    case Start(_) => JobStepKeepsAccounts(s, a);
    case Sample(_) => JobStepKeepsAccounts(s, a);
    case AllocateFails(_, _) => JobStepKeepsAccounts(s, a);
    case WalkStep(_, _) => JobStepKeepsAccounts(s, a);
    case _ => IdleStepKeepsAccounts(s, a);
  }
}
