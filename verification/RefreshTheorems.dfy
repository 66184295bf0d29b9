/**
 What holds in every state of every run of the refresh machine.
 */
module RefreshTheorems {
  import opened Wrappers
  import opened Growth
  import opened Refresh
  import opened RefreshCoherence
  import opened RefreshControl
  import opened RefreshOwners
  import opened RefreshTiming
  import opened Registry

  ghost predicate Inv(s: State) {
    Control(s) && Accounts(s) && Capacities(s.snaps) && Coherent(s) && Paced(s) && Past(s) && Sizing(s)
  }

  lemma StepKeepsInv(s: State, a: Action)
    requires Inv(s) && Enabled(s, a)
    ensures Inv(Step(s, a))
  {
    StepKeepsControl(s, a);
    StepKeepsAccounts(s, a);
    StepKeepsCapacities(s, a);
    StepKeepsCoherent(s, a);
    StepKeepsPaced(s, a);
    StepKeepsPast(s, a);
    StepKeepsSizing(s, a);
  }

  lemma {:induction false} RunInv(run: seq<State>, actions: seq<Action>, i: nat)
    requires IsRun(run, actions) && i < |run|
    ensures Inv(run[i])
  {
    if i > 0 {
      RunInv(run, actions, i - 1);
      assert Takes(run, actions, i - 1);
      StepKeepsInv(run[i - 1], actions[i - 1]);
    }
  }

  // ---------- Exclusion and lifetime

  /** A refresh that is scheduled, queued or running, and has yet to publish. */
  ghost predicate InFlight(s: State, job: Job) {
    job in s.jobs && !s.jobs[job].phase.Retiring?
  }

  ghost predicate AnyInFlight(s: State) {
    exists job :: InFlight(s, job)
  }

  /** At most one refresh is in flight, and g_building is set whenever one is. */
  lemma OneRefreshAtATime(run: seq<State>, actions: seq<Action>, i: nat, job: Job, other: Job)
    requires IsRun(run, actions) && i < |run| && InFlight(run[i], job)
    ensures InFlight(run[i], other) ==> job == other
    ensures run[i].g.building
  {
    RunInv(run, actions, i);
    assert run[i].jobs[job] == run[i].jobs[job];
    if InFlight(run[i], other) { assert run[i].jobs[other] == run[i].jobs[other]; }
  }

  /**
   Nothing that can be reached is freed: not the published snapshot, not the one a reader inside the
   lock looks at, not what a refresh or teardown is about to free.
   */
  lemma NothingFreedIsUsed(run: seq<State>, actions: seq<Action>, i: nat, snap: nat)
    requires IsRun(run, actions) && i < |run|
    requires || run[i].g.snapshot == Some(snap)
             || run[i].reader == Some(Some(snap))
             || (exists job :: job in run[i].jobs && HeldBy(run[i].jobs[job]) == Some(snap))
             || HeldByTeardown(run[i].mode) == Some(snap)
    ensures snap < |run[i].snaps| && run[i].snaps[snap].owner != Freed
    ensures run[i].reader == Some(Some(snap)) ==> run[i].g.snapshot == Some(snap)
  {
    RunInv(run, actions, i);
  }

  /**
   The lock is there for every critical section, and teardown gets past its wait only when no refresh
   is in flight.
   */
  lemma TeardownIsSafe(run: seq<State>, actions: seq<Action>, i: nat)
    requires IsRun(run, actions) && i < |actions|
    ensures actions[i].Publish? || actions[i].ReaderUnlocks? ==> run[i].hasLock
    ensures actions[i].Drain? || actions[i].Take? || actions[i].FreeLock? ==> !AnyInFlight(run[i])
    ensures actions[i].Start? || actions[i].Enter? ==> run[i].hasCall
  {
    RunInv(run, actions, i);
    assert Takes(run, actions, i);
    var s := run[i];
    if actions[i].Publish? { assert s.jobs[actions[i].job] == s.jobs[actions[i].job]; }
    if actions[i].Start? || actions[i].Enter? { PrimeIsStarted(run, actions, i, actions[i].job); }
    ActiveInFlight(s);
  }

  ghost predicate IsPrime(s: State, job: Job) {
    job in s.jobs && s.jobs[job].prime
  }

  ghost predicate HasStarted(s: State, job: Job) {
    job in s.jobs && !s.jobs[job].phase.Entering? && !s.jobs[job].phase.Queued?
  }

  lemma PrimeStaysStarted(s: State, a: Action, job: Job)
    requires Enabled(s, a) && (IsPrime(s, job) ==> HasStarted(s, job))
    ensures IsPrime(Step(s, a), job) ==> HasStarted(Step(s, a), job)
  {
    if BuildStep(a) { BuildingPrimeStaysStarted(s, a, job); }
  }

  lemma BuildingPrimeStaysStarted(s: State, a: Action, job: Job)
    requires Enabled(s, a) && BuildStep(a) && (IsPrime(s, job) ==> HasStarted(s, job))
    ensures IsPrime(Step(s, a), job) ==> HasStarted(Step(s, a), job)
  {
  }

  /** A refresh run by sysfs_iokit_prime() itself is never queued. */
  lemma {:induction false} PrimeIsStarted(run: seq<State>, actions: seq<Action>, i: nat, job: Job)
    requires IsRun(run, actions) && i < |run|
    ensures IsPrime(run[i], job) ==> HasStarted(run[i], job)
  {
    if i > 0 {
      PrimeIsStarted(run, actions, i - 1, job);
      assert Takes(run, actions, i - 1);
      PrimeStaysStarted(run[i - 1], actions[i - 1], job);
    }
  }

  // ---------- Memory

  /** How many arrays the builds among the first i actions got hold of before an allocation failed. */
  ghost function LostBy(actions: seq<Action>, i: nat): nat
    requires i <= |actions|
  {
    if i == 0 then 0 else LostBy(actions, i - 1) + if actions[i - 1].AllocateFails? then actions[i - 1].arrays else 0
  }

  /** No build among the first i actions failed half-way through its allocations. */
  ghost predicate NoneFailedHalfway(actions: seq<Action>, i: nat)
    requires i <= |actions|
  {
    forall j :: 0 <= j < i && actions[j].AllocateFails? ==> actions[j].arrays == 0
  }

  lemma {:induction false} LostIff(actions: seq<Action>, i: nat)
    requires i <= |actions|
    ensures LostBy(actions, i) == 0 <==> NoneFailedHalfway(actions, i)
  {
    if i > 0 { LostIff(actions, i - 1); }
  }

  lemma {:induction false} RunLost(run: seq<State>, actions: seq<Action>, i: nat)
    requires IsRun(run, actions) && i < |run|
    ensures run[i].lost == LostBy(actions, i)
  {
    if i > 0 {
      RunLost(run, actions, i - 1);
      assert Takes(run, actions, i - 1);
    }
  }

  /**
   The byte counter is the sum over the snapshots that have not been freed. After teardown, once
   every refresh is over, it is 0; every array is freed then just if no build failed half-way
   through its allocations.
   */
  lemma BytesConserved(run: seq<State>, actions: seq<Action>, i: nat)
    requires IsRun(run, actions) && i < |run|
    ensures run[i].snapBytes == Bytes(run[i].snaps)
    ensures run[i].mode == Down && run[i].jobs == map[] ==>
              run[i].snapBytes == 0 && (run[i].tables == 0 <==> NoneFailedHalfway(actions, i))
  {
    RunInv(run, actions, i);
    RunLost(run, actions, i);
    LostIff(actions, i);
    var s := run[i];
    if s.mode == Down && s.jobs == map[] {
      forall k | 0 <= k < |s.snaps| ensures s.snaps[k].owner == Freed {
        assert OwnerOk(k, s.snaps[k].owner, s.g.snapshot, s.mode, s.jobs);
      }
      AllFreedSums(s.snaps);
    }
  }

  // ---------- Coherence

  /**
   A published snapshot of the current generation is what a fresh walk of the registry would record at
   its capacity.
   */
  lemma CacheCoherence(run: seq<State>, actions: seq<Action>, i: nat)
    requires IsRun(run, actions) && i < |run|
    requires run[i].g.snapshot.Some? && run[i].g.genValid && run[i].g.gen == run[i].gen
    ensures run[i].g.snapshot.value < |run[i].snaps|
    ensures var snap := run[i].snaps[run[i].g.snapshot.value]; snap.base == Recorded(run[i].walk, snap.cap)
  {
    RunInv(run, actions, i);
  }

  // ---------- Timing

  /** A publication that installs a snapshot. */
  ghost predicate Installs(s: State, a: Action) {
    a.Publish? && a.job in s.jobs && s.jobs[a.job].phase.Built? && s.jobs[a.job].phase.result.Some?
  }

  lemma {:induction false} HistoryGrows(run: seq<State>, actions: seq<Action>, i: nat, k: nat)
    requires IsRun(run, actions) && i <= k < |run| && forall j :: i <= j < k ==> !actions[j].Take?
    ensures run[i].publications <= run[k].publications
  {
    if i < k {
      HistoryGrows(run, actions, i, k - 1);
      assert Takes(run, actions, k - 1);
    }
  }

  /** Two publications that install a snapshot, with no teardown between them, are at least 30 seconds apart. */
  lemma PublicationsAreSpaced(run: seq<State>, actions: seq<Action>, i: nat, k: nat)
    requires IsRun(run, actions) && i < k < |actions| && Installs(run[i], actions[i]) && Installs(run[k], actions[k])
    requires forall j :: i <= j < k ==> !actions[j].Take?
    ensures run[k].now - run[i].now >= 30_000_000_000
  {
    assert Takes(run, actions, i) && Takes(run, actions, k);
    HistoryGrows(run, actions, i + 1, k);
    RunInv(run, actions, k + 1);
    var first, last := |run[i].publications|, |run[k].publications|;
    assert run[k + 1].publications[first] == run[i].now && run[k + 1].publications[last] == run[k].now;
  }

  /**
   sysfs_snap_ensure() leaves a refresh in flight just when one already was, or the snapshot is
   missing, or it is stale and old enough to be replaced.
   */
  lemma EnsureSchedules(run: seq<State>, actions: seq<Action>, i: nat)
    requires IsRun(run, actions) && i < |actions| && actions[i].Ensure? && run[i].hasCall
    ensures AnyInFlight(run[i + 1]) <==>
              || AnyInFlight(run[i])
              || run[i].g.snapshot.None?
              || (!(run[i].g.genValid && run[i].g.gen == actions[i].sampled) &&
                  run[i].now - Uptime(run[i]) > 2_000_000_000 && run[i].now - run[i].g.lastBuild >= 30_000_000_000)
  {
    RunInv(run, actions, i);
    var s, s' := run[i], run[i + 1];
    assert Takes(run, actions, i);
    StepKeepsInv(s, actions[i]);
    ActiveInFlight(s);
    ActiveInFlight(s');
  }

  lemma ActiveInFlight(s: State)
    requires Control(s)
    ensures AnyInFlight(s) <==> s.active.Some?
  {
    if s.active.Some? { assert InFlight(s, s.active.value); }
    if job :| InFlight(s, job) { assert s.jobs[job] == s.jobs[job]; }
  }

  // ---------- Sizing

  /**
   A build is sized from the snapshot it will replace, or from the entries it counts if there is none:
   a quarter more and 65, at most 16384. The doubled estimate of a truncated build never sizes another.
   */
  lemma SizedFromPublished(run: seq<State>, actions: seq<Action>, i: nat)
    requires IsRun(run, actions) && i < |actions| && actions[i].Allocate?
    ensures |run[i + 1].snaps| == |run[i].snaps| + 1
    ensures var published, entries := PublishedCount(run[i]), actions[i].entries;
            var n := if published > 0 then published else if entries > 16384 then 16384 else entries;
            run[i + 1].snaps[|run[i].snaps|].cap == if n + n / 4 + 65 > 16384 then 16384 else n + n / 4 + 65
  {
    RunInv(run, actions, i);
    assert Takes(run, actions, i);
    assert run[i].jobs[actions[i].job].phase.Sampled?;
    SizeInNumbers(PublishedCount(run[i]), actions[i].entries);
  }

  // ---------- A teardown that never ends

  /** Teardown waits for g_building, and no refresh is left that would clear it. */
  ghost predicate Stuck(s: State) {
    s.mode == Stopping && s.hasLock && s.g.building && s.cancelled
  }

  /** Cancelling strands teardown just when it takes a refresh off the queue. */
  lemma CancelStrandsIff(run: seq<State>, actions: seq<Action>, i: nat)
    requires IsRun(run, actions) && i < |actions| && actions[i].Cancel?
    ensures Stuck(run[i + 1]) <==> exists job :: In(run[i], job, Queued)
  {
    RunInv(run, actions, i);
    var s, s' := run[i], run[i + 1];
    assert Takes(run, actions, i);
    StepKeepsInv(s, actions[i]);
    if job :| In(s, job, Queued) {
      assert s.jobs[job].phase.Queued? && s.active == Some(job);
      PrimeIsStarted(run, actions, i, job);
      assert job in QueuedJobs(s);
    }
    if Stuck(s') {
      var job :| job in QueuedJobs(s);
      assert In(s, job, Queued);
    }
  }

  /** Once stuck, teardown never gets past its wait. */
  lemma {:induction false} StuckForever(run: seq<State>, actions: seq<Action>, i: nat, k: nat)
    requires IsRun(run, actions) && i <= k < |run| && Stuck(run[i])
    ensures Stuck(run[k])
  {
    if i < k {
      StuckForever(run, actions, i, k - 1);
      RunInv(run, actions, k - 1);
      var s, a := run[k - 1], actions[k - 1];
      assert Takes(run, actions, k - 1);
      ActiveInFlight(s);
      assert forall job :: !InFlight(s, job);
    }
  }

  /** A vnode operation has scheduled a refresh that no worker has picked up. */
  ghost predicate OneQueued(s: State, job: Job) {
    s.mode == Up && s.hasLock && s.hasCall && s.reader.None? && s.g.building &&
    s.jobs == map[job := JobRec(Queued, false)]
  }

  lemma CancelOneQueued(s: State, job: Job)
    requires OneQueued(s, job)
    ensures Enabled(s, Cancel) && Stuck(Step(s, Cancel))
  {
    assert job in QueuedJobs(s);
  }

  lemma QueuesOne(s: State, job: Job) returns (s1: State, s2: State, s3: State)
    requires Initial(s)
    ensures s1 == Step(s, Init(true, true)) && Enabled(s1, Ensure(job, s.gen)) && s2 == Step(s1, Ensure(job, s.gen))
    ensures Enabled(s2, Enter(job)) && s3 == Step(s2, Enter(job)) && OneQueued(s3, job)
  {
    s1 := Step(s, Init(true, true));
    s2 := Step(s1, Ensure(job, s.gen));
    s3 := Step(s2, Enter(job));
  }

  /** It does happen: a vnode operation schedules a refresh, and teardown begins before a worker picks it up. */
  lemma TeardownCanStick(s: State, job: Job)
    requires Initial(s)
    ensures exists run, actions :: IsRun(run, actions) && run[0] == s && Stuck(run[|run| - 1])
  {
    var s1, s2, s3 := QueuesOne(s, job);
    CancelOneQueued(s3, job);
    var run := [s, s1, s2, s3, Step(s3, Cancel)];
    var actions := [Init(true, true), Ensure(job, s.gen), Enter(job), Cancel];
    assert IsRun(run, actions) && Stuck(run[|run| - 1]);
  }
}
