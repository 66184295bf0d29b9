/**
 When snapshots are published and how they are sized: publications keep 30 seconds apart, and
 a build is sized from the snapshot it is going to replace.
 */
module RefreshTiming {
  import opened Wrappers
  import opened Refresh
  import opened RefreshControl
  import opened RefreshOwners

  ghost predicate Apart(times: seq<nat>) {
    forall i, j :: 0 <= i < j < |times| ==> times[j] - times[i] >= MIN_REBUILD
  }

  /** A refresh is admitted only when the published snapshot is old enough, and nothing else is published meanwhile. */
  ghost predicate Paced(s: State) {
    Apart(s.publications) && (s.g.snapshot.None? <==> s.publications == []) &&
    (s.g.snapshot.Some? ==> s.g.lastBuildValid && s.publications[|s.publications| - 1] == s.g.lastBuild <= s.now) &&
    (s.active.Some? && s.g.snapshot.Some? ==> s.now - s.g.lastBuild >= MIN_REBUILD)
  }

  lemma PublishKeepsPaced(s: State, job: Job)
    requires Control(s) && Paced(s) && Enabled(s, Publish(job))
    ensures Paced(PublishStep(s, job))
  {
    assert s.active == Some(job);
    if s.jobs[job].phase.result.Some? && s.publications != [] {
      var times := s.publications;
      forall i | 0 <= i < |times| ensures s.now - times[i] >= MIN_REBUILD {
        if i < |times| - 1 { assert times[|times| - 1] - times[i] >= MIN_REBUILD; }
      }
    }
  }

  lemma BuildKeepsPaced(s: State, a: Action)
    requires Paced(s) && Enabled(s, a) && BuildStep(a)
    ensures Paced(Step(s, a))
  {
  }

  lemma LifeKeepsPaced(s: State, a: Action)
    requires Control(s) && Paced(s) && Enabled(s, a) && !BuildStep(a) && !a.Publish?
    ensures Paced(Step(s, a))
  {
  }

  lemma StepKeepsPaced(s: State, a: Action)
    requires Control(s) && Paced(s) && Enabled(s, a)
    ensures Paced(Step(s, a))
  {
    if a.Publish? { PublishKeepsPaced(s, a.job); }
    else if BuildStep(a) { BuildKeepsPaced(s, a); }
    else { LifeKeepsPaced(s, a); }
  }

  /** No clock reading is ahead of the clock. */
  ghost predicate Past(s: State) {
    forall i {:trigger s.snaps[i]} :: 0 <= i < |s.snaps| ==> s.snaps[i].uptime <= s.now
  }

  lemma StepKeepsPast(s: State, a: Action)
    requires Past(s) && Enabled(s, a)
    ensures Past(Step(s, a))
  {
  }

  /** How many nodes the published snapshot has; 0 when there is none. */
  ghost function PublishedCount(s: State): nat {
    if s.g.snapshot.Some? && s.g.snapshot.value < |s.snaps| then |s.snaps[s.g.snapshot.value].base| else 0
  }

  /** Between the end of a build and its publication the estimate may be a doubled one. */
  ghost predicate MayBeDoubled(s: State) {
    s.active.Some? && s.active.value in s.jobs && s.jobs[s.active.value].phase.Built? &&
    s.jobs[s.active.value].phase.result.Some?
  }

  ghost predicate Sizing(s: State) {
    !MayBeDoubled(s) ==> s.g.lastCount == PublishedCount(s)
  }

  lemma JobStepKeepsSizing(s: State, a: Action)
    requires Control(s) && Accounts(s) && Sizing(s) && Enabled(s, a) && BuildStep(a)
    ensures Sizing(Step(s, a))
  {
    assert s.active == Some(a.job);
    if a.Finish? { assert IsOwned(s.snaps, HeldBy(s.jobs[a.job]), OfJob(a.job)); }
  }

  lemma PublishKeepsSizing(s: State, job: Job)
    requires Control(s) && Accounts(s) && Sizing(s) && Enabled(s, Publish(job))
    ensures Sizing(PublishStep(s, job))
  {
    assert s.active == Some(job);
    assert IsOwned(s.snaps, HeldBy(s.jobs[job]), OfJob(job));
  }

  lemma LifeStepKeepsSizing(s: State, a: Action)
    requires Control(s) && Accounts(s) && Sizing(s) && Enabled(s, a)
    requires a.Tick? || a.Change? || a.Init? || a.Prime? || a.Ensure? || a.ReaderLocks? || a.ReaderUnlocks?
    ensures Sizing(Step(s, a))
  {
  }

  lemma EndStepKeepsSizing(s: State, a: Action)
    requires Control(s) && Accounts(s) && Sizing(s) && Enabled(s, a)
    requires a.Cancel? || a.Drain? || a.Take? || a.FreeLock?
    ensures Sizing(Step(s, a))
  {
  }

  lemma RetireKeepsSizing(s: State, job: Job)
    requires Control(s) && Accounts(s) && Sizing(s) && Enabled(s, Retire(job))
    ensures Sizing(Step(s, Retire(job)))
  {
    assert s.active != Some(job);
  }

  lemma StepKeepsSizing(s: State, a: Action)
    requires Control(s) && Accounts(s) && Sizing(s) && Enabled(s, a)
    ensures Sizing(Step(s, a))
  {
    if a.Publish? { PublishKeepsSizing(s, a.job); }
    else if BuildStep(a) { JobStepKeepsSizing(s, a); }
    else if a.Cancel? || a.Drain? || a.Take? || a.FreeLock? { EndStepKeepsSizing(s, a); }
    else if a.Retire? { RetireKeepsSizing(s, a.job); }
    else { LifeStepKeepsSizing(s, a); }
  }
}
