/**
 Who may be running: at most one refresh has yet to publish, g_building is set for it, and
 the lock outlives it.
 */
module RefreshControl {
  import opened Wrappers
  import opened Refresh

  /** Exactly the active refresh has yet to publish. */
  ghost predicate OneActive(jobs: map<Job, JobRec>, active: Option<Job>) {
    (forall j {:trigger jobs[j]} :: j in jobs && !jobs[j].phase.Retiring? ==> active == Some(j)) &&
    (active.Some? ==> active.value in jobs && !jobs[active.value].phase.Retiring?)
  }

  /** A refresh scheduled by a vnode operation exists only while there is a thread call to carry it. */
  ghost predicate Carried(s: State) {
    s.active.Some? && s.active.value in s.jobs ==>
      var rec := s.jobs[s.active.value];
      (!rec.prime ==> s.hasCall) && (s.mode == Stopping ==> !rec.phase.Entering? && !rec.phase.Queued?)
  }

  /** g_building is set just when a refresh has yet to publish, or one was taken back from the queue. */
  ghost predicate Flags(s: State) {
    (s.g.building <==> s.active.Some? || s.cancelled) && (s.g.pending ==> s.g.building) &&
    (s.cancelled ==> s.mode == Stopping && s.active.None?)
  }

  /** The lock is there whenever it is needed. */
  ghost predicate LockAlive(s: State) {
    (s.active.Some? ==> s.hasLock && (s.mode == Up || s.mode == Stopping)) &&
    (s.mode == Stopping ==> s.hasCall) && (s.mode == Drained || s.mode.Freeing? ==> !s.hasCall) &&
    (s.mode == Down ==> !s.hasLock && !s.hasCall) && (s.mode.Freeing? ==> s.hasLock && s.g == Cleared(s.g)) &&
    (!s.hasLock ==> s.g == Cleared(s.g))
  }

  /** The reader inside the lock sees the published snapshot. */
  ghost predicate ReaderSees(s: State) {
    s.reader.Some? ==> s.mode == Up && s.hasLock && s.reader == Some(s.g.snapshot)
  }

  ghost predicate Control(s: State) {
    OneActive(s.jobs, s.active) && Carried(s) && Flags(s) && LockAlive(s) && ReaderSees(s)
  }

  lemma JobStepKeepsControl(s: State, a: Action)
    requires Control(s) && Enabled(s, a) && BuildStep(a)
    ensures Control(Step(s, a))
  {
  }

  lemma LifeStepKeepsControl(s: State, a: Action)
    requires Control(s) && Enabled(s, a)
    requires a.Tick? || a.Change? || a.Init? || a.Prime? || a.Ensure? || a.ReaderLocks? || a.ReaderUnlocks? ||
             a.Drain? || a.Take? || a.FreeLock?
    ensures Control(Step(s, a))
  {
  }

  lemma PublishKeepsControl(s: State, job: Job)
    requires Control(s) && Enabled(s, Publish(job))
    ensures Control(PublishStep(s, job))
  {
  }

  lemma RetireKeepsControl(s: State, job: Job)
    requires Control(s) && Enabled(s, Retire(job))
    ensures Control(Step(s, Retire(job)))
  {
  }

  lemma CancelKeepsControl(s: State)
    requires Control(s) && Enabled(s, Cancel)
    ensures Control(Step(s, Cancel))
  {
    var s' := Step(s, Cancel);
    if s.hasCall && QueuedJobs(s) != {} {
      var j :| j in QueuedJobs(s);
      assert s.jobs[j].phase.Queued?;
      assert s.active == Some(j);
    }
    if s.active.Some? { assert s.active.value in s.jobs; }
  }

  lemma StepKeepsControl(s: State, a: Action)
    requires Control(s) && Enabled(s, a)
    ensures Control(Step(s, a))
  {
    if a.Cancel? { CancelKeepsControl(s); }
    else if a.Publish? { PublishKeepsControl(s, a.job); }
    else if a.Retire? { RetireKeepsControl(s, a.job); }
    else if BuildStep(a) { JobStepKeepsControl(s, a); }
    else { LifeStepKeepsControl(s, a); }
  }
}
