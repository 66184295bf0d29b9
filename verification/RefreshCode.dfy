/**
 The critical sections of kext/sysfs_iokit.cpp as code on the globals, each proved to be the
 step the refresh machine takes. The ghost state s is the machine's when the lock is taken.
 */
module RefreshCode {
  import opened Wrappers
  import opened Refresh
  import opened RefreshOwners
  import opened RefreshTheorems

  /** What is published has the globals as its owner, and what it replaced has the refresh. */
  ghost predicate HandedOver(s: State, job: Job, replaced: Option<nat>) {
    IsOwned(s.snaps, s.g.snapshot, Published) && IsOwned(s.snaps, replaced, OfJob(job)) &&
    In(s, job, Retiring(replaced)) && (replaced.Some? ==> replaced != s.g.snapshot)
  }

  /** The refresh has built `result` in generation gen, with `count` nodes. */
  ghost predicate HasBuilt(s: State, job: Job, result: Option<nat>, count: nat, gen: nat) {
    In(s, job, Built(gen, result)) &&
    (result.Some? ==> result.value < |s.snaps| && count == |s.snaps[result.value].base|)
  }

  lemma PublishHandsOver(s: State, t: State, job: Job, result: Option<nat>, count: nat, gen: nat)
    requires Inv(s) && Enabled(s, Publish(job)) && t == Step(s, Publish(job)) && HasBuilt(s, job, result, count, gen)
    ensures Inv(t) && t.g == Publishing(s.g, result, count, gen, s.now)
    ensures HandedOver(t, job, if result.Some? then s.g.snapshot else None)
  {
    StepKeepsInv(s, Publish(job));
    assert t == PublishStep(s, job);
    assert t.jobs[job].phase.Retiring?;
  }

  class SnapshotGlobals {
    var snapshot: Option<nat>
    var snapGen: nat
    var snapGenValid: bool
    var building: bool
    var refreshPending: bool
    var lastNodeCount: nat
    var lastBuildUptime: nat
    var lastBuildValid: bool

    function Value(): Globals
      reads this
    {
      Globals(snapshot, snapGen, snapGenValid, building, refreshPending, lastNodeCount, lastBuildUptime, lastBuildValid)
    }

    constructor ()
      ensures Value() == CLEARED
    {
      snapshot, snapGen, snapGenValid, building, refreshPending := None, 0, false, false, false;
      lastNodeCount, lastBuildUptime, lastBuildValid := 0, 0, false;
    }

    /** The assignments of lines 724-744. */
    method Install(result: Option<nat>, count: nat, gen: nat, now: nat) returns (replaced: Option<nat>)
      modifies this
      ensures Value() == Publishing(old(Value()), result, count, gen, now)
      ensures replaced == if result.Some? then old(snapshot) else None
    {
      replaced := None;
      if result.Some? {
        replaced := snapshot;
        snapshot := result;
        snapGen := gen;
        snapGenValid := true;
        lastNodeCount := count;
        lastBuildUptime := now;
        lastBuildValid := true;
      }
      building := false;
      refreshPending := false;
    }

    /**
     Lines 724-744, from state s to state t, where the refresh has built `result`. What is published
     belongs to the globals from here on, and what it replaces to this refresh, which is to free it.
     */
    method PublishLocked(ghost s: State, ghost t: State, ghost job: Job,
                         result: Option<nat>, count: nat, gen: nat, now: nat)
      returns (replaced: Option<nat>)
      requires Inv(s) && Value() == s.g && now == s.now && HasBuilt(s, job, result, count, gen)
      requires Enabled(s, Publish(job)) && t == Step(s, Publish(job))
      modifies this
      ensures Value() == t.g && Inv(t) && HandedOver(t, job, replaced)
      ensures snapshot == if result.Some? then result else old(snapshot)
    {
      replaced := Install(result, count, gen, now);
      PublishHandsOver(s, t, job, result, count, gen);
    }

    /**
     Lines 776-811: decide whether to schedule a refresh, and flag it. The caller goes on to
     thread_call_enter() just if the refresh is now in flight, and then no other one is.
     */
    method EnsureLocked(ghost s: State, ghost job: Job, gen: nat, now: nat, uptime: nat, hasCall: bool)
      returns (enter: bool)
      requires Inv(s) && Value() == s.g && Enabled(s, Ensure(job, gen))
      requires now == s.now && uptime == Uptime(s) && hasCall == s.hasCall
      modifies this
      ensures Value() == Step(s, Ensure(job, gen)).g && Inv(Step(s, Ensure(job, gen)))
      ensures enter <==> InFlight(Step(s, Ensure(job, gen)), job)
      ensures enter ==> !AnyInFlight(s)
    {
      StepKeepsInv(s, Ensure(job, gen));
      ActiveInFlight(s);
      if snapshot.Some? {
        if (snapGenValid && snapGen == gen) || now - uptime <= TTL {
          return false;
        }
      }
      if snapshot.Some? && lastBuildValid {
        if now - lastBuildUptime < MIN_REBUILD {
          return false;
        }
      }
      if !refreshPending && !building && hasCall {
        refreshPending := true;
        building := true;
        return true;
      }
      return false;
    }

    /**
     Lines 866-871: claim the first build. The caller builds just if it is now the one refresh in
     flight; it leaves only when somebody else has built or is building.
     */
    method PrimeLocked(ghost s: State, ghost job: Job) returns (have: bool)
      requires Inv(s) && Value() == s.g && Enabled(s, Prime(job))
      modifies this
      ensures Value() == Step(s, Prime(job)).g && Inv(Step(s, Prime(job)))
      ensures have <==> !InFlight(Step(s, Prime(job)), job)
      ensures have <==> s.g.snapshot.Some? || AnyInFlight(s)
    {
      StepKeepsInv(s, Prime(job));
      ActiveInFlight(s);
      have := snapshot.Some? || building;
      if !have {
        building := true;
      }
    }

    /**
     Lines 904-918: take the snapshot away and start clean. The caller is left the one owner of what
     it took, no refresh is in flight that could still use it, and nothing is published any more.
     */
    method TakeLocked(ghost s: State) returns (taken: Option<nat>)
      requires Inv(s) && Value() == s.g && Enabled(s, Take) && s.hasLock
      modifies this
      ensures Value() == Step(s, Take).g && Inv(Step(s, Take)) && Step(s, Take).mode == Freeing(taken)
      ensures taken == old(snapshot) && snapshot.None?
      ensures IsOwned(Step(s, Take).snaps, taken, OfTeardown) && !AnyInFlight(Step(s, Take))
      ensures forall j :: j in s.jobs && taken.Some? ==> HeldBy(s.jobs[j]) != taken
    {
      StepKeepsInv(s, Take);
      ActiveInFlight(Step(s, Take));
      taken := snapshot;
      snapshot := None;
      snapGenValid := false;
      building := false;
      lastBuildValid := false;
      lastBuildUptime := 0;
      lastNodeCount := 0;
      refreshPending := false;
    }
  }
}
