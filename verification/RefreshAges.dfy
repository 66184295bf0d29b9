/**
 What the times and the generation a vnode operation goes by mean: when the published snapshot was
 built, when it was published, and what its refresh had sampled.
 */
module RefreshAges {
  import opened Wrappers
  import opened Refresh
  import opened RefreshGrowth
  import opened RefreshOwners
  import opened RefreshTheorems

  /** The action at f ends the walk that fills snapshot `id`. */
  ghost predicate Completes(run: seq<State>, actions: seq<Action>, f: nat, id: nat) {
    f < |actions| && f < |run| && actions[f].Finish? && actions[f].job in run[f].jobs &&
    run[f].jobs[actions[f].job].phase.Walking? && run[f].jobs[actions[f].job].phase.snap == id
  }

  /** The publication at p is the last one to install a snapshot before i, with no teardown since. */
  ghost predicate LastInstall(run: seq<State>, actions: seq<Action>, p: nat, i: nat) {
    p < i <= |actions| && |run| == |actions| + 1 && Installs(run[p], actions[p]) &&
    forall j :: p < j < i ==> !Installs(run[j], actions[j]) && !actions[j].Take?
  }

  // ---------- When it was published

  lemma {:induction false} RecordStays(s: State, a: Action)
    requires Inv(s) && Enabled(s, a) && !Installs(s, a) && !a.Take?
    ensures SameRecord(s, Step(s, a))
  {
    PublishedStays(s, a);
    if BuildStep(a) { BuildKeepsRecord(s, a); }
  }

  ghost predicate SameRecord(s: State, t: State) {
    t.g.snapshot == s.g.snapshot && t.g.lastBuild == s.g.lastBuild && t.g.genValid == s.g.genValid &&
    t.g.gen == s.g.gen
  }

  lemma {:induction false} BuildKeepsRecord(s: State, a: Action)
    requires Enabled(s, a) && BuildStep(a)
    ensures SameRecord(s, Step(s, a))
  {
  }

  lemma {:induction false} PublishedWhen(run: seq<State>, actions: seq<Action>, i: nat) returns (p: nat)
    requires IsRun(run, actions) && i < |run| && run[i].g.snapshot.Some?
    ensures LastInstall(run, actions, p, i)
    ensures var phase := run[p].jobs[actions[p].job].phase;
            run[i].g.snapshot == phase.result && run[i].g.lastBuild == run[p].now &&
            run[i].g.genValid && run[i].g.gen == phase.gen
  {
    var s, a := run[i - 1], actions[i - 1];
    RunInv(run, actions, i - 1);
    assert Takes(run, actions, i - 1);
    if Installs(s, a) {
      p := i - 1;
    } else {
      RecordStays(s, a);
      p := PublishedWhen(run, actions, i - 1);
    }
  }

  // ---------- When it was built

  /** Only the end of a walk dates a snapshot. */
  lemma {:induction false} DateStays(s: State, a: Action, id: nat)
    requires Enabled(s, a) && id < |s.snaps| && !(a.Finish? && s.jobs[a.job].phase.snap == id)
    ensures id < |Step(s, a).snaps| && Step(s, a).snaps[id].uptime == s.snaps[id].uptime
  {
    if BuildStep(a) { BuildKeepsDates(s, a, id); } else { OtherKeepsDates(s, a, id); }
  }

  lemma {:induction false} BuildKeepsDates(s: State, a: Action, id: nat)
    requires Enabled(s, a) && BuildStep(a) && id < |s.snaps| && !(a.Finish? && s.jobs[a.job].phase.snap == id)
    ensures id < |Step(s, a).snaps| && Step(s, a).snaps[id].uptime == s.snaps[id].uptime
  {
  }

  lemma {:induction false} OtherKeepsDates(s: State, a: Action, id: nat)
    requires Enabled(s, a) && !BuildStep(a) && id < |s.snaps|
    ensures id < |Step(s, a).snaps| && Step(s, a).snaps[id].uptime == s.snaps[id].uptime
  {
  }

  lemma {:induction false} FinishDates(s: State, a: Action)
    requires Enabled(s, a) && a.Finish?
    ensures var t, id := Step(s, a), s.jobs[a.job].phase.snap;
            t.jobs[a.job].phase.Built? && t.jobs[a.job].phase.result == Some(id) && t.snaps[id].uptime == s.now
  {
  }

  /** Only the end of its own walk makes a refresh have something built. */
  lemma {:induction false} WasBuilt(s: State, a: Action, job: Job, t: State)
    requires Enabled(s, a) && t == Step(s, a) && job in t.jobs && !(a.Finish? && a.job == job)
    requires t.jobs[job].phase.Built? && t.jobs[job].phase.result.Some?
    ensures job in s.jobs && s.jobs[job] == t.jobs[job]
  {
    if BuildStep(a) { WasBuiltBefore(s, a, job, t); }
  }

  lemma {:induction false} WasBuiltBefore(s: State, a: Action, job: Job, t: State)
    requires Enabled(s, a) && BuildStep(a) && t == Step(s, a) && job in t.jobs && !(a.Finish? && a.job == job)
    requires t.jobs[job].phase.Built? && t.jobs[job].phase.result.Some?
    ensures job in s.jobs && s.jobs[job] == t.jobs[job]
  {
  }

  /** A refresh that is done building has ended its walk, and dated what it built then. */
  lemma {:induction false} BuiltWhen(run: seq<State>, actions: seq<Action>, k: nat, job: Job, id: nat) returns (f: nat)
    requires IsRun(run, actions) && k < |run| && job in run[k].jobs
    requires run[k].jobs[job].phase.Built? && run[k].jobs[job].phase.result == Some(id)
    ensures f < k && Completes(run, actions, f, id) && actions[f].job == job
    ensures id < |run[k].snaps| && run[k].snaps[id].uptime == run[f].now
  {
    var s, a := run[k - 1], actions[k - 1];
    RunInv(run, actions, k - 1);
    assert Takes(run, actions, k - 1);
    if a.Finish? && a.job == job {
      f := k - 1;
      FinishDates(s, a);
    } else {
      WasBuilt(s, a, job, run[k]);
      f := BuiltWhen(run, actions, k - 1, job, id);
      OthersDoNotDate(s, a, id, OfJob(job));
      DateStays(s, a, id);
    }
  }

  /** A walk that ends is not the one that filled a snapshot somebody else owns. */
  lemma OthersDoNotDate(s: State, a: Action, id: nat, owner: Owner)
    requires Inv(s) && Enabled(s, a) && id < |s.snaps| && s.snaps[id].owner == owner
    requires a.Finish? ==> owner != OfJob(a.job)
    ensures !(a.Finish? && s.jobs[a.job].phase.snap == id)
  {
    if a.Finish? { assert IsOwned(s.snaps, HeldBy(s.jobs[a.job]), OfJob(a.job)); }
  }

  /** While it is published, its date stays. */
  lemma {:induction false} DatedWhilePublished(run: seq<State>, actions: seq<Action>, p: nat, i: nat, id: nat)
    requires IsRun(run, actions) && LastInstall(run, actions, p, i)
    requires run[p].jobs[actions[p].job].phase.result == Some(id) && id < |run[p].snaps|
    ensures run[i].g.snapshot == Some(id) && id < |run[i].snaps| && run[i].snaps[id].uptime == run[p].snaps[id].uptime
  {
    RunInv(run, actions, i - 1);
    assert Takes(run, actions, i - 1);
    if i == p + 1 {
      DateStays(run[p], actions[p], id);
    } else {
      DatedWhilePublished(run, actions, p, i - 1, id);
      RecordStays(run[i - 1], actions[i - 1]);
      OthersDoNotDate(run[i - 1], actions[i - 1], id, Published);
      DateStays(run[i - 1], actions[i - 1], id);
    }
  }

  /**
   sysfs_snap_ensure() leaves a refresh in flight just when one already was, or there is no snapshot,
   or the snapshot's refresh had sampled another generation, its walk ended more than 2 seconds ago and
   it was published 30 seconds ago or more.
   */
  lemma EnsureGoesByAge(run: seq<State>, actions: seq<Action>, i: nat) returns (f: nat, p: nat)
    requires IsRun(run, actions) && i < |actions| && actions[i].Ensure? && run[i].hasCall
    ensures run[i].g.snapshot.Some? ==>
              f < p && Completes(run, actions, f, run[i].g.snapshot.value) && LastInstall(run, actions, p, i)
    ensures AnyInFlight(run[i + 1]) <==>
              || AnyInFlight(run[i])
              || run[i].g.snapshot.None?
              || (run[p].jobs[actions[p].job].phase.gen != actions[i].sampled &&
                  run[i].now - run[f].now > 2_000_000_000 && run[i].now - run[p].now >= 30_000_000_000)
  {
    EnsureSchedules(run, actions, i);
    if run[i].g.snapshot.Some? {
      p := PublishedWhen(run, actions, i);
      var id := run[i].g.snapshot.value;
      f := BuiltWhen(run, actions, p, actions[p].job, id);
      DatedWhilePublished(run, actions, p, i, id);
    } else {
      f, p := 0, 0;
    }
  }
}
