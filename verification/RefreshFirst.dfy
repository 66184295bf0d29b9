/**
 The first snapshot after start or teardown: its build counts the registry, so what is published
 first is all of it, up to the cap.
 */
module RefreshFirst {
  import opened Wrappers
  import opened Growth
  import opened Refresh
  import opened RefreshCoherence
  import opened RefreshOwners
  import opened RefreshGrowth
  import opened RefreshTheorems
  import opened Registry

  /** The generation the refresh in flight has sampled. */
  ghost predicate ActiveSampled(s: State, gen: nat) {
    s.active.Some? && s.active.value in s.jobs &&
    match s.jobs[s.active.value].phase
    case Walking(g, _, _) => g == gen
    case Built(g, _) => g == gen
    case _ => false
  }

  /** The table is at the cap, or has room for the root and every entry of the registry. */
  ghost predicate HasRoom(s: State, id: nat) {
    id < |s.snaps| && s.snaps[id].cap <= 16384 && (s.snaps[id].cap > |s.walk| || s.snaps[id].cap == 16384)
  }

  /** While there is no snapshot, the build in flight has room for the registry it sampled. */
  ghost predicate Roomy(s: State) {
    s.g.snapshot.None? && ActiveSampled(s, s.gen) && ActiveSnap(s).Some? ==> HasRoom(s, ActiveSnap(s).value)
  }

  lemma AllocateIsRoomy(s: State, a: Action)
    requires Inv(s) && Enabled(s, a) && a.Allocate?
    ensures Roomy(Step(s, a))
  {
    assert s.jobs[a.job].phase.Sampled?;
    assert s.active == Some(a.job);
    FirstBuildIsRoomy(s.walk);
  }

  lemma BuildKeepsRoomy(s: State, a: Action)
    requires Inv(s) && Roomy(s) && Enabled(s, a) && (a.WalkStep? || a.Finish?)
    ensures Roomy(Step(s, a))
  {
    assert s.jobs[a.job].phase.Walking?;
    assert s.active == Some(a.job);
    assert IsOwned(s.snaps, HeldBy(s.jobs[a.job]), OfJob(a.job));
  }

  lemma WaitingIsRoomy(s: State, a: Action)
    requires Inv(s) && Enabled(s, a) && (a.Enter? || a.Start? || a.Sample? || a.AllocateFails? || a.Publish?)
    ensures Roomy(Step(s, a))
  {
    assert s.jobs[a.job] == s.jobs[a.job];
    assert s.active == Some(a.job);
  }

  /** After a change what was sampled is not current. */
  lemma ChangeIsRoomy(s: State, a: Action)
    requires Inv(s) && a.Change?
    ensures Roomy(Step(s, a))
  {
    if s.active.Some? && s.active.value in s.jobs {
      assert Faithful(s.jobs[s.active.value].phase, s.snaps, s.walk, s.gen);
    }
  }

  lemma RetireKeepsRoomy(s: State, a: Action)
    requires Inv(s) && Roomy(s) && Enabled(s, a) && a.Retire?
    ensures Roomy(Step(s, a))
  {
    var t := Step(s, a);
    if ActiveSnap(t).Some? { ActiveStaysRetiring(s, a); }
  }

  lemma IdleKeepsRoomy(s: State, a: Action)
    requires Inv(s) && Roomy(s) && Enabled(s, a) && !BuildStep(a) && !a.Publish? && !a.Change? && !a.Retire?
    ensures Roomy(Step(s, a))
  {
  }

  lemma StepKeepsRoomy(s: State, a: Action)
    requires Inv(s) && Roomy(s) && Enabled(s, a)
    ensures Roomy(Step(s, a))
  {
    if a.Allocate? { AllocateIsRoomy(s, a); }
    else if a.WalkStep? || a.Finish? { BuildKeepsRoomy(s, a); }
    else if BuildStep(a) || a.Publish? { WaitingIsRoomy(s, a); }
    else if a.Change? { ChangeIsRoomy(s, a); }
    else if a.Retire? { RetireKeepsRoomy(s, a); }
    else { IdleKeepsRoomy(s, a); }
  }

  lemma {:induction false} RunRoomy(run: seq<State>, actions: seq<Action>, i: nat)
    requires IsRun(run, actions) && i < |run|
    ensures Roomy(run[i])
  {
    if i > 0 {
      RunRoomy(run, actions, i - 1);
      RunInv(run, actions, i - 1);
      assert Takes(run, actions, i - 1);
      StepKeepsRoomy(run[i - 1], actions[i - 1]);
    }
  }

  /**
   Over every run: a publication that finds no snapshot, and whose walk sampled the generation that is
   still current, publishes every node of the registry, or the first 16384 if there are more.
   */
  lemma FirstIsComplete(run: seq<State>, actions: seq<Action>, i: nat)
    requires IsRun(run, actions) && i < |actions| && Installs(run[i], actions[i]) && run[i].g.snapshot.None?
    requires run[i].jobs[actions[i].job].phase.gen == run[i].gen
    ensures run[i + 1].g.snapshot.Some? && run[i + 1].walk == run[i].walk
    ensures var all := AllNodes(run[i].walk);
            PublishedTable(run[i + 1]) == if |all| <= 16384 then all else all[..16384]
  {
    RunInv(run, actions, i);
    RunRoomy(run, actions, i);
    var s, a := run[i], actions[i];
    assert Takes(run, actions, i);
    InstallsBuilt(s, a);
    assert Faithful(s.jobs[a.job].phase, s.snaps, s.walk, s.gen);
    RoomyRecordsAll(s.walk, s.snaps[ActiveSnap(s).value].cap);
  }
}
