/**
 How large the published snapshot gets over a run: a build is sized to replace what is
 published, so builds that see the same registry grow until one records all of it.
 */
module RefreshGrowth {
  import opened Wrappers
  import opened Growth
  import opened Refresh
  import opened RefreshCoherence
  import opened RefreshOwners
  import opened RefreshTheorems
  import opened Registry

  /** The table of the published snapshot. */
  ghost function PublishedTable(s: State): seq<SnapNode> {
    if s.g.snapshot.Some? && s.g.snapshot.value < |s.snaps| then s.snaps[s.g.snapshot.value].base else []
  }

  /** What the refresh in flight holds. */
  ghost function ActiveSnap(s: State): Option<nat> {
    if s.active.Some? && s.active.value in s.jobs then HeldBy(s.jobs[s.active.value]) else None
  }

  ghost predicate ActiveIsBuilt(s: State) {
    s.active.Some? && s.active.value in s.jobs && s.jobs[s.active.value].phase.Built?
  }

  /** Finished tables have a root; the table being built is sized to replace the published one. */
  ghost predicate Fitted(s: State) {
    (s.g.snapshot.Some? ==> |PublishedTable(s)| >= 1) &&
    (ActiveSnap(s).Some? ==>
      var id := ActiveSnap(s).value;
      id < |s.snaps| && (ActiveIsBuilt(s) ==> |s.snaps[id].base| >= 1) &&
      (s.g.snapshot.Some? ==> s.snaps[id].cap == Capacity(|PublishedTable(s)|)))
  }

  /** Nothing but an installing publication or teardown changes what is published. */
  lemma PublishedStays(s: State, a: Action)
    requires Inv(s) && Enabled(s, a) && !Installs(s, a) && !a.Take?
    ensures Step(s, a).g.snapshot == s.g.snapshot && PublishedTable(Step(s, a)) == PublishedTable(s)
  {
    if BuildStep(a) { BuildKeepsPublished(s, a); } else { OtherKeepsPublished(s, a); }
  }

  lemma BuildKeepsPublished(s: State, a: Action)
    requires Inv(s) && Enabled(s, a) && BuildStep(a)
    ensures Step(s, a).g.snapshot == s.g.snapshot && PublishedTable(Step(s, a)) == PublishedTable(s)
  {
    if a.Finish? { FinishKeepsPublished(s, a); }
  }

  lemma FinishKeepsPublished(s: State, a: Action)
    requires Inv(s) && Enabled(s, a) && a.Finish?
    ensures Step(s, a).g.snapshot == s.g.snapshot && PublishedTable(Step(s, a)) == PublishedTable(s)
  {
    assert IsOwned(s.snaps, HeldBy(s.jobs[a.job]), OfJob(a.job));
  }

  ghost predicate SameTable(s: State, s': State, id: nat) {
    id < |s.snaps| && id < |s'.snaps| && s'.snaps[id].base == s.snaps[id].base && s'.snaps[id].cap == s.snaps[id].cap
  }

  /** Freeing changes owners, not tables. */
  lemma FreeKeepsTable(s: State, snap: Option<nat>, id: nat)
    requires id < |s.snaps|
    ensures SameTable(s, Free(s, snap), id)
  {
  }

  lemma RetireKeepsPublished(s: State, a: Action)
    requires Enabled(s, a) && (a.Retire? || a.FreeLock?)
    ensures Step(s, a).g.snapshot == s.g.snapshot && PublishedTable(Step(s, a)) == PublishedTable(s)
  {
    var freed := if a.Retire? then s.jobs[a.job].phase.replaced else s.mode.taken;
    if s.g.snapshot.Some? && s.g.snapshot.value < |s.snaps| { FreeKeepsTable(s, freed, s.g.snapshot.value); }
  }

  lemma OtherKeepsPublished(s: State, a: Action)
    requires Inv(s) && Enabled(s, a) && !BuildStep(a) && !Installs(s, a) && !a.Take?
    ensures Step(s, a).g.snapshot == s.g.snapshot && PublishedTable(Step(s, a)) == PublishedTable(s)
  {
    if a.Retire? || a.FreeLock? { RetireKeepsPublished(s, a); }
  }

  /** An installing publication puts up what the refresh built. */
  lemma InstallsBuilt(s: State, a: Action)
    requires Inv(s) && Enabled(s, a) && Installs(s, a)
    ensures s.active == Some(a.job) && ActiveSnap(s) == s.jobs[a.job].phase.result
    ensures ActiveSnap(s).value < |s.snaps| && Step(s, a).g.snapshot == ActiveSnap(s)
    ensures Step(s, a).g.snapshot != s.g.snapshot
    ensures PublishedTable(Step(s, a)) == s.snaps[ActiveSnap(s).value].base
  {
    assert s.jobs[a.job] == s.jobs[a.job];
    assert IsOwned(s.snaps, HeldBy(s.jobs[a.job]), OfJob(a.job));
  }

  /** A build begins: its capacity comes from the published count. */
  lemma AllocateKeepsFitted(s: State, a: Action)
    requires Inv(s) && Fitted(s) && Enabled(s, a) && a.Allocate?
    ensures Fitted(Step(s, a))
  {
    assert s.jobs[a.job].phase.Sampled?;
    assert s.active == Some(a.job);
    BuildKeepsPublished(s, a);
  }

  lemma FinishKeepsFitted(s: State, a: Action)
    requires Inv(s) && Fitted(s) && Enabled(s, a) && a.Finish?
    ensures Fitted(Step(s, a))
  {
    assert s.jobs[a.job].phase.Walking?;
    assert s.active == Some(a.job);
    assert IsOwned(s.snaps, HeldBy(s.jobs[a.job]), OfJob(a.job));
    BuildKeepsPublished(s, a);
  }

  lemma WalkStepKeepsFitted(s: State, a: Action)
    requires Inv(s) && Fitted(s) && Enabled(s, a) && a.WalkStep?
    ensures Fitted(Step(s, a))
  {
    assert s.jobs[a.job].phase.Walking?;
    assert s.active == Some(a.job);
  }

  lemma WaitingKeepsFitted(s: State, a: Action)
    requires Inv(s) && Fitted(s) && Enabled(s, a) && (a.Enter? || a.Start? || a.Sample? || a.AllocateFails?)
    ensures Fitted(Step(s, a))
  {
    assert s.jobs[a.job] == s.jobs[a.job];
    assert s.active == Some(a.job);
    assert ActiveSnap(Step(s, a)).None?;
  }

  /** Outside its own steps, the refresh in flight keeps what it has. */
  lemma ActiveStays(s: State, a: Action)
    requires Inv(s) && Enabled(s, a) && !BuildStep(a) && !a.Take? && !a.Publish? && ActiveSnap(Step(s, a)).Some?
    ensures ActiveSnap(Step(s, a)) == ActiveSnap(s) && ActiveIsBuilt(Step(s, a)) == ActiveIsBuilt(s)
    ensures SameTable(s, Step(s, a), ActiveSnap(s).value)
  {
    if a.Retire? { ActiveStaysRetiring(s, a); }
  }

  lemma ActiveStaysRetiring(s: State, a: Action)
    requires Inv(s) && Enabled(s, a) && a.Retire? && ActiveSnap(Step(s, a)).Some?
    ensures ActiveSnap(Step(s, a)) == ActiveSnap(s) && ActiveIsBuilt(Step(s, a)) == ActiveIsBuilt(s)
    ensures SameTable(s, Step(s, a), ActiveSnap(s).value)
  {
    var active := s.active.value;
    assert IsOwned(s.snaps, HeldBy(s.jobs[active]), OfJob(active));
    assert active != a.job;
    FreeKeepsTable(s, s.jobs[a.job].phase.replaced, ActiveSnap(s).value);
  }

  lemma OtherStepKeepsFitted(s: State, a: Action)
    requires Inv(s) && Fitted(s) && Enabled(s, a) && !BuildStep(a) && !Installs(s, a) && !a.Take?
    ensures Fitted(Step(s, a))
  {
    OtherKeepsPublished(s, a);
    if !a.Publish? && ActiveSnap(Step(s, a)).Some? { ActiveStays(s, a); }
  }

  lemma StepKeepsFitted(s: State, a: Action)
    requires Inv(s) && Fitted(s) && Enabled(s, a)
    ensures Fitted(Step(s, a))
  {
    if a.Allocate? {
      AllocateKeepsFitted(s, a);
    } else if a.Finish? {
      FinishKeepsFitted(s, a);
    } else if a.WalkStep? {
      WalkStepKeepsFitted(s, a);
    } else if BuildStep(a) {
      WaitingKeepsFitted(s, a);
    } else if Installs(s, a) {
      InstallsBuilt(s, a);
    } else if !a.Take? {
      OtherStepKeepsFitted(s, a);
    }
  }

  lemma {:induction false} RunFitted(run: seq<State>, actions: seq<Action>, i: nat)
    requires IsRun(run, actions) && i < |run|
    ensures Fitted(run[i])
  {
    if i > 0 {
      RunFitted(run, actions, i - 1);
      RunInv(run, actions, i - 1);
      assert Takes(run, actions, i - 1);
      StepKeepsFitted(run[i - 1], actions[i - 1]);
    }
  }

  // ---------- Over a run

  /** How many publications the actions from i to k install. */
  ghost function InstallsIn(run: seq<State>, actions: seq<Action>, i: nat, k: nat): nat
    requires i <= k <= |actions| && k < |run|
  {
    if k == i then 0 else InstallsIn(run, actions, i, k - 1) + if Installs(run[k - 1], actions[k - 1]) then 1 else 0
  }

  /** The publication at j installs a walk of `walk` that the registry did not change under. */
  ghost predicate Clean(run: seq<State>, actions: seq<Action>, j: nat, walk: seq<Entry>)
    requires j < |actions| && j < |run|
  {
    Installs(run[j], actions[j]) ==> run[j].walk == walk && run[j].jobs[actions[j].job].phase.gen == run[j].gen
  }

  /** No teardown, and every publication is of this registry. */
  ghost predicate Watches(run: seq<State>, actions: seq<Action>, i: nat, k: nat, walk: seq<Entry>) {
    i <= k <= |actions| && |run| == |actions| + 1 &&
    forall j {:trigger actions[j]} :: i <= j < k ==> !actions[j].Take? && Clean(run, actions, j, walk)
  }

  /** One publication of the registry records it at the capacity of the build. */
  lemma InstalledTable(run: seq<State>, actions: seq<Action>, j: nat, walk: seq<Entry>) returns (cap: nat)
    requires IsRun(run, actions) && j < |actions| && Installs(run[j], actions[j]) && Clean(run, actions, j, walk)
    ensures cap >= 1 && run[j + 1].g.snapshot.Some? && PublishedTable(run[j + 1]) == Recorded(walk, cap)
    ensures run[j].g.snapshot.Some? ==> cap == Capacity(|PublishedTable(run[j])|)
  {
    RunInv(run, actions, j);
    RunFitted(run, actions, j);
    var s, a := run[j], actions[j];
    assert Takes(run, actions, j);
    InstallsBuilt(s, a);
    cap := s.snaps[ActiveSnap(s).value].cap;
    assert Faithful(s.jobs[a.job].phase, s.snaps, s.walk, s.gen);
  }

  lemma NothingInstalled(run: seq<State>, actions: seq<Action>, j: nat)
    requires IsRun(run, actions) && j < |actions| && !Installs(run[j], actions[j]) && !actions[j].Take?
    ensures run[j + 1].g.snapshot == run[j].g.snapshot && PublishedTable(run[j + 1]) == PublishedTable(run[j])
  {
    RunInv(run, actions, j);
    assert Takes(run, actions, j);
    PublishedStays(run[j], actions[j]);
  }

  /** From s to t, n publications of this registry: what is published is the table of that many builds. */
  ghost predicate Reached(s: State, t: State, walk: seq<Entry>, cap: nat, n: nat) {
    cap >= 1 && (s.g.snapshot.Some? ==> cap == Capacity(|PublishedTable(s)|)) &&
    if n == 0 then t.g.snapshot == s.g.snapshot && PublishedTable(t) == PublishedTable(s)
    else t.g.snapshot.Some? && PublishedTable(t) == Later(walk, cap, n - 1)
  }

  lemma ReachedNext(s: State, q: State, t: State, walk: seq<Entry>, cap: nat, grown: nat, n: nat) returns (first: nat)
    requires Reached(s, q, walk, cap, n) && grown >= 1 && t.g.snapshot.Some?
    requires PublishedTable(t) == Recorded(walk, grown)
    requires q.g.snapshot.Some? ==> grown == Capacity(|PublishedTable(q)|)
    ensures Reached(s, t, walk, first, n + 1)
  {
    first := if n == 0 then grown else cap;
  }

  /** What is published after some publications of one registry is the table of that many builds. */
  lemma {:induction false} TableAfterInstalls(run: seq<State>, actions: seq<Action>, i: nat, k: nat, walk: seq<Entry>)
    returns (cap: nat)
    requires IsRun(run, actions) && Watches(run, actions, i, k, walk)
    ensures Reached(run[i], run[k], walk, cap, InstallsIn(run, actions, i, k))
  {
    if k == i {
      cap := Capacity(|PublishedTable(run[i])|);
    } else {
      cap := TableAfterInstalls(run, actions, i, k - 1, walk);
      assert Clean(run, actions, k - 1, walk);
      if Installs(run[k - 1], actions[k - 1]) {
        var grown := InstalledTable(run, actions, k - 1, walk);
        cap := ReachedNext(run[i], run[k - 1], run[k], walk, cap, grown, InstallsIn(run, actions, i, k - 1));
      } else {
        NothingInstalled(run, actions, k - 1);
      }
    }
  }

  /**
   While publications keep coming and each has seen the same registry, which fits the cap, the
   published table is all of it after 253 publications at the latest, or 254 if there was no snapshot.
   */
  lemma CompleteAfterPublications(run: seq<State>, actions: seq<Action>, i: nat, k: nat, walk: seq<Entry>)
    requires IsRun(run, actions) && Watches(run, actions, i, k, walk) && |AllNodes(walk)| <= 16384
    requires InstallsIn(run, actions, i, k) >= if run[i].g.snapshot.Some? then 253 else 254
    ensures PublishedTable(run[k]) == AllNodes(walk)
  {
    var n := InstallsIn(run, actions, i, k);
    var cap := TableAfterInstalls(run, actions, i, k, walk);
    PublishedNotEmpty(run, actions, i);
    EnoughBuilds(walk, |PublishedTable(run[i])|, cap, n, run[i].g.snapshot.Some?);
  }

  lemma PublishedNotEmpty(run: seq<State>, actions: seq<Action>, i: nat)
    requires IsRun(run, actions) && i < |run|
    ensures run[i].g.snapshot.Some? ==> |PublishedTable(run[i])| >= 1
  {
    RunFitted(run, actions, i);
  }

  /** 65 more at each build: 254 are enough from any capacity, 253 from one that replaces a table. */
  lemma EnoughBuilds(walk: seq<Entry>, size: nat, cap: nat, n: nat, again: bool)
    requires cap >= 1 && |AllNodes(walk)| <= MAX_NODES && n >= if again then 253 else 254
    requires again ==> size >= 1 && cap == Capacity(size)
    ensures Later(walk, cap, n - 1) == AllNodes(walk)
  {
    CompleteInTheEnd(walk, cap, n - 1);
  }

  /** A build that is to replace a full table is strictly larger, up to the cap. */
  lemma NextBuildIsLarger(run: seq<State>, actions: seq<Action>, i: nat)
    requires IsRun(run, actions) && i < |actions| && actions[i].Allocate? && run[i].g.snapshot.Some?
    requires |PublishedTable(run[i])| < MAX_NODES
    ensures |run[i + 1].snaps| == |run[i].snaps| + 1
    ensures run[i + 1].snaps[|run[i].snaps|].cap > |PublishedTable(run[i])|
  {
    SizedFromPublished(run, actions, i);
    RunFitted(run, actions, i);
  }
}
